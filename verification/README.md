# Word batch: upper-case and number every word

This project models `words.go`, a small Go program that turns a batch of
words into records. Each input string is upper-cased by `process` and paired
with its zero-based position in a `Word{word, index}` record. There are two
entry points with the same loop:

- `ProcessWords` starts from `make([]Word, 0)` (capacity 0) and lets `append`
  grow the slice whenever it is full;
- `ProcessWordsFaster` starts from `make([]Word, 0, len(rawWords))`, so every
  `append` writes into capacity that is already reserved.

The model has two modules.

- `Slices` (`slices.dfy`) models the part of a Go slice that `make` and
  `append` touch: the elements in use and the capacity of the backing array.
  `Append` writes in place when there is room. When the slice is full, it
  moves the elements to a new backing array and counts one growth step and
  the elements copied. The runtime's growth factor is a parameter `grow`.
  The only thing assumed about it (`Admissible`) is that the new capacity is
  at least the length the slice must reach. `Doubling` is one instance of
  geometric growth, used to state the amortised bounds; it is not the Go
  runtime's exact policy.
- `Words` (`words.dfy`) holds the `Word` record, `Process` (ASCII
  upper-casing), the pure result `ProcessedWords`, and the two entry points
  as methods that build a `Slices.Slice<Word>`. The methods are proved equal
  to `ProcessedWords`, and the pre-sized one is proved never to grow its
  slice.

The input is a Dafny `seq<string>`, which is a value. Neither method can
change it, just as the Go functions only read `rawWords` through `range`.

## Model

| member | source | states |
|---|---|---|
| Slices.Make | words.go:22 | `make([]Word, 0, n)` gives a valid empty slice of capacity `n`, which is full (no room for an append) exactly when `n == 0`; line 13's `make([]Word, 0)` is the case `n == 0` |
| Slices.Append | words.go:15 | `append` keeps `len <= cap`, adds exactly the new element after the old ones, and never shrinks the capacity; it counts a growth step (copying every old element) exactly when the slice was full, and otherwise leaves the capacity and counters unchanged |
| Words.UpperChar | words.go:30-32 | one character upper-cased: no lower-case ASCII letter remains, a lower-case letter becomes the capital of the same letter, and every other character is unchanged |
| Words.Process | words.go:30-32 | `process` keeps the word's length, and each character of the result is the upper-case form of the character at the same position |
| Words.ProcessedWords | words.go:12-18 | the expected result has one record per input word; record `i` holds `process(rawWords[i])` and index `i` |
| Words.ProcessWords | words.go:12-19 | the slice built from capacity 0 holds exactly `ProcessedWords(rawWords)`, keeps `len <= cap`, grows at least once exactly when the input is non-empty and at most once per word; under doubling its capacity stays below `2n`, it copies `cap - 1` elements in all, and it grows exactly `1 + log2(cap)` times (so fewer than `log2(4n)`) |
| Words.ProcessWordsFaster | words.go:21-28 | the pre-sized slice holds exactly `ProcessedWords(rawWords)` with capacity `len(rawWords)`, and no append grows it or copies anything, whatever growth policy the runtime has |
| Words.DoublingThreeWords | words.go:13-15 | three words appended from capacity 0 under doubling growth give the three records, end at capacity 4, and cost three growth steps that copy three elements in all |
| Words.BothAgree | words.go:12-28 | both entry points return the same records for every input, one per input word |
| Words.ProcessIdempotent | words.go:30-32 | upper-casing an upper-cased word changes nothing |
| Words.ProcessFixedIff | words.go:30-32 | `process` leaves a word unchanged if and only if the word has no lower-case ASCII letter |
| Words.ProcessConcat | words.go:30-32 | `process` works character by character, so processing a concatenation is concatenating the processed parts |
| Words.ProcessedWordsIndices | words.go:14-15 | the record indices strictly increase along the output, and the set of indices is exactly `0 .. n-1` |
| Words.ProcessedWordsPrefix | words.go:14-15 | processing the first `n` words gives the first `n` records of the whole result, so input order is kept |
| Words.ProcessedWordsConcat | words.go:14-15 | processing two batches in a row equals processing their concatenation once the second batch's indices are shifted by the first batch's length |
| Words.Examples | words.go:12-32 | `[]` gives `[]`; `["a"]` gives `[{"A",0}]`; `["the","Whale","IS","big"]` gives `[{"THE",0},{"WHALE",1},{"IS",2},{"BIG",3}]` |

## Left out

- Words.Process: upper-cases ASCII letters only. `strings.ToUpper` also maps non-ASCII letters through Go's Unicode tables and replaces invalid UTF-8. Those tables are library code outside this repository. Strings here are sequences of characters, not UTF-8 bytes.
- Go's concrete growth policy is not modelled: the runtime's growth factor and its rounding to allocator size classes are not in this repository. `grow` is a parameter constrained only by `Slices.Admissible`.
- Words.ProcessWords: the amortised bounds (capacity below `2n`, `cap - 1` copies, logarithmic growth count) are stated only for the `Doubling` policy. They are not stated for the Go runtime's real policy.
- The allocation made by `make` itself and the new strings made by `process` are not counted. `Stats` counts only the backing-array replacements made by `append`.
- words_test.go is not modelled. It holds benchmark drivers only: timing, `b.ReportAllocs` counters, and `strings.Split` on a `book` text that is not part of this model. It makes no functional assertions.
- Go's `int` is 64-bit. A record's index is below `len(rawWords)`, so it never wraps, and the model uses unbounded integers.
- No error path is modelled. `words.go` has no error returns, and `strings.ToUpper` always succeeds. The only possible failures are the runtime's allocation panics: `make` at line 22 panics when the requested capacity exceeds the allocation limit, and `append` at lines 15 and 24 can panic or run out of memory when growing. Capacities here are unbounded `nat`s, so the model leaves these failures out.
