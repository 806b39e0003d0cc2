/**
 The word-batch transform: every input string is upper-cased and paired with
 its zero-based position. `ProcessWords` builds the result from an empty
 slice of capacity 0; `ProcessWordsFaster` reserves one slot per input first.
 Both are proved equal to the pure `ProcessedWords`.
 */
module Words {
  import opened Slices

  /** One output record: the processed text and its position in the input. */
  datatype Word = Word(word: string, index: int)

  /** An ASCII lower-case letter. */
  predicate IsLower(c: char) {
    'a' <= c <= 'z'
  }

  /** An ASCII upper-case letter. */
  predicate IsUpper(c: char) {
    'A' <= c <= 'Z'
  }

  /** The ASCII upper-case form of one character. */
  function UpperChar(c: char): (u: char)
    ensures !IsLower(u)
    ensures IsLower(c) ==> IsUpper(u) && u as int - 'A' as int == c as int - 'a' as int
    ensures !IsLower(c) ==> u == c
  {
    if IsLower(c) then (c as int - 'a' as int + 'A' as int) as char else c
  }

  /** `process`: the upper-case form of a word, one character at a time. */
  function Process(w: string): (r: string)
    ensures |r| == |w|
    ensures forall i :: 0 <= i < |w| ==> r[i] == UpperChar(w[i])
  {
    if |w| == 0 then "" else [UpperChar(w[0])] + Process(w[1..])
  }

  /** The result both entry points must produce: record `i` holds the
      processed input word `i` and the position `i`. */
  function ProcessedWords(raw: seq<string>): (r: seq<Word>)
    ensures |r| == |raw|
    ensures forall i :: 0 <= i < |raw| ==> r[i] == Word(Process(raw[i]), i)
  {
    if |raw| == 0 then []
    else ProcessedWords(raw[..|raw| - 1]) + [Word(Process(raw[|raw| - 1]), |raw| - 1)]
  }

  /** `ProcessWords`: append each record to a slice that starts with
      capacity 0, letting the runtime grow it. */
  method ProcessWords(rawWords: seq<string>, grow: Policy) returns (words: Slice<Word>, st: Stats)
    requires Admissible(grow)
    ensures words.Valid()
    ensures words.elems == ProcessedWords(rawWords)
    ensures |rawWords| > 0 <==> st.grows > 0
    ensures st.grows <= |rawWords|
    ensures Doubles(grow) && |rawWords| > 0 ==>
      && words.cap < 2 * |rawWords|
      && st.copied + 1 == words.cap
      && Pow2(st.grows) == 2 * words.cap
  {
    words := Make(0);
    st := Stats(0, 0);
    for i := 0 to |rawWords|
      invariant words.Valid()
      invariant words.elems == ProcessedWords(rawWords[..i])
      invariant i == 0 ==> words.cap == 0 && st == Stats(0, 0)
      invariant i > 0 ==> st.grows > 0
      invariant st.grows <= i
      invariant Doubles(grow) && i > 0 ==>
        && words.cap < 2 * i
        && st.copied + 1 == words.cap
        && Pow2(st.grows) == 2 * words.cap
    {
      var w := rawWords[i];
      var r := Append(words, Word(Process(w), i), grow, st);
      words, st := r.0, r.1;
    }
    assert rawWords[..|rawWords|] == rawWords;
  }

  /** `ProcessWordsFaster`: the same loop on a slice created with capacity
      `len(rawWords)`. Every append finds room, so the runtime never grows
      the slice and copies nothing. */
  method ProcessWordsFaster(rawWords: seq<string>, grow: Policy) returns (words: Slice<Word>, st: Stats)
    requires Admissible(grow)
    ensures words.Valid()
    ensures words.elems == ProcessedWords(rawWords)
    ensures words.cap == |rawWords|
    ensures st == Stats(0, 0)
  {
    words := Make(|rawWords|);
    st := Stats(0, 0);
    for i := 0 to |rawWords|
      invariant words.cap == |rawWords|
      invariant words.elems == ProcessedWords(rawWords[..i])
      invariant st == Stats(0, 0)
    {
      var w := rawWords[i];
      assert !words.Full();
      var r := Append(words, Word(Process(w), i), grow, st);
      words, st := r.0, r.1;
    }
    assert rawWords[..|rawWords|] == rawWords;
  }

  /** `ProcessWords` on three words under doubling growth: the slice grows
      from capacity 0 to 1, 2 and then 4, copying 0, 1 and 2 elements. */
  method DoublingThreeWords() returns (words: Slice<Word>, st: Stats)
    ensures words.elems == [Word("A", 0), Word("B", 1), Word("C", 2)]
    ensures words.cap == 4
    ensures st == Stats(3, 3)
  {
    DoublingIsAdmissible(Doubling);
    words, st := ProcessWords(["a", "b", "c"], Doubling);
    assert Process("a") == "A" && Process("b") == "B" && Process("c") == "C";
    assert st.grows <= 3;
    assert Pow2(3) == 8;
  }

  /** Both entry points return the same records for every input; only the
      capacity of the returned slice and the work done may differ. */
  method BothAgree(rawWords: seq<string>, grow: Policy) returns (slow: seq<Word>, fast: seq<Word>)
    requires Admissible(grow)
    ensures slow == fast
    ensures |fast| == |rawWords|
  {
    var s, _ := ProcessWords(rawWords, grow);
    var f, _ := ProcessWordsFaster(rawWords, grow);
    slow, fast := s.elems, f.elems;
  }

  /** Upper-casing twice is upper-casing once. */
  lemma ProcessIdempotent(w: string)
    ensures Process(Process(w)) == Process(w)
  {
  }

  /** A word is left unchanged exactly when it holds no lower-case letter. */
  lemma ProcessFixedIff(w: string)
    ensures Process(w) == w <==> forall i :: 0 <= i < |w| ==> !IsLower(w[i])
  {
  }

  /** Upper-casing works character by character, so it distributes over
      concatenation. */
  lemma ProcessConcat(a: string, b: string)
    ensures Process(a + b) == Process(a) + Process(b)
  {
  }

  /** The set of positions carried by a sequence of records. */
  function Indices(ws: seq<Word>): set<int> {
    set w | w in ws :: w.index
  }

  /** The positions in the output are exactly 0 .. n-1, in strictly
      increasing order, so no two records share one. */
  lemma ProcessedWordsIndices(raw: seq<string>)
    ensures forall i, j :: 0 <= i < j < |raw| ==>
      ProcessedWords(raw)[i].index < ProcessedWords(raw)[j].index
    ensures forall m :: m in Indices(ProcessedWords(raw)) <==> 0 <= m < |raw|
  {
    var r := ProcessedWords(raw);
    forall m | 0 <= m < |raw|
      ensures m in Indices(r)
    {
      assert r[m] in r;
    }
  }

  /** Processing a prefix of the input gives the same prefix of the output:
      each record depends only on its own input word and position. */
  lemma ProcessedWordsPrefix(raw: seq<string>, n: nat)
    requires n <= |raw|
    ensures ProcessedWords(raw[..n]) == ProcessedWords(raw)[..n]
  {
  }

  /** The records of `ws` with every position moved up by `k`. */
  function Shift(ws: seq<Word>, k: int): (r: seq<Word>)
    ensures |r| == |ws|
    ensures forall i :: 0 <= i < |ws| ==> r[i] == Word(ws[i].word, ws[i].index + k)
  {
    if |ws| == 0 then [] else [Word(ws[0].word, ws[0].index + k)] + Shift(ws[1..], k)
  }

  /** Processing two batches back to back equals processing their
      concatenation, once the second batch's positions are shifted past the
      first batch. */
  lemma {:induction false} ProcessedWordsConcat(a: seq<string>, b: seq<string>)
    ensures ProcessedWords(a + b) == ProcessedWords(a) + Shift(ProcessedWords(b), |a|)
  {
    var whole, left, right := ProcessedWords(a + b), ProcessedWords(a), Shift(ProcessedWords(b), |a|);
    forall i | 0 <= i < |a + b|
      ensures whole[i] == (left + right)[i]
    {
      if i < |a| {
        assert (a + b)[i] == a[i];
      } else {
        assert (a + b)[i] == b[i - |a|];
      }
    }
  }

  /** Worked examples: an empty batch, a single word, and a four-word batch
      in mixed case. */
  lemma Examples()
    ensures ProcessedWords([]) == []
    ensures ProcessedWords(["a"]) == [Word("A", 0)]
    ensures ProcessedWords(["the", "Whale", "IS", "big"])
         == [Word("THE", 0), Word("WHALE", 1), Word("IS", 2), Word("BIG", 3)]
  {
    assert Process("a") == "A";
    assert Process("the") == "THE";
    assert Process("Whale") == "WHALE";
    assert Process("IS") == "IS";
    assert Process("big") == "BIG";
  }
}
