/**
 A model of the part of a Go slice that `make` and `append` touch: the
 elements in use (the slice's length is their number) and the capacity of the
 backing array. Growing the backing array is the only costly step of
 `append`; the counters in `Stats` record how often it happens and how many
 elements it copies.

 The runtime's growth factor is not part of this model: it is a parameter
 `grow`, of which only `Admissible` is assumed.
 */
module Slices {

  /** A slice header: the elements in use and the capacity behind them. */
  datatype Slice<T> = Slice(elems: seq<T>, cap: nat) {

    /** Go keeps `len(s) <= cap(s)` for every slice. */
    predicate Valid() {
      |elems| <= cap
    }

    /** True when the next `append` cannot write in place. */
    predicate Full() {
      |elems| == cap
    }
  }

  /** Work done by `append`: backing arrays replaced, elements copied into them. */
  datatype Stats = Stats(grows: nat, copied: nat)

  /** The runtime's choice of a new capacity, given the old capacity and the
      length the slice must reach. */
  type Policy = (nat, nat) -> nat

  /** The one thing assumed of the runtime: a full slice that must reach
      length `need` is given a backing array of capacity at least `need`. */
  ghost predicate Admissible(grow: Policy) {
    forall c: nat, need: nat :: c < need ==> need <= grow(c, need)
  }

  /** `make([]T, 0, n)`: an empty slice with room for `n` elements. */
  function Make<T>(n: nat): (r: Slice<T>)
    ensures r.Valid() && r.elems == [] && r.cap == n
    ensures r.Full() <==> n == 0
  {
    Slice([], n)
  }

  /** `append(s, x)` for one element. When the slice has room, `x` is written
      in place and nothing is counted; when it is full, a new backing array
      of the capacity `grow` picks receives the old elements, and the
      counters record one growth step and the elements it copied. */
  function Append<T>(s: Slice<T>, x: T, grow: Policy, st: Stats): (r: (Slice<T>, Stats))
    requires s.Valid() && Admissible(grow)
    ensures r.0.Valid()
    ensures r.0.elems == s.elems + [x]
    ensures s.cap <= r.0.cap
    ensures !s.Full() <==> r.1 == st
    ensures !s.Full() ==> r.0.cap == s.cap
    ensures s.Full() ==> r.1 == Stats(st.grows + 1, st.copied + |s.elems|)
  {
    if |s.elems| < s.cap then
      (Slice(s.elems + [x], s.cap), st)
    else
      (Slice(s.elems + [x], grow(s.cap, |s.elems| + 1)), Stats(st.grows + 1, st.copied + |s.elems|))
  }

  /** Geometric growth: double the capacity, or jump straight to the needed
      length when doubling is not enough (which happens only from capacity 0). */
  function Doubling(c: nat, need: nat): nat {
    if need <= 2 * c then 2 * c else need
  }

  /** True when `grow` behaves exactly like `Doubling`. */
  ghost predicate Doubles(grow: Policy) {
    forall c: nat, need: nat :: grow(c, need) == Doubling(c, need)
  }

  lemma DoublingIsAdmissible(grow: Policy)
    requires Doubles(grow)
    ensures Admissible(grow)
  {
  }

  /** 2 to the power `k`. */
  function Pow2(k: nat): nat {
    if k == 0 then 1 else 2 * Pow2(k - 1)
  }
}
