/**
  The sequence combinators the playground demonstrates through the Swift
  standard library: `map`, `filter`, `reduce` (a left fold whose seed may
  have a different type from the elements) and `enumerate`.  Each is a
  recursive function over an immutable sequence; the properties the
  playground relies on are stated as contracts and lemmas.
*/
module Combinators {

  /** `s.map(f)`: one output per input, in the same order. */
  function Map<T, U>(s: seq<T>, f: T -> U): (r: seq<U>)
    ensures |r| == |s|
    ensures forall i :: 0 <= i < |s| ==> r[i] == f(s[i])
    decreases |s|
  {
    if s == [] then [] else [f(s[0])] + Map(s[1..], f)
  }

  /** `s.filter(p)`: exactly the elements satisfying `p`. */
  function Filter<T(==)>(s: seq<T>, p: T -> bool): (r: seq<T>)
    ensures |r| <= |s|
    ensures forall i :: 0 <= i < |r| ==> r[i] in s && p(r[i])
    ensures forall i :: 0 <= i < |s| && p(s[i]) ==> s[i] in r
    decreases |s|
  {
    if s == [] then []
    else if p(s[0]) then [s[0]] + Filter(s[1..], p)
    else Filter(s[1..], p)
  }

  /**
    `r` is obtained from `s` by deleting zero or more elements without
    reordering the rest (matched greedily from the front).
  */
  predicate IsSubsequence<T(==)>(r: seq<T>, s: seq<T>)
    decreases |s|
  {
    if r == [] then true
    else if s == [] then false
    else if r[0] == s[0] then IsSubsequence(r[1..], s[1..])
    else IsSubsequence(r, s[1..])
  }

  /** The filtered sequence keeps the relative order of the input. */
  lemma {:induction false} FilterIsSubsequence<T>(s: seq<T>, p: T -> bool)
    ensures IsSubsequence(Filter(s, p), s)
    decreases |s|
  {
    if s != [] {
      FilterIsSubsequence(s[1..], p);
      var r := Filter(s, p);
      if !p(s[0]) && r != [] {
        assert r[0] in r;
      }
    }
  }

  /** Filtering commutes with concatenation, so it never reorders. */
  lemma {:induction false} FilterAppend<T>(a: seq<T>, b: seq<T>, p: T -> bool)
    ensures Filter(a + b, p) == Filter(a, p) + Filter(b, p)
    decreases |a|
  {
    if a == [] {
      assert a + b == b;
    } else {
      assert (a + b)[1..] == a[1..] + b;
      FilterAppend(a[1..], b, p);
    }
  }

  /** Every element satisfying `p` is kept as often as it occurs; no other is kept. */
  lemma {:induction false} FilterCount<T>(s: seq<T>, p: T -> bool, x: T)
    ensures multiset(Filter(s, p))[x] == if p(x) then multiset(s)[x] else 0
    decreases |s|
  {
    if s != [] {
      FilterCount(s[1..], p, x);
      assert s == [s[0]] + s[1..];
      assert multiset(s) == multiset{s[0]} + multiset(s[1..]);
    }
  }

  /**
    `s.reduce(seed, combine)`: the accumulator starts at `seed` and is
    replaced by `combine(accumulator, element)` for each element, first to
    last.
  */
  function Reduce<T, R>(s: seq<T>, seed: R, combine: (R, T) -> R): (r: R)
    decreases |s|
  {
    if s == [] then seed else Reduce(s[1..], combine(seed, s[0]), combine)
  }

  /**
    Reducing a concatenation reduces the first part, then continues from its
    result over the second: the fold runs strictly left to right.  An empty
    input returns the seed unchanged.
  */
  lemma {:induction false} ReduceAppend<T, R>(a: seq<T>, b: seq<T>, seed: R, combine: (R, T) -> R)
    ensures Reduce([], seed, combine) == seed
    ensures Reduce(a + b, seed, combine) == Reduce(b, Reduce(a, seed, combine), combine)
    decreases |a|
  {
    if a == [] {
      assert a + b == b;
    } else {
      assert (a + b)[1..] == a[1..] + b;
      ReduceAppend(a[1..], b, combine(seed, a[0]), combine);
    }
  }

  /** One more element is one more `combine` step applied to the previous accumulator. */
  lemma ReduceSnoc<T, R>(s: seq<T>, x: T, seed: R, combine: (R, T) -> R)
    ensures Reduce(s + [x], seed, combine) == combine(Reduce(s, seed, combine), x)
  {
    ReduceAppend(s, [x], seed, combine);
  }

  /** An element of `s.enumerate()`: Swift's `(index, element)` tuple. */
  datatype Indexed<T> = Indexed(index: nat, element: T)

  function EnumerateFrom<T>(s: seq<T>, start: nat): (r: seq<Indexed<T>>)
    ensures |r| == |s|
    ensures forall i :: 0 <= i < |s| ==> r[i] == Indexed(start + i, s[i])
    decreases |s|
  {
    if s == [] then [] else [Indexed(start, s[0])] + EnumerateFrom(s[1..], start + 1)
  }

  /**
    `s.enumerate()`, materialised: one pair per element, the indices counting
    0, 1, ..., |s| - 1.  Being a value it can be traversed any number of times.
  */
  function Enumerate<T>(s: seq<T>): (r: seq<Indexed<T>>)
    ensures |r| == |s|
    ensures forall i :: 0 <= i < |s| ==> r[i] == Indexed(i, s[i])
  {
    EnumerateFrom(s, 0)
  }

  /** The elements of an enumeration are the input; its indices are 0 to |s| - 1 without gaps. */
  lemma EnumerateProjections<T>(s: seq<T>)
    ensures Map(Enumerate(s), (e: Indexed<T>) => e.element) == s
    ensures Map(Enumerate(s), (e: Indexed<T>) => e.index) == seq(|s|, i => i)
  {
  }
}
