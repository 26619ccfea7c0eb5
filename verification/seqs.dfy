/**
 Order-preserving filtering over sequences, the one collection operation
 the modelled handlers share: `Array.prototype.filter` as used by node
 deletion, row deletion and the product category filter.
 */
module Seqs {

  /** `a` can be obtained from `b` by deleting zero or more elements,
      keeping the relative order of the elements that remain. */
  predicate IsSubsequence<T(==)>(a: seq<T>, b: seq<T>)
    decreases |b|
  {
    |a| == 0 ||
    (|b| > 0 && ((a[0] == b[0] && IsSubsequence(a[1..], b[1..])) || IsSubsequence(a, b[1..])))
  }

  /** Number of elements of `s` that satisfy `p`, counted independently of `Filter`. */
  function Count<T>(p: T -> bool, s: seq<T>): (n: nat)
    ensures n <= |s|
  {
    if |s| == 0 then 0 else (if p(s[0]) then 1 else 0) + Count(p, s[1..])
  }

  /** `s.filter(p)`: the elements of `s` satisfying `p`, in their original order. */
  function Filter<T(==)>(p: T -> bool, s: seq<T>): (r: seq<T>)
    ensures |r| == Count(p, s)
    ensures forall k | 0 <= k < |r| :: p(r[k])
    ensures forall x | x in r :: x in s
    ensures forall x | x in s && p(x) :: x in r
    ensures IsSubsequence(r, s)
  {
    if |s| == 0 then []
    else if p(s[0]) then
      var rest := Filter(p, s[1..]);
      assert ([s[0]] + rest)[1..] == rest;
      [s[0]] + rest
    else Filter(p, s[1..])
  }

  /** Filtering a sequence with a first element `x`: `x` is kept in front
      exactly when it satisfies `p`. */
  lemma FilterCons<T>(p: T -> bool, x: T, s: seq<T>)
    ensures Filter(p, [x] + s) == if p(x) then [x] + Filter(p, s) else Filter(p, s)
  {
    assert ([x] + s)[1..] == s;
  }

  /** A sequence is a subsequence of itself. */
  lemma {:induction false} SubsequenceReflexive<T>(s: seq<T>)
    ensures IsSubsequence(s, s)
    decreases |s|
  {
    if |s| > 0 {
      SubsequenceReflexive(s[1..]);
    }
  }

  /** Filtering twice with the same predicate is the same as filtering once. */
  lemma {:induction false} FilterIdempotent<T>(p: T -> bool, s: seq<T>)
    ensures Filter(p, Filter(p, s)) == Filter(p, s)
    decreases |s|
  {
    if |s| > 0 {
      FilterIdempotent(p, s[1..]);
      if p(s[0]) {
        var rest := Filter(p, s[1..]);
        assert ([s[0]] + rest)[1..] == rest;
      }
    }
  }

  /** When every element satisfies `p`, filtering returns the sequence unchanged. */
  lemma {:induction false} FilterKeepsAll<T>(p: T -> bool, s: seq<T>)
    requires forall k | 0 <= k < |s| :: p(s[k])
    ensures Filter(p, s) == s
    decreases |s|
  {
    if |s| > 0 {
      FilterKeepsAll(p, s[1..]);
      assert [s[0]] + s[1..] == s;
    }
  }
}
