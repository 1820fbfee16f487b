/**
 * Order-preserving selection, the relation every `filter` in the pages establishes, and the
 * first-match search every `findIndex` performs.
 */
module Sequences {
  /** `findIndex(x => key(x) === k)`: the first position whose key is `k`, or -1 when none is. */
  function FirstIndex<T, K(==)>(s: seq<T>, key: T -> K, k: K): (i: int)
    ensures -1 <= i < |s|
    ensures i >= 0 ==> key(s[i]) == k
    ensures forall j :: 0 <= j < |s| && (i == -1 || j < i) ==> key(s[j]) != k
  {
    if s == [] then -1
    else if key(s[0]) == k then 0
    else
      var i := FirstIndex(s[1..], key, k);
      if i == -1 then -1 else i + 1
  }

  /** The search sees only the keys: two sequences with the same keys position by position agree. */
  lemma {:induction false} FirstIndexSameKeys<T, U, K>(s: seq<T>, keyS: T -> K, t: seq<U>, keyT: U -> K, k: K)
    requires |s| == |t| && forall j :: 0 <= j < |s| ==> keyS(s[j]) == keyT(t[j])
    ensures FirstIndex(s, keyS, k) == FirstIndex(t, keyT, k)
  {
    if s != [] && keyS(s[0]) != k {
      FirstIndexSameKeys(s[1..], keyS, t[1..], keyT, k);
    }
  }

  /** `a` is `b` with some elements dropped and the rest kept in order. */
  predicate IsSubsequence<T(==)>(a: seq<T>, b: seq<T>)
    decreases |b|
  {
    if a == [] then true
    else if b == [] then false
    else if a[0] == b[0] then IsSubsequence(a[1..], b[1..])
    else IsSubsequence(a, b[1..])
  }

  /** Putting an element in front of the larger sequence keeps a subsequence. */
  lemma {:induction false} SubsequenceSkip<T>(a: seq<T>, b: seq<T>, x: T)
    requires IsSubsequence(a, b)
    ensures IsSubsequence(a, [x] + b)
    decreases |b|, 1
  {
    assert ([x] + b)[1..] == b;
    if a != [] && a[0] == x {
      SubsequenceDrop(a, b);
    }
  }

  /** Dropping the first element of the smaller sequence keeps a subsequence. */
  lemma {:induction false} SubsequenceDrop<T>(a: seq<T>, b: seq<T>)
    requires IsSubsequence(a, b) && a != []
    ensures IsSubsequence(a[1..], b)
    decreases |b|, 0
  {
    if a[0] == b[0] {
      SubsequenceSkip(a[1..], b[1..], b[0]);
    } else {
      SubsequenceDrop(a, b[1..]);
      SubsequenceSkip(a[1..], b[1..], b[0]);
    }
    assert [b[0]] + b[1..] == b;
  }

  /** A subsequence is no longer than the sequence, and its elements come from it. */
  lemma {:induction false} SubsequenceElements<T>(a: seq<T>, b: seq<T>)
    requires IsSubsequence(a, b)
    ensures |a| <= |b|
    ensures forall x :: x in a ==> x in b
    decreases |b|
  {
    if a != [] {
      if a[0] == b[0] {
        SubsequenceElements(a[1..], b[1..]);
        assert forall x :: x in a ==> x == a[0] || x in a[1..];
      } else {
        SubsequenceElements(a, b[1..]);
      }
    }
  }
}
