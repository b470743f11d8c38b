/** `Array.prototype.filter` on sequences, with the facts every caller relies on. */
module Seqs {

  /** The elements of `s` that satisfy `p`, in their original order. */
  function Filter<T>(s: seq<T>, p: T -> bool): (r: seq<T>)
    ensures |r| <= |s|
    ensures forall x :: x in r ==> x in s && p(x)
  {
    if s == [] then [] else (if p(s[0]) then [s[0]] else []) + Filter(s[1..], p)
  }

  /** An element is kept exactly when it occurs in the input and satisfies the predicate. */
  lemma {:induction false} FilterMembership<T>(s: seq<T>, p: T -> bool, x: T)
    ensures x in Filter(s, p) <==> x in s && p(x)
  {
    if s != [] {
      FilterMembership(s[1..], p, x);
      assert x in s <==> x == s[0] || x in s[1..];
    }
  }

  /** Filtering distributes over concatenation. */
  lemma {:induction false} FilterAppend<T>(a: seq<T>, b: seq<T>, p: T -> bool)
    ensures Filter(a + b, p) == Filter(a, p) + Filter(b, p)
  {
    if a == [] {
      assert a + b == b;
    } else {
      assert (a + b)[0] == a[0];
      assert (a + b)[1..] == a[1..] + b;
      FilterAppend(a[1..], b, p);
    }
  }

  /** When every element passes, filtering changes nothing. */
  lemma {:induction false} FilterAllPass<T>(s: seq<T>, p: T -> bool)
    requires forall i :: 0 <= i < |s| ==> p(s[i])
    ensures Filter(s, p) == s
  {
    if s != [] {
      FilterAllPass(s[1..], p);
    }
  }

  /** `r` is the subsequence of `s` at the strictly increasing positions `idx`. */
  ghost predicate SubsequenceAt<T>(r: seq<T>, s: seq<T>, idx: seq<int>)
  {
    |idx| == |r| &&
    (forall i :: 0 <= i < |idx| ==> 0 <= idx[i] < |s| && s[idx[i]] == r[i]) &&
    (forall i, j :: 0 <= i < j < |idx| ==> idx[i] < idx[j])
  }

  function Shifted(idx: seq<int>): (r: seq<int>)
    ensures |r| == |idx| && forall i :: 0 <= i < |idx| ==> r[i] == idx[i] + 1
  {
    seq(|idx|, i requires 0 <= i < |idx| => idx[i] + 1)
  }

  /** Positions in the tail, moved by one, are positions in the whole sequence. */
  lemma SubsequenceOfTail<T>(r: seq<T>, s: seq<T>, idx: seq<int>)
    requires s != [] && SubsequenceAt(r, s[1..], idx)
    ensures SubsequenceAt(r, s, Shifted(idx))
    ensures SubsequenceAt([s[0]] + r, s, [0] + Shifted(idx))
  {
    var moved := Shifted(idx);
    assert forall i :: 0 <= i < |idx| ==> s[moved[i]] == s[1..][idx[i]];
    assert forall i :: 0 <= i < |idx| ==> moved[i] >= 1;
  }

  /** The positions in `s` of the elements that `p` keeps. */
  lemma {:induction false} FilterPositions<T>(s: seq<T>, p: T -> bool) returns (idx: seq<int>)
    ensures SubsequenceAt(Filter(s, p), s, idx)
  {
    if s == [] {
      idx := [];
    } else {
      var tail := FilterPositions(s[1..], p);
      SubsequenceOfTail(Filter(s[1..], p), s, tail);
      idx := if p(s[0]) then [0] + Shifted(tail) else Shifted(tail);
    }
  }

  /** A filtered sequence is a subsequence of its input, in the same order. */
  lemma FilterIsOrderedSubsequence<T>(s: seq<T>, p: T -> bool)
    ensures exists idx :: SubsequenceAt(Filter(s, p), s, idx)
  {
    var idx := FilterPositions(s, p);
  }
}
