/** Order-preserving sequence operations that give the meaning of a query result. */
module Seqs {
  import opened Wrappers

  /** Keeps, in their original order, the elements that satisfy `p`. */
  function Filter<T(!new)>(s: seq<T>, p: T -> bool): (r: seq<T>)
    ensures |r| <= |s|
    ensures forall x :: x in r <==> x in s && p(x)
  {
    if s == [] then []
    else (if p(s[0]) then [s[0]] else []) + Filter(s[1..], p)
  }

  /** Filtering distributes over concatenation: relative order is kept. */
  lemma {:induction false} FilterConcat<T(!new)>(a: seq<T>, b: seq<T>, p: T -> bool)
    ensures Filter(a + b, p) == Filter(a, p) + Filter(b, p)
  {
    if a == [] {
      assert a + b == b;
    } else {
      assert (a + b)[1..] == a[1..] + b;
      FilterConcat(a[1..], b, p);
    }
  }

  /** Two predicates that agree on every element select the same subsequence. */
  lemma {:induction false} FilterExt<T(!new)>(s: seq<T>, p: T -> bool, q: T -> bool)
    requires forall x :: x in s ==> p(x) == q(x)
    ensures Filter(s, p) == Filter(s, q)
  {
    if s != [] {
      assert forall x :: x in s[1..] ==> x in s;
      FilterExt(s[1..], p, q);
    }
  }

  /** Filtering by a stronger predicate is the same as filtering the weaker result again. */
  lemma {:induction false} FilterNarrow<T(!new)>(s: seq<T>, p: T -> bool, q: T -> bool)
    requires forall x :: x in s && q(x) ==> p(x)
    ensures Filter(s, q) == Filter(Filter(s, p), q)
    ensures |Filter(s, q)| <= |Filter(s, p)|
  {
    if s != [] {
      var t := s[1..];
      assert forall x :: x in t ==> x in s;
      FilterNarrow(t, p, q);
      if p(s[0]) {
        var fp := Filter(s, p);
        assert fp == [s[0]] + Filter(t, p);
        assert fp[1..] == Filter(t, p);
        assert Filter(fp, q) == (if q(s[0]) then [s[0]] else []) + Filter(fp[1..], q);
      } else {
        assert !q(s[0]);
        assert Filter(s, p) == Filter(t, p);
        assert Filter(s, q) == Filter(t, q);
      }
    }
  }

  /** A predicate that holds everywhere keeps the whole sequence. */
  lemma {:induction false} FilterAll<T(!new)>(s: seq<T>, p: T -> bool)
    requires forall x :: x in s ==> p(x)
    ensures Filter(s, p) == s
  {
    if s != [] {
      assert forall x :: x in s[1..] ==> x in s;
      FilterAll(s[1..], p);
    }
  }

  /** Every element is kept by exactly one of `p` and its negation. */
  lemma {:induction false} FilterSplit<T(!new)>(s: seq<T>, p: T -> bool, q: T -> bool)
    requires forall x :: x in s ==> q(x) == !p(x)
    ensures |Filter(s, p)| + |Filter(s, q)| == |s|
  {
    if s != [] {
      assert forall x :: x in s[1..] ==> x in s;
      FilterSplit(s[1..], p, q);
    }
  }

  /** Filtering a one-element sequence. */
  lemma Filter1<T(!new)>(d: T, p: T -> bool)
    ensures Filter([d], p) == (if p(d) then [d] else [])
  {
    assert [d][1..] == [];
  }

  /** Filtering a two-element sequence. */
  lemma Filter2<T(!new)>(c: T, d: T, p: T -> bool)
    ensures Filter([c, d], p) == (if p(c) then [c] else []) + (if p(d) then [d] else [])
  {
    Filter1(d, p);
    assert [c, d][1..] == [d];
  }

  /** Filtering a three-element sequence. */
  lemma Filter3<T(!new)>(b: T, c: T, d: T, p: T -> bool)
    ensures Filter([b, c, d], p) == (if p(b) then [b] else []) + ((if p(c) then [c] else []) + (if p(d) then [d] else []))
  {
    Filter2(c, d, p);
    assert [b, c, d][1..] == [c, d];
  }

  /** Filtering a four-element sequence, spelled out element by element. */
  lemma Filter4<T(!new)>(a: T, b: T, c: T, d: T, p: T -> bool)
    ensures Filter([a, b, c, d], p)
         == (if p(a) then [a] else []) + ((if p(b) then [b] else []) + ((if p(c) then [c] else []) + (if p(d) then [d] else [])))
  {
    Filter3(b, c, d, p);
    assert [a, b, c, d][1..] == [b, c, d];
  }

  /** Rows `[offset, offset + limit)` of `s`, clipped to its length; no limit means to the end. */
  function Slice<T>(s: seq<T>, offset: nat, limit: Option<nat>): (r: seq<T>)
    ensures offset <= |s| ==> |r| == (if limit.Some? && offset + limit.value <= |s| then limit.value else |s| - offset)
    ensures offset > |s| ==> r == []
    ensures limit.Some? ==> |r| <= limit.value
    ensures forall i :: 0 <= i < |r| ==> offset + i < |s| && r[i] == s[offset + i]
    ensures forall x :: x in r ==> x in s
  {
    var start := if offset <= |s| then offset else |s|;
    var end := if limit.Some? && start + limit.value <= |s| then start + limit.value else |s|;
    s[start..end]
  }

  /** The projection of every element through `f`, in order. */
  function Map<T, U>(s: seq<T>, f: T -> U): (r: seq<U>)
    ensures |r| == |s|
    ensures forall i :: 0 <= i < |s| ==> r[i] == f(s[i])
  {
    seq(|s|, i requires 0 <= i < |s| => f(s[i]))
  }
}
