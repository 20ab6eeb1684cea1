/** The array operations the source relies on: `filter`, `findIndex`, `find`. */
module Seqs {
  import opened Wrappers

  /** The elements of `s` that satisfy `p`, in their original order (`Array.prototype.filter`). */
  function Filter<T(==)>(s: seq<T>, p: T -> bool): (r: seq<T>)
    ensures |r| <= |s|
  {
    if s == [] then []
    else (if p(s[0]) then [s[0]] else []) + Filter(s[1..], p)
  }

  /** The filter keeps exactly the elements that satisfy `p`. */
  lemma {:induction false} FilterMembers<T>(s: seq<T>, p: T -> bool)
    ensures forall i :: 0 <= i < |Filter(s, p)| ==> Filter(s, p)[i] in s && p(Filter(s, p)[i])
    ensures forall i :: 0 <= i < |s| && p(s[i]) ==> s[i] in Filter(s, p)
  {
    if s != [] {
      FilterMembers(s[1..], p);
      var r := Filter(s, p);
      var h := if p(s[0]) then [s[0]] else [];
      assert r == h + Filter(s[1..], p);
      forall i | 0 <= i < |r|
        ensures r[i] in s && p(r[i])
      {
        if i >= |h| {
          assert r[i] == Filter(s[1..], p)[i - |h|];
        }
      }
      forall i | 0 <= i < |s| && p(s[i])
        ensures s[i] in r
      {
        if i > 0 {
          assert s[i] == s[1..][i - 1];
        }
      }
    }
  }

  lemma {:induction false} FilterAppend<T>(a: seq<T>, b: seq<T>, p: T -> bool)
    ensures Filter(a + b, p) == Filter(a, p) + Filter(b, p)
  {
    if a == [] {
      assert a + b == b;
    } else {
      var c := a + b;
      var h := if p(a[0]) then [a[0]] else [];
      assert c[0] == a[0];
      assert c[1..] == a[1..] + b;
      FilterAppend(a[1..], b, p);
      calc {
        Filter(c, p);
        h + Filter(c[1..], p);
        h + (Filter(a[1..], p) + Filter(b, p));
        (h + Filter(a[1..], p)) + Filter(b, p);
        Filter(a, p) + Filter(b, p);
      }
    }
  }

  /**
   * The position in `s` of the `n`-th element (counting from 0) that
   * satisfies `p`, or `|s|` when fewer than `n + 1` elements do.
   */
  function NthIndex<T(==)>(s: seq<T>, p: T -> bool, n: nat): (i: nat)
    ensures i <= |s|
    ensures n < |Filter(s, p)| ==> i < |s| && p(s[i]) && s[i] == Filter(s, p)[n]
    ensures n >= |Filter(s, p)| ==> i == |s|
  {
    if s == [] then 0
    else if p(s[0]) then
      assert Filter(s, p) == [s[0]] + Filter(s[1..], p);
      if n == 0 then 0 else 1 + NthIndex(s[1..], p, n - 1)
    else
      assert Filter(s, p) == Filter(s[1..], p);
      1 + NthIndex(s[1..], p, n)
  }

  /** One step of `NthIndex` and of the match count past the first element. */
  lemma NthIndexStep<T>(s: seq<T>, p: T -> bool, n: nat)
    requires s != []
    ensures |Filter(s, p)| == (if p(s[0]) then 1 else 0) + |Filter(s[1..], p)|
    ensures NthIndex(s, p, n) ==
              if p(s[0]) then (if n == 0 then 0 else 1 + NthIndex(s[1..], p, n - 1))
              else 1 + NthIndex(s[1..], p, n)
  {
  }

  /** The filter lists the matches in order: its `n`-th element is the `n`-th match, and no match follows the last. */
  lemma FilterInOrder<T>(s: seq<T>, p: T -> bool)
    ensures forall n :: 0 <= n < |Filter(s, p)| ==> NthIndex(s, p, n) < |s| && Filter(s, p)[n] == s[NthIndex(s, p, n)]
    ensures NthIndex(s, p, |Filter(s, p)|) == |s|
  {
  }

  /** Distinct filtered positions come from distinct original positions, in the same order. */
  lemma {:induction false} NthIndexIncreasing<T>(s: seq<T>, p: T -> bool, m: nat, n: nat)
    requires m < n < |Filter(s, p)|
    ensures NthIndex(s, p, m) < NthIndex(s, p, n)
  {
    var t := s[1..];
    NthIndexStep(s, p, m);
    NthIndexStep(s, p, n);
    var c := |Filter(t, p)|;
    var i := NthIndex(t, p, m);
    var j := NthIndex(t, p, n);
    if p(s[0]) {
      if m > 0 {
        NthIndexIncreasing(t, p, m - 1, n - 1);
      }
    } else {
      NthIndexIncreasing(t, p, m, n);
    }
  }

  /** A position holding a match with exactly `n` matches before it is the `n`-th match. */
  lemma {:induction false} NthIndexAt<T>(s: seq<T>, p: T -> bool, n: nat, r: nat)
    requires r < |s| && p(s[r]) && |Filter(s[..r], p)| == n
    ensures NthIndex(s, p, n) == r
  {
    if r == 0 {
      assert s[..r] == [];
    } else {
      assert s[..r][0] == s[0] && s[..r][1..] == s[1..][..r - 1];
      if p(s[0]) {
        NthIndexAt(s[1..], p, n - 1, r - 1);
      } else {
        NthIndexAt(s[1..], p, n, r - 1);
      }
    }
  }

  /** `Array.prototype.findIndex`: the first position whose element satisfies `p`, or -1. */
  function FindIndex<T>(s: seq<T>, p: T -> bool): (r: int)
    ensures -1 <= r < |s|
    ensures r >= 0 ==> p(s[r]) && forall j :: 0 <= j < r ==> !p(s[j])
    ensures r == -1 <==> forall j :: 0 <= j < |s| ==> !p(s[j])
  {
    if s == [] then -1
    else if p(s[0]) then 0
    else
      var k := FindIndex(s[1..], p);
      if k == -1 then -1 else k + 1
  }

  /** `Array.prototype.find`: the first element that satisfies `p`, if any. */
  function Find<T>(s: seq<T>, p: T -> bool): (r: Option<T>)
    ensures r.None? <==> forall j :: 0 <= j < |s| ==> !p(s[j])
    ensures r.Some? ==> exists j :: 0 <= j < |s| && s[j] == r.value && p(s[j]) && forall j' :: 0 <= j' < j ==> !p(s[j'])
  {
    var k := FindIndex(s, p);
    if k == -1 then None else Some(s[k])
  }

  /** No element occurs twice. */
  predicate Distinct<T(==)>(s: seq<T>) {
    forall i, j :: 0 <= i < j < |s| ==> s[i] != s[j]
  }

  lemma {:induction false} DistinctCount<T>(s: seq<T>, x: T)
    requires Distinct(s)
    ensures multiset(s)[x] <= 1
  {
    if s != [] {
      assert s == [s[0]] + s[1..];
      DistinctCount(s[1..], x);
      if s[0] == x {
        assert x !in s[1..];
      }
    }
  }

  lemma RepeatCount<T>(s: seq<T>, i: int, j: int)
    requires 0 <= i < j < |s| && s[i] == s[j]
    ensures multiset(s)[s[i]] >= 2
  {
    assert s == s[..j] + [s[j]] + s[j + 1..];
    assert s[i] in s[..j];
  }

  /** A permutation of a sequence without repetitions has none either. */
  lemma PermutationDistinct<T>(a: seq<T>, b: seq<T>)
    requires multiset(a) == multiset(b) && Distinct(b)
    ensures Distinct(a)
  {
    forall i, j | 0 <= i < j < |a|
      ensures a[i] != a[j]
    {
      if a[i] == a[j] {
        RepeatCount(a, i, j);
        DistinctCount(b, a[i]);
      }
    }
  }

  /** `Array.prototype.map`. */
  function Map<A, B>(s: seq<A>, f: A -> B): (r: seq<B>)
    ensures |r| == |s|
    ensures forall i :: 0 <= i < |s| ==> r[i] == f(s[i])
  {
    if s == [] then [] else [f(s[0])] + Map(s[1..], f)
  }

  lemma {:induction false} MapAppend<A, B>(a: seq<A>, b: seq<A>, f: A -> B)
    ensures Map(a + b, f) == Map(a, f) + Map(b, f)
  {
    assert |Map(a + b, f)| == |Map(a, f) + Map(b, f)|;
    forall i | 0 <= i < |a + b|
      ensures Map(a + b, f)[i] == (Map(a, f) + Map(b, f))[i]
    {
      if i < |a| {
        assert (a + b)[i] == a[i];
      } else {
        assert (a + b)[i] == b[i - |a|];
      }
    }
  }

  /** Mapping two permutations of each other gives permutations of each other. */
  lemma {:induction false} MapPermutation<A, B>(a: seq<A>, b: seq<A>, f: A -> B)
    requires multiset(a) == multiset(b)
    ensures multiset(Map(a, f)) == multiset(Map(b, f))
    decreases |a|
  {
    if a == [] {
      assert |b| == |multiset(b)| == 0;
    } else {
      var x := a[0];
      assert x in multiset(b);
      var k :| 0 <= k < |b| && b[k] == x;
      var b1, b2 := b[..k], b[k + 1..];
      assert b == b1 + [x] + b2;
      assert a == [x] + a[1..];
      assert multiset(a) == multiset{x} + multiset(a[1..]);
      assert multiset(b) == multiset(b1) + multiset{x} + multiset(b2);
      assert multiset(a[1..]) == multiset(a) - multiset{x};
      assert multiset(b1 + b2) == multiset(b) - multiset{x};
      MapPermutation(a[1..], b1 + b2, f);
      MapAppend(b1, b2, f);
      MapAppend(b1 + [x], b2, f);
      MapAppend(b1, [x], f);
      MapAppend([x], a[1..], f);
    }
  }
}
