/**
 * The stable `Array.prototype.sort` with a numeric comparator `(a, b) => key(a) - key(b)`:
 * elements are ordered by ascending key and elements with equal keys keep their order.
 */
module StableSort {
  import Seqs

  /** Keys are non-decreasing along `s`. */
  predicate SortedBy<T>(s: seq<T>, key: T -> real) {
    forall i, j :: 0 <= i < j < |s| ==> key(s[i]) <= key(s[j])
  }

  /** The elements of `s` whose key is `v`, in their order in `s`. */
  function WithKey<T>(s: seq<T>, key: T -> real, v: real): seq<T> {
    if s == [] then []
    else (if key(s[0]) == v then [s[0]] else []) + WithKey(s[1..], key, v)
  }

  /** Places `x` in front of the first element of `s` whose key is not below its own. */
  function Insert<T>(x: T, s: seq<T>, key: T -> real): seq<T> {
    if s == [] || key(x) <= key(s[0]) then [x] + s
    else [s[0]] + Insert(x, s[1..], key)
  }

  lemma {:induction false} InsertPermutes<T>(x: T, s: seq<T>, key: T -> real)
    ensures multiset(Insert(x, s, key)) == multiset(s) + multiset{x}
  {
    if s != [] && key(x) > key(s[0]) {
      InsertPermutes(x, s[1..], key);
      assert s == [s[0]] + s[1..];
    }
  }

  lemma {:induction false} InsertSorted<T>(x: T, s: seq<T>, key: T -> real)
    requires SortedBy(s, key)
    ensures SortedBy(Insert(x, s, key), key)
    ensures |Insert(x, s, key)| == |s| + 1
    ensures forall i :: 0 <= i < |Insert(x, s, key)| ==>
              Insert(x, s, key)[i] == x || exists j :: 0 <= j < |s| && Insert(x, s, key)[i] == s[j]
  {
    if s != [] && key(x) > key(s[0]) {
      InsertSorted(x, s[1..], key);
      var t := Insert(x, s[1..], key);
      forall i | 0 <= i < |t|
        ensures key(s[0]) <= key(t[i])
      {
        if t[i] != x {
          var j :| 0 <= j < |s[1..]| && t[i] == s[1..][j];
          assert t[i] == s[j + 1];
        }
      }
      var r := Insert(x, s, key);
      assert r == [s[0]] + t;
      forall i | 0 <= i < |r| && r[i] != x
        ensures exists j :: 0 <= j < |s| && r[i] == s[j]
      {
        if i == 0 {
          assert r[i] == s[0];
        } else {
          assert r[i] == t[i - 1];
          var j :| 0 <= j < |s[1..]| && t[i - 1] == s[1..][j];
          assert r[i] == s[j + 1];
        }
      }
    }
  }

  /** Inserting `x` adds it to the run of its key in front of the equal keys already present. */
  lemma {:induction false} InsertWithKey<T>(x: T, s: seq<T>, key: T -> real, v: real)
    ensures WithKey(Insert(x, s, key), key, v) == (if key(x) == v then [x] else []) + WithKey(s, key, v)
  {
    var r := Insert(x, s, key);
    if s == [] || key(x) <= key(s[0]) {
      assert r == [x] + s;
      assert r[0] == x && r[1..] == s;
    } else {
      var t := Insert(x, s[1..], key);
      assert r == [s[0]] + t;
      assert r[0] == s[0] && r[1..] == t;
      InsertWithKey(x, s[1..], key, v);
      var hs := if key(s[0]) == v then [s[0]] else [];
      var hx := if key(x) == v then [x] else [];
      calc {
        WithKey(r, key, v);
        hs + WithKey(t, key, v);
        hs + (hx + WithKey(s[1..], key, v));
        { if hs == [] { assert hx + WithKey(s, key, v) == hx + WithKey(s[1..], key, v); } }
        hx + WithKey(s, key, v);
      }
    }
  }

  /**
   * Insertion sort, stable. The result is a permutation of `s`, ordered by key,
   * and for every key value the elements with that key appear in their input order.
   */
  function SortBy<T(==)>(s: seq<T>, key: T -> real): (r: seq<T>)
    ensures multiset(r) == multiset(s)
    ensures |r| == |s|
    ensures SortedBy(r, key)
    ensures forall v :: WithKey(r, key, v) == WithKey(s, key, v)
  {
    if s == [] then []
    else
      var t := SortBy(s[1..], key);
      InsertPermutes(s[0], t, key);
      InsertSorted(s[0], t, key);
      assert s == [s[0]] + s[1..];
      assert forall v :: WithKey(Insert(s[0], t, key), key, v) == WithKey(s, key, v) by {
        forall v
          ensures WithKey(Insert(s[0], t, key), key, v) == WithKey(s, key, v)
        {
          InsertWithKey(s[0], t, key, v);
        }
      }
      Insert(s[0], t, key)
  }

  /** Selecting by key commutes with a map that carries the key along. */
  lemma {:induction false} WithKeyMap<A, B>(s: seq<A>, f: A -> B, ka: A -> real, kb: B -> real, v: real)
    requires forall x :: kb(f(x)) == ka(x)
    ensures WithKey(Seqs.Map(s, f), kb, v) == Seqs.Map(WithKey(s, ka, v), f)
  {
    if s != [] {
      WithKeyMap(s[1..], f, ka, kb, v);
      assert Seqs.Map(s, f)[1..] == Seqs.Map(s[1..], f);
      Seqs.MapAppend(if ka(s[0]) == v then [s[0]] else [], WithKey(s[1..], ka, v), f);
    }
  }
}
