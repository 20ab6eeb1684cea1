/**
 * A JavaScript object used as a map from user name to accumulator, as an
 * insertion-ordered association list. `Object.keys` and `Object.entries`
 * enumerate string keys in insertion order; keys that are array indices
 * (`"7"`, `"123"`) come first there, in ascending numeric order, which this
 * list does not reproduce.
 */
module Assoc {
  import opened Wrappers
  import Seqs
  import opened Strings

  type Assoc<V> = seq<(string, V)>

  /** `Object.keys(m)`. */
  function Keys<V>(m: Assoc<V>): (ks: seq<string>)
    ensures |ks| == |m|
  {
    seq(|m|, i requires 0 <= i < |m| => m[i].0)
  }

  /** No two keys are equal after lowercasing. */
  predicate LowerDistinct<V>(m: Assoc<V>, lower: string -> string) {
    forall i, j :: 0 <= i < j < |m| ==> lower(m[i].0) != lower(m[j].0)
  }

  /** The position of the first key that lowercases like `name`, or -1. */
  function LowerIndex<V>(m: Assoc<V>, lower: string -> string, name: string): int {
    Seqs.FindIndex(m, (e: (string, V)) => lower(e.0) == lower(name))
  }

  /** `Object.keys(m).find((u) => u.toLowerCase() === name.toLowerCase()) || name`. */
  function Resolve<V>(m: Assoc<V>, lower: string -> string, name: string): string {
    match Seqs.Find(Keys(m), (u: string) => lower(u) == lower(name))
    case Some(k) => if k != [] then k else name
    case None => name
  }

  /**
   * A name resolves to the first key that lowercases like it, so the
   * first-seen spelling wins, and to itself when no key does. The `|| name`
   * fallback for a found empty key changes nothing, because only the empty
   * string lowercases to the empty string.
   */
  lemma ResolveFirstSpelling<V>(m: Assoc<V>, lower: string -> string, name: string)
    requires KeepsEmpty(lower)
    ensures var k := LowerIndex(m, lower, name);
            Resolve(m, lower, name) == if k >= 0 then m[k].0 else name
  {
    var ks := Keys(m);
    var p := (u: string) => lower(u) == lower(name);
    var q := (e: (string, V)) => lower(e.0) == lower(name);
    var k := LowerIndex(m, lower, name);
    assert forall j :: 0 <= j < |m| ==> (p(ks[j]) <==> q(m[j]));
    match Seqs.Find(ks, p)
    case Some(u) =>
      var j :| 0 <= j < |ks| && ks[j] == u && p(ks[j]) && forall j' :: 0 <= j' < j ==> !p(ks[j']);
      assert k == j;
      if u == [] {
        assert lower(name) == lower([]);
        assert lower([]) == [];
      }
    case None =>
  }

  /** The position of key `k`, or -1. */
  function KeyIndex<V>(m: Assoc<V>, k: string): int {
    Seqs.FindIndex(m, (e: (string, V)) => e.0 == k)
  }

  /** The value under `k`, or `default` when `k` is not a key (`m[k] ??= default`). */
  function Get<V>(m: Assoc<V>, k: string, default: V): V {
    var i := KeyIndex(m, k);
    if i >= 0 then m[i].1 else default
  }

  /** `m[k] = v`: replaces the value of an existing key in place, or appends a new key. */
  function Put<V>(m: Assoc<V>, k: string, v: V): Assoc<V> {
    var i := KeyIndex(m, k);
    if i >= 0 then m[i := (k, v)] else m + [(k, v)]
  }

  /** With keys distinct after lowercasing, every key is found at its own position. */
  lemma KeyIndexOwn<V>(m: Assoc<V>, lower: string -> string, i: int)
    requires LowerDistinct(m, lower) && 0 <= i < |m|
    ensures KeyIndex(m, m[i].0) == i
  {
  }

  /** A name that lowercases like no key is not a key. */
  lemma KeyIndexAbsent<V>(m: Assoc<V>, lower: string -> string, name: string)
    requires LowerIndex(m, lower, name) == -1
    ensures KeyIndex(m, name) == -1
  {
  }
}
