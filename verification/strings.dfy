/** String predicates shared by the site's pages and URL helpers. */
module Strings {

  /** `pat` occurs in `s` starting at position `i`. */
  predicate OccursAt(s: string, pat: string, i: nat) {
    i + |pat| <= |s| && s[i..i + |pat|] == pat
  }

  /** JavaScript's `String.prototype.includes`. */
  predicate Contains(s: string, pat: string) {
    exists i: nat | i <= |s| :: OccursAt(s, pat, i)
  }

  /** No character of `s` is in `cs`. */
  predicate Avoids(s: string, cs: set<char>) {
    forall k :: 0 <= k < |s| ==> s[k] !in cs
  }

  /**
   * The case folding and whitespace trimming the pages apply to names and
   * search queries (`toLowerCase` and `trim`). They are kept abstract: the
   * model relies only on their being functions.
   */
  datatype Folding = Folding(lower: string -> string, trim: string -> string)

  /** The search box counts as empty: `!searchQuery.trim()`. */
  predicate Blank(f: Folding, query: string) {
    f.trim(query) == []
  }

  /** The string the pages search for: `searchQuery.toLowerCase().trim()`. */
  function Needle(f: Folding, query: string): string {
    f.trim(f.lower(query))
  }

  /** JavaScript's `toLowerCase` maps exactly the empty string to the empty string. */
  ghost predicate KeepsEmpty(lower: string -> string) {
    forall s: string {:trigger lower(s)} :: lower(s) == [] <==> s == []
  }
}
