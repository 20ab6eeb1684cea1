/**
 * The list page: the search over the list, the map from a row of the
 * filtered table back to the level's place in the list, the rank cell, the
 * qualifying line, the packs of the selected level and the error messages.
 */
module ListPage {
  import opened Wrappers
  import opened Strings
  import opened Pages
  import Seqs
  import opened Content

  /** The row filter of a non-blank query: a loaded level whose lowercased name contains the query. */
  function Matches(f: Folding, query: string): Slot -> bool {
    (s: Slot) => s.Loaded? && Contains(f.lower(s.level.name), Needle(f, query))
  }

  /** `filteredList`: the whole list for a blank query, else the matching levels in list order. */
  function FilteredList(list: seq<Slot>, f: Folding, query: string): (r: seq<Slot>)
    ensures Blank(f, query) ==> r == list
    ensures !Blank(f, query) ==> forall i :: 0 <= i < |r| ==>
              r[i] in list && r[i].Loaded? && Contains(f.lower(r[i].level.name), Needle(f, query))
    ensures !Blank(f, query) ==>
              forall i :: 0 <= i < |list| && Matches(f, query)(list[i]) ==> list[i] in r
    ensures !Blank(f, query) ==>
              && (forall n :: 0 <= n < |r| ==>
                    Seqs.NthIndex(list, Matches(f, query), n) < |list| && r[n] == list[Seqs.NthIndex(list, Matches(f, query), n)])
              && Seqs.NthIndex(list, Matches(f, query), |r|) == |list|
  {
    if Blank(f, query) then list
    else
      Seqs.FilterMembers(list, Matches(f, query));
      Seqs.FilterInOrder(list, Matches(f, query));
      Seqs.Filter(list, Matches(f, query))
  }

  /**
   * `getOriginalIndex`: the identity for a blank query; otherwise the list
   * position of the `filteredIndex`-th matching level, or `filteredIndex`
   * itself when there are fewer matches.
   */
  method OriginalIndex(list: seq<Slot>, f: Folding, query: string, filteredIndex: nat) returns (r: nat)
    ensures Blank(f, query) ==> r == filteredIndex
    ensures filteredIndex < |FilteredList(list, f, query)| ==>
              r < |list| && list[r] == FilteredList(list, f, query)[filteredIndex]
    ensures !Blank(f, query) && filteredIndex < |FilteredList(list, f, query)| ==>
              r == Seqs.NthIndex(list, Matches(f, query), filteredIndex)
    ensures filteredIndex >= |FilteredList(list, f, query)| ==> r == filteredIndex
  {
    if Blank(f, query) {
      return filteredIndex;
    }
    var p := Matches(f, query);
    var count := 0;
    var i := 0;
    while i < |list|
      invariant 0 <= i <= |list|
      invariant count == |Seqs.Filter(list[..i], p)|
      invariant count <= filteredIndex
    {
      assert list[..i + 1] == list[..i] + [list[i]];
      Seqs.FilterAppend(list[..i], [list[i]], p);
      assert Seqs.Filter([list[i]], p) == if p(list[i]) then [list[i]] else [];
      if p(list[i]) {
        if count == filteredIndex {
          assert list == list[..i + 1] + list[i + 1..];
          Seqs.FilterAppend(list[..i + 1], list[i + 1..], p);
          Seqs.NthIndexAt(list, p, filteredIndex, i);
          return i;
        }
        count := count + 1;
      }
      i := i + 1;
    }
    assert list[..i] == list;
    return filteredIndex;
  }

  /** Filtered rows map to strictly increasing list positions. */
  lemma OriginalIndexIncreasing(list: seq<Slot>, f: Folding, query: string, m: nat, n: nat)
    requires !Blank(f, query) && m < n < |FilteredList(list, f, query)|
    ensures Seqs.NthIndex(list, Matches(f, query), m) < Seqs.NthIndex(list, Matches(f, query), n)
  {
    Seqs.NthIndexIncreasing(list, Matches(f, query), m, n);
  }

  /** What the rank cell shows. */
  datatype RankCell = Numbered(n: nat) | Legacy

  /** The rank cell of the level at list position `originalIndex`. */
  function RankCellOf(originalIndex: nat): (c: RankCell)
    ensures c.Numbered? <==> originalIndex < 100
    ensures c.Numbered? ==> c.n == originalIndex + 1 && 1 <= c.n <= 100
  {
    if originalIndex + 1 <= 100 then Numbered(originalIndex + 1) else Legacy
  }

  /** What the line above the records says it takes to qualify. */
  datatype Qualify = AtLeast(percent: int) | FullNoPoints

  /**
   * The qualifying line for the selected list position. The first two
   * branches render the same text.
   */
  function QualifyLine(selected: nat, percentToQualify: int): (q: Qualify)
    ensures q.AtLeast? <==> selected < 100
    ensures q.AtLeast? ==> q.percent == percentToQualify
  {
    if selected + 1 <= 50 then AtLeast(percentToQualify)
    else if selected + 1 <= 100 then AtLeast(percentToQualify)
    else FullNoPoints
  }

  /** The page asks for 100 percent with no points exactly on the levels whose rank cell says Legacy. */
  lemma QualifyAgreesWithRank(selected: nat, percentToQualify: int)
    ensures QualifyLine(selected, percentToQualify).FullNoPoints? <==> RankCellOf(selected).Legacy?
  {
  }

  /** `pack.levels.includes(path)`. */
  function Includes(path: string): Pack -> bool {
    (pack: Pack) => path in pack.levels
  }

  /**
   * `levelPacks` as written: `!this.packs.length` reads `length` of `null`
   * when the packs document failed to load, which throws.
   */
  function LevelPacksAsWritten(level: Option<Level>, packs: Option<seq<Pack>>): (r: Outcome<seq<Pack>>)
    ensures level.None? ==> r == Value([])
    ensures level.Some? && packs.None? ==> r.TypeError?
    ensures packs.Some? ==> r.Value?
  {
    if level.None? then Value([])
    else if packs.None? then TypeError
    else if |packs.value| == 0 then Value([])
    else Value(Seqs.Filter(packs.value, Includes(level.value.path)))
  }

  /** A selected level with the packs document missing makes the property throw. */
  lemma LevelPacksThrows(level: Level)
    ensures LevelPacksAsWritten(Some(level), None).TypeError?
  {
  }

  /**
   * `levelPacks` with a missing packs document treated as no packs: the
   * packs that list the selected level's path, in pack order.
   */
  function LevelPacks(level: Option<Level>, packs: Option<seq<Pack>>): (r: seq<Pack>)
    ensures level.None? || packs.None? ==> r == []
    ensures forall i :: 0 <= i < |r| ==> r[i] in packs.value && level.value.path in r[i].levels
    ensures level.Some? && packs.Some? ==>
              forall i :: 0 <= i < |packs.value| && level.value.path in packs.value[i].levels ==> packs.value[i] in r
    ensures level.Some? && packs.Some? ==>
              var ps, p := packs.value, Includes(level.value.path);
              && (forall n :: 0 <= n < |r| ==> Seqs.NthIndex(ps, p, n) < |ps| && r[n] == ps[Seqs.NthIndex(ps, p, n)])
              && Seqs.NthIndex(ps, p, |r|) == |ps|
  {
    if level.None? || packs.None? || |packs.value| == 0 then []
    else
      Seqs.FilterMembers(packs.value, Includes(level.value.path));
      Seqs.FilterInOrder(packs.value, Includes(level.value.path));
      Seqs.Filter(packs.value, Includes(level.value.path))
  }

  /** Where the property does not throw, the corrected one agrees with it. */
  lemma LevelPacksAgrees(level: Option<Level>, packs: Option<seq<Pack>>)
    ensures LevelPacksAsWritten(level, packs).Value? ==> LevelPacksAsWritten(level, packs).value == LevelPacks(level, packs)
  {
  }

  /**
   * While a search is active, clicking the only row of the filtered table
   * highlights no row: the click stores the level's list position, which is
   * not the row number.
   */
  lemma ActiveAsWrittenMisses(list: seq<Slot>, f: Folding, query: string)
    requires !Blank(f, query) && |FilteredList(list, f, query)| == 1
    requires !Matches(f, query)(list[0])
    ensures var selected := Seqs.NthIndex(list, Matches(f, query), 0);
            !ActiveAsWritten(selected, 0)
  {
    var p := Matches(f, query);
    assert list != [];
    assert Seqs.Filter(list, p) == Seqs.Filter(list[1..], p);
  }

  /** The highlighted row compared through the same map the click uses. */
  predicate Active(list: seq<Slot>, f: Folding, query: string, selected: nat, row: nat) {
    if Blank(f, query) then selected == row
    else selected == Seqs.NthIndex(list, Matches(f, query), row)
  }

  /** After a click on a row of the filtered table, that row and no other is highlighted. */
  lemma ActiveIsClicked(list: seq<Slot>, f: Folding, query: string, clicked: nat, row: nat)
    requires clicked < |FilteredList(list, f, query)| && row < |FilteredList(list, f, query)|
    ensures var selected := if Blank(f, query) then clicked else Seqs.NthIndex(list, Matches(f, query), clicked);
            Active(list, f, query, selected, row) <==> row == clicked
  {
    if !Blank(f, query) && row != clicked {
      if row < clicked {
        Seqs.NthIndexIncreasing(list, Matches(f, query), row, clicked);
      } else {
        Seqs.NthIndexIncreasing(list, Matches(f, query), clicked, row);
      }
    }
  }

  /** The message for a list document that failed to load. */
  const ListFailed := "Failed to load list. Retry in a few minutes or notify list staff."

  /** The message for an editors document that failed to load. */
  const EditorsFailed := "Failed to load list editors."

  /** The message for one level document that failed to load. */
  function LevelFailed(id: string): string {
    "Failed to load level. (" + id + ".json)"
  }

  /** The message names the id it was built from. */
  lemma LevelFailedInjective(a: string, b: string)
    requires LevelFailed(a) == LevelFailed(b)
    ensures a == b
  {
    var n := |"Failed to load level. ("|;
    assert |a| == |b|;
    assert LevelFailed(a)[n..n + |a|] == a;
    assert LevelFailed(b)[n..n + |b|] == b;
  }

  /**
   * The errors `mounted` collects: the list failure alone when the list is
   * missing; otherwise one message per failed level with a non-empty id, in
   * list order, then the editors failure when the editors document is missing.
   */
  function ErrorMessages(list: Option<seq<Slot>>, editorsLoaded: bool): (r: seq<string>)
    ensures list.None? ==> r == [ListFailed]
    ensures list.Some? ==>
              |r| == |FailedIds(list.value)| + (if editorsLoaded then 0 else 1)
              && (forall i :: 0 <= i < |FailedIds(list.value)| ==> r[i] == LevelFailed(FailedIds(list.value)[i]))
              && (!editorsLoaded ==> r[|r| - 1] == EditorsFailed)
  {
    match list
    case None => [ListFailed]
    case Some(l) =>
      var ids := FailedIds(l);
      seq(|ids|, i requires 0 <= i < |ids| => LevelFailed(ids[i]))
      + if editorsLoaded then [] else [EditorsFailed]
  }

  /** A failed level whose id is not empty is reported, and every reported level failed. */
  lemma ErrorsReportFailures(list: seq<Slot>, editorsLoaded: bool, id: string)
    requires id != []
    ensures LevelFailed(id) in ErrorMessages(Some(list), editorsLoaded) <==> Failed(id) in list
  {
    FailedIdsMembers(list, id);
    var r := ErrorMessages(Some(list), editorsLoaded);
    var ids := FailedIds(list);
    if LevelFailed(id) in r {
      var k :| 0 <= k < |r| && r[k] == LevelFailed(id);
      if k < |ids| {
        LevelFailedInjective(ids[k], id);
      }
    }
    if Failed(id) in list {
      var k :| 0 <= k < |ids| && ids[k] == id;
      assert r[k] == LevelFailed(id);
    }
  }
}
