/**
 * The packs page: the search over the packs, the map from a card of the
 * filtered grid back to the pack's place, the lookup table of loaded levels
 * by path, and the ranked level list of the selected pack.
 */
module PacksPage {
  import opened Wrappers
  import opened Strings
  import opened Pages
  import Seqs
  import StableSort
  import opened Content

  /** The card filter of a non-blank query: the lowercased name or description contains the query. */
  function PackMatches(f: Folding, query: string): Pack -> bool {
    (p: Pack) => Contains(f.lower(p.name), Needle(f, query)) || Contains(f.lower(p.description), Needle(f, query))
  }

  /** `filteredPacks`: all packs for a blank query, else the matching packs in their order. */
  function FilteredPacks(packs: seq<Pack>, f: Folding, query: string): (r: seq<Pack>)
    ensures Blank(f, query) ==> r == packs
    ensures !Blank(f, query) ==> forall i :: 0 <= i < |r| ==> r[i] in packs && PackMatches(f, query)(r[i])
    ensures !Blank(f, query) ==>
              forall i :: 0 <= i < |packs| && PackMatches(f, query)(packs[i]) ==> packs[i] in r
    ensures !Blank(f, query) ==>
              && (forall n :: 0 <= n < |r| ==>
                    Seqs.NthIndex(packs, PackMatches(f, query), n) < |packs| && r[n] == packs[Seqs.NthIndex(packs, PackMatches(f, query), n)])
              && Seqs.NthIndex(packs, PackMatches(f, query), |r|) == |packs|
  {
    if Blank(f, query) then packs
    else
      Seqs.FilterMembers(packs, PackMatches(f, query));
      Seqs.FilterInOrder(packs, PackMatches(f, query));
      Seqs.Filter(packs, PackMatches(f, query))
  }

  /**
   * `getOriginalIndex`: the identity for a blank query or an index past the
   * filtered grid; otherwise the first pack with the name of the filtered card.
   */
  function OriginalIndex(packs: seq<Pack>, f: Folding, query: string, filteredIndex: nat): (r: int)
    ensures Blank(f, query) || filteredIndex >= |FilteredPacks(packs, f, query)| ==> r == filteredIndex
    ensures !Blank(f, query) && filteredIndex < |FilteredPacks(packs, f, query)| ==>
              var name := FilteredPacks(packs, f, query)[filteredIndex].name;
              && 0 <= r < |packs|
              && packs[r].name == name
              && forall j :: 0 <= j < r ==> packs[j].name != name
  {
    if Blank(f, query) then filteredIndex
    else
      var filtered := FilteredPacks(packs, f, query);
      if filteredIndex >= |filtered| then filteredIndex
      else
        var name := filtered[filteredIndex].name;
        assert filtered[filteredIndex] in packs;
        Seqs.FindIndex(packs, (p: Pack) => p.name == name)
  }

  /** The card's pack is found at or before its true place, since the lookup goes by name. */
  lemma OriginalIndexAtOrBefore(packs: seq<Pack>, f: Folding, query: string, i: nat)
    requires !Blank(f, query) && i < |FilteredPacks(packs, f, query)|
    ensures OriginalIndex(packs, f, query, i) <= Seqs.NthIndex(packs, PackMatches(f, query), i)
  {
    var k := Seqs.NthIndex(packs, PackMatches(f, query), i);
    assert packs[k] == FilteredPacks(packs, f, query)[i];
  }

  /** No two packs share a name. */
  predicate UniqueNames(packs: seq<Pack>) {
    forall i, j :: 0 <= i < j < |packs| ==> packs[i].name != packs[j].name
  }

  /** With unique names, a card maps to its own pack. */
  lemma OriginalIndexFaithful(packs: seq<Pack>, f: Folding, query: string, i: nat)
    requires UniqueNames(packs) && i < |FilteredPacks(packs, f, query)|
    ensures 0 <= OriginalIndex(packs, f, query, i) < |packs|
    ensures packs[OriginalIndex(packs, f, query, i)] == FilteredPacks(packs, f, query)[i]
    ensures !Blank(f, query) ==> OriginalIndex(packs, f, query, i) == Seqs.NthIndex(packs, PackMatches(f, query), i)
  {
    if !Blank(f, query) {
      var filtered := FilteredPacks(packs, f, query);
      assert filtered == Seqs.Filter(packs, PackMatches(f, query));
      var k := Seqs.NthIndex(packs, PackMatches(f, query), i);
      var r := OriginalIndex(packs, f, query, i);
      OriginalIndexAtOrBefore(packs, f, query, i);
      assert packs[k] == filtered[i];
      assert packs[r].name == packs[k].name;
      assert r == k;
    }
  }

  /** Two packs of the same name: the card of the second selects the first. */
  lemma SharedNameSelectsFirst(packs: seq<Pack>, f: Folding, query: string, i: nat, j: nat)
    requires !Blank(f, query) && i < |FilteredPacks(packs, f, query)|
    requires j < Seqs.NthIndex(packs, PackMatches(f, query), i)
    requires packs[j].name == FilteredPacks(packs, f, query)[i].name
    ensures OriginalIndex(packs, f, query, i) < Seqs.NthIndex(packs, PackMatches(f, query), i)
  {
  }

  /** `level && level.path === path` for a slot's level. */
  predicate IsLoadedAt(s: Slot, path: string) {
    s.Loaded? && s.level.path == path
  }

  /** The slot filter `([level]) => level && level.path === path`. */
  function LoadedAt(path: string): Slot -> bool {
    (s: Slot) => IsLoadedAt(s, path)
  }

  /** Slot `i` is the last loaded slot with the path. */
  ghost predicate LastLoaded(list: seq<Slot>, path: string, i: int) {
    0 <= i < |list| && IsLoadedAt(list[i], path) && forall j :: i < j < |list| ==> !IsLoadedAt(list[j], path)
  }

  /** Some loaded slot has the path. */
  ghost predicate AnyLoaded(list: seq<Slot>, path: string) {
    exists i :: 0 <= i < |list| && IsLoadedAt(list[i], path)
  }

  /** `levelsData`: every loaded level under its path, a later slot overwriting an earlier one. */
  function LevelsData(list: seq<Slot>): map<string, Level>
    decreases |list|
  {
    if list == [] then map[]
    else
      var n := |list|;
      var m := LevelsData(list[..n - 1]);
      match list[n - 1]
      case Failed(_) => m
      case Loaded(l) => m[l.path := l]
  }

  /** A path is in `levelsData` exactly when a slot with it loaded, and holds the last such slot's level. */
  lemma {:induction false} LevelsDataSpec(list: seq<Slot>, path: string)
    ensures path in LevelsData(list) <==> AnyLoaded(list, path)
    ensures path in LevelsData(list) ==>
              exists i :: LastLoaded(list, path, i) && list[i] == Loaded(LevelsData(list)[path])
    decreases |list|
  {
    if list != [] {
      var n := |list|;
      var pre := list[..n - 1];
      LevelsDataSpec(pre, path);
      assert forall i :: 0 <= i < n - 1 ==> pre[i] == list[i];
      if IsLoadedAt(list[n - 1], path) {
        assert LastLoaded(list, path, n - 1);
      } else if path in LevelsData(pre) {
        var i :| LastLoaded(pre, path, i) && pre[i] == Loaded(LevelsData(pre)[path]);
        assert LastLoaded(list, path, i);
      } else {
        forall i | 0 <= i < n
          ensures !IsLoadedAt(list[i], path)
        {
          if i < n - 1 {
            assert pre[i] == list[i];
          }
        }
      }
    }
  }

  /** The rank a level without a loaded slot is sorted under. */
  const Sentinel: nat := 999999

  /**
   * `findIndex(...) + 1 || 999999`: one plus the position of the first
   * loaded slot with the path, or the sentinel when there is none.
   */
  function RankOf(list: seq<Slot>, path: string): (r: nat)
    ensures !AnyLoaded(list, path) ==> r == Sentinel
    ensures forall k :: 0 <= k < |list| && IsLoadedAt(list[k], path) && (forall j :: 0 <= j < k ==> !IsLoadedAt(list[j], path))
              ==> r == k + 1
  {
    var k := Seqs.FindIndex(list, LoadedAt(path)) + 1;
    if k == 0 then Sentinel else k
  }

  /** An entry of the pack's level list before the sentinel is replaced. */
  datatype RankedLevel = RankedLevel(path: string, name: string, rank: nat)

  /** The rank as shown: a number, or `?`. */
  datatype ShownRank = Known(n: nat) | Unknown

  /** An entry of `selectedPackLevels`. */
  datatype ShownLevel = ShownLevel(path: string, name: string, rank: ShownRank)

  /** The entry for one path of the pack: its rank, and the name of its level when one is loaded. */
  function PackEntry(list: seq<Slot>, path: string): RankedLevel {
    var data := LevelsData(list);
    RankedLevel(path, if path in data then data[path].name else path, RankOf(list, path))
  }

  /** One entry per path of the pack, in pack order, duplicates included. */
  function Entries(pack: Pack, list: seq<Slot>): (es: seq<RankedLevel>)
    ensures |es| == |pack.levels|
    ensures forall i :: 0 <= i < |es| ==> es[i] == PackEntry(list, pack.levels[i])
  {
    Seqs.Map(pack.levels, (path: string) => PackEntry(list, path))
  }

  /** The sort key of the comparator `(a, b) => a.rank - b.rank`. */
  function RankKey(e: RankedLevel): real {
    e.rank as real
  }

  /** The final `map`: the sentinel becomes `?`. */
  function Shown(e: RankedLevel): ShownLevel {
    ShownLevel(e.path, e.name, if e.rank == Sentinel then Unknown else Known(e.rank))
  }

  /** The numeric rank a shown entry was sorted under. */
  function ShownKey(s: ShownLevel): real {
    match s.rank
    case Known(n) => n as real
    case Unknown => Sentinel as real
  }

  /** Sort by rank, then display: a permutation of the displayed entries, ordered, ties in their order. */
  function Arrange(es: seq<RankedLevel>): (r: seq<ShownLevel>)
    ensures multiset(r) == multiset(Seqs.Map(es, Shown))
    ensures forall i, j :: 0 <= i < j < |r| ==> ShownKey(r[i]) <= ShownKey(r[j])
    ensures forall v :: StableSort.WithKey(r, ShownKey, v) == Seqs.Map(StableSort.WithKey(es, RankKey, v), Shown)
  {
    var sorted := StableSort.SortBy(es, RankKey);
    Seqs.MapPermutation(sorted, es, Shown);
    forall v
      ensures StableSort.WithKey(Seqs.Map(sorted, Shown), ShownKey, v) == Seqs.Map(StableSort.WithKey(es, RankKey, v), Shown)
    {
      StableSort.WithKeyMap(sorted, Shown, RankKey, ShownKey, v);
    }
    ArrangeSorted(sorted);
    Seqs.Map(sorted, Shown)
  }

  lemma ArrangeSorted(sorted: seq<RankedLevel>)
    requires StableSort.SortedBy(sorted, RankKey)
    ensures var r := Seqs.Map(sorted, Shown);
            forall i, j :: 0 <= i < j < |r| ==> ShownKey(r[i]) <= ShownKey(r[j])
  {
    var r := Seqs.Map(sorted, Shown);
    forall i, j | 0 <= i < j < |r|
      ensures ShownKey(r[i]) <= ShownKey(r[j])
    {
      assert ShownKey(r[i]) == RankKey(sorted[i]) && ShownKey(r[j]) == RankKey(sorted[j]);
    }
  }

  /**
   * `selectedPackLevels` once the list is loaded: empty without a selected
   * pack or with an empty list; otherwise the pack's entries sorted by
   * ascending rank, entries of equal rank in pack order, then displayed.
   */
  function SelectedPackLevels(selectedPack: Option<Pack>, list: seq<Slot>): (r: seq<ShownLevel>)
    ensures selectedPack.None? || list == [] ==> r == []
    ensures selectedPack.Some? && list != [] ==>
              var es := Entries(selectedPack.value, list);
              && multiset(r) == multiset(Seqs.Map(es, Shown))
              && (forall i, j :: 0 <= i < j < |r| ==> ShownKey(r[i]) <= ShownKey(r[j]))
              && (forall v :: StableSort.WithKey(r, ShownKey, v) == Seqs.Map(StableSort.WithKey(es, RankKey, v), Shown))
  {
    if selectedPack.None? || |list| == 0 then []
    else Arrange(Entries(selectedPack.value, list))
  }

  /**
   * `selectedPackLevels` as written: with a selected pack, `!this.levelsList.length`
   * reads `length` of `null` when the list document failed to load, which throws.
   */
  function SelectedPackLevelsAsWritten(selectedPack: Option<Pack>, list: Option<seq<Slot>>): (r: Outcome<seq<ShownLevel>>)
    ensures selectedPack.Some? && list.None? ==> r.TypeError?
    ensures list.Some? ==> r == Value(SelectedPackLevels(selectedPack, list.value))
  {
    if selectedPack.None? then Value([])
    else if list.None? then TypeError
    else Value(SelectedPackLevels(selectedPack, list.value))
  }

  /** A selected pack with the list document missing makes the property throw. */
  lemma SelectedPackLevelsThrows(pack: Pack)
    ensures SelectedPackLevelsAsWritten(Some(pack), None).TypeError?
  {
  }

  /** With a missing list document treated as an empty list, the property never throws and shows nothing. */
  function SelectedPackLevelsOrEmpty(selectedPack: Option<Pack>, list: Option<seq<Slot>>): (r: seq<ShownLevel>)
    ensures list.None? ==> r == []
    ensures list.Some? ==> r == SelectedPackLevels(selectedPack, list.value)
  {
    match list
    case None => []
    case Some(l) => SelectedPackLevels(selectedPack, l)
  }

  /** Where the property does not throw, the corrected one agrees with it. */
  lemma SelectedPackLevelsAgrees(selectedPack: Option<Pack>, list: Option<seq<Slot>>)
    ensures SelectedPackLevelsAsWritten(selectedPack, list).Value? ==>
              SelectedPackLevelsAsWritten(selectedPack, list).value == SelectedPackLevelsOrEmpty(selectedPack, list)
  {
  }

  /** The entry of a path: numbered by its first loaded slot, `?` when none loaded, named after its last loaded slot. */
  lemma PackEntryShown(list: seq<Slot>, path: string)
    requires |list| < Sentinel
    ensures var e := Shown(PackEntry(list, path));
            && e.path == path
            && (e.rank.Unknown? <==> !AnyLoaded(list, path))
            && (e.rank.Known? ==>
                  && 1 <= e.rank.n <= |list| && IsLoadedAt(list[e.rank.n - 1], path)
                  && forall j :: 0 <= j < e.rank.n - 1 ==> !IsLoadedAt(list[j], path))
            && (AnyLoaded(list, path) ==> exists k :: LastLoaded(list, path, k) && list[k].level.name == e.name)
            && (!AnyLoaded(list, path) ==> e.name == path)
  {
    var e := Shown(PackEntry(list, path));
    LevelsDataSpec(list, path);
    var idx := Seqs.FindIndex(list, LoadedAt(path));
    if idx >= 0 {
      assert IsLoadedAt(list[idx], path);
      assert forall j :: 0 <= j < idx ==> !IsLoadedAt(list[j], path) by {
        forall j | 0 <= j < idx
          ensures !IsLoadedAt(list[j], path)
        {
          assert !LoadedAt(path)(list[j]);
        }
      }
      assert RankOf(list, path) == idx + 1;
      assert e.rank == Known(idx + 1);
    } else {
      assert !AnyLoaded(list, path);
      assert e.rank == Unknown;
    }
  }

  /** Every shown entry is the entry of one of the pack's paths. */
  lemma ShownFromPack(pack: Pack, list: seq<Slot>, i: nat)
    requires list != [] && i < |SelectedPackLevels(Some(pack), list)|
    ensures exists k :: 0 <= k < |pack.levels| && SelectedPackLevels(Some(pack), list)[i] == Shown(PackEntry(list, pack.levels[k]))
  {
    var r := SelectedPackLevels(Some(pack), list);
    var es := Entries(pack, list);
    assert r[i] in multiset(Seqs.Map(es, Shown));
    var k :| 0 <= k < |es| && Seqs.Map(es, Shown)[k] == r[i];
  }

  /** With fewer than 999999 slots, the `?` entries come after every numbered one. */
  lemma UnknownLast(pack: Pack, list: seq<Slot>, i: nat, j: nat)
    requires list != [] && |list| < Sentinel
    requires i < j < |SelectedPackLevels(Some(pack), list)|
    requires SelectedPackLevels(Some(pack), list)[i].rank.Unknown?
    ensures SelectedPackLevels(Some(pack), list)[j].rank.Unknown?
  {
    var r := SelectedPackLevels(Some(pack), list);
    ShownFromPack(pack, list, j);
    var k :| 0 <= k < |pack.levels| && r[j] == Shown(PackEntry(list, pack.levels[k]));
    PackEntryShown(list, pack.levels[k]);
    assert ShownKey(r[i]) <= ShownKey(r[j]);
  }
}
