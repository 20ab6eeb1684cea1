/**
 * The documents of the list and the per-slot post-processing of `fetchList`:
 * a manifest of level ids, one parsed level document per id, and the list of
 * slots that every page and the leaderboard consume.
 */
module Content {
  import opened Wrappers
  import StableSort

  /** One entry of a level's `records` array. */
  datatype Record = Record(user: string, percent: int, link: string, mobile: bool, hz: int)

  /** A level document `<id>.json` as parsed, before `fetchList` touches it. */
  datatype LevelDoc = LevelDoc(
    name: string,
    author: string,
    creators: seq<string>,
    verifier: string,
    verification: string,
    percentToQualify: int,
    records: seq<Record>)

  /** A loaded level: the document with its manifest id as `path` and its records re-sorted. */
  datatype Level = Level(
    name: string,
    author: string,
    creators: seq<string>,
    verifier: string,
    verification: string,
    percentToQualify: int,
    records: seq<Record>,
    path: string)

  /** One slot of the list: `[level, null]` or `[null, id]` for a level document that failed to load. */
  datatype Slot = Loaded(level: Level) | Failed(id: string)

  /** An entry of `_packs.json`. */
  datatype Pack = Pack(id: string, name: string, author: string, description: string, levels: seq<string>)

  /** The sort key of the comparator `(a, b) => b.percent - a.percent`. */
  function PercentKey(r: Record): real {
    -(r.percent as real)
  }

  /** Records with the same percent, in their order. */
  function WithPercent(records: seq<Record>, percent: int): seq<Record> {
    StableSort.WithKey(records, PercentKey, -(percent as real))
  }

  /** `records` re-sorted by descending percent; records with equal percent keep their order. */
  function SortRecords(records: seq<Record>): (r: seq<Record>)
    ensures multiset(r) == multiset(records)
    ensures forall i, j :: 0 <= i < j < |r| ==> r[i].percent >= r[j].percent
    ensures forall percent :: WithPercent(r, percent) == WithPercent(records, percent)
  {
    var sorted := StableSort.SortBy(records, PercentKey);
    assert forall i, j :: 0 <= i < j < |sorted| ==> PercentKey(sorted[i]) <= PercentKey(sorted[j]);
    sorted
  }

  /** `{...level, path, records: level.records.sort(...)}`. */
  function LoadLevel(doc: LevelDoc, path: string): Level {
    Level(doc.name, doc.author, doc.creators, doc.verifier, doc.verification,
          doc.percentToQualify, SortRecords(doc.records), path)
  }

  /** What slot `slot` must hold given the parse outcome `doc` of the document named `id`. */
  ghost predicate SlotFrom(slot: Slot, doc: Option<LevelDoc>, id: string) {
    match doc
    case None => slot == Failed(id)
    case Some(d) =>
      && slot.Loaded?
      && var l := slot.level;
      && l.path == id
      && l.name == d.name && l.author == d.author && l.creators == d.creators
      && l.verifier == d.verifier && l.verification == d.verification
      && l.percentToQualify == d.percentToQualify
      && multiset(l.records) == multiset(d.records)
      && (forall i, j :: 0 <= i < j < |l.records| ==> l.records[i].percent >= l.records[j].percent)
      && (forall percent :: WithPercent(l.records, percent) == WithPercent(d.records, percent))
  }

  /**
   * `fetchList` after its documents are fetched and parsed: `manifest` is
   * `_list.json` (None when it could not be parsed) and `docs[i]` the parse
   * outcome of the document named `manifest[i]`, one per manifest entry as
   * `Promise.all` delivers them. A failed `fetch` is not an input here.
   */
  function FetchList(manifest: Option<seq<string>>, docs: seq<Option<LevelDoc>>): (r: Option<seq<Slot>>)
    requires manifest.Some? ==> |docs| == |manifest.value|
    ensures r.None? <==> manifest.None?
    ensures r.Some? ==> |r.value| == |manifest.value|
    ensures r.Some? ==> forall i :: 0 <= i < |r.value| ==> SlotFrom(r.value[i], docs[i], manifest.value[i])
  {
    match manifest
    case None => None
    case Some(ids) =>
      Some(seq(|ids|, i requires 0 <= i < |ids| =>
        match docs[i]
        case None => Failed(ids[i])
        case Some(d) => Loaded(LoadLevel(d, ids[i]))))
  }

  /** The ids of the failed slots, in list order, that JavaScript treats as present (`if (err)`). */
  function FailedIds(list: seq<Slot>): seq<string> {
    if list == [] then []
    else (if list[0].Failed? && list[0].id != [] then [list[0].id] else []) + FailedIds(list[1..])
  }

  lemma {:induction false} FailedIdsAppend(a: seq<Slot>, b: seq<Slot>)
    ensures FailedIds(a + b) == FailedIds(a) + FailedIds(b)
  {
    if a == [] {
      assert a + b == b;
    } else {
      assert (a + b)[0] == a[0];
      assert (a + b)[1..] == a[1..] + b;
      FailedIdsAppend(a[1..], b);
    }
  }

  /** A non-empty id is listed exactly when a slot failed with it. */
  lemma {:induction false} FailedIdsMembers(list: seq<Slot>, id: string)
    requires id != []
    ensures id in FailedIds(list) <==> Failed(id) in list
  {
    if list != [] {
      FailedIdsMembers(list[1..], id);
      assert list == [list[0]] + list[1..];
    }
  }

  /** No failed slot carries the empty id; `fetchLeaderboard` dereferences the missing level otherwise. */
  predicate FailuresNamed(list: seq<Slot>) {
    forall i :: 0 <= i < |list| && list[i].Failed? ==> list[i].id != []
  }
}
