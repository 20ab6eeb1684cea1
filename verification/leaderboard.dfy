/**
 * `fetchLeaderboard`: one pass over the list that files every verification
 * and record under its case-insensitively merged user, then pack credit,
 * totals, and a stable sort by total.
 */
module Leaderboard {
  import opened Wrappers
  import opened Strings
  import Seqs
  import StableSort
  import opened Content
  import opened Assoc

  /** `score(rank, percent, percentToQualify)` of the scoring module, taken as given. */
  type ScoreFn = (nat, int, int) -> real

  /** `round(total)` of the scoring module, taken as given. */
  type RoundFn = real -> real

  /** A `verified` or `completed` entry. */
  datatype Entry = Entry(rank: nat, level: string, score: real, link: string)

  /** A `progressed` entry. */
  datatype Progress = Progress(rank: nat, level: string, percent: int, score: real, link: string)

  /** A `packs` entry; packs give no points. */
  datatype PackBadge = PackBadge(name: string, score: real)

  /** One user's accumulator in `scoreMap`. */
  datatype Scores = Scores(verified: seq<Entry>, completed: seq<Entry>, progressed: seq<Progress>, packs: seq<PackBadge>)

  /** The accumulator `??=` creates for a user seen for the first time. */
  const Fresh := Scores([], [], [], [])

  /** What one verification or record contributes. */
  datatype Credit = Verification(entry: Entry) | Completion(entry: Entry) | Progression(progress: Progress)

  /** A contribution and the user name it is filed under, as written in the document. */
  datatype Event = Event(user: string, credit: Credit)

  function AddCredit(s: Scores, c: Credit): Scores {
    match c
    case Verification(e) => s.(verified := s.verified + [e])
    case Completion(e) => s.(completed := s.completed + [e])
    case Progression(p) => s.(progressed := s.progressed + [p])
  }

  /** Resolve the user case-insensitively, create its accumulator if needed, and push the entry. */
  function Apply(m: Assoc<Scores>, lower: string -> string, ev: Event): Assoc<Scores> {
    var k := Resolve(m, lower, ev.user);
    Put(m, k, AddCredit(Get(m, k, Fresh), ev.credit))
  }

  /** The verification of the level at 1-based `rank`. */
  function VerifierEvent(level: Level, rank: nat, score: ScoreFn): Event {
    Event(level.verifier,
          Verification(Entry(rank, level.name, score(rank, 100, level.percentToQualify), level.verification)))
  }

  /** A record of the level at 1-based `rank`: a completion at 100 percent, a progress otherwise. */
  function RecordEvent(level: Level, rank: nat, r: Record, score: ScoreFn): Event {
    if r.percent == 100 then
      Event(r.user, Completion(Entry(rank, level.name, score(rank, 100, level.percentToQualify), r.link)))
    else
      Event(r.user, Progression(Progress(rank, level.name, r.percent,
                                         score(rank, r.percent, level.percentToQualify), r.link)))
  }

  /** `level.records.forEach(...)`. */
  function CreditRecords(m: Assoc<Scores>, level: Level, rank: nat, records: seq<Record>,
                         score: ScoreFn, lower: string -> string): Assoc<Scores>
    decreases |records|
  {
    if records == [] then m
    else
      var n := |records|;
      Apply(CreditRecords(m, level, rank, records[..n - 1], score, lower), lower,
            RecordEvent(level, rank, records[n - 1], score))
  }

  /** The state of the pass: `scoreMap` and `errs`. */
  datatype Pass = Pass(scoreMap: Assoc<Scores>, errs: seq<string>)

  /** The body of `list.forEach(([level, err], rank) => ...)` for the slot at 1-based `rank`. */
  function VisitSlot(p: Pass, slot: Slot, rank: nat, score: ScoreFn, lower: string -> string): Pass {
    match slot
    case Failed(id) => Pass(p.scoreMap, p.errs + [id])
    case Loaded(l) =>
      var m := Apply(p.scoreMap, lower, VerifierEvent(l, rank, score));
      Pass(CreditRecords(m, l, rank, l.records, score, lower), p.errs)
  }

  /** `list.forEach(([level, err], rank) => ...)` over the whole list. */
  function Visit(list: seq<Slot>, score: ScoreFn, lower: string -> string): Pass
    decreases |list|
  {
    if list == [] then Pass([], [])
    else
      var n := |list|;
      VisitSlot(Visit(list[..n - 1], score, lower), list[n - 1], n, score, lower)
  }

  /** `list.find(([level]) => level && level.name === name)`: the first loaded level of that name. */
  function LevelNamed(list: seq<Slot>, name: string): (r: Option<Level>)
    ensures r.Some? <==> exists i :: 0 <= i < |list| && list[i].Loaded? && list[i].level.name == name
    ensures r.Some? ==> exists i :: 0 <= i < |list| && list[i] == Loaded(r.value) && r.value.name == name
                          && forall j :: 0 <= j < i ==> !(list[j].Loaded? && list[j].level.name == name)
  {
    match Seqs.Find(list, (s: Slot) => s.Loaded? && s.level.name == name)
    case Some(s) => Some(s.level)
    case None => None
  }

  /** `userCompletedLevelPaths`: paths of the levels named by the user's completions and verifications. */
  function CompletedPaths(list: seq<Slot>, s: Scores): set<string> {
    set e | e in s.completed + s.verified && LevelNamed(list, e.level).Some? :: LevelNamed(list, e.level).value.path
  }

  /** `pack.levels.every((p) => paths.has(p))`. */
  predicate Covers(paths: set<string>, pack: Pack) {
    forall i :: 0 <= i < |pack.levels| ==> pack.levels[i] in paths
  }

  function CoveredBy(paths: set<string>): Pack -> bool {
    (pack: Pack) => Covers(paths, pack)
  }

  /** The `packs` entries for the given packs. */
  function Badges(packs: seq<Pack>): (r: seq<PackBadge>)
    ensures |r| == |packs|
  {
    seq(|packs|, j requires 0 <= j < |packs| => PackBadge(packs[j].name, 0.0))
  }

  /** `packs.forEach(...)` for one user: a zero-point entry for every pack the paths cover, in pack order. */
  function CreditPacks(s: Scores, paths: set<string>, packs: seq<Pack>): (r: Scores)
    ensures r.verified == s.verified && r.completed == s.completed && r.progressed == s.progressed
    ensures r.packs == s.packs + Badges(Seqs.Filter(packs, CoveredBy(paths)))
    decreases |packs|
  {
    if packs == [] then s
    else
      var n := |packs|;
      var t := CreditPacks(s, paths, packs[..n - 1]);
      assert packs == packs[..n - 1] + [packs[n - 1]];
      Seqs.FilterAppend(packs[..n - 1], [packs[n - 1]], CoveredBy(paths));
      if Covers(paths, packs[n - 1]) then t.(packs := t.packs + [PackBadge(packs[n - 1].name, 0.0)])
      else t
  }

  /** `if (packs) { ... }`: pack credit for every user, skipped when the packs document is unavailable. */
  function AwardPacks(m: Assoc<Scores>, list: seq<Slot>, packs: Option<seq<Pack>>): (r: Assoc<Scores>)
    ensures |r| == |m|
    ensures forall i :: 0 <= i < |m| ==> r[i].0 == m[i].0
    ensures forall i :: 0 <= i < |m| ==>
              && r[i].1.verified == m[i].1.verified
              && r[i].1.completed == m[i].1.completed
              && r[i].1.progressed == m[i].1.progressed
    ensures forall i :: 0 <= i < |m| ==>
              r[i].1.packs == m[i].1.packs + match packs
                case None => []
                case Some(ps) => Badges(Seqs.Filter(ps, CoveredBy(CompletedPaths(list, m[i].1))))
  {
    match packs
    case None => m
    case Some(ps) =>
      seq(|m|, i requires 0 <= i < |m| => (m[i].0, CreditPacks(m[i].1, CompletedPaths(list, m[i].1), ps)))
  }

  /** `Array.prototype.reduce((prev, cur) => prev + cur, 0)` over scores. */
  function Sum(xs: seq<real>): real
    decreases |xs|
  {
    if xs == [] then 0.0 else Sum(xs[..|xs| - 1]) + xs[|xs| - 1]
  }

  /** `[verified, completed, progressed].flat()`, as scores. */
  function Scored(s: Scores): seq<real> {
    seq(|s.verified|, i requires 0 <= i < |s.verified| => s.verified[i].score)
    + seq(|s.completed|, i requires 0 <= i < |s.completed| => s.completed[i].score)
    + seq(|s.progressed|, i requires 0 <= i < |s.progressed| => s.progressed[i].score)
  }

  function Total(s: Scores, round: RoundFn): real {
    round(Sum(Scored(s)))
  }

  /** One leaderboard row: `{user, total, ...scores}`. */
  datatype Row = Row(user: string, total: real, scores: Scores)

  function Rows(m: Assoc<Scores>, round: RoundFn): (rows: seq<Row>)
    ensures |rows| == |m|
  {
    seq(|m|, i requires 0 <= i < |m| => Row(m[i].0, Total(m[i].1, round), m[i].1))
  }

  /** The sort key of the comparator `(a, b) => b.total - a.total`. */
  function TotalKey(r: Row): real {
    -r.total
  }

  /** The rows before sorting: every user of the pass, in insertion order. */
  function Unsorted(list: seq<Slot>, packs: Option<seq<Pack>>, score: ScoreFn, round: RoundFn,
                    lower: string -> string): seq<Row>
  {
    Rows(AwardPacks(Visit(list, score, lower).scoreMap, list, packs), round)
  }

  /**
   * `fetchLeaderboard` once its documents are loaded: the rows sorted by
   * descending total, ties in insertion order, and the ids of the failed levels.
   */
  function FetchLeaderboard(list: seq<Slot>, packs: Option<seq<Pack>>, score: ScoreFn, round: RoundFn,
                            lower: string -> string): (r: (seq<Row>, seq<string>))
    requires FailuresNamed(list)
    ensures var rows := Unsorted(list, packs, score, round, lower);
            && multiset(r.0) == multiset(rows)
            && (forall i, j :: 0 <= i < j < |r.0| ==> r.0[i].total >= r.0[j].total)
            && (forall v :: StableSort.WithKey(r.0, TotalKey, v) == StableSort.WithKey(rows, TotalKey, v))
    ensures r.1 == FailedIds(list)
  {
    var pass := Visit(list, score, lower);
    var rows := Rows(AwardPacks(pass.scoreMap, list, packs), round);
    var sorted := StableSort.SortBy(rows, TotalKey);
    assert forall i, j :: 0 <= i < j < |sorted| ==> TotalKey(sorted[i]) <= TotalKey(sorted[j]);
    VisitErrs(list, score, lower);
    (sorted, pass.errs)
  }

  /** `errs` lists exactly the failed ids, in list order. */
  lemma {:induction false} VisitErrs(list: seq<Slot>, score: ScoreFn, lower: string -> string)
    requires FailuresNamed(list)
    ensures Visit(list, score, lower).errs == FailedIds(list)
    decreases |list|
  {
    if list != [] {
      var n := |list|;
      assert list == list[..n - 1] + [list[n - 1]];
      VisitErrs(list[..n - 1], score, lower);
      FailedIdsAppend(list[..n - 1], [list[n - 1]]);
      assert FailedIds([list[n - 1]]) == if list[n - 1].Failed? then [list[n - 1].id] else [];
    }
  }
}
