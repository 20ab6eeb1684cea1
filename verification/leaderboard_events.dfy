/**
 * The pass of `fetchLeaderboard` seen as one stream of contributions: every
 * loaded level contributes its verification and then its records, in list
 * order, and the pass files them one after the other.
 */
module LeaderboardEvents {
  import opened Content
  import opened Assoc
  import opened Leaderboard

  /** Files the contributions `evs` one by one into `m`. */
  function Replay(m: Assoc<Scores>, lower: string -> string, evs: seq<Event>): Assoc<Scores>
    decreases |evs|
  {
    if evs == [] then m
    else Apply(Replay(m, lower, evs[..|evs| - 1]), lower, evs[|evs| - 1])
  }

  lemma {:induction false} ReplayAppend(m: Assoc<Scores>, lower: string -> string, a: seq<Event>, b: seq<Event>)
    ensures Replay(m, lower, a + b) == Replay(Replay(m, lower, a), lower, b)
    decreases |b|
  {
    if b == [] {
      assert a + b == a;
    } else {
      var n := |b|;
      assert (a + b)[..|a + b| - 1] == a + b[..n - 1];
      assert (a + b)[|a + b| - 1] == b[n - 1];
      ReplayAppend(m, lower, a, b[..n - 1]);
    }
  }

  /** The contributions of a level's records, in record order. */
  function RecordEvents(level: Level, rank: nat, records: seq<Record>, score: ScoreFn): (evs: seq<Event>)
    ensures |evs| == |records|
  {
    seq(|records|, i requires 0 <= i < |records| => RecordEvent(level, rank, records[i], score))
  }

  /** The contributions of a whole list: per loaded level, the verification and then the records. */
  function Events(list: seq<Slot>, score: ScoreFn): seq<Event>
    decreases |list|
  {
    if list == [] then []
    else
      var n := |list|;
      Events(list[..n - 1], score) + SlotEvents(list[n - 1], n, score)
  }

  function SlotEvents(slot: Slot, rank: nat, score: ScoreFn): seq<Event> {
    match slot
    case Failed(_) => []
    case Loaded(l) => [VerifierEvent(l, rank, score)] + RecordEvents(l, rank, l.records, score)
  }

  lemma {:induction false} CreditRecordsReplays(m: Assoc<Scores>, level: Level, rank: nat, records: seq<Record>,
                                                score: ScoreFn, lower: string -> string)
    ensures CreditRecords(m, level, rank, records, score, lower)
         == Replay(m, lower, RecordEvents(level, rank, records, score))
    decreases |records|
  {
    if records != [] {
      var n := |records|;
      var evs := RecordEvents(level, rank, records, score);
      assert evs[..n - 1] == RecordEvents(level, rank, records[..n - 1], score);
      assert evs[n - 1] == RecordEvent(level, rank, records[n - 1], score);
      CreditRecordsReplays(m, level, rank, records[..n - 1], score, lower);
      assert Replay(m, lower, evs) == Apply(Replay(m, lower, evs[..n - 1]), lower, evs[n - 1]);
    }
  }

  lemma SlotReplays(p: Pass, slot: Slot, rank: nat, score: ScoreFn, lower: string -> string)
    ensures VisitSlot(p, slot, rank, score, lower).scoreMap == Replay(p.scoreMap, lower, SlotEvents(slot, rank, score))
  {
    match slot
    case Failed(_) =>
    case Loaded(l) =>
      var v := VerifierEvent(l, rank, score);
      var rs := RecordEvents(l, rank, l.records, score);
      ReplayAppend(p.scoreMap, lower, [v], rs);
      assert Replay(p.scoreMap, lower, [v]) == Apply(p.scoreMap, lower, v) by {
        assert [v][..0] == [];
      }
      CreditRecordsReplays(Apply(p.scoreMap, lower, v), l, rank, l.records, score, lower);
  }

  /** The nested loops of the pass file exactly the contribution stream, in order. */
  lemma {:induction false} VisitReplays(list: seq<Slot>, score: ScoreFn, lower: string -> string)
    ensures Visit(list, score, lower).scoreMap == Replay([], lower, Events(list, score))
    decreases |list|
  {
    if list != [] {
      var n := |list|;
      var prefix := Events(list[..n - 1], score);
      VisitReplays(list[..n - 1], score, lower);
      ReplayAppend([], lower, prefix, SlotEvents(list[n - 1], n, score));
      SlotReplays(Visit(list[..n - 1], score, lower), list[n - 1], n, score, lower);
    }
  }
}
