/**
 * What the pass of `fetchLeaderboard` computes for each user, stated without
 * reference to the pass: keys are the first-seen spellings of the names,
 * no two alike after lowercasing, and each user's entries are exactly the
 * verifications and records filed under a name that lowercases like theirs.
 */
module LeaderboardProofs {
  import opened Strings
  import opened Content
  import opened Assoc
  import opened Leaderboard
  import opened LeaderboardEvents

  /** The accumulator the contributions `evs` filed under the lowercase name `lk` add up to, starting from `g`. */
  function GatherOnto(g: Scores, evs: seq<Event>, lower: string -> string, lk: string): Scores
    decreases |evs|
  {
    if evs == [] then g
    else
      var h := GatherOnto(g, evs[..|evs| - 1], lower, lk);
      if lower(evs[|evs| - 1].user) == lk then AddCredit(h, evs[|evs| - 1].credit) else h
  }

  lemma {:induction false} GatherAppend(g: Scores, a: seq<Event>, b: seq<Event>, lower: string -> string, lk: string)
    ensures GatherOnto(g, a + b, lower, lk) == GatherOnto(GatherOnto(g, a, lower, lk), b, lower, lk)
    decreases |b|
  {
    if b == [] {
      assert a + b == a;
    } else {
      var n := |b|;
      assert (a + b)[..|a + b| - 1] == a + b[..n - 1];
      assert (a + b)[|a + b| - 1] == b[n - 1];
      GatherAppend(g, a, b[..n - 1], lower, lk);
    }
  }

  /** The user names of a contribution stream, in order. */
  function Users(evs: seq<Event>): (us: seq<string>)
    ensures |us| == |evs|
  {
    seq(|evs|, i requires 0 <= i < |evs| => evs[i].user)
  }

  /** Each name whose lowercase was not seen before, in order of first appearance: the first-seen spellings. */
  function FirstSpellings(lower: string -> string, names: seq<string>): seq<string>
    decreases |names|
  {
    if names == [] then []
    else
      var f := FirstSpellings(lower, names[..|names| - 1]);
      var n := names[|names| - 1];
      if exists j :: 0 <= j < |f| && lower(f[j]) == lower(n) then f else f + [n]
  }

  /** `m` is what filing `evs` produces: the keys, their accumulators, and nobody else. */
  ghost predicate Summarises(m: Assoc<Scores>, lower: string -> string, evs: seq<Event>) {
    && LowerDistinct(m, lower)
    && Keys(m) == FirstSpellings(lower, Users(evs))
    && (forall i :: 0 <= i < |m| ==> m[i].1 == GatherOnto(Fresh, evs, lower, lower(m[i].0)))
    && (forall lk :: (forall i :: 0 <= i < |m| ==> lower(m[i].0) != lk) ==> GatherOnto(Fresh, evs, lower, lk) == Fresh)
  }

  lemma GatherStep(evs: seq<Event>, ev: Event, lower: string -> string, lk: string)
    ensures GatherOnto(Fresh, evs + [ev], lower, lk)
         == if lower(ev.user) == lk then AddCredit(GatherOnto(Fresh, evs, lower, lk), ev.credit)
            else GatherOnto(Fresh, evs, lower, lk)
  {
    assert (evs + [ev])[..|evs|] == evs;
  }

  lemma SpellingsStep(lower: string -> string, evs: seq<Event>, ev: Event)
    ensures FirstSpellings(lower, Users(evs + [ev]))
         == var f := FirstSpellings(lower, Users(evs));
            if exists j :: 0 <= j < |f| && lower(f[j]) == lower(ev.user) then f else f + [ev.user]
  {
    UsersAppend(evs, [ev]);
    SpellingsSnoc(lower, Users(evs), ev.user);
  }

  /** Where `Apply` files a contribution: into the accumulator of the matching key, or a new one at the end. */
  lemma ApplyShape(m: Assoc<Scores>, lower: string -> string, ev: Event)
    requires KeepsEmpty(lower)
    requires LowerDistinct(m, lower)
    ensures Apply(m, lower, ev)
         == (var idx := LowerIndex(m, lower, ev.user);
             if idx >= 0 then m[idx := (m[idx].0, AddCredit(m[idx].1, ev.credit))]
             else m + [(ev.user, AddCredit(Fresh, ev.credit))])
  {
    var idx := LowerIndex(m, lower, ev.user);
    ResolveFirstSpelling(m, lower, ev.user);
    if idx >= 0 {
      KeyIndexOwn(m, lower, idx);
    } else {
      KeyIndexAbsent(m, lower, ev.user);
    }
  }

  /** Filing into an existing accumulator keeps the keys. */
  lemma ExistingKeys(m: Assoc<Scores>, lower: string -> string, evs: seq<Event>, ev: Event, idx: nat, r: Assoc<Scores>)
    requires Summarises(m, lower, evs)
    requires idx < |m| && lower(m[idx].0) == lower(ev.user)
    requires r == m[idx := (m[idx].0, AddCredit(m[idx].1, ev.credit))]
    ensures LowerDistinct(r, lower)
    ensures Keys(r) == FirstSpellings(lower, Users(evs + [ev]))
  {
    assert Keys(r) == Keys(m);
    SpellingsStep(lower, evs, ev);
    assert Keys(m)[idx] == m[idx].0;
  }

  /** Filing into an existing accumulator keeps every accumulator the gathering of its name. */
  lemma ExistingGather(m: Assoc<Scores>, lower: string -> string, evs: seq<Event>, ev: Event, idx: nat, r: Assoc<Scores>)
    requires Summarises(m, lower, evs)
    requires idx < |m| && lower(m[idx].0) == lower(ev.user)
    requires r == m[idx := (m[idx].0, AddCredit(m[idx].1, ev.credit))]
    ensures forall i :: 0 <= i < |r| ==> r[i].1 == GatherOnto(Fresh, evs + [ev], lower, lower(r[i].0))
  {
    forall i | 0 <= i < |r|
      ensures r[i].1 == GatherOnto(Fresh, evs + [ev], lower, lower(r[i].0))
    {
      GatherStep(evs, ev, lower, lower(r[i].0));
    }
  }

  /** Filing into an existing accumulator gives nothing to names without a key. */
  lemma ExistingAbsent(m: Assoc<Scores>, lower: string -> string, evs: seq<Event>, ev: Event, idx: nat, r: Assoc<Scores>)
    requires Summarises(m, lower, evs)
    requires idx < |m| && lower(m[idx].0) == lower(ev.user)
    requires r == m[idx := (m[idx].0, AddCredit(m[idx].1, ev.credit))]
    ensures forall lk :: (forall i :: 0 <= i < |r| ==> lower(r[i].0) != lk) ==> GatherOnto(Fresh, evs + [ev], lower, lk) == Fresh
  {
    forall lk | forall i :: 0 <= i < |r| ==> lower(r[i].0) != lk
      ensures GatherOnto(Fresh, evs + [ev], lower, lk) == Fresh
    {
      assert lower(r[idx].0) != lk;
      assert forall i :: 0 <= i < |m| ==> lower(m[i].0) != lk by {
        forall i | 0 <= i < |m| ensures lower(m[i].0) != lk {
          assert r[i].0 == m[i].0;
        }
      }
      GatherStep(evs, ev, lower, lk);
    }
  }

  /** A contribution for a user already present goes to that user's accumulator; nothing else changes. */
  lemma ApplyExisting(m: Assoc<Scores>, lower: string -> string, evs: seq<Event>, ev: Event)
    requires KeepsEmpty(lower)
    requires Summarises(m, lower, evs)
    requires LowerIndex(m, lower, ev.user) >= 0
    ensures Summarises(Apply(m, lower, ev), lower, evs + [ev])
  {
    var idx := LowerIndex(m, lower, ev.user);
    ApplyShape(m, lower, ev);
    var r := Apply(m, lower, ev);
    ExistingKeys(m, lower, evs, ev, idx, r);
    ExistingGather(m, lower, evs, ev, idx, r);
    ExistingAbsent(m, lower, evs, ev, idx, r);
  }

  /** Appending an unseen user keeps the keys distinct and appends its spelling. */
  lemma NewKeys(m: Assoc<Scores>, lower: string -> string, evs: seq<Event>, ev: Event, r: Assoc<Scores>)
    requires Summarises(m, lower, evs)
    requires forall i :: 0 <= i < |m| ==> lower(m[i].0) != lower(ev.user)
    requires r == m + [(ev.user, AddCredit(Fresh, ev.credit))]
    ensures LowerDistinct(r, lower)
    ensures Keys(r) == FirstSpellings(lower, Users(evs + [ev]))
  {
    var f := Keys(m);
    assert forall j :: 0 <= j < |f| ==> lower(f[j]) != lower(ev.user);
    assert Keys(r) == f + [ev.user];
    SpellingsStep(lower, evs, ev);
  }

  /** Appending an unseen user keeps every accumulator the gathering of its name. */
  lemma NewGather(m: Assoc<Scores>, lower: string -> string, evs: seq<Event>, ev: Event, r: Assoc<Scores>)
    requires Summarises(m, lower, evs)
    requires forall i :: 0 <= i < |m| ==> lower(m[i].0) != lower(ev.user)
    requires r == m + [(ev.user, AddCredit(Fresh, ev.credit))]
    ensures forall i :: 0 <= i < |r| ==> r[i].1 == GatherOnto(Fresh, evs + [ev], lower, lower(r[i].0))
  {
    assert GatherOnto(Fresh, evs, lower, lower(ev.user)) == Fresh;
    forall i | 0 <= i < |r|
      ensures r[i].1 == GatherOnto(Fresh, evs + [ev], lower, lower(r[i].0))
    {
      GatherStep(evs, ev, lower, lower(r[i].0));
      if i < |m| {
        assert r[i] == m[i];
      }
    }
  }

  /** Appending an unseen user gives nothing to names without a key. */
  lemma NewAbsent(m: Assoc<Scores>, lower: string -> string, evs: seq<Event>, ev: Event, r: Assoc<Scores>)
    requires Summarises(m, lower, evs)
    requires r == m + [(ev.user, AddCredit(Fresh, ev.credit))]
    ensures forall lk :: (forall i :: 0 <= i < |r| ==> lower(r[i].0) != lk) ==> GatherOnto(Fresh, evs + [ev], lower, lk) == Fresh
  {
    forall lk | forall i :: 0 <= i < |r| ==> lower(r[i].0) != lk
      ensures GatherOnto(Fresh, evs + [ev], lower, lk) == Fresh
    {
      assert lower(r[|m|].0) != lk;
      assert forall i :: 0 <= i < |m| ==> lower(m[i].0) != lk by {
        forall i | 0 <= i < |m| ensures lower(m[i].0) != lk {
          assert r[i] == m[i];
        }
      }
      GatherStep(evs, ev, lower, lk);
    }
  }

  /** A contribution for an unseen user appends that user, spelt as written, with a fresh accumulator. */
  lemma ApplyNew(m: Assoc<Scores>, lower: string -> string, evs: seq<Event>, ev: Event)
    requires KeepsEmpty(lower)
    requires Summarises(m, lower, evs)
    requires LowerIndex(m, lower, ev.user) == -1
    ensures Summarises(Apply(m, lower, ev), lower, evs + [ev])
  {
    ApplyShape(m, lower, ev);
    var r := Apply(m, lower, ev);
    assert forall i :: 0 <= i < |m| ==> lower(m[i].0) != lower(ev.user);
    NewKeys(m, lower, evs, ev, r);
    NewGather(m, lower, evs, ev, r);
    NewAbsent(m, lower, evs, ev, r);
  }

  /** Filing one more contribution keeps the summary. */
  lemma ApplyStep(m: Assoc<Scores>, lower: string -> string, evs: seq<Event>, ev: Event)
    requires KeepsEmpty(lower)
    requires Summarises(m, lower, evs)
    ensures Summarises(Apply(m, lower, ev), lower, evs + [ev])
  {
    if LowerIndex(m, lower, ev.user) >= 0 {
      ApplyExisting(m, lower, evs, ev);
    } else {
      ApplyNew(m, lower, evs, ev);
    }
  }

  lemma {:induction false} ReplaySummarises(lower: string -> string, evs: seq<Event>)
    requires KeepsEmpty(lower)
    ensures Summarises(Replay([], lower, evs), lower, evs)
    decreases |evs|
  {
    if evs == [] {
      assert Users(evs) == [];
    } else {
      var n := |evs|;
      ReplaySummarises(lower, evs[..n - 1]);
      assert evs == evs[..n - 1] + [evs[n - 1]];
      ApplyStep(Replay([], lower, evs[..n - 1]), lower, evs[..n - 1], evs[n - 1]);
    }
  }

  /** The `verified` entries of the user whose name lowercases to `lk`: one per loaded level they verified. */
  function VerifiedOf(list: seq<Slot>, score: ScoreFn, lower: string -> string, lk: string): seq<Entry>
    decreases |list|
  {
    if list == [] then []
    else
      var n := |list|;
      VerifiedOf(list[..n - 1], score, lower, lk)
      + match list[n - 1]
        case Failed(_) => []
        case Loaded(l) =>
          if lower(l.verifier) == lk
          then [Entry(n, l.name, score(n, 100, l.percentToQualify), l.verification)]
          else []
  }

  /** The `completed` entries from the records of one level at `rank`: its 100 percent records. */
  function CompletionsIn(level: Level, rank: nat, records: seq<Record>, score: ScoreFn,
                         lower: string -> string, lk: string): seq<Entry>
    decreases |records|
  {
    if records == [] then []
    else
      var r := records[|records| - 1];
      CompletionsIn(level, rank, records[..|records| - 1], score, lower, lk)
      + if lower(r.user) == lk && r.percent == 100
        then [Entry(rank, level.name, score(rank, 100, level.percentToQualify), r.link)]
        else []
  }

  /** The `progressed` entries from the records of one level at `rank`: its records below 100 percent. */
  function ProgressionsIn(level: Level, rank: nat, records: seq<Record>, score: ScoreFn,
                          lower: string -> string, lk: string): seq<Progress>
    decreases |records|
  {
    if records == [] then []
    else
      var r := records[|records| - 1];
      ProgressionsIn(level, rank, records[..|records| - 1], score, lower, lk)
      + if lower(r.user) == lk && r.percent != 100
        then [Progress(rank, level.name, r.percent, score(rank, r.percent, level.percentToQualify), r.link)]
        else []
  }

  function CompletedOf(list: seq<Slot>, score: ScoreFn, lower: string -> string, lk: string): seq<Entry>
    decreases |list|
  {
    if list == [] then []
    else
      var n := |list|;
      CompletedOf(list[..n - 1], score, lower, lk)
      + match list[n - 1]
        case Failed(_) => []
        case Loaded(l) => CompletionsIn(l, n, l.records, score, lower, lk)
  }

  function ProgressedOf(list: seq<Slot>, score: ScoreFn, lower: string -> string, lk: string): seq<Progress>
    decreases |list|
  {
    if list == [] then []
    else
      var n := |list|;
      ProgressedOf(list[..n - 1], score, lower, lk)
      + match list[n - 1]
        case Failed(_) => []
        case Loaded(l) => ProgressionsIn(l, n, l.records, score, lower, lk)
  }

  /** The accumulator the user whose name lowercases to `lk` ends the pass with. */
  function Expected(list: seq<Slot>, score: ScoreFn, lower: string -> string, lk: string): Scores {
    Scores(VerifiedOf(list, score, lower, lk), CompletedOf(list, score, lower, lk),
           ProgressedOf(list, score, lower, lk), [])
  }

  /** The user names in the order the pass meets them: per loaded level, the verifier and then the record users. */
  function Names(list: seq<Slot>): seq<string>
    decreases |list|
  {
    if list == [] then []
    else
      var n := |list|;
      Names(list[..n - 1]) + SlotNames(list[n - 1])
  }

  /** The names one slot contributes: none for a failure, else the verifier and then the record users. */
  function SlotNames(slot: Slot): seq<string> {
    match slot
    case Failed(_) => []
    case Loaded(l) => [l.verifier] + seq(|l.records|, i requires 0 <= i < |l.records| => l.records[i].user)
  }

  lemma {:induction false} RecordsGather(g: Scores, level: Level, rank: nat, records: seq<Record>, score: ScoreFn,
                                         lower: string -> string, lk: string)
    ensures GatherOnto(g, RecordEvents(level, rank, records, score), lower, lk)
         == g.(completed := g.completed + CompletionsIn(level, rank, records, score, lower, lk),
               progressed := g.progressed + ProgressionsIn(level, rank, records, score, lower, lk))
    decreases |records|
  {
    var evs := RecordEvents(level, rank, records, score);
    if records == [] {
      assert g.completed + [] == g.completed;
      assert g.progressed + [] == g.progressed;
    } else {
      var n := |records|;
      assert evs[..n - 1] == RecordEvents(level, rank, records[..n - 1], score);
      RecordsGather(g, level, rank, records[..n - 1], score, lower, lk);
    }
  }

  lemma SlotGather(prefix: seq<Slot>, slot: Slot, score: ScoreFn, lower: string -> string, lk: string)
    ensures GatherOnto(Expected(prefix, score, lower, lk), SlotEvents(slot, |prefix| + 1, score), lower, lk)
         == Expected(prefix + [slot], score, lower, lk)
  {
    var list := prefix + [slot];
    var n := |list|;
    assert list[..n - 1] == prefix;
    var g := Expected(prefix, score, lower, lk);
    match slot
    case Failed(_) =>
      assert VerifiedOf(list, score, lower, lk) == VerifiedOf(prefix, score, lower, lk) + [];
      assert CompletedOf(list, score, lower, lk) == CompletedOf(prefix, score, lower, lk) + [];
      assert ProgressedOf(list, score, lower, lk) == ProgressedOf(prefix, score, lower, lk) + [];
    case Loaded(l) =>
      var v := VerifierEvent(l, n, score);
      var rs := RecordEvents(l, n, l.records, score);
      GatherAppend(g, [v], rs, lower, lk);
      assert [v][..0] == [];
      var h := GatherOnto(g, [v], lower, lk);
      assert h == g.(verified := VerifiedOf(list, score, lower, lk));
      RecordsGather(h, l, n, l.records, score, lower, lk);
  }

  /** The stream of contributions gathers, user by user, into the expected accumulators. */
  lemma {:induction false} EventsGather(list: seq<Slot>, score: ScoreFn, lower: string -> string, lk: string)
    ensures GatherOnto(Fresh, Events(list, score), lower, lk) == Expected(list, score, lower, lk)
    decreases |list|
  {
    if list != [] {
      var n := |list|;
      EventsGather(list[..n - 1], score, lower, lk);
      GatherAppend(Fresh, Events(list[..n - 1], score), SlotEvents(list[n - 1], n, score), lower, lk);
      SlotGather(list[..n - 1], list[n - 1], score, lower, lk);
      assert list[..n - 1] + [list[n - 1]] == list;
    }
  }

  lemma UsersAppend(a: seq<Event>, b: seq<Event>)
    ensures Users(a + b) == Users(a) + Users(b)
  {
  }

  lemma SlotUsers(slot: Slot, rank: nat, score: ScoreFn)
    ensures Users(SlotEvents(slot, rank, score)) == SlotNames(slot)
  {
    match slot
    case Failed(_) =>
    case Loaded(l) =>
      var evs := SlotEvents(slot, rank, score);
      assert forall i :: 0 < i < |evs| ==> evs[i] == RecordEvent(l, rank, l.records[i - 1], score);
  }

  lemma {:induction false} EventsNames(list: seq<Slot>, score: ScoreFn)
    ensures Users(Events(list, score)) == Names(list)
    decreases |list|
  {
    if list != [] {
      var n := |list|;
      EventsNames(list[..n - 1], score);
      var a := Events(list[..n - 1], score);
      var b := SlotEvents(list[n - 1], n, score);
      UsersAppend(a, b);
      SlotUsers(list[n - 1], n, score);
      assert Names(list) == Names(list[..n - 1]) + SlotNames(list[n - 1]);
    }
  }

  /** The position of the first name that lowercases to `lk`, or `|names|`. */
  function FirstAt(lower: string -> string, names: seq<string>, lk: string): (r: nat)
    ensures r <= |names|
    ensures r < |names| ==> lower(names[r]) == lk
    ensures forall j :: 0 <= j < r ==> lower(names[j]) != lk
  {
    if names == [] then 0
    else if lower(names[0]) == lk then 0
    else 1 + FirstAt(lower, names[1..], lk)
  }

  lemma FirstAtSnoc(lower: string -> string, names: seq<string>, x: string, lk: string)
    ensures FirstAt(lower, names + [x], lk)
         == if FirstAt(lower, names, lk) < |names| then FirstAt(lower, names, lk)
            else if lower(x) == lk then |names| else |names| + 1
  {
    var r := FirstAt(lower, names, lk);
    var r' := FirstAt(lower, names + [x], lk);
    assert forall j :: 0 <= j < |names| ==> (names + [x])[j] == names[j];
    assert (names + [x])[|names|] == x;
  }

  /** Each element of `f` is the first name of its lowercase class in `names`. */
  ghost predicate FirstOfClass(lower: string -> string, names: seq<string>, f: seq<string>) {
    forall i :: 0 <= i < |f| ==>
      FirstAt(lower, names, lower(f[i])) < |names| && names[FirstAt(lower, names, lower(f[i]))] == f[i]
  }

  /** Some element of `f` lowercases like `name`. */
  ghost predicate Listed(lower: string -> string, f: seq<string>, name: string) {
    exists i :: 0 <= i < |f| && lower(f[i]) == lower(name)
  }

  /** Every name's lowercase class is represented in `f`. */
  ghost predicate ClassesListed(lower: string -> string, names: seq<string>, f: seq<string>) {
    forall j :: 0 <= j < |names| ==> Listed(lower, f, names[j])
  }

  /** `f` lists the classes in the order they first appear in `names`. */
  ghost predicate InFirstOrder(lower: string -> string, names: seq<string>, f: seq<string>) {
    forall i1, i2 :: 0 <= i1 < i2 < |f| ==>
      FirstAt(lower, names, lower(f[i1])) < FirstAt(lower, names, lower(f[i2]))
  }

  /**
   * `f` lists the first-seen spellings of `names`: each is the first name of
   * its lowercase class, every name's class is listed, and classes come in
   * the order they first appear.
   */
  ghost predicate FirstSeen(lower: string -> string, names: seq<string>, f: seq<string>) {
    FirstOfClass(lower, names, f) && ClassesListed(lower, names, f) && InFirstOrder(lower, names, f)
  }

  lemma SpellingsSnoc(lower: string -> string, p: seq<string>, x: string)
    ensures FirstSpellings(lower, p + [x])
         == var f := FirstSpellings(lower, p);
            if exists j :: 0 <= j < |f| && lower(f[j]) == lower(x) then f else f + [x]
  {
    assert (p + [x])[..|p|] == p;
  }

  /** Appending a name moves no earlier class's first position. */
  lemma FirstAtKept(lower: string -> string, p: seq<string>, x: string, f: seq<string>)
    requires FirstOfClass(lower, p, f)
    ensures forall i :: 0 <= i < |f| ==>
              FirstAt(lower, p + [x], lower(f[i])) == FirstAt(lower, p, lower(f[i])) < |p|
              && (p + [x])[FirstAt(lower, p + [x], lower(f[i]))] == f[i]
  {
    forall i | 0 <= i < |f|
      ensures FirstAt(lower, p + [x], lower(f[i])) == FirstAt(lower, p, lower(f[i])) < |p|
      ensures (p + [x])[FirstAt(lower, p + [x], lower(f[i]))] == f[i]
    {
      FirstAtSnoc(lower, p, x, lower(f[i]));
    }
  }

  lemma FirstSeenOld(lower: string -> string, p: seq<string>, x: string, f: seq<string>)
    requires FirstSeen(lower, p, f)
    requires exists j :: 0 <= j < |f| && lower(f[j]) == lower(x)
    ensures FirstSeen(lower, p + [x], f)
  {
    var names := p + [x];
    FirstAtKept(lower, p, x, f);
    forall j | 0 <= j < |names|
      ensures Listed(lower, f, names[j])
    {
      if j < |p| {
        assert names[j] == p[j];
      }
    }
  }

  /** A name of a class not seen before is the first of its class. */
  lemma NewClassFirstAt(lower: string -> string, p: seq<string>, x: string, f: seq<string>)
    requires ClassesListed(lower, p, f)
    requires forall j :: 0 <= j < |f| ==> lower(f[j]) != lower(x)
    ensures FirstAt(lower, p + [x], lower(x)) == |p|
  {
    FirstAtSnoc(lower, p, x, lower(x));
    var j := FirstAt(lower, p, lower(x));
    if j < |p| {
      assert false;
    }
  }

  lemma FirstOfClassNew(lower: string -> string, p: seq<string>, x: string, f: seq<string>)
    requires FirstSeen(lower, p, f)
    requires forall j :: 0 <= j < |f| ==> lower(f[j]) != lower(x)
    ensures FirstOfClass(lower, p + [x], f + [x])
    ensures InFirstOrder(lower, p + [x], f + [x])
  {
    var names := p + [x];
    var f' := f + [x];
    FirstAtKept(lower, p, x, f);
    NewClassFirstAt(lower, p, x, f);
    assert f'[|f|] == x && names[|p|] == x;
    forall i | 0 <= i < |f'|
      ensures FirstAt(lower, names, lower(f'[i])) < |names| && names[FirstAt(lower, names, lower(f'[i]))] == f'[i]
    {
      if i < |f| {
        assert f'[i] == f[i];
      }
    }
    forall i1, i2 | 0 <= i1 < i2 < |f'|
      ensures FirstAt(lower, names, lower(f'[i1])) < FirstAt(lower, names, lower(f'[i2]))
    {
      assert f'[i1] == f[i1];
      if i2 < |f| {
        assert f'[i2] == f[i2];
      }
    }
  }

  lemma ClassesListedNew(lower: string -> string, p: seq<string>, x: string, f: seq<string>)
    requires ClassesListed(lower, p, f)
    ensures ClassesListed(lower, p + [x], f + [x])
  {
    var names := p + [x];
    var f' := f + [x];
    forall j | 0 <= j < |names|
      ensures Listed(lower, f', names[j])
    {
      if j < |p| {
        assert names[j] == p[j];
        assert Listed(lower, f, p[j]);
        var i :| 0 <= i < |f| && lower(f[i]) == lower(p[j]);
        assert f'[i] == f[i];
      } else {
        assert f'[|f|] == x && names[j] == x;
      }
    }
  }

  /** The keys the pass creates are the first-seen spellings of the names it meets. */
  lemma {:induction false} FirstSpellingsSpec(lower: string -> string, names: seq<string>)
    ensures FirstSeen(lower, names, FirstSpellings(lower, names))
    decreases |names|
  {
    if names != [] {
      var p := names[..|names| - 1];
      var x := names[|names| - 1];
      assert names == p + [x];
      FirstSpellingsSpec(lower, p);
      SpellingsSnoc(lower, p, x);
      var f := FirstSpellings(lower, p);
      if exists j :: 0 <= j < |f| && lower(f[j]) == lower(x) {
        FirstSeenOld(lower, p, x, f);
      } else {
        FirstOfClassNew(lower, p, x, f);
        ClassesListedNew(lower, p, x, f);
      }
    }
  }

  /**
   * What the pass leaves in `scoreMap`: no two keys alike after lowercasing,
   * the keys are the first-seen spellings of the names in the order they are
   * met, and each user's accumulator holds exactly the entries filed under a
   * name that lowercases like theirs.
   */
  lemma PassSummary(list: seq<Slot>, score: ScoreFn, lower: string -> string)
    requires KeepsEmpty(lower)
    ensures var m := Visit(list, score, lower).scoreMap;
            && LowerDistinct(m, lower)
            && Keys(m) == FirstSpellings(lower, Names(list))
            && (forall i :: 0 <= i < |m| ==> m[i].1 == Expected(list, score, lower, lower(m[i].0)))
  {
    var m := Visit(list, score, lower).scoreMap;
    var evs := Events(list, score);
    VisitReplays(list, score, lower);
    ReplaySummarises(lower, evs);
    EventsNames(list, score);
    forall i | 0 <= i < |m|
      ensures m[i].1 == Expected(list, score, lower, lower(m[i].0))
    {
      EventsGather(list, score, lower, lower(m[i].0));
    }
  }
}
