/**
 * What `fetchLeaderboard` returns, stated against the reference definitions:
 * one row per merged user under the first-seen spelling, holding exactly
 * that user's entries, pack credit computed from them, and a total that
 * pack entries never contribute to.
 */
module LeaderboardRows {
  import opened Wrappers
  import opened Strings
  import Seqs
  import opened Content
  import opened Assoc
  import opened Leaderboard
  import opened LeaderboardProofs

  /** The pack entries a user with accumulator `s` earns; none when the packs document is unavailable. */
  function BadgesFor(list: seq<Slot>, packs: Option<seq<Pack>>, s: Scores): seq<PackBadge> {
    match packs
    case None => []
    case Some(ps) => Badges(Seqs.Filter(ps, CoveredBy(CompletedPaths(list, s))))
  }

  /** `row` is the row of its user as the reference definitions describe it. */
  ghost predicate RowFor(list: seq<Slot>, packs: Option<seq<Pack>>, score: ScoreFn, round: RoundFn,
                         lower: string -> string, row: Row)
  {
    var e := Expected(list, score, lower, lower(row.user));
    && row.scores.verified == e.verified
    && row.scores.completed == e.completed
    && row.scores.progressed == e.progressed
    && row.scores.packs == BadgesFor(list, packs, e)
    && row.total == Total(e, round)
  }

  /** No two rows belong to users whose names lowercase alike. */
  ghost predicate UsersDistinct(rows: seq<Row>, lower: string -> string) {
    forall i, j :: 0 <= i < j < |rows| ==> lower(rows[i].user) != lower(rows[j].user)
  }

  /** The unsorted rows: the first-seen spellings in order, each with its reference row. */
  lemma UnsortedRows(list: seq<Slot>, packs: Option<seq<Pack>>, score: ScoreFn, round: RoundFn,
                     lower: string -> string)
    requires KeepsEmpty(lower)
    ensures var rows := Unsorted(list, packs, score, round, lower);
            var names := FirstSpellings(lower, Names(list));
            && |rows| == |names|
            && (forall i :: 0 <= i < |rows| ==> rows[i].user == names[i])
            && (forall i :: 0 <= i < |rows| ==> RowFor(list, packs, score, round, lower, rows[i]))
            && UsersDistinct(rows, lower)
  {
    var m := Visit(list, score, lower).scoreMap;
    PassSummary(list, score, lower);
    var rows := Rows(AwardPacks(m, list, packs), round);
    assert forall i :: 0 <= i < |m| ==> Keys(m)[i] == m[i].0;
    forall i | 0 <= i < |rows|
      ensures rows[i].user == m[i].0 && RowFor(list, packs, score, round, lower, rows[i])
    {
      RowAt(list, packs, score, round, lower, m, i);
    }
  }

  /** The row built from an accumulator that holds its user's expected entries is that user's row. */
  lemma RowAt(list: seq<Slot>, packs: Option<seq<Pack>>, score: ScoreFn, round: RoundFn,
              lower: string -> string, m: Assoc<Scores>, i: nat)
    requires i < |m| && m[i].1 == Expected(list, score, lower, lower(m[i].0))
    ensures Rows(AwardPacks(m, list, packs), round)[i].user == m[i].0
    ensures RowFor(list, packs, score, round, lower, Rows(AwardPacks(m, list, packs), round)[i])
  {
    var a := AwardPacks(m, list, packs);
    var row := Rows(a, round)[i];
    var e := m[i].1;
    assert e.packs == [];
    assert row.scores == a[i].1;
    assert Scored(a[i].1) == Scored(e);
  }

  /** Rows of distinct users are distinct rows. */
  lemma RowsDistinct(rows: seq<Row>, lower: string -> string)
    requires UsersDistinct(rows, lower)
    ensures Seqs.Distinct(rows)
  {
  }

  /** Rows whose users are lowercase-distinct stay so under any permutation. */
  lemma PermutedUsersDistinct(a: seq<Row>, b: seq<Row>, lower: string -> string)
    requires multiset(a) == multiset(b) && UsersDistinct(b, lower)
    ensures UsersDistinct(a, lower)
  {
    RowsDistinct(b, lower);
    Seqs.PermutationDistinct(a, b);
    forall i, j | 0 <= i < j < |a|
      ensures lower(a[i].user) != lower(a[j].user)
    {
      assert a[i] in multiset(b) && a[j] in multiset(b);
      var i' :| 0 <= i' < |b| && b[i'] == a[i];
      var j' :| 0 <= j' < |b| && b[j'] == a[j];
      assert i' != j';
    }
  }

  /**
   * The leaderboard: one row per first-seen spelling, no two rows for users
   * alike after lowercasing, each row holding exactly its user's entries and
   * pack credit, sorted by descending total with ties in the order the users
   * were first met.
   */
  lemma LeaderboardContents(list: seq<Slot>, packs: Option<seq<Pack>>, score: ScoreFn, round: RoundFn,
                            lower: string -> string)
    requires KeepsEmpty(lower) && FailuresNamed(list)
    ensures var rows := FetchLeaderboard(list, packs, score, round, lower).0;
            var names := FirstSpellings(lower, Names(list));
            && |rows| == |names|
            && UsersDistinct(rows, lower)
            && (forall i :: 0 <= i < |rows| ==> rows[i].user in names)
            && (forall i :: 0 <= i < |rows| ==> RowFor(list, packs, score, round, lower, rows[i]))
            && (forall i, j :: 0 <= i < j < |rows| ==> rows[i].total >= rows[j].total)
  {
    var rows := FetchLeaderboard(list, packs, score, round, lower).0;
    var u := Unsorted(list, packs, score, round, lower);
    var names := FirstSpellings(lower, Names(list));
    UnsortedRows(list, packs, score, round, lower);
    assert |rows| == |u| by {
      assert |multiset(rows)| == |multiset(u)|;
    }
    PermutedUsersDistinct(rows, u, lower);
    PermutedRowsFor(list, packs, score, round, lower, rows, u, names);
  }

  /** A permutation of rows each built for its user, users drawn from `names`, is again such rows. */
  lemma PermutedRowsFor(list: seq<Slot>, packs: Option<seq<Pack>>, score: ScoreFn, round: RoundFn,
                        lower: string -> string, rows: seq<Row>, u: seq<Row>, names: seq<string>)
    requires multiset(rows) == multiset(u) && |u| == |names|
    requires forall k :: 0 <= k < |u| ==> u[k].user == names[k]
    requires forall k :: 0 <= k < |u| ==> RowFor(list, packs, score, round, lower, u[k])
    ensures forall i :: 0 <= i < |rows| ==> rows[i].user in names
    ensures forall i :: 0 <= i < |rows| ==> RowFor(list, packs, score, round, lower, rows[i])
  {
    forall i | 0 <= i < |rows|
      ensures rows[i].user in names && RowFor(list, packs, score, round, lower, rows[i])
    {
      assert rows[i] in multiset(u);
      var k :| 0 <= k < |u| && u[k] == rows[i];
      assert names[k] == rows[i].user;
    }
  }

  /** A pack without levels is covered by any set of paths, so every user is credited with it. */
  lemma EmptyPackCredited(list: seq<Slot>, ps: seq<Pack>, s: Scores, pack: Pack)
    requires pack in ps && pack.levels == []
    ensures PackBadge(pack.name, 0.0) in BadgesFor(list, Some(ps), s)
  {
    var f := Seqs.Filter(ps, CoveredBy(CompletedPaths(list, s)));
    assert CoveredBy(CompletedPaths(list, s))(pack);
    Seqs.FilterMembers(ps, CoveredBy(CompletedPaths(list, s)));
    var k :| 0 <= k < |f| && f[k] == pack;
    assert Badges(f)[k] == PackBadge(pack.name, 0.0);
  }

  /** Ranks between 1 and `n`, non-decreasing along `s`. */
  ghost predicate Ranked<T>(s: seq<T>, rank: T -> nat, n: nat) {
    && (forall i :: 0 <= i < |s| ==> 1 <= rank(s[i]) <= n)
    && (forall i, j :: 0 <= i < j < |s| ==> rank(s[i]) <= rank(s[j]))
  }

  /** Every element has rank `n`. */
  ghost predicate AllAt<T>(s: seq<T>, rank: T -> nat, n: nat) {
    forall i :: 0 <= i < |s| ==> rank(s[i]) == n
  }

  /** Appending the entries of the level at rank `n` keeps the order. */
  lemma RankedAppend<T>(a: seq<T>, b: seq<T>, rank: T -> nat, n: nat)
    requires 1 <= n && Ranked(a, rank, n - 1) && AllAt(b, rank, n)
    ensures Ranked(a + b, rank, n)
  {
    var s := a + b;
    forall i, j | 0 <= i < j < |s|
      ensures rank(s[i]) <= rank(s[j])
    {
      if j >= |a| {
        assert s[j] == b[j - |a|];
        if i < |a| {
          assert s[i] == a[i];
        } else {
          assert s[i] == b[i - |a|];
        }
      } else {
        assert s[i] == a[i] && s[j] == a[j];
      }
    }
    forall i | 0 <= i < |s|
      ensures 1 <= rank(s[i]) <= n
    {
      if i < |a| {
        assert s[i] == a[i];
      } else {
        assert s[i] == b[i - |a|];
      }
    }
  }

  function EntryRank(e: Entry): nat {
    e.rank
  }

  function ProgressRank(p: Progress): nat {
    p.rank
  }

  lemma {:induction false} CompletionsRank(level: Level, rank: nat, records: seq<Record>, score: ScoreFn,
                                           lower: string -> string, lk: string)
    ensures AllAt(CompletionsIn(level, rank, records, score, lower, lk), EntryRank, rank)
    ensures AllAt(ProgressionsIn(level, rank, records, score, lower, lk), ProgressRank, rank)
    decreases |records|
  {
    if records != [] {
      var pre := records[..|records| - 1];
      var r := records[|records| - 1];
      CompletionsRank(level, rank, pre, score, lower, lk);
      var es := CompletionsIn(level, rank, pre, score, lower, lk);
      var ps := ProgressionsIn(level, rank, pre, score, lower, lk);
      var es' := CompletionsIn(level, rank, records, score, lower, lk);
      var ps' := ProgressionsIn(level, rank, records, score, lower, lk);
      assert es' == es + if lower(r.user) == lk && r.percent == 100
                         then [Entry(rank, level.name, score(rank, 100, level.percentToQualify), r.link)]
                         else [];
      assert ps' == ps + if lower(r.user) == lk && r.percent != 100
                         then [Progress(rank, level.name, r.percent, score(rank, r.percent, level.percentToQualify), r.link)]
                         else [];
      forall i | 0 <= i < |es'|
        ensures EntryRank(es'[i]) == rank
      {
        if i < |es| {
          assert es'[i] == es[i];
        }
      }
      forall i | 0 <= i < |ps'|
        ensures ProgressRank(ps'[i]) == rank
      {
        if i < |ps| {
          assert ps'[i] == ps[i];
        }
      }
    }
  }

  /** Verifications come in list order, at most one per level, so their ranks strictly increase. */
  lemma {:induction false} VerifiedInListOrder(list: seq<Slot>, score: ScoreFn, lower: string -> string, lk: string)
    ensures Ranked(VerifiedOf(list, score, lower, lk), EntryRank, |list|)
    ensures forall i, j :: 0 <= i < j < |VerifiedOf(list, score, lower, lk)| ==>
              VerifiedOf(list, score, lower, lk)[i].rank < VerifiedOf(list, score, lower, lk)[j].rank
    decreases |list|
  {
    if list != [] {
      var n := |list|;
      var pre := VerifiedOf(list[..n - 1], score, lower, lk);
      var vs := VerifiedOf(list, score, lower, lk);
      VerifiedInListOrder(list[..n - 1], score, lower, lk);
      var add := match list[n - 1]
        case Failed(_) => []
        case Loaded(l) =>
          if lower(l.verifier) == lk
          then [Entry(n, l.name, score(n, 100, l.percentToQualify), l.verification)]
          else [];
      assert vs == pre + add;
      assert AllAt(add, EntryRank, n);
      RankedAppend(pre, add, EntryRank, n);
      forall i, j | 0 <= i < j < |vs|
        ensures vs[i].rank < vs[j].rank
      {
        if j < |pre| {
          assert vs[i] == pre[i] && vs[j] == pre[j];
        } else {
          assert vs[i] == pre[i] && vs[j] == add[0];
        }
      }
    }
  }

  /** Completions come in list order: their ranks never decrease. */
  lemma {:induction false} CompletedInListOrder(list: seq<Slot>, score: ScoreFn, lower: string -> string, lk: string)
    ensures Ranked(CompletedOf(list, score, lower, lk), EntryRank, |list|)
    decreases |list|
  {
    if list != [] {
      var n := |list|;
      CompletedInListOrder(list[..n - 1], score, lower, lk);
      match list[n - 1]
      case Failed(_) =>
        assert CompletedOf(list, score, lower, lk) == CompletedOf(list[..n - 1], score, lower, lk) + [];
        RankedAppend(CompletedOf(list[..n - 1], score, lower, lk), [], EntryRank, n);
      case Loaded(l) =>
        CompletionsRank(l, n, l.records, score, lower, lk);
        RankedAppend(CompletedOf(list[..n - 1], score, lower, lk), CompletionsIn(l, n, l.records, score, lower, lk),
                     EntryRank, n);
    }
  }

  /** Progress entries come in list order: their ranks never decrease. */
  lemma {:induction false} ProgressedInListOrder(list: seq<Slot>, score: ScoreFn, lower: string -> string, lk: string)
    ensures Ranked(ProgressedOf(list, score, lower, lk), ProgressRank, |list|)
    decreases |list|
  {
    if list != [] {
      var n := |list|;
      ProgressedInListOrder(list[..n - 1], score, lower, lk);
      match list[n - 1]
      case Failed(_) =>
        assert ProgressedOf(list, score, lower, lk) == ProgressedOf(list[..n - 1], score, lower, lk) + [];
        RankedAppend(ProgressedOf(list[..n - 1], score, lower, lk), [], ProgressRank, n);
      case Loaded(l) =>
        CompletionsRank(l, n, l.records, score, lower, lk);
        RankedAppend(ProgressedOf(list[..n - 1], score, lower, lk), ProgressionsIn(l, n, l.records, score, lower, lk),
                     ProgressRank, n);
    }
  }
}
