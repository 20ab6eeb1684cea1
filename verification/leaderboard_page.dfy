/**
 * The leaderboard page: the search over the board and the map from a row of
 * the filtered table back to the user's place on the board.
 */
module LeaderboardPage {
  import opened Strings
  import opened Pages
  import Seqs
  import opened Content
  import opened Leaderboard
  import LeaderboardRows

  /** The row filter of a non-blank query: the lowercased user name contains the query. */
  function UserMatches(f: Folding, query: string): Row -> bool {
    (row: Row) => Contains(f.lower(row.user), Needle(f, query))
  }

  /** `filteredLeaderboard`: the whole board for a blank query, else the matching rows in board order. */
  function FilteredBoard(board: seq<Row>, f: Folding, query: string): (r: seq<Row>)
    ensures Blank(f, query) ==> r == board
    ensures !Blank(f, query) ==> forall i :: 0 <= i < |r| ==>
              r[i] in board && Contains(f.lower(r[i].user), Needle(f, query))
    ensures !Blank(f, query) ==>
              forall i :: 0 <= i < |board| && UserMatches(f, query)(board[i]) ==> board[i] in r
    ensures !Blank(f, query) ==>
              && (forall n :: 0 <= n < |r| ==>
                    Seqs.NthIndex(board, UserMatches(f, query), n) < |board| && r[n] == board[Seqs.NthIndex(board, UserMatches(f, query), n)])
              && Seqs.NthIndex(board, UserMatches(f, query), |r|) == |board|
  {
    if Blank(f, query) then board
    else
      Seqs.FilterMembers(board, UserMatches(f, query));
      Seqs.FilterInOrder(board, UserMatches(f, query));
      Seqs.Filter(board, UserMatches(f, query))
  }

  /**
   * `getOriginalIndex`: the identity for a blank query or an index past the
   * filtered table; otherwise the first board position whose user is the
   * user of the filtered row.
   */
  function OriginalIndex(board: seq<Row>, f: Folding, query: string, filteredIndex: nat): (r: int)
    ensures Blank(f, query) || filteredIndex >= |FilteredBoard(board, f, query)| ==> r == filteredIndex
    ensures !Blank(f, query) && filteredIndex < |FilteredBoard(board, f, query)| ==>
              var user := FilteredBoard(board, f, query)[filteredIndex].user;
              && 0 <= r < |board|
              && board[r].user == user
              && forall j :: 0 <= j < r ==> board[j].user != user
  {
    if Blank(f, query) then filteredIndex
    else
      var filtered := FilteredBoard(board, f, query);
      if filteredIndex >= |filtered| then filteredIndex
      else
        var user := filtered[filteredIndex].user;
        assert filtered[filteredIndex] in board;
        Seqs.FindIndex(board, (row: Row) => row.user == user)
  }

  /** No two rows of the board share a user name. */
  predicate UniqueUsers(board: seq<Row>) {
    forall i, j :: 0 <= i < j < |board| ==> board[i].user != board[j].user
  }

  /**
   * With unique user names, a filtered row maps to its own place on the
   * board: the position of the matching row it is, so the map is the one
   * the filter induces.
   */
  lemma OriginalIndexFaithful(board: seq<Row>, f: Folding, query: string, i: nat)
    requires UniqueUsers(board)
    requires i < |FilteredBoard(board, f, query)|
    ensures 0 <= OriginalIndex(board, f, query, i) < |board|
    ensures board[OriginalIndex(board, f, query, i)] == FilteredBoard(board, f, query)[i]
    ensures !Blank(f, query) ==> OriginalIndex(board, f, query, i) == Seqs.NthIndex(board, UserMatches(f, query), i)
  {
    if !Blank(f, query) {
      var filtered := FilteredBoard(board, f, query);
      assert filtered == Seqs.Filter(board, UserMatches(f, query));
      var k := Seqs.NthIndex(board, UserMatches(f, query), i);
      var r := OriginalIndex(board, f, query, i);
      assert board[k] == filtered[i];
      assert r <= k;
      assert board[r].user == board[k].user;
      assert r == k;
    }
  }

  /** With unique user names, later filtered rows map to later board positions. */
  lemma OriginalIndexIncreasing(board: seq<Row>, f: Folding, query: string, m: nat, n: nat)
    requires UniqueUsers(board)
    requires m < n < |FilteredBoard(board, f, query)|
    ensures OriginalIndex(board, f, query, m) < OriginalIndex(board, f, query, n)
  {
    OriginalIndexFaithful(board, f, query, m);
    OriginalIndexFaithful(board, f, query, n);
    if !Blank(f, query) {
      Seqs.NthIndexIncreasing(board, UserMatches(f, query), m, n);
    }
  }

  /** The board `fetchLeaderboard` builds has unique user names, so the page's map is faithful on it. */
  lemma FetchedBoardUnique(list: seq<Slot>, packs: Wrappers.Option<seq<Pack>>, score: ScoreFn, round: RoundFn,
                           lower: string -> string)
    requires KeepsEmpty(lower) && FailuresNamed(list)
    ensures UniqueUsers(FetchLeaderboard(list, packs, score, round, lower).0)
  {
    LeaderboardRows.LeaderboardContents(list, packs, score, round, lower);
  }

  /**
   * While a search is active, clicking the only row of the filtered table,
   * whose user is not first on the board, highlights no row.
   */
  lemma ActiveAsWrittenMisses(board: seq<Row>, f: Folding, query: string)
    requires UniqueUsers(board)
    requires !Blank(f, query) && |FilteredBoard(board, f, query)| == 1
    requires !UserMatches(f, query)(board[0])
    ensures !ActiveAsWritten(OriginalIndex(board, f, query, 0), 0)
  {
    OriginalIndexFaithful(board, f, query, 0);
    var filtered := FilteredBoard(board, f, query);
    assert filtered[0] in board;
  }

  /** The highlighted row compared through the same map the click uses. */
  predicate Active(board: seq<Row>, f: Folding, query: string, selected: int, row: nat) {
    selected == OriginalIndex(board, f, query, row)
  }

  /** With unique user names, after a click on a filtered row that row and no other is highlighted. */
  lemma ActiveIsClicked(board: seq<Row>, f: Folding, query: string, clicked: nat, row: nat)
    requires UniqueUsers(board)
    requires clicked < |FilteredBoard(board, f, query)| && row < |FilteredBoard(board, f, query)|
    ensures Active(board, f, query, OriginalIndex(board, f, query, clicked), row) <==> row == clicked
  {
    if row < clicked {
      OriginalIndexIncreasing(board, f, query, row, clicked);
    } else if clicked < row {
      OriginalIndexIncreasing(board, f, query, clicked, row);
    }
  }
}
