/** The ranked leaderboard (getLeaderboard): every player's statistics with the name
    attached, sorted best-first by points, then match balance, then match wins, then
    game difference. */
module Leaderboard {
  import opened Types
  import opened Stats
  import opened Sorting

  datatype Entry = Entry(score: PlayerScore, name: string)

  /** Match victories minus defeats. */
  function Balance(s: PlayerScore): int
  {
    s.matchWins - s.matchLosses
  }

  function GameDifference(s: PlayerScore): int
  {
    s.gamesWon - s.gamesLost
  }

  /** a is strictly ahead of b: better at the first of the four levels where they differ. */
  ghost predicate Outranks(a: PlayerScore, b: PlayerScore)
  {
    a.points > b.points ||
    (a.points == b.points &&
      (Balance(a) > Balance(b) ||
       (Balance(a) == Balance(b) &&
         (a.matchWins > b.matchWins ||
          (a.matchWins == b.matchWins && GameDifference(a) > GameDifference(b))))))
  }

  ghost predicate TiedOnAllLevels(a: PlayerScore, b: PlayerScore)
  {
    a.points == b.points && Balance(a) == Balance(b) &&
    a.matchWins == b.matchWins && GameDifference(a) == GameDifference(b)
  }

  /** The comparator handed to sort: negative puts a first, positive puts b first. */
  function Compare(a: Entry, b: Entry): (r: int)
    ensures r < 0 <==> Outranks(a.score, b.score)
    ensures r > 0 <==> Outranks(b.score, a.score)
    ensures r == 0 <==> TiedOnAllLevels(a.score, b.score)
  {
    var x, y := a.score, b.score;
    if y.points != x.points then y.points - x.points
    else if Balance(y) != Balance(x) then Balance(y) - Balance(x)
    else if y.matchWins != x.matchWins then y.matchWins - x.matchWins
    else GameDifference(y) - GameDifference(x)
  }

  lemma CompareIsTotalPreorder()
    ensures IsTotalPreorder(Compare)
  {
    forall a, b, c | Compare(a, b) <= 0 && Compare(b, c) <= 0 ensures Compare(a, c) <= 0 {
    }
  }

  /** Each record with the name of its player attached, in the same order. */
  function WithNames(players: seq<string>, scores: seq<PlayerScore>): (named: seq<Entry>)
    requires forall i :: 0 <= i < |scores| ==> scores[i].index < |players|
    ensures |named| == |scores|
    ensures forall i :: 0 <= i < |scores| ==> named[i].score == scores[i] && named[i].name == players[scores[i].index]
  {
    seq(|scores|, i requires 0 <= i < |scores| => Entry(scores[i], players[scores[i].index]))
  }

  /** The sorted leaderboard: a permutation of the named records in which no entry is
      strictly outranked by a later one; entries tied on all four levels may come in either order. */
  function GetLeaderboard(players: seq<string>, rounds: seq<Round>): (board: seq<Entry>)
    requires PlayersBelowIn(AllMatches(rounds), |players|)
    ensures |board| == |players|
    ensures multiset(board) == multiset(WithNames(players, Scores(|players|, rounds)))
    ensures forall i, j :: 0 <= i < j < |board| ==> !Outranks(board[j].score, board[i].score)
    ensures forall i, j ::
              (0 <= i < |board| && 0 <= j < |board| && board[i].score.points > board[j].score.points) ==> i < j
  {
    var named := WithNames(players, Scores(|players|, rounds));
    CompareIsTotalPreorder();
    SortBySorted(named, Compare);
    SortBy(named, Compare)
  }

  /** Each entry carries the statistics and the name of the player it stands for. */
  lemma LeaderboardEntries(players: seq<string>, rounds: seq<Round>)
    requires PlayersBelowIn(AllMatches(rounds), |players|)
    ensures forall e :: e in GetLeaderboard(players, rounds) ==>
              e.score.index < |players| &&
              e.score == Scores(|players|, rounds)[e.score.index] &&
              e.name == players[e.score.index]
  {
    var scores := Scores(|players|, rounds);
    var named := WithNames(players, scores);
    var board := GetLeaderboard(players, rounds);
    forall e | e in board
      ensures e.score.index < |players|
      ensures e.score == scores[e.score.index]
      ensures e.name == players[e.score.index]
    {
      assert e in multiset(board);
      NamedEntry(players, scores, e);
    }
  }

  /** A named record carries the record of the player it names, and that player's name. */
  lemma NamedEntry(players: seq<string>, scores: seq<PlayerScore>, e: Entry)
    requires |scores| == |players| && forall i :: 0 <= i < |scores| ==> scores[i].index == i
    requires e in multiset(WithNames(players, scores))
    ensures e.score.index < |players| && e.score == scores[e.score.index] && e.name == players[e.score.index]
  {
    var named := WithNames(players, scores);
    var k :| 0 <= k < |named| && named[k] == e;
  }

  function PlayerOf(e: Entry): nat
  {
    e.score.index
  }

  /** Every player of the roster appears on the leaderboard exactly once. */
  lemma LeaderboardCoversRoster(players: seq<string>, rounds: seq<Round>)
    requires PlayersBelowIn(AllMatches(rounds), |players|)
    ensures multiset(Map(GetLeaderboard(players, rounds), PlayerOf)) == multiset(Range(|players|))
  {
    var named := WithNames(players, Scores(|players|, rounds));
    assert GetLeaderboard(players, rounds) == SortBy(named, Compare);
    MapSortBy(named, Compare, PlayerOf);
    NamedIndices(players, Scores(|players|, rounds));
  }

  lemma NamedIndices(players: seq<string>, scores: seq<PlayerScore>)
    requires |scores| == |players| && forall i :: 0 <= i < |scores| ==> scores[i].index == i
    ensures Map(WithNames(players, scores), PlayerOf) == Range(|players|)
  {
    var indices := Map(WithNames(players, scores), PlayerOf);
    forall i | 0 <= i < |players| ensures indices[i] == Range(|players|)[i] {
    }
  }
}
