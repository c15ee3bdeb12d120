/** Per-player statistics aggregated from the round history (getPlayerScores). */
module Stats {
  import opened Types

  datatype PlayerScore = PlayerScore(
    index: nat,
    points: int,
    matchesPlayed: nat,
    gamesWon: int,
    gamesLost: int,
    matchWins: nat,
    matchLosses: nat)

  /** The record a player starts with. */
  function Zero(p: nat): PlayerScore
  {
    PlayerScore(p, 0, 0, 0, 0, 0, 0)
  }

  /** One appearance on a side that took `own` games against the opponents' `opp`.
      Points are games won; a strictly greater count is a win, a strictly smaller one a loss. */
  function Credit(s: PlayerScore, own: int, opp: int): (r: PlayerScore)
    ensures r.index == s.index && r.matchesPlayed == s.matchesPlayed + 1
    ensures r.points - s.points == r.gamesWon - s.gamesWon
    ensures r.matchWins + r.matchLosses <= s.matchWins + s.matchLosses + 1
  {
    s.(matchesPlayed := s.matchesPlayed + 1,
       gamesWon := s.gamesWon + own,
       gamesLost := s.gamesLost + opp,
       points := s.points + own,
       matchWins := if own > opp then s.matchWins + 1 else s.matchWins,
       matchLosses := if opp > own then s.matchLosses + 1 else s.matchLosses)
  }

  /** `times` appearances on the same side of the same match. */
  function CreditTimes(s: PlayerScore, times: nat, own: int, opp: int): (r: PlayerScore)
    ensures r.index == s.index
    decreases times
  {
    if times == 0 then s else Credit(CreditTimes(s, times - 1, own, opp), own, opp)
  }

  /** k credits for the same side, in closed form. */
  lemma {:induction false} CreditTimesTotals(s: PlayerScore, times: nat, own: int, opp: int)
    ensures var r := CreditTimes(s, times, own, opp);
            r.matchesPlayed == s.matchesPlayed + times &&
            r.points == s.points + times * own && r.gamesWon == s.gamesWon + times * own &&
            r.gamesLost == s.gamesLost + times * opp &&
            r.matchWins == s.matchWins + (if own > opp then times else 0) &&
            r.matchLosses == s.matchLosses + (if opp > own then times else 0)
  {
    if times > 0 {
      CreditTimesTotals(s, times - 1, own, opp);
      assert (times - 1) * own + own == times * own;
      assert (times - 1) * opp + opp == times * opp;
    }
  }

  /** What one match adds to player p: nothing while unscored, otherwise one credit
      per occurrence of p in each team. */
  function MatchCredit(s: PlayerScore, p: nat, m: Match): (r: PlayerScore)
    ensures r.index == s.index
    ensures m.score.None? ==> r == s
  {
    match m.score
    case None => s
    case Some(sc) =>
      var afterTeam1 := CreditTimes(s, multiset(m.team1)[p], sc.team1, sc.team2);
      CreditTimes(afterTeam1, multiset(m.team2)[p], sc.team2, sc.team1)
  }

  /** What one match adds to a record, in closed form: a and b are p's occurrences in the teams. */
  lemma MatchCreditTotals(s: PlayerScore, p: nat, m: Match)
    ensures m.score.None? ==> MatchCredit(s, p, m) == s
    ensures m.score.Some? ==>
              var sc, a, b := m.score.value, multiset(m.team1)[p], multiset(m.team2)[p];
              var r := MatchCredit(s, p, m);
              r.matchesPlayed == s.matchesPlayed + a + b &&
              r.points == s.points + a * sc.team1 + b * sc.team2 &&
              r.gamesWon == s.gamesWon + a * sc.team1 + b * sc.team2 &&
              r.gamesLost == s.gamesLost + a * sc.team2 + b * sc.team1 &&
              r.matchWins == s.matchWins + (if sc.team1 > sc.team2 then a else 0) + (if sc.team2 > sc.team1 then b else 0) &&
              r.matchLosses == s.matchLosses + (if sc.team2 > sc.team1 then a else 0) + (if sc.team1 > sc.team2 then b else 0)
  {
    if m.score.Some? {
      var sc := m.score.value;
      CreditTimesTotals(s, multiset(m.team1)[p], sc.team1, sc.team2);
      CreditTimesTotals(CreditTimes(s, multiset(m.team1)[p], sc.team1, sc.team2), multiset(m.team2)[p], sc.team2, sc.team1);
    }
  }

  /** Player p's record after the matches ms, in order. */
  function Tally(p: nat, ms: seq<Match>): (r: PlayerScore)
    ensures r.index == p
  {
    if ms == [] then Zero(p) else MatchCredit(Tally(p, ms[..|ms| - 1]), p, ms[|ms| - 1])
  }

  lemma TallyAppend(p: nat, ms: seq<Match>, m: Match)
    ensures Tally(p, ms + [m]) == MatchCredit(Tally(p, ms), p, m)
  {
    assert (ms + [m])[..|ms|] == ms;
  }

  /** The statistics of an n-player roster after the given rounds. */
  function Scores(n: nat, rounds: seq<Round>): (scores: seq<PlayerScore>)
    requires PlayersBelowIn(AllMatches(rounds), n)
    ensures |scores| == n
    ensures forall i :: 0 <= i < n ==> scores[i].index == i
    ensures rounds == [] ==> forall i :: 0 <= i < n ==> scores[i] == Zero(i)
  {
    var ms := AllMatches(rounds);
    seq(n, i requires 0 <= i => Tally(i, ms))
  }

  /** Adds one credit per occurrence in `team` to the players of that team. */
  method CreditTeam(table: array<PlayerScore>, team: seq<nat>, own: int, opp: int)
    requires forall x :: x in team ==> x < table.Length
    modifies table
    ensures forall i: nat :: i < table.Length ==>
              table[i] == CreditTimes(old(table[i]), multiset(team)[i], own, opp)
  {
    var t := 0;
    while t < |team|
      invariant 0 <= t <= |team|
      invariant forall i: nat :: i < table.Length ==>
                  table[i] == CreditTimes(old(table[i]), multiset(team[..t])[i], own, opp)
    {
      var p := team[t];
      assert p in team;
      assert team[..t + 1] == team[..t] + [p];
      ghost var counted := multiset(team[..t]);
      assert multiset(team[..t + 1]) == counted + multiset{p};
      assert CreditTimes(old(table[p]), counted[p] + 1, own, opp) == Credit(table[p], own, opp);
      table[p] := Credit(table[p], own, opp);
      assert forall i: nat :: i < table.Length && i != p ==> multiset(team[..t + 1])[i] == counted[i];
      t := t + 1;
    }
    assert team[..t] == team;
  }

  /** The body of the per-match loop: skip unscored matches, credit both teams otherwise. */
  method RecordMatch(table: array<PlayerScore>, m: Match)
    requires PlayersBelow(m, table.Length)
    modifies table
    ensures forall i: nat :: i < table.Length ==> table[i] == MatchCredit(old(table[i]), i, m)
  {
    if m.score.Some? {
      var sc := m.score.value;
      assert forall x :: x in m.team1 || x in m.team2 ==> x in m.team1 + m.team2;
      CreditTeam(table, m.team1, sc.team1, sc.team2);
      CreditTeam(table, m.team2, sc.team2, sc.team1);
    }
  }

  /** getPlayerScores: one zeroed record per player, then every match of every round is recorded. */
  method GetPlayerScores(players: seq<string>, rounds: seq<Round>) returns (scores: seq<PlayerScore>)
    requires PlayersBelowIn(AllMatches(rounds), |players|)
    ensures scores == Scores(|players|, rounds)
  {
    var n := |players|;
    var table := new PlayerScore[n](i requires 0 <= i => Zero(i));
    var r := 0;
    while r < |rounds|
      invariant 0 <= r <= |rounds|
      invariant forall i: nat :: i < n ==> table[i] == Tally(i, AllMatches(rounds[..r]))
    {
      var matches := rounds[r].matches;
      var done := AllMatches(rounds[..r]);
      AllMatchesAppend(rounds, r);
      var k := 0;
      assert done + matches[..k] == done;
      while k < |matches|
        invariant 0 <= k <= |matches|
        invariant forall i: nat :: i < n ==> table[i] == Tally(i, done + matches[..k])
      {
        AllMatchesPrefixAt(rounds, r + 1, |done| + k);
        RecordMatch(table, matches[k]);
        assert done + matches[..k + 1] == (done + matches[..k]) + [matches[k]];
        forall i: nat | i < n ensures table[i] == Tally(i, done + matches[..k + 1]) {
          TallyAppend(i, done + matches[..k], matches[k]);
        }
        k := k + 1;
      }
      assert matches[..k] == matches;
      r := r + 1;
    }
    assert rounds[..r] == rounds;
    scores := table[..];
  }

  // ----- properties of the aggregated statistics -----

  /** Points and games won grow by the same amount at every step. */
  lemma {:induction false} PointsEqualGamesWon(p: nat, ms: seq<Match>)
    ensures Tally(p, ms).points == Tally(p, ms).gamesWon
  {
    if ms != [] {
      PointsEqualGamesWon(p, ms[..|ms| - 1]);
      MatchCreditTotals(Tally(p, ms[..|ms| - 1]), p, ms[|ms| - 1]);
    }
  }

  /** A draw credits neither a win nor a loss, so decided matches never exceed matches played. */
  lemma {:induction false} DecidedAtMostPlayed(p: nat, ms: seq<Match>)
    ensures Tally(p, ms).matchWins + Tally(p, ms).matchLosses <= Tally(p, ms).matchesPlayed
  {
    if ms != [] {
      DecidedAtMostPlayed(p, ms[..|ms| - 1]);
      MatchCreditTotals(Tally(p, ms[..|ms| - 1]), p, ms[|ms| - 1]);
    }
  }

  /** The scored matches of ms, in order. */
  function Scored(ms: seq<Match>): (r: seq<Match>)
    ensures forall m :: m in r <==> m in ms && m.score.Some?
  {
    if ms == [] then []
    else
      var earlier := Scored(ms[..|ms| - 1]);
      var last := ms[|ms| - 1];
      assert forall m :: m in ms <==> m in ms[..|ms| - 1] || m == last by {
        assert ms == ms[..|ms| - 1] + [last];
      }
      if last.score.Some? then earlier + [last] else earlier
  }

  /** Matches without a score contribute nothing. */
  lemma {:induction false} UnscoredIgnored(p: nat, ms: seq<Match>)
    ensures Tally(p, ms) == Tally(p, Scored(ms))
  {
    if ms != [] {
      var earlier := ms[..|ms| - 1];
      var last := ms[|ms| - 1];
      UnscoredIgnored(p, earlier);
      if last.score.Some? {
        TallyAppend(p, Scored(earlier), last);
      }
    }
  }

  /** No player occurs twice among the four places of the match. */
  predicate DistinctPlayers(m: Match)
  {
    NoRepeats(m.team1 + m.team2)
  }

  /** The number of scored matches in which p plays. */
  function ScoredMatchesWith(p: nat, ms: seq<Match>): nat
  {
    if ms == [] then 0
    else
      var last := ms[|ms| - 1];
      ScoredMatchesWith(p, ms[..|ms| - 1])
        + (if last.score.Some? && (p in last.team1 || p in last.team2) then 1 else 0)
  }

  /** The games taken by p's own team, summed over the scored matches p plays in. */
  function GamesTakenBy(p: nat, ms: seq<Match>): int
  {
    if ms == [] then 0
    else
      var last := ms[|ms| - 1];
      GamesTakenBy(p, ms[..|ms| - 1])
        + match last.score
          case None => 0
          case Some(sc) => if p in last.team1 then sc.team1 else if p in last.team2 then sc.team2 else 0
  }

  /** One match's occurrence counts when nobody plays twice in it. */
  lemma OccurrencesInDistinctMatch(p: nat, m: Match)
    requires DistinctPlayers(m)
    ensures multiset(m.team1)[p] == (if p in m.team1 then 1 else 0)
    ensures multiset(m.team2)[p] == (if p in m.team2 && p !in m.team1 then 1 else 0)
  {
    NoRepeatsCount(m.team1 + m.team2, p);
    assert multiset(m.team1 + m.team2) == multiset(m.team1) + multiset(m.team2);
  }

  /** With well-formed matches, matchesPlayed counts the scored matches a player is in,
      and points sum that player's team's games over them. */
  lemma {:induction false} TallyCounts(p: nat, ms: seq<Match>)
    requires forall m :: m in ms ==> DistinctPlayers(m)
    ensures Tally(p, ms).matchesPlayed == ScoredMatchesWith(p, ms)
    ensures Tally(p, ms).points == GamesTakenBy(p, ms)
  {
    if ms != [] {
      var last := ms[|ms| - 1];
      TallyCounts(p, ms[..|ms| - 1]);
      OccurrencesInDistinctMatch(p, last);
      MatchCreditTotals(Tally(p, ms[..|ms| - 1]), p, last);
    }
  }
}
