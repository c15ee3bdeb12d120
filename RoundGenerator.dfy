/** The next round (generateRound): a random split for round 1; afterwards the players are
    ranked by points, findPairs builds four fresh teams that are set against each other as
    1st vs 4th and 2nd vs 3rd team, and rank-adjacent teams are the fallback when no fresh
    split exists. */
module RoundGenerator {
  import opened Types
  import opened Stats
  import opened Sorting
  import opened Partnerships
  import opened Pairing

  // ----- the shape of a generated round -----

  /** The two teams of every match, in order. */
  function Teams(matches: seq<Match>): (teams: seq<seq<nat>>)
    ensures |teams| == 2 * |matches|
  {
    if matches == [] then [] else [matches[0].team1, matches[0].team2] + Teams(matches[1..])
  }

  /** A playable round: two unscored matches of two-player teams that between them seat every
      one of the eight players exactly once. */
  predicate CompleteRound(matches: seq<Match>)
  {
    |matches| == 2 &&
    TeamsArePairs(matches[0]) && TeamsArePairs(matches[1]) &&
    matches[0].score.None? && matches[1].score.None? &&
    multiset(Flatten(Teams(matches))) == multiset(Range(TotalPlayers))
  }

  /** No team of the round has been a team before in the history, scored or not. */
  ghost predicate NoRepeatedPartners(matches: seq<Match>, rounds: seq<Round>)
  {
    var teams := Teams(matches);
    forall k :: 0 <= k < |teams| ==>
      |teams[k]| == 2 && !PartneredIn(AllMatches(rounds), teams[k][0], teams[k][1])
  }

  lemma Flatten4(a: seq<nat>, b: seq<nat>, c: seq<nat>, d: seq<nat>)
    ensures Flatten([a, b, c, d]) == a + b + c + d
  {
    assert [d][1..] == [];
    assert Flatten([d]) == d;
    assert [c, d][1..] == [d];
    assert Flatten([c, d]) == c + d;
    assert [b, c, d][1..] == [c, d];
    assert Flatten([b, c, d]) == b + c + d;
    assert [a, b, c, d][1..] == [b, c, d];
  }

  lemma TeamsOfTwo(m0: Match, m1: Match)
    ensures Teams([m0, m1]) == [m0.team1, m0.team2, m1.team1, m1.team2]
  {
    assert [m0, m1][1..] == [m1];
    assert [m1][1..] == [];
  }

  // ----- round 1 -----

  /** Exchanging two positions keeps the same elements. */
  lemma SwapPermutes(s: seq<nat>, i: nat, j: nat)
    requires i < |s| && j < |s|
    ensures multiset(s[i := s[j]][j := s[i]]) == multiset(s)
  {
  }

  /** The round-1 shuffle: a Fisher-Yates pass over 0..7 from the back, swapping position i
      with a position j in 0..i. The random draw is left open: any such j may be taken. */
  method ShuffledIndices() returns (indices: seq<nat>)
    ensures |indices| == TotalPlayers
    ensures multiset(indices) == multiset(Range(TotalPlayers))
  {
    var a := new nat[TotalPlayers](i requires 0 <= i => i);
    assert a[..] == Range(TotalPlayers);
    var i := a.Length - 1;
    while i > 0
      invariant 0 <= i < a.Length
      invariant multiset(a[..]) == multiset(Range(TotalPlayers))
    {
      var j :| 0 <= j <= i;
      ghost var before := a[..];
      a[i], a[j] := a[j], a[i];
      assert a[..] == before[i := before[j]][j := before[i]];
      SwapPermutes(before, i, j);
      i := i - 1;
    }
    indices := a[..];
  }

  /** Positions 0+1 against 2+3 and 4+5 against 6+7, unscored. */
  function ConsecutiveMatches(s: seq<nat>): (matches: seq<Match>)
    requires |s| == TotalPlayers
  {
    [Match([s[0], s[1]], [s[2], s[3]], None), Match([s[4], s[5]], [s[6], s[7]], None)]
  }

  /** Seating an arrangement of the eight players two by two gives a playable round. */
  lemma ConsecutiveIsComplete(s: seq<nat>)
    requires |s| == TotalPlayers && multiset(s) == multiset(Range(TotalPlayers))
    ensures CompleteRound(ConsecutiveMatches(s))
  {
    var m0 := Match([s[0], s[1]], [s[2], s[3]], None);
    var m1 := Match([s[4], s[5]], [s[6], s[7]], None);
    assert ConsecutiveMatches(s) == [m0, m1];
    TeamsOfTwo(m0, m1);
    Flatten4([s[0], s[1]], [s[2], s[3]], [s[4], s[5]], [s[6], s[7]]);
    CutIntoPairs(s);
  }

  // ----- later rounds -----

  /** The rank comparator: orders records by points, most first. */
  function ByPoints(a: PlayerScore, b: PlayerScore): (r: int)
    ensures r <= 0 <==> a.points >= b.points
  {
    b.points - a.points
  }

  lemma ByPointsIsTotalPreorder()
    ensures IsTotalPreorder(ByPoints)
  {
  }

  function IndexOf(s: PlayerScore): nat
  {
    s.index
  }

  /** sortedIndices: the player indices of the statistics sorted by points, best first. */
  function RankOrder(n: nat, rounds: seq<Round>): seq<nat>
    requires PlayersBelowIn(AllMatches(rounds), n)
  {
    Map(SortBy(Scores(n, rounds), ByPoints), IndexOf)
  }

  /** The rank order lists every player exactly once. */
  lemma RankOrderIsPermutation(n: nat, rounds: seq<Round>)
    requires PlayersBelowIn(AllMatches(rounds), n)
    ensures |RankOrder(n, rounds)| == n
    ensures multiset(RankOrder(n, rounds)) == multiset(Range(n))
    ensures NoRepeats(RankOrder(n, rounds))
  {
    var scores := Scores(n, rounds);
    MapSortBy(scores, ByPoints, IndexOf);
    assert Map(scores, IndexOf) == Range(n);
    RangeNoRepeats(n);
    NoRepeatsOfPermutation(RankOrder(n, rounds), Range(n));
  }

  /** The records of a roster: record k describes player k. */
  predicate IndexedByPlayer(scores: seq<PlayerScore>)
  {
    forall k :: 0 <= k < |scores| ==> scores[k].index == k
  }

  /** The players of `order` come with non-increasing points. */
  predicate PointsNonIncreasing(order: seq<nat>, scores: seq<PlayerScore>)
  {
    forall i, j :: 0 <= i < j < |order| ==>
      order[i] < |scores| && order[j] < |scores| && scores[order[i]].points >= scores[order[j]].points
  }

  /** Position i of the sorted indices names the player whose record is the i-th after sorting. */
  lemma SortedIndexNamesRecord(scores: seq<PlayerScore>, i: nat)
    requires IndexedByPlayer(scores) && i < |scores|
    ensures var p := Map(SortBy(scores, ByPoints), IndexOf)[i];
            p < |scores| && scores[p] == SortBy(scores, ByPoints)[i]
  {
    var sorted := SortBy(scores, ByPoints);
    var x := sorted[i];
    assert x in multiset(sorted);
    assert x in scores;
    var k :| 0 <= k < |scores| && scores[k] == x;
    assert x.index == k;
  }

  /** Sorting the records by points and keeping the indices ranks the players by points. */
  lemma SortedIndicesByPoints(scores: seq<PlayerScore>)
    requires IndexedByPlayer(scores)
    ensures PointsNonIncreasing(Map(SortBy(scores, ByPoints), IndexOf), scores)
  {
    var sorted := SortBy(scores, ByPoints);
    var order := Map(sorted, IndexOf);
    ByPointsIsTotalPreorder();
    SortBySorted(scores, ByPoints);
    forall i, j | 0 <= i < j < |order|
      ensures order[i] < |scores| && order[j] < |scores| && scores[order[i]].points >= scores[order[j]].points
    {
      SortedIndexNamesRecord(scores, i);
      SortedIndexNamesRecord(scores, j);
      assert ByPoints(sorted[i], sorted[j]) <= 0;
    }
  }

  /** Points never increase along the rank order. */
  lemma RankOrderByPoints(n: nat, rounds: seq<Round>)
    requires PlayersBelowIn(AllMatches(rounds), n)
    ensures PointsNonIncreasing(RankOrder(n, rounds), Scores(n, rounds))
  {
    SortedIndicesByPoints(Scores(n, rounds));
  }

  /** Team i of the pairing against team 3 - i: the first team against the fourth, the second against the third. */
  function AssembleMatches(pairs: seq<seq<nat>>): (matches: seq<Match>)
    requires |pairs| == 4
  {
    [Match(pairs[0], pairs[3], None), Match(pairs[1], pairs[2], None)]
  }

  /** The assembled matches field exactly the teams of the pairing. */
  lemma AssembledTeams(pairs: seq<seq<nat>>)
    requires |pairs| == 4
    ensures Teams(AssembleMatches(pairs)) == [pairs[0], pairs[3], pairs[1], pairs[2]]
    ensures multiset(Flatten(Teams(AssembleMatches(pairs)))) == multiset(Flatten(pairs))
  {
    TeamsOfTwo(Match(pairs[0], pairs[3], None), Match(pairs[1], pairs[2], None));
    Flatten4(pairs[0], pairs[3], pairs[1], pairs[2]);
    FourElements(pairs);
    Flatten4(pairs[0], pairs[1], pairs[2], pairs[3]);
  }

  /** A split of the eight players into fresh teams, set against each other, is a playable
      round in which nobody partners a former partner. */
  lemma AssembledIsComplete(pairs: seq<seq<nat>>, order: seq<nat>, rounds: seq<Round>)
    requires PairsOnly(AllMatches(rounds))
    requires multiset(order) == multiset(Range(TotalPlayers))
    requires ValidPairing(pairs, order, PartnershipSet(rounds))
    ensures |pairs| == 4
    ensures CompleteRound(AssembleMatches(pairs))
    ensures NoRepeatedPartners(AssembleMatches(pairs), rounds)
  {
    assert |multiset(order)| == |order| && |multiset(Range(TotalPlayers))| == TotalPlayers;
    EvenLength(pairs, order);
    AssembledTeams(pairs);
    var teams := Teams(AssembleMatches(pairs));
    forall k | 0 <= k < |teams| ensures |teams[k]| == 2 && !PartneredIn(AllMatches(rounds), teams[k][0], teams[k][1]) {
      assert teams[k] in pairs;
      var q :| 0 <= q < |pairs| && pairs[q] == teams[k];
      KeysOfMeaning(AllMatches(rounds), teams[k][0], teams[k][1]);
    }
  }

  /** Any playable round without a repeated team is a fresh split of the eight players, so
      the search can only fail when every playable round repeats some team. */
  lemma FallbackOnlyWhenForced(matches: seq<Match>, rounds: seq<Round>)
    requires PairsOnly(AllMatches(rounds))
    requires CompleteRound(matches) && NoRepeatedPartners(matches, rounds)
    ensures Pairable(Range(TotalPlayers), PartnershipSet(rounds))
  {
    var teams := Teams(matches);
    forall k | 0 <= k < |teams|
      ensures |teams[k]| == 2 && !HasPlayedTogether(teams[k][0], teams[k][1], PartnershipSet(rounds))
    {
      KeysOfMeaning(AllMatches(rounds), teams[k][0], teams[k][1]);
    }
    assert ValidPairing(teams, Range(TotalPlayers), PartnershipSet(rounds));
  }

  /** Whether fresh teams exist depends only on who is to be paired, not on the order. */
  lemma PairableReordered(s: seq<nat>, t: seq<nat>, partnerships: set<(nat, nat)>)
    requires multiset(s) == multiset(t)
    ensures Pairable(s, partnerships) <==> Pairable(t, partnerships)
  {
    if Pairable(s, partnerships) {
      var pairs :| ValidPairing(pairs, s, partnerships);
      assert ValidPairing(pairs, t, partnerships);
    }
    if Pairable(t, partnerships) {
      var pairs :| ValidPairing(pairs, t, partnerships);
      assert ValidPairing(pairs, s, partnerships);
    }
  }

  /** generateRound for an eight-player roster and a history of two-player teams. */
  method GenerateRound(players: seq<string>, rounds: seq<Round>) returns (matches: seq<Match>)
    requires |players| == TotalPlayers
    requires WellFormedHistory(rounds, TotalPlayers)
    ensures CompleteRound(matches)
    ensures rounds == [] ==>
              exists s: seq<nat> :: |s| == TotalPlayers && multiset(s) == multiset(Range(TotalPlayers)) &&
                matches == ConsecutiveMatches(s)
    ensures rounds != [] && Pairable(Range(TotalPlayers), PartnershipSet(rounds)) ==>
              NoRepeatedPartners(matches, rounds) &&
              exists pairs :: |pairs| == 4 && matches == AssembleMatches(pairs) &&
                SearchOutcome(RankOrder(TotalPlayers, rounds), PartnershipSet(rounds), Some(pairs))
    ensures rounds != [] && !Pairable(Range(TotalPlayers), PartnershipSet(rounds)) ==>
              matches == ConsecutiveMatches(RankOrder(TotalPlayers, rounds))
    ensures rounds != [] && FreshPairs(HighLow(RankOrder(TotalPlayers, rounds)), PartnershipSet(rounds)) ==>
              var o := RankOrder(TotalPlayers, rounds);
              matches == [Match([o[0], o[7]], [o[3], o[4]], None), Match([o[1], o[6]], [o[2], o[5]], None)]
  {
    if |rounds| == 0 {
      var indices := ShuffledIndices();
      ConsecutiveIsComplete(indices);
      matches := ConsecutiveMatches(indices);
      return;
    }
    var scores := GetPlayerScores(players, rounds);
    var sortedIndices := Map(SortBy(scores, ByPoints), IndexOf);
    var partnerships := PreviousPartnerships(rounds);
    RankOrderIsPermutation(TotalPlayers, rounds);
    PairableReordered(sortedIndices, Range(TotalPlayers), partnerships);
    var pairs := FindPairs(sortedIndices, partnerships);
    HighLowPreferred(sortedIndices, partnerships, pairs);
    HighLowOfEight(sortedIndices);
    if pairs.None? {
      ConsecutiveIsComplete(sortedIndices);
      matches := ConsecutiveMatches(sortedIndices);
      return;
    }
    AssembledIsComplete(pairs.value, sortedIndices, rounds);
    matches := AssembleMatches(pairs.value);
  }

  /** The high-low split of eight ranked players: 1st with 8th, 2nd with 7th, 3rd with 6th,
      4th with 5th. */
  lemma HighLowOfEight(s: seq<nat>)
    requires |s| == TotalPlayers
    ensures HighLow(s) == [[s[0], s[7]], [s[1], s[6]], [s[2], s[5]], [s[3], s[4]]]
  {
    var s1 := s[1..7];
    var s2 := s1[1..5];
    var s3 := s2[1..3];
    assert HighLow(s3[1..1]) == [];
    assert HighLow(s3) == [[s[3], s[4]]];
    assert HighLow(s2) == [[s[2], s[5]]] + HighLow(s3);
    assert HighLow(s1) == [[s[1], s[6]]] + HighLow(s2);
  }

  /** With no partnership recorded yet, the search over the ranks 0..7 returns the high-low
      teams (0, 7), (1, 6), (2, 5), (3, 4) and nothing else. */
  lemma FreshHistoryHighLow(result: Option<seq<seq<nat>>>)
    requires SearchOutcome(Range(TotalPlayers), {}, result)
    ensures result == Some([[0, 7], [1, 6], [2, 5], [3, 4]])
  {
    var order := Range(TotalPlayers);
    RangeNoRepeats(TotalPlayers);
    HighLowOfEight(order);
    HighLowPreferred(order, {}, result);
  }

  /** The matches of a playable round have teams of two players below eight. */
  lemma CompleteRoundWellFormed(matches: seq<Match>)
    requires CompleteRound(matches)
    ensures PairsOnly(matches) && PlayersBelowIn(matches, TotalPlayers)
  {
    var m0, m1 := matches[0], matches[1];
    TwoElements(matches);
    TeamsOfTwo(m0, m1);
    Flatten4(m0.team1, m0.team2, m1.team1, m1.team2);
    RangeNoRepeats(TotalPlayers);
    var flat := Flatten(Teams(matches));
    forall x | x in flat ensures x < TotalPlayers {
      assert x in multiset(flat);
    }
    forall k | 0 <= k < |matches| ensures PlayersBelow(matches[k], TotalPlayers) {
      forall x | x in matches[k].team1 + matches[k].team2 ensures x < TotalPlayers {
        assert x in flat;
      }
    }
  }

  /** Teams of two players below n throughout a concatenation. */
  lemma WellFormedConcat(a: seq<Match>, b: seq<Match>, n: nat)
    requires PairsOnly(a) && PlayersBelowIn(a, n) && PairsOnly(b) && PlayersBelowIn(b, n)
    ensures PairsOnly(a + b) && PlayersBelowIn(a + b, n)
  {
    forall k | 0 <= k < |a + b| ensures TeamsArePairs((a + b)[k]) && PlayersBelow((a + b)[k], n) {
      if k >= |a| {
        assert (a + b)[k] == b[k - |a|];
      }
    }
  }

  /** Appending a generated round keeps the history well formed. */
  lemma AppendKeepsHistoryWellFormed(rounds: seq<Round>, matches: seq<Match>)
    requires WellFormedHistory(rounds, TotalPlayers) && CompleteRound(matches)
    ensures WellFormedHistory(rounds + [Round(matches, None)], TotalPlayers)
  {
    var next := rounds + [Round(matches, None)];
    assert next[..|rounds|] == rounds;
    AllMatchesAppend(next, |rounds|);
    assert next[..|rounds| + 1] == next;
    CompleteRoundWellFormed(matches);
    WellFormedConcat(AllMatches(rounds), matches, TotalPlayers);
  }
}
