# Padel Mexicano tournament engine, in Dafny

This project models the engine of a Padel "Mexicano" tournament for eight players over
seven rounds (`src/utils/mexicano.ts`, with the data shapes of `src/utils/constants.ts`).
Each round has two doubles matches. A match records two teams of player indices and,
once played, the games each team won. The engine has three parts:

- **Statistics** (`getPlayerScores`): for every player, the points, matches played, games
  won and lost, and match wins and losses. Only scored matches count, and points equal
  games won.
- **Leaderboard** (`getLeaderboard`): the statistics with names attached, sorted by points,
  then by wins minus losses, then by wins, then by games won minus games lost.
- **Next round** (`generateRound`):
  - Round 1 is a shuffle of the eight indices, cut into consecutive teams.
  - Later rounds rank the players by points. The backtracking search `findPairs` then
    forms four teams in which nobody partners a former partner. Each team is headed by
    the best player still unpaired, and partners are tried from the worst-ranked
    upwards: at every step the head takes the lowest-ranked candidate that is allowed and
    leaves a list that can still be split, so the result is determined by the ranking and
    the history. When the high-low teams 1+8, 2+7, 3+6 and 4+5 are all fresh, those are
    the teams. The teams play as team 1 vs team 4 and team 2 vs team 3.
  - When no such teams exist, rank-adjacent players are paired and the history is
    ignored.

Modules:

| module | contents |
|---|---|
| `Types` | matches, rounds, the roster constants, the flattened history |
| `Stats` | statistics as a specification function (`Tally`, `Scores`) and as the imperative pass over an array (`GetPlayerScores`) |
| `Sorting` | `Array.prototype.sort` with a comparator, as an insertion sort on sequences that promises only a sorted permutation |
| `Leaderboard` | the four-level comparator and the sorted, named leaderboard |
| `Partnerships` | the partnership set as canonical `(min, max)` pairs, built by loops (`PreviousPartnerships`) |
| `Pairing` | `findPairs` as a recursive method with a descending loop, proved against `ValidPairing` |
| `RoundGenerator` | the shuffle, the rank order, the fallback, the assembly and `GenerateRound` |

`findPairs` is exhaustive. The head of the remaining list must partner someone. The loop
tries every partner and recurses on what is left, so the search returns null exactly when
no split of the list into fresh teams exists (`FindPairs`, with `SearchFails`). The
comment at `src/utils/mexicano.ts:183` calls the search greedy and says it "might
miss" a solution; the model follows the code. As a result, `GenerateRound` falls back to
rank-adjacent teams only when every possible round repeats some partnership
(`FallbackOnlyWhenForced`).

## Model

| member | source | states |
|---|---|---|
| Types.AllMatches | src/utils/mexicano.ts:24-25 | the matches of every round, round after round, in the order the nested loops visit them; its meaning is stated by `AllMatchesMembers` and `AllMatchesPrefixAt` |
| Types.AllMatchesMembers | src/utils/mexicano.ts:24-25 | the matches visited by the nested round/match loops are exactly the matches of some round |
| Types.AllMatchesPrefixAt | src/utils/mexicano.ts:24-25 | the matches of the first r rounds are visited first, in the same positions |
| Stats.Credit | src/utils/mexicano.ts:32-41 | one appearance adds one match played, raises points and games won by the same amount, and adds at most one of a win or a loss |
| Stats.CreditTimesTotals | src/utils/mexicano.ts:31-56 | k credits for the same side add k to matches played, k times the side's games to points and games won, k times the opponents' games to games lost, and k wins or k losses only when the side won or lost outright |
| Stats.MatchCredit | src/utils/mexicano.ts:26-56 | an unscored match leaves the record unchanged and the player's index is kept; the closed form is `MatchCreditTotals` |
| Stats.MatchCreditTotals | src/utils/mexicano.ts:26-57 | an unscored match leaves a record unchanged; a scored one adds, per occurrence in each team, that team's games to points and games won, the opponents' to games lost, and a win or loss by the strict comparison |
| Stats.Tally | src/utils/mexicano.ts:13-62 | a player's record after a list of matches keeps the player's own index |
| Stats.Scores | src/utils/mexicano.ts:14-22 | one record per player, record i has index i, and with no rounds every counter is zero |
| Stats.CreditTeam | src/utils/mexicano.ts:31-42 | after the team loop, every player's record has been credited once per occurrence in the team and no other record changed |
| Stats.RecordMatch | src/utils/mexicano.ts:26-57 | an unscored match changes nothing; a scored one credits team 1 with its games against team 2's, and team 2 the other way round |
| Stats.GetPlayerScores | src/utils/mexicano.ts:13-62 | the array filled in by the nested loops equals the specification `Scores` of the roster and the history |
| Stats.PointsEqualGamesWon | src/utils/mexicano.ts:33-36 | for every player, points equal games won |
| Stats.DecidedAtMostPlayed | src/utils/mexicano.ts:27-28 | for every player, wins plus losses never exceed matches played, since a draw credits neither |
| Stats.Scored | src/utils/mexicano.ts:26 | keeps exactly the matches that carry a score |
| Stats.UnscoredIgnored | src/utils/mexicano.ts:26 | a record computed over all matches equals the one computed over the scored matches only |
| Stats.OccurrencesInDistinctMatch | src/utils/mexicano.ts:31-56 | in a match where nobody plays twice, a player is counted once on their side and never on the other |
| Stats.TallyCounts | src/utils/mexicano.ts:32-50 | with such matches, matches played is the number of scored matches containing the player, and points are the games their team won in them |
| Sorting.SortBy | src/utils/mexicano.ts:68 | the sorted list is a permutation of the input |
| Sorting.SortBySorted | src/utils/mexicano.ts:68 | under a total preorder comparator, every earlier element may precede every later one |
| Sorting.Map | src/utils/mexicano.ts:67 | the projection has the same length and element i is f of input element i |
| Sorting.MapSortBy | src/utils/mexicano.ts:123-125 | sorting and then projecting yields a permutation of the projected input |
| Leaderboard.WithNames | src/utils/mexicano.ts:67 | one entry per record, in the same order, carrying that record and `players[index]` as name |
| Leaderboard.Compare | src/utils/mexicano.ts:68-80 | negative exactly when the first entry outranks the second in the cascade, positive exactly when it is outranked, zero exactly on a tie at all four levels |
| Leaderboard.CompareIsTotalPreorder | src/utils/mexicano.ts:68-80 | the comparator orders every pair and is transitive |
| Leaderboard.GetLeaderboard | src/utils/mexicano.ts:64-81 | one entry per player, a permutation of the named records, no entry outranked by a later one, and more points always earlier |
| Leaderboard.LeaderboardEntries | src/utils/mexicano.ts:65-67 | each entry carries that player's statistics and `players[index]` as name |
| Leaderboard.LeaderboardCoversRoster | src/utils/mexicano.ts:64-81 | every player index 0..n-1 appears exactly once |
| Partnerships.TeamKey | src/utils/mexicano.ts:88-93 | the key of a two-player team, smaller index first; meaning stated by `TeamKeyMatches` |
| Partnerships.KeysOf | src/utils/mexicano.ts:86-94 | the keys of both teams of every match, scored or not; meaning stated by `KeysOfMeaning`, `KeysOfAppend` and `KeysOfConcat` |
| Partnerships.PartnershipSet | src/utils/mexicano.ts:83-97 | the keys of the whole history; `PreviousPartnerships` is proved to compute it |
| Partnerships.PairKey | src/utils/mexicano.ts:88-89 | the key is the pair with the smaller index first, in either argument order |
| Partnerships.KeysOfAppend | src/utils/mexicano.ts:86-93 | one more match adds exactly the keys of its two teams |
| Partnerships.HasPlayedTogether | src/utils/mexicano.ts:100-103 | the test is symmetric in the two players |
| Partnerships.KeysOfMeaning | src/utils/mexicano.ts:83-103 | the set holds {a, b} exactly when a and b formed a team in some match of the history, scored or not |
| Partnerships.KeysOfConcat | src/utils/mexicano.ts:85-95 | the keys of two histories one after the other are the union of their keys |
| Partnerships.AddRoundKeys | src/utils/mexicano.ts:86-94 | the per-match loop over one round adds exactly that round's team keys to the set |
| Partnerships.PreviousPartnerships | src/utils/mexicano.ts:83-97 | the set built by the nested loops equals the keys of every team of every match |
| Pairing.Without | src/utils/mexicano.ts:149 | never longer than the input; what it keeps is stated by `WithoutCount` |
| Pairing.WithoutCount | src/utils/mexicano.ts:149 | every occurrence of the two named players is dropped and every other player keeps its number of occurrences |
| Pairing.WithoutPair | src/utils/mexicano.ts:149 | filtering out the head and its partner leaves a repeat-free list two shorter with exactly the other players |
| Pairing.HeadHasCompletablePartner | src/utils/mexicano.ts:143-156 | in any fresh split, the head's partner is a candidate that passes the check and leaves a splittable rest |
| Pairing.ExtendPairing | src/utils/mexicano.ts:152-153 | prefixing a fresh head team to a fresh split of the rest splits the whole list |
| Pairing.SearchSucceeds | src/utils/mexicano.ts:150-154 | a result built at candidate i from a worst-first split of the rest is a fresh, worst-first split of the whole list, since candidate i is the last one that could succeed |
| Pairing.SearchFails | src/utils/mexicano.ts:158 | when no candidate of the loop could succeed, no fresh split of the list exists |
| Pairing.OddCountUnpairable | src/utils/mexicano.ts:136-159 | a list of odd length, such as a lone player, has no split into teams of two |
| Pairing.TryPartner | src/utils/mexicano.ts:145-156 | one loop step: success meets every promise of the search; null means the candidate cannot complete a split |
| Pairing.FindPairs | src/utils/mexicano.ts:136-159 | a result partitions the input into fresh teams, each pairing the head of the list still unpaired at that step with the lowest-ranked candidate that can still complete a split; null is returned exactly when no fresh split exists |
| Pairing.WorstFirstHead | src/utils/mexicano.ts:144-156 | in a worst-first split the first team pairs the head with a candidate beyond which no candidate could complete a split, and the rest is worst-first for the filtered list |
| Pairing.HeadTeamCompletable | src/utils/mexicano.ts:147-154 | the head team of a fresh split is an allowed pair whose removal leaves a fresh split of the rest |
| Pairing.SearchResultUnique | src/utils/mexicano.ts:136-159 | two results that are fresh, worst-first splits of the same list are equal, so the search's contract fixes its result |
| Pairing.HighLow | src/utils/mexicano.ts:131-134 | the best-with-worst split, inwards; half as many teams as players |
| Pairing.WithoutEnds | src/utils/mexicano.ts:149 | filtering out the first and last player of a repeat-free list leaves the middle, in order |
| Pairing.HighLowFound | src/utils/mexicano.ts:136-159 | when every high-low team is fresh, the high-low split is a fresh, worst-first split |
| Pairing.HighLowPreferred | src/utils/mexicano.ts:136-159 | when every high-low team is fresh, the search returns exactly the high-low split |
| RoundGenerator.ShuffledIndices | src/utils/mexicano.ts:108-113 | for every sequence of random draws, the shuffle is a permutation of 0..7 |
| RoundGenerator.ConsecutiveMatches | src/utils/mexicano.ts:115-118 | positions 0+1 vs 2+3 and 4+5 vs 6+7, unscored, used for round 1 and for the fallback at lines 190-193; `ConsecutiveIsComplete` proves it playable |
| RoundGenerator.ConsecutiveIsComplete | src/utils/mexicano.ts:115-118 | cutting any arrangement of the eight players into consecutive teams gives two unscored matches seating everyone once |
| RoundGenerator.ByPoints | src/utils/mexicano.ts:124 | the comparator lets a stand first exactly when a has at least b's points |
| RoundGenerator.RankOrder | src/utils/mexicano.ts:121-125 | the player indices sorted by points, best first, with one index per player; stated by `RankOrderIsPermutation` and `RankOrderByPoints` |
| RoundGenerator.RankOrderIsPermutation | src/utils/mexicano.ts:121-125 | the ranked indices list every player exactly once |
| RoundGenerator.SortedIndicesByPoints | src/utils/mexicano.ts:121-125 | points never increase along the ranked indices |
| RoundGenerator.RankOrderByPoints | src/utils/mexicano.ts:121-125 | points never increase along the rank order of a history |
| RoundGenerator.AssembleMatches | src/utils/mexicano.ts:208-211 | the first team against the fourth, the second against the third, unscored; stated by `AssembledTeams` and `AssembledIsComplete` |
| RoundGenerator.AssembledTeams | src/utils/mexicano.ts:208-211 | the two matches field pairs[0] vs pairs[3] and pairs[1] vs pairs[2], and together the four teams |
| RoundGenerator.AssembledIsComplete | src/utils/mexicano.ts:161-211 | a fresh split of the eight ranked players has four teams, and the assembled round is playable with no team repeated from the history |
| RoundGenerator.FallbackOnlyWhenForced | src/utils/mexicano.ts:163-193 | any playable round without a repeated team yields a fresh split, so the fallback is taken only when every playable round repeats a team |
| RoundGenerator.PairableReordered | src/utils/mexicano.ts:161 | whether fresh teams exist does not depend on the order of the list |
| RoundGenerator.GenerateRound | src/utils/mexicano.ts:105-212 | always a playable round; round 1 is consecutive teams of a permutation; later, the worst-first fresh teams of the search assembled 1st vs 4th and 2nd vs 3rd whenever any fresh split exists, and 1+8 vs 4+5, 2+7 vs 3+6 of the rank order whenever those four teams are fresh; otherwise rank-adjacent teams |
| RoundGenerator.HighLowOfEight | src/utils/mexicano.ts:198-202 | for eight ranked players the high-low teams are 1+8, 2+7, 3+6 and 4+5 |
| RoundGenerator.FreshHistoryHighLow | src/utils/mexicano.ts:136-161 | with no recorded partnership, the search over ranks 0..7 returns (0, 7), (1, 6), (2, 5), (3, 4) |
| RoundGenerator.CompleteRoundWellFormed | src/utils/mexicano.ts:115-118 | the matches of a playable round have teams of two players with indices below eight |
| RoundGenerator.AppendKeepsHistoryWellFormed | src/hooks/useTournament.ts:41-48 | appending a generated round keeps every team of the history a pair of indices below eight |

## Left out

- Rendering, timers, score entry and persistence (the React components and `useTournament`) are not modelled. The only hook behaviour modelled is the appending of a round, in `AppendKeepsHistoryWellFormed`.
- The seven-round bound is enforced by the caller (`src/hooks/useTournament.ts:38`), not the engine, so it is not modelled.
- `Math.random` becomes a nondeterministic choice of `j` in `0..i`. Only "a permutation" is proved, not the distribution.
- Partnership keys are the pairs `(min, max)`, not the strings `"min-max"`. Distinct pairs have distinct strings, so membership is the same.
- `console.error` on the fallback path is not modelled.
- `Sorting.SortBy` stands for `Array.prototype.sort`. Its contract promises only a sorted permutation. Its definition is a stable insertion sort: a new element goes before the elements it ties with, which came later in the input. So `RoundGenerator.RankOrder` keeps players with equal points in index order, as the stable sort required since ECMAScript 2019 does. `RoundGenerator.GenerateRound`'s contract, phrased through `RankOrder`, depends on that order. An engine with an unstable sort could rank tied players differently and so pair them differently.
- Scores are unbounded integers. JavaScript numbers, with `NaN`, fractions and rounding, are not modelled.
- Stats.GetPlayerScores: requires every index in the history to be below the roster size, in every match. The source throws only when such an index is in a scored match (a TypeError at `src/utils/mexicano.ts:32` or `:46`), since the check at line 26 skips unscored matches. The model asks it of every match, which every history built by `generateRound` meets. `Stats.RecordMatch` asks it of its match even when the match is unscored. `Stats.Scores`, `Leaderboard.GetLeaderboard`, `Leaderboard.LeaderboardEntries`, `Leaderboard.LeaderboardCoversRoster`, `RoundGenerator.RankOrder`, `RoundGenerator.RankOrderIsPermutation` and `RoundGenerator.RankOrderByPoints` carry the same requirement, because `getLeaderboard` and `generateRound` fail the same way through `getPlayerScores`.
- Partnerships.PreviousPartnerships: requires every team to have two members, since the source keys only `p[0]` and `p[1]` of the sorted team. A shorter team would store `undefined` in the key. A team of three or more would be keyed by its two smallest indices, and the model does not cover that case.
- RoundGenerator.GenerateRound: requires an eight-name roster and a history of two-player teams drawn from indices 0..7. The source hard-codes eight indices.
