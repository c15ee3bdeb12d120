/** Data shapes of the tournament: matches, rounds and the fixed roster size. */
module Types {

  /** The tournament always has 8 players. */
  const TotalPlayers: nat := 8

  datatype Option<+T> = None | Some(value: T)

  /** Games won by each side in one match. */
  datatype MatchScore = MatchScore(team1: int, team2: int)

  /** Two teams of player indices and a score that is None until the match is played. */
  datatype Match = Match(team1: seq<nat>, team2: seq<nat>, score: Option<MatchScore>)

  /** The matches of one round, and an optional snapshot of the ranking (never read by the engine). */
  datatype Round = Round(matches: seq<Match>, rankings: Option<seq<nat>>)

  /** Every match of a history, round after round. */
  function AllMatches(rounds: seq<Round>): seq<Match>
  {
    if rounds == [] then [] else AllMatches(rounds[..|rounds| - 1]) + rounds[|rounds| - 1].matches
  }

  /** The flattened history holds exactly the matches of the rounds. */
  lemma {:induction false} AllMatchesMembers(rounds: seq<Round>)
    ensures forall m :: m in AllMatches(rounds) <==> exists r :: 0 <= r < |rounds| && m in rounds[r].matches
  {
    if rounds != [] {
      var earlier := rounds[..|rounds| - 1];
      AllMatchesMembers(earlier);
      assert forall r :: 0 <= r < |earlier| ==> earlier[r] == rounds[r];
    }
  }

  /** The matches of the first r rounds come first in the flattened history. */
  lemma {:induction false} AllMatchesPrefixAt(rounds: seq<Round>, r: nat, k: nat)
    requires r <= |rounds| && k < |AllMatches(rounds[..r])|
    ensures k < |AllMatches(rounds)| && AllMatches(rounds)[k] == AllMatches(rounds[..r])[k]
    decreases |rounds|
  {
    if r < |rounds| {
      var earlier := rounds[..|rounds| - 1];
      assert earlier[..r] == rounds[..r];
      AllMatchesPrefixAt(earlier, r, k);
    } else {
      assert rounds[..r] == rounds;
    }
  }

  lemma AllMatchesAppend(rounds: seq<Round>, r: nat)
    requires r < |rounds|
    ensures AllMatches(rounds[..r + 1]) == AllMatches(rounds[..r]) + rounds[r].matches
  {
    assert rounds[..r + 1][..r] == rounds[..r];
  }

  /** Every player of the match is a roster index below n. */
  predicate PlayersBelow(m: Match, n: nat)
  {
    forall x :: x in m.team1 + m.team2 ==> x < n
  }

  /** Both teams of the match have exactly two members. */
  predicate TeamsArePairs(m: Match)
  {
    |m.team1| == 2 && |m.team2| == 2
  }

  /** Every team of every match in ms has two members. */
  predicate PairsOnly(ms: seq<Match>)
  {
    forall k :: 0 <= k < |ms| ==> TeamsArePairs(ms[k])
  }

  /** Every player of every match in ms is a roster index below n. */
  predicate PlayersBelowIn(ms: seq<Match>, n: nat)
  {
    forall k :: 0 <= k < |ms| ==> PlayersBelow(ms[k], n)
  }

  /** The shape every stored history has: teams of two players drawn from an n-player roster. */
  predicate WellFormedHistory(rounds: seq<Round>, n: nat)
  {
    var ms := AllMatches(rounds);
    PairsOnly(ms) && PlayersBelowIn(ms, n)
  }

  /** The indices 0, 1, ..., n - 1 in order. */
  function Range(n: nat): (r: seq<nat>)
    ensures |r| == n
    ensures forall i :: 0 <= i < n ==> r[i] == i
  {
    seq(n, i requires 0 <= i < n => i)
  }

  predicate NoRepeats(s: seq<nat>)
  {
    forall i, j :: 0 <= i < j < |s| ==> s[i] != s[j]
  }

  lemma {:induction false} NoRepeatsCount(s: seq<nat>, x: nat)
    requires NoRepeats(s)
    ensures multiset(s)[x] <= 1
    ensures x in s ==> multiset(s)[x] == 1
  {
    if s != [] {
      assert s == [s[0]] + s[1..];
      assert NoRepeats(s[1..]) by {
        forall i, j | 0 <= i < j < |s[1..]| ensures s[1..][i] != s[1..][j] {
          assert s[1..][i] == s[i + 1] && s[1..][j] == s[j + 1];
        }
      }
      NoRepeatsCount(s[1..], x);
      assert s[0] !in s[1..];
    }
  }

  /** Two equal entries at different positions make their value occur at least twice. */
  lemma RepeatCount(s: seq<nat>, i: nat, j: nat)
    requires i < j < |s|
    ensures s[i] == s[j] ==> multiset(s)[s[i]] >= 2
  {
    assert s == s[..j] + [s[j]] + s[j + 1..];
    assert s[i] in s[..j];
  }

  /** Being repeat-free depends only on the multiset of values. */
  lemma NoRepeatsOfPermutation(s: seq<nat>, t: seq<nat>)
    requires multiset(s) == multiset(t) && NoRepeats(t)
    ensures NoRepeats(s)
  {
    forall i, j | 0 <= i < j < |s| ensures s[i] != s[j] {
      RepeatCount(s, i, j);
      NoRepeatsCount(t, s[i]);
    }
  }

  /** 0..n-1 lists each index below n exactly once. */
  lemma RangeNoRepeats(n: nat)
    ensures NoRepeats(Range(n))
    ensures forall x: nat :: x in Range(n) <==> x < n
  {
    var r := Range(n);
    forall x: nat | x < n ensures x in r { assert r[x] == x; }
    forall x | x in r ensures x < n { var i :| 0 <= i < |r| && r[i] == x; }
  }

  // ----- sequence helpers -----
  // Generic identities on sequences. They state nothing about the tournament; they only
  // split proof obligations so that each proof stays small.

  /** A prefix one longer is the prefix followed by the next element. */
  lemma PrefixStep<T>(s: seq<T>, i: nat)
    requires i < |s|
    ensures s[..i + 1] == s[..i] + [s[i]]
  {
  }

  lemma SplitAround<T>(s: seq<T>, k: nat)
    requires k < |s|
    ensures s == s[..k] + ([s[k]] + s[k + 1..])
  {
  }

  lemma EndsAndMiddle<T>(s: seq<T>)
    requires |s| >= 2
    ensures s == [s[0]] + (s[1..|s| - 1] + [s[|s| - 1]])
  {
  }

  lemma SameHeadAndTail<T>(x: seq<T>, y: seq<T>)
    requires x != [] && y != [] && x[0] == y[0] && x[1..] == y[1..]
    ensures x == y
  {
    assert x == [x[0]] + x[1..] && y == [y[0]] + y[1..];
  }

  lemma FourElements<T>(s: seq<T>)
    requires |s| == 4
    ensures s == [s[0], s[1], s[2], s[3]]
  {
  }

  lemma CutIntoPairs<T>(s: seq<T>)
    requires |s| == 8
    ensures [s[0], s[1]] + [s[2], s[3]] + [s[4], s[5]] + [s[6], s[7]] == s
  {
  }

  lemma TwoElements<T>(s: seq<T>)
    requires |s| == 2
    ensures s == [s[0], s[1]]
  {
  }
}
