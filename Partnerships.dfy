/** Who has already partnered whom (getPreviousPartnerships, hasPlayedTogether).
    A partnership is stored under the key (smaller index, larger index), the value
    the source writes out as the string "smaller-larger". */
module Partnerships {
  import opened Types

  /** The canonical key of the unordered pair {a, b}. */
  function PairKey(a: nat, b: nat): (k: (nat, nat))
    ensures k.0 <= k.1
    ensures k == (a, b) || k == (b, a)
  {
    if a <= b then (a, b) else (b, a)
  }

  function TeamKey(team: seq<nat>): (nat, nat)
    requires |team| == 2
  {
    PairKey(team[0], team[1])
  }

  /** The keys of both teams of every match in ms, scored or not. */
  function KeysOf(ms: seq<Match>): set<(nat, nat)>
    requires PairsOnly(ms)
  {
    if ms == [] then {}
    else
      var last := ms[|ms| - 1];
      assert TeamsArePairs(ms[|ms| - 1]);
      KeysOf(ms[..|ms| - 1]) + {TeamKey(last.team1), TeamKey(last.team2)}
  }

  lemma KeysOfAppend(ms: seq<Match>, m: Match)
    requires PairsOnly(ms) && TeamsArePairs(m)
    ensures KeysOf(ms + [m]) == KeysOf(ms) + {TeamKey(m.team1), TeamKey(m.team2)}
  {
    assert (ms + [m])[..|ms|] == ms;
    assert (ms + [m])[|ms|] == m;
  }

  /** Every partnership of the history. */
  function PartnershipSet(rounds: seq<Round>): set<(nat, nat)>
    requires PairsOnly(AllMatches(rounds))
  {
    KeysOf(AllMatches(rounds))
  }

  /** hasPlayedTogether: whether {p1, p2} is a recorded partnership. */
  function HasPlayedTogether(p1: nat, p2: nat, partnerships: set<(nat, nat)>): (r: bool)
    ensures r == (PairKey(p2, p1) in partnerships)
  {
    PairKey(p1, p2) in partnerships
  }

  /** Team t consists of a and b, in either order. */
  predicate FormedTeam(t: seq<nat>, a: nat, b: nat)
  {
    |t| == 2 && ((t[0] == a && t[1] == b) || (t[0] == b && t[1] == a))
  }

  /** a and b were teammates in some match of ms. */
  ghost predicate PartneredIn(ms: seq<Match>, a: nat, b: nat)
  {
    exists k :: 0 <= k < |ms| && (FormedTeam(ms[k].team1, a, b) || FormedTeam(ms[k].team2, a, b))
  }

  /** Two keys agree exactly when the pairs are the same unordered pair. */
  lemma TeamKeyMatches(t: seq<nat>, a: nat, b: nat)
    requires |t| == 2
    ensures TeamKey(t) == PairKey(a, b) <==> FormedTeam(t, a, b)
  {
  }

  /** The recorded set holds {a, b} exactly when a and b formed a team in some match,
      whether or not that match was scored. */
  lemma {:induction false} KeysOfMeaning(ms: seq<Match>, a: nat, b: nat)
    requires PairsOnly(ms)
    ensures HasPlayedTogether(a, b, KeysOf(ms)) <==> PartneredIn(ms, a, b)
  {
    if ms != [] {
      var earlier := ms[..|ms| - 1];
      var last := ms[|ms| - 1];
      assert TeamsArePairs(ms[|ms| - 1]);
      KeysOfMeaning(earlier, a, b);
      TeamKeyMatches(last.team1, a, b);
      TeamKeyMatches(last.team2, a, b);
      if PartneredIn(earlier, a, b) {
        var k :| 0 <= k < |earlier| && (FormedTeam(earlier[k].team1, a, b) || FormedTeam(earlier[k].team2, a, b));
        assert ms[k] == earlier[k];
      }
      if PartneredIn(ms, a, b) {
        var k :| 0 <= k < |ms| && (FormedTeam(ms[k].team1, a, b) || FormedTeam(ms[k].team2, a, b));
        if k < |earlier| {
          assert earlier[k] == ms[k];
        }
      }
    }
  }

  /** Teams of two throughout a concatenation. */
  lemma PairsOnlyConcat(a: seq<Match>, b: seq<Match>)
    requires PairsOnly(a) && PairsOnly(b)
    ensures PairsOnly(a + b)
  {
    forall k | 0 <= k < |a + b| ensures TeamsArePairs((a + b)[k]) {
      if k >= |a| {
        assert (a + b)[k] == b[k - |a|];
      }
    }
  }

  lemma {:induction false} KeysOfConcat(a: seq<Match>, b: seq<Match>)
    requires PairsOnly(a) && PairsOnly(b)
    ensures PairsOnly(a + b)
    ensures KeysOf(a + b) == KeysOf(a) + KeysOf(b)
    decreases |b|
  {
    PairsOnlyConcat(a, b);
    if b == [] {
      assert a + b == a;
    } else {
      var front, m := b[..|b| - 1], b[|b| - 1];
      assert b == front + [m];
      PairsOnlySplit(front, [m]);
      assert TeamsArePairs([m][0]);
      KeysOfConcat(a, front);
      assert a + b == (a + front) + [m];
      KeysOfAppend(a + front, m);
      KeysOfAppend(front, m);
    }
  }

  /** The per-round loop: adds the key of both teams of every match of one round. */
  method AddRoundKeys(partnerships: set<(nat, nat)>, matches: seq<Match>) returns (result: set<(nat, nat)>)
    requires PairsOnly(matches)
    ensures result == partnerships + KeysOf(matches)
  {
    result := partnerships;
    var k := 0;
    while k < |matches|
      invariant 0 <= k <= |matches|
      invariant result == partnerships + KeysOf(matches[..k])
    {
      var m := matches[k];
      assert TeamsArePairs(matches[k]);
      PrefixStep(matches, k);
      assert PairsOnly(matches[..k]);
      KeysOfAppend(matches[..k], m);
      result := result + {TeamKey(m.team1)};
      result := result + {TeamKey(m.team2)};
      k := k + 1;
    }
    assert matches[..k] == matches;
  }

  /** getPreviousPartnerships: adds the key of both teams of every match of every round. */
  method PreviousPartnerships(rounds: seq<Round>) returns (partnerships: set<(nat, nat)>)
    requires PairsOnly(AllMatches(rounds))
    ensures partnerships == PartnershipSet(rounds)
  {
    partnerships := {};
    var r := 0;
    while r < |rounds|
      invariant 0 <= r <= |rounds|
      invariant PairsOnly(AllMatches(rounds[..r]))
      invariant partnerships == KeysOf(AllMatches(rounds[..r]))
    {
      AllMatchesAppend(rounds, r);
      PairsOnlyRound(rounds, r);
      KeysOfConcat(AllMatches(rounds[..r]), rounds[r].matches);
      partnerships := AddRoundKeys(partnerships, rounds[r].matches);
      r := r + 1;
    }
    assert rounds[..r] == rounds;
  }

  /** The history of the first r rounds has teams of two. */
  lemma PairsOnlyPrefix(rounds: seq<Round>, r: nat)
    requires r <= |rounds| && PairsOnly(AllMatches(rounds))
    ensures PairsOnly(AllMatches(rounds[..r]))
  {
    var pre := AllMatches(rounds[..r]);
    forall k | 0 <= k < |pre| ensures TeamsArePairs(pre[k]) {
      AllMatchesPrefixAt(rounds, r, k);
    }
  }

  /** The history of the first r + 1 rounds, and round r on its own, have teams of two. */
  lemma PairsOnlyRound(rounds: seq<Round>, r: nat)
    requires r < |rounds| && PairsOnly(AllMatches(rounds))
    ensures PairsOnly(AllMatches(rounds[..r + 1]))
    ensures PairsOnly(rounds[r].matches)
  {
    PairsOnlyPrefix(rounds, r + 1);
    AllMatchesAppend(rounds, r);
    PairsOnlySplit(AllMatches(rounds[..r]), rounds[r].matches);
  }

  /** Both parts of a concatenation with teams of two have teams of two. */
  lemma PairsOnlySplit(a: seq<Match>, b: seq<Match>)
    requires PairsOnly(a + b)
    ensures PairsOnly(a) && PairsOnly(b)
  {
    forall k | 0 <= k < |a| ensures TeamsArePairs(a[k]) {
      assert a[k] == (a + b)[k];
    }
    forall k | 0 <= k < |b| ensures TeamsArePairs(b[k]) {
      assert b[k] == (a + b)[|a| + k];
    }
  }
}
