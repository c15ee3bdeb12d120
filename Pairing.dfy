/** The backtracking search for the next round's teams (findPairs).
    The head of the remaining rank list is always paired first, with the worst-ranked
    candidate first; a candidate is skipped when the pair has already been teammates. */
module Pairing {
  import opened Types
  import opened Partnerships

  /** The players of a list of teams, in order. */
  function Flatten(pairs: seq<seq<nat>>): seq<nat>
  {
    if pairs == [] then [] else pairs[0] + Flatten(pairs[1..])
  }

  lemma {:induction false} FlattenAppend(a: seq<seq<nat>>, b: seq<seq<nat>>)
    ensures Flatten(a + b) == Flatten(a) + Flatten(b)
  {
    if a == [] {
      assert a + b == b;
    } else {
      assert (a + b)[0] == a[0];
      assert (a + b)[1..] == a[1..] + b;
      FlattenAppend(a[1..], b);
    }
  }

  /** Taking one team out of a list takes its players out of the flattened list. */
  lemma FlattenRemove(pairs: seq<seq<nat>>, k: nat)
    requires k < |pairs|
    ensures multiset(Flatten(pairs)) == multiset(pairs[k]) + multiset(Flatten(pairs[..k] + pairs[k + 1..]))
  {
    var front, back := pairs[..k], pairs[k + 1..];
    var single: seq<seq<nat>> := [pairs[k]];
    SplitAround(pairs, k);
    FlattenAppend(front, single + back);
    FlattenAppend(front, back);
    FlattenAppend(single, back);
    assert Flatten(single) == pairs[k] by {
      assert |single[1..]| == 0;
    }
  }

  /** Where a player of the flattened list sits. */
  lemma {:induction false} FindInFlatten(pairs: seq<seq<nat>>, x: nat) returns (k: nat, e: nat)
    requires x in Flatten(pairs)
    ensures k < |pairs| && e < |pairs[k]| && pairs[k][e] == x
  {
    if x in pairs[0] {
      k := 0;
      e :| 0 <= e < |pairs[0]| && pairs[0][e] == x;
    } else {
      var k', e' := FindInFlatten(pairs[1..], x);
      k, e := k' + 1, e';
    }
  }

  /** Every team has two players and none of them has partnered before. */
  ghost predicate FreshPairs(pairs: seq<seq<nat>>, partnerships: set<(nat, nat)>)
  {
    forall k :: 0 <= k < |pairs| ==>
      |pairs[k]| == 2 && !HasPlayedTogether(pairs[k][0], pairs[k][1], partnerships)
  }

  /** The teams split exactly the given players into fresh pairs. */
  ghost predicate ValidPairing(pairs: seq<seq<nat>>, players: seq<nat>, partnerships: set<(nat, nat)>)
  {
    FreshPairs(pairs, partnerships) && multiset(Flatten(pairs)) == multiset(players)
  }

  /** The players other than p1 and p2, in their order. */
  function Without(players: seq<nat>, p1: nat, p2: nat): (rest: seq<nat>)
    ensures |rest| <= |players|
  {
    if players == [] then []
    else (if players[0] == p1 || players[0] == p2 then [] else [players[0]]) + Without(players[1..], p1, p2)
  }

  /** The filter drops every occurrence of p1 and p2 and keeps every other player. */
  lemma {:induction false} WithoutCount(players: seq<nat>, p1: nat, p2: nat)
    ensures forall x :: multiset(Without(players, p1, p2))[x] ==
                          if x == p1 || x == p2 then 0 else multiset(players)[x]
  {
    if players != [] {
      assert players == [players[0]] + players[1..];
      WithoutCount(players[1..], p1, p2);
    }
  }

  /** Removing the head and one other player of a repeat-free list. */
  lemma WithoutPair(players: seq<nat>, j: nat)
    requires NoRepeats(players) && 1 <= j < |players|
    ensures NoRepeats(Without(players, players[0], players[j]))
    ensures multiset(Without(players, players[0], players[j])) + multiset{players[0], players[j]} == multiset(players)
    ensures |Without(players, players[0], players[j])| == |players| - 2
  {
    var h, q := players[0], players[j];
    var r := Without(players, h, q);
    WithoutCount(players, h, q);
    NoRepeatsCount(players, h);
    NoRepeatsCount(players, q);
    forall x ensures multiset(r)[x] <= 1 {
      NoRepeatsCount(players, x);
    }
    forall i, k | 0 <= i < k < |r| ensures r[i] != r[k] {
      RepeatCount(r, i, k);
    }
    assert multiset(r) + multiset{h, q} == multiset(players);
  }

  /** Some split of the players into fresh teams of two exists. */
  ghost predicate Pairable(players: seq<nat>, partnerships: set<(nat, nat)>)
  {
    exists pairs :: ValidPairing(pairs, players, partnerships)
  }

  /** Every team pairs the head of the list still unpaired at that step with the
      lowest-ranked candidate that is allowed and leaves a list that can still be split. */
  ghost predicate WorstFirst(pairs: seq<seq<nat>>, players: seq<nat>, partnerships: set<(nat, nat)>)
    decreases |pairs|
  {
    pairs == [] ||
    exists i :: 1 <= i < |players| && pairs[0] == [players[0], players[i]] &&
      (forall j :: i < j < |players| ==> !Completable(players, j, partnerships)) &&
      WorstFirst(pairs[1..], Without(players, players[0], players[i]), partnerships)
  }

  /** Pairing the head with players[j] is allowed and the others can still be paired. */
  ghost predicate Completable(players: seq<nat>, j: int, partnerships: set<(nat, nat)>)
    requires 1 <= j < |players|
  {
    !HasPlayedTogether(players[0], players[j], partnerships) &&
    Pairable(Without(players, players[0], players[j]), partnerships)
  }

  lemma MultisetCancel(a: multiset<nat>, b: multiset<nat>, c: multiset<nat>)
    requires a + c == b + c
    ensures a == b
  {
    forall x ensures a[x] == b[x] {
      assert (a + c)[x] == a[x] + c[x] && (b + c)[x] == b[x] + c[x];
    }
  }

  /** The team of a pairing that holds the head of the list, and the head's partner. */
  lemma TeamOfHead(pairs: seq<seq<nat>>, players: seq<nat>) returns (k: nat, q: nat)
    requires NoRepeats(players) && players != []
    requires forall i :: 0 <= i < |pairs| ==> |pairs[i]| == 2
    requires multiset(Flatten(pairs)) == multiset(players)
    ensures k < |pairs| && (pairs[k] == [players[0], q] || pairs[k] == [q, players[0]])
    ensures q in players && q != players[0]
  {
    var h := players[0];
    assert h in multiset(Flatten(pairs));
    var e;
    k, e := FindInFlatten(pairs, h);
    q := pairs[k][1 - e];
    assert pairs[k] == [pairs[k][0], pairs[k][1]];
    FlattenRemove(pairs, k);
    NoRepeatsCount(players, h);
    assert multiset(pairs[k])[q] <= multiset(players)[q];
    assert q in multiset(players);
  }

  /** Dropping the head's team from a valid pairing leaves a valid pairing of the rest. */
  lemma DropHeadTeam(pairs: seq<seq<nat>>, players: seq<nat>, partnerships: set<(nat, nat)>, k: nat, j: nat)
    requires NoRepeats(players) && 1 <= j < |players|
    requires ValidPairing(pairs, players, partnerships)
    requires k < |pairs| && multiset(pairs[k]) == multiset{players[0], players[j]}
    ensures ValidPairing(pairs[..k] + pairs[k + 1..], Without(players, players[0], players[j]), partnerships)
  {
    var rest := pairs[..k] + pairs[k + 1..];
    FlattenRemove(pairs, k);
    WithoutPair(players, j);
    MultisetCancel(multiset(Flatten(rest)), multiset(Without(players, players[0], players[j])), multiset(pairs[k]));
    FreshAfterRemoval(pairs, k, partnerships);
  }

  /** Removing a team from fresh teams leaves fresh teams. */
  lemma FreshAfterRemoval(pairs: seq<seq<nat>>, k: nat, partnerships: set<(nat, nat)>)
    requires k < |pairs| && FreshPairs(pairs, partnerships)
    ensures FreshPairs(pairs[..k] + pairs[k + 1..], partnerships)
  {
    var rest := pairs[..k] + pairs[k + 1..];
    forall i | 0 <= i < |rest| ensures |rest[i]| == 2 && !HasPlayedTogether(rest[i][0], rest[i][1], partnerships) {
      if i < k { assert rest[i] == pairs[i]; } else { assert rest[i] == pairs[i + 1]; }
    }
  }

  /** In any valid pairing the head has a partner, so some choice of partner is completable. */
  lemma HeadHasCompletablePartner(pairs: seq<seq<nat>>, players: seq<nat>, partnerships: set<(nat, nat)>)
    requires NoRepeats(players) && players != []
    requires ValidPairing(pairs, players, partnerships)
    ensures exists j :: 1 <= j < |players| && Completable(players, j, partnerships)
  {
    var k, q := TeamOfHead(pairs, players);
    var j :| 0 <= j < |players| && players[j] == q;
    assert multiset(pairs[k]) == multiset{players[0], q};
    DropHeadTeam(pairs, players, partnerships, k, j);
    assert !HasPlayedTogether(pairs[k][0], pairs[k][1], partnerships);
    assert Completable(players, j, partnerships);
  }

  /** Prepending the head's fresh team to a valid pairing of the rest pairs the whole list. */
  lemma ExtendPairing(available: seq<nat>, i: nat, rest: seq<seq<nat>>, partnerships: set<(nat, nat)>)
    requires NoRepeats(available) && 1 <= i < |available|
    requires !HasPlayedTogether(available[0], available[i], partnerships)
    requires ValidPairing(rest, Without(available, available[0], available[i]), partnerships)
    ensures ValidPairing([[available[0], available[i]]] + rest, available, partnerships)
  {
    ExtendFlatten(available, i, rest);
    ExtendFresh(available[0], available[i], rest, partnerships);
  }

  lemma ExtendFlatten(available: seq<nat>, i: nat, rest: seq<seq<nat>>)
    requires NoRepeats(available) && 1 <= i < |available|
    requires multiset(Flatten(rest)) == multiset(Without(available, available[0], available[i]))
    ensures multiset(Flatten([[available[0], available[i]]] + rest)) == multiset(available)
  {
    var p1, p2 := available[0], available[i];
    var pairs := [[p1, p2]] + rest;
    assert pairs[0] == [p1, p2] && pairs[1..] == rest;
    assert Flatten(pairs) == [p1, p2] + Flatten(rest);
    WithoutPair(available, i);
  }

  lemma ExtendFresh(p1: nat, p2: nat, rest: seq<seq<nat>>, partnerships: set<(nat, nat)>)
    requires !HasPlayedTogether(p1, p2, partnerships) && FreshPairs(rest, partnerships)
    ensures FreshPairs([[p1, p2]] + rest, partnerships)
  {
    var pairs := [[p1, p2]] + rest;
    forall k | 0 <= k < |pairs| ensures |pairs[k]| == 2 && !HasPlayedTogether(pairs[k][0], pairs[k][1], partnerships) {
      if k > 0 { assert pairs[k] == rest[k - 1]; }
    }
  }

  /** A list that splits into pairs has even length. */
  lemma EvenLength(pairs: seq<seq<nat>>, players: seq<nat>)
    requires forall k :: 0 <= k < |pairs| ==> |pairs[k]| == 2
    requires multiset(Flatten(pairs)) == multiset(players)
    ensures |players| == 2 * |pairs|
  {
    FlattenLength(pairs);
    assert |multiset(Flatten(pairs))| == |Flatten(pairs)|;
  }

  /** Success at candidate i: the pairing found meets every promise of the search. */
  lemma SearchSucceeds(available: seq<nat>, i: nat, rest: seq<seq<nat>>, partnerships: set<(nat, nat)>)
    requires NoRepeats(available) && 1 <= i < |available|
    requires !HasPlayedTogether(available[0], available[i], partnerships)
    requires ValidPairing(rest, Without(available, available[0], available[i]), partnerships)
    requires WorstFirst(rest, Without(available, available[0], available[i]), partnerships)
    requires forall j :: i < j < |available| ==> !Completable(available, j, partnerships)
    ensures SearchOutcome(available, partnerships, Some([[available[0], available[i]]] + rest))
  {
    ExtendPairing(available, i, rest, partnerships);
    ExtendWorstFirst(available, i, rest, partnerships);
  }

  /** Prepending the head's team with the last candidate that could succeed to a worst-first
      split of the rest gives a worst-first split of the whole list. */
  lemma ExtendWorstFirst(available: seq<nat>, i: nat, rest: seq<seq<nat>>, partnerships: set<(nat, nat)>)
    requires 1 <= i < |available|
    requires WorstFirst(rest, Without(available, available[0], available[i]), partnerships)
    requires forall j :: i < j < |available| ==> !Completable(available, j, partnerships)
    ensures WorstFirst([[available[0], available[i]]] + rest, available, partnerships)
  {
    var pairs := [[available[0], available[i]]] + rest;
    assert pairs[0] == [available[0], available[i]] && pairs[1..] == rest;
  }

  /** Failure: when no partner of the head is completable, no valid pairing exists. */
  lemma SearchFails(available: seq<nat>, partnerships: set<(nat, nat)>)
    requires NoRepeats(available) && available != []
    requires forall j :: 1 <= j < |available| ==> !Completable(available, j, partnerships)
    ensures !Pairable(available, partnerships)
  {
    forall pairs ensures ValidPairing(pairs, available, partnerships) ==>
                           exists j :: 1 <= j < |available| && Completable(available, j, partnerships) {
      if ValidPairing(pairs, available, partnerships) {
        HeadHasCompletablePartner(pairs, available, partnerships);
      }
    }
  }

  /** A list of odd length cannot be split into teams of two; a lone player gets null. */
  lemma OddCountUnpairable(players: seq<nat>, partnerships: set<(nat, nat)>)
    requires |players| % 2 == 1
    ensures !Pairable(players, partnerships)
  {
    forall pairs ensures ValidPairing(pairs, players, partnerships) ==> |players| == 2 * |pairs| {
      if ValidPairing(pairs, players, partnerships) {
        EvenLength(pairs, players);
      }
    }
  }

  /** One step of the search loop: try the partner at position i of the list. */
  method TryPartner(available: seq<nat>, i: nat, partnerships: set<(nat, nat)>)
    returns (result: Option<seq<seq<nat>>>)
    requires NoRepeats(available) && 1 <= i < |available|
    requires forall j :: i < j < |available| ==> !Completable(available, j, partnerships)
    ensures result.Some? ==> SearchOutcome(available, partnerships, result)
    ensures result.None? ==> !Completable(available, i, partnerships)
    decreases |available|, 0
  {
    var p1, p2 := available[0], available[i];
    if HasPlayedTogether(p1, p2, partnerships) {
      return None;
    }
    WithoutPair(available, i);
    var rest := FindPairs(Without(available, p1, p2), partnerships);
    if rest.None? {
      return None;
    }
    SearchSucceeds(available, i, rest.value, partnerships);
    return Some([[p1, p2]] + rest.value);
  }

  /** Everything findPairs promises about its result. */
  ghost predicate SearchOutcome(available: seq<nat>, partnerships: set<(nat, nat)>, result: Option<seq<seq<nat>>>)
  {
    (result.Some? ==> ValidPairing(result.value, available, partnerships)) &&
    (result.Some? ==> WorstFirst(result.value, available, partnerships)) &&
    (result.None? <==> !Pairable(available, partnerships))
  }

  /** findPairs: pair the head of `available` with the worst-ranked allowed partner whose
      removal leaves a list that can itself be paired; null when there is none. */
  method FindPairs(available: seq<nat>, partnerships: set<(nat, nat)>) returns (result: Option<seq<seq<nat>>>)
    requires NoRepeats(available)
    ensures SearchOutcome(available, partnerships, result)
    decreases |available|, 1
  {
    if |available| == 0 {
      assert ValidPairing([], available, partnerships);
      return Some([]);
    }
    var i := |available| - 1;
    while i >= 1
      invariant 0 <= i < |available|
      invariant forall j :: i < j < |available| ==> !Completable(available, j, partnerships)
    {
      result := TryPartner(available, i, partnerships);
      if result.Some? {
        return;
      }
      i := i - 1;
    }
    SearchFails(available, partnerships);
    return None;
  }

  lemma {:induction false} FlattenLength(pairs: seq<seq<nat>>)
    requires forall k :: 0 <= k < |pairs| ==> |pairs[k]| == 2
    ensures |Flatten(pairs)| == 2 * |pairs|
  {
    if pairs != [] {
      assert |pairs[0]| == 2;
      FlattenLength(pairs[1..]);
    }
  }

  /** The teams after the first of fresh teams are fresh. */
  lemma FreshTail(pairs: seq<seq<nat>>, partnerships: set<(nat, nat)>)
    requires pairs != [] && FreshPairs(pairs, partnerships)
    ensures FreshPairs(pairs[1..], partnerships)
  {
    forall k | 0 <= k < |pairs| - 1
      ensures |pairs[1..][k]| == 2 && !HasPlayedTogether(pairs[1..][k][0], pairs[1..][k][1], partnerships)
    {
      assert pairs[1..][k] == pairs[k + 1];
    }
  }

  /** The first team of a valid pairing takes a completable partner of the head, and the
      other teams validly pair the rest. */
  lemma HeadTeamCompletable(pairs: seq<seq<nat>>, players: seq<nat>, partnerships: set<(nat, nat)>, i: nat)
    requires NoRepeats(players) && 1 <= i < |players|
    requires ValidPairing(pairs, players, partnerships)
    requires pairs != [] && pairs[0] == [players[0], players[i]]
    ensures Completable(players, i, partnerships)
    ensures ValidPairing(pairs[1..], Without(players, players[0], players[i]), partnerships)
  {
    var rest := Without(players, players[0], players[i]);
    var head := multiset{players[0], players[i]};
    WithoutPair(players, i);
    assert Flatten(pairs) == pairs[0] + Flatten(pairs[1..]);
    assert multiset(pairs[0]) == head;
    MultisetCancel(multiset(Flatten(pairs[1..])), multiset(rest), head);
    FreshTail(pairs, partnerships);
    assert ValidPairing(pairs[1..], rest, partnerships);
  }

  /** The candidate a worst-first pairing gives the head, and what it promises. */
  lemma WorstFirstHead(pairs: seq<seq<nat>>, players: seq<nat>, partnerships: set<(nat, nat)>) returns (i: nat)
    requires pairs != [] && WorstFirst(pairs, players, partnerships)
    ensures 1 <= i < |players| && pairs[0] == [players[0], players[i]]
    ensures forall j :: i < j < |players| ==> !Completable(players, j, partnerships)
    ensures WorstFirst(pairs[1..], Without(players, players[0], players[i]), partnerships)
  {
    i :| 1 <= i < |players| && pairs[0] == [players[0], players[i]] &&
      (forall j :: i < j < |players| ==> !Completable(players, j, partnerships)) &&
      WorstFirst(pairs[1..], Without(players, players[0], players[i]), partnerships);
  }

  /** Two completable candidates, each beyond which nothing is completable, coincide. */
  lemma LastCompletable(players: seq<nat>, partnerships: set<(nat, nat)>, i: nat, k: nat)
    requires 1 <= i < |players| && 1 <= k < |players|
    requires Completable(players, i, partnerships) && Completable(players, k, partnerships)
    requires forall j :: i < j < |players| ==> !Completable(players, j, partnerships)
    requires forall j :: k < j < |players| ==> !Completable(players, j, partnerships)
    ensures i == k
  {
  }

  /** The promises of the search pin its result down: two results meeting them are equal. */
  lemma {:induction false} SearchResultUnique(players: seq<nat>, partnerships: set<(nat, nat)>,
                                             x: seq<seq<nat>>, y: seq<seq<nat>>)
    requires NoRepeats(players)
    requires ValidPairing(x, players, partnerships) && WorstFirst(x, players, partnerships)
    requires ValidPairing(y, players, partnerships) && WorstFirst(y, players, partnerships)
    ensures x == y
    decreases |players|
  {
    EvenLength(x, players);
    EvenLength(y, players);
    if players != [] {
      var i := WorstFirstHead(x, players, partnerships);
      var k := WorstFirstHead(y, players, partnerships);
      HeadTeamCompletable(x, players, partnerships, i);
      HeadTeamCompletable(y, players, partnerships, k);
      LastCompletable(players, partnerships, i, k);
      WithoutPair(players, i);
      var rest := Without(players, players[0], players[i]);
      SearchResultUnique(rest, partnerships, x[1..], y[1..]);
      SameHeadAndTail(x, y);
    }
  }

  /** The high-low split: best with worst, second with second-worst, and so on inwards. */
  function HighLow(players: seq<nat>): (pairs: seq<seq<nat>>)
    ensures |pairs| == |players| / 2
    decreases |players|
  {
    if |players| < 2 then [] else [[players[0], players[|players| - 1]]] + HighLow(players[1..|players| - 1])
  }

  lemma {:induction false} WithoutConcat(a: seq<nat>, b: seq<nat>, p1: nat, p2: nat)
    ensures Without(a + b, p1, p2) == Without(a, p1, p2) + Without(b, p1, p2)
  {
    if a == [] {
      assert a + b == b;
    } else {
      assert (a + b)[0] == a[0] && (a + b)[1..] == a[1..] + b;
      WithoutConcat(a[1..], b, p1, p2);
    }
  }

  lemma {:induction false} WithoutAbsent(s: seq<nat>, p1: nat, p2: nat)
    requires forall k :: 0 <= k < |s| ==> s[k] != p1 && s[k] != p2
    ensures Without(s, p1, p2) == s
  {
    if s != [] {
      assert forall k :: 0 <= k < |s| - 1 ==> s[1..][k] == s[k + 1];
      WithoutAbsent(s[1..], p1, p2);
      assert s == [s[0]] + s[1..];
    }
  }

  /** Taking out the first and the last player of a repeat-free list leaves the middle. */
  lemma WithoutEnds(players: seq<nat>)
    requires NoRepeats(players) && |players| >= 2
    ensures Without(players, players[0], players[|players| - 1]) == players[1..|players| - 1]
  {
    var n := |players|;
    var h, l, mid := players[0], players[n - 1], players[1..n - 1];
    EndsAndMiddle(players);
    forall k | 0 <= k < |mid| ensures mid[k] != h && mid[k] != l {
      assert mid[k] == players[k + 1];
    }
    WithoutConcat([h], mid + [l], h, l);
    WithoutConcat(mid, [l], h, l);
    WithoutAbsent(mid, h, l);
    assert Without([h], h, l) == [] && Without([l], h, l) == [];
  }

  lemma NoRepeatsMiddle(players: seq<nat>)
    requires NoRepeats(players) && |players| >= 2
    ensures NoRepeats(players[1..|players| - 1])
  {
    var mid := players[1..|players| - 1];
    forall i, j | 0 <= i < j < |mid| ensures mid[i] != mid[j] {
      assert mid[i] == players[i + 1] && mid[j] == players[j + 1];
    }
  }

  /** When every high-low team is fresh, the high-low split meets every promise of the search. */
  lemma {:induction false} HighLowFound(players: seq<nat>, partnerships: set<(nat, nat)>)
    requires NoRepeats(players) && |players| % 2 == 0
    requires FreshPairs(HighLow(players), partnerships)
    ensures ValidPairing(HighLow(players), players, partnerships)
    ensures WorstFirst(HighLow(players), players, partnerships)
    decreases |players|
  {
    if |players| == 0 {
      assert ValidPairing([], players, partnerships);
    } else {
      var mid := players[1..|players| - 1];
      HighLowUnfold(players, partnerships);
      NoRepeatsMiddle(players);
      HighLowFound(mid, partnerships);
      HighLowStep(players, HighLow(mid), partnerships);
    }
  }

  /** The first high-low team is fresh, and so are the high-low teams of the middle. */
  lemma HighLowUnfold(players: seq<nat>, partnerships: set<(nat, nat)>)
    requires |players| >= 2 && FreshPairs(HighLow(players), partnerships)
    ensures HighLow(players) == [[players[0], players[|players| - 1]]] + HighLow(players[1..|players| - 1])
    ensures !HasPlayedTogether(players[0], players[|players| - 1], partnerships)
    ensures FreshPairs(HighLow(players[1..|players| - 1]), partnerships)
    ensures |players[1..|players| - 1]| % 2 == |players| % 2
  {
    var pairs := HighLow(players);
    assert pairs[0] == [players[0], players[|players| - 1]] && pairs[1..] == HighLow(players[1..|players| - 1]);
    FreshTail(pairs, partnerships);
  }

  /** One inward step: the head paired with the last player, before a fresh, worst-first
      split of the middle. */
  lemma HighLowStep(players: seq<nat>, rest: seq<seq<nat>>, partnerships: set<(nat, nat)>)
    requires NoRepeats(players) && |players| >= 2
    requires !HasPlayedTogether(players[0], players[|players| - 1], partnerships)
    requires ValidPairing(rest, players[1..|players| - 1], partnerships)
    requires WorstFirst(rest, players[1..|players| - 1], partnerships)
    ensures ValidPairing([[players[0], players[|players| - 1]]] + rest, players, partnerships)
    ensures WorstFirst([[players[0], players[|players| - 1]]] + rest, players, partnerships)
  {
    var last := |players| - 1;
    WithoutEnds(players);
    assert Without(players, players[0], players[last]) == players[1..last];
    ExtendPairing(players, last, rest, partnerships);
    ExtendWorstFirst(players, last, rest, partnerships);
  }

  /** Whenever all high-low teams are fresh, the search returns exactly the high-low split. */
  lemma HighLowPreferred(players: seq<nat>, partnerships: set<(nat, nat)>, result: Option<seq<seq<nat>>>)
    requires NoRepeats(players) && |players| % 2 == 0
    requires SearchOutcome(players, partnerships, result)
    ensures FreshPairs(HighLow(players), partnerships) ==> result == Some(HighLow(players))
  {
    if FreshPairs(HighLow(players), partnerships) {
      HighLowFound(players, partnerships);
      SearchResultUnique(players, partnerships, result.value, HighLow(players));
    }
  }
}
