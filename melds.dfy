/** The meld validators of the rules module: pure sequence, sequence with jokers, set. */
module Melds {
  import opened Sequences
  import opened Sorting
  import opened Cards

  /** `cards.filter(c => !c.isJoker)`. */
  function NonJokers(cards: seq<Card>): (r: seq<Card>)
    ensures |r| <= |cards|
    ensures forall c :: c in r <==> c in cards && !c.isJoker
    ensures (forall c :: c in cards ==> !c.isJoker) ==> r == cards
  {
    if cards == [] then []
    else
      assert forall c :: c in cards <==> c == cards[0] || c in cards[1..];
      (if cards[0].isJoker then [] else [cards[0]]) + NonJokers(cards[1..])
  }

  /** `cards.filter(c => c.isJoker)`. */
  function Jokers(cards: seq<Card>): (r: seq<Card>)
    ensures |r| + |NonJokers(cards)| == |cards|
    ensures forall c :: c in r <==> c in cards && c.isJoker
  {
    if cards == [] then []
    else
      assert forall c :: c in cards <==> c == cards[0] || c in cards[1..];
      (if cards[0].isJoker then [cards[0]] else []) + Jokers(cards[1..])
  }

  /** The rank values of the cards, in hand order. */
  function RankValues(cards: seq<Card>): (r: seq<int>)
    ensures |r| == |cards| && forall i :: 0 <= i < |cards| ==> r[i] == RankValue(cards[i].rank)
  {
    seq(|cards|, i requires 0 <= i < |cards| => RankValue(cards[i].rank))
  }

  /** The rank values after `[...cards].sort((a, b) => rankValue(a.rank) - rankValue(b.rank))`.
      The loops only ever read the rank values of the sorted copy, and the sorted sequence of
      keys is the same whichever order the sort leaves equal keys in. */
  function SortedRanks(cards: seq<Card>): seq<int> {
    Sort(RankValues(cards))
  }

  /** What `isConsecutive` decides: after sorting, each rank value is one above the previous. */
  predicate Consecutive(cards: seq<Card>) {
    StepsOfOne(SortedRanks(cards))
  }

  /** `isConsecutive`. */
  method IsConsecutive(cards: seq<Card>) returns (r: bool)
    ensures r == Consecutive(cards)
  {
    var sorted := SortedRanks(cards);
    var i := 1;
    while i < |sorted|
      invariant 1 <= i
      invariant forall k :: 1 <= k < i && k < |sorted| ==> sorted[k] - sorted[k - 1] == 1
    {
      var diff := sorted[i] - sorted[i - 1];
      if diff != 1 {
        return false;
      }
      i := i + 1;
    }
    return true;
  }

  /** Without sorting: the rank values run consecutively exactly when no two are equal and the
      largest is |cards| - 1 above the smallest. Since the ace is only 0, Q-K-A is no run. */
  lemma ConsecutiveIff(cards: seq<Card>)
    ensures Consecutive(cards) <==>
      Distinct(RankValues(cards)) &&
      (|cards| == 0 || Max(RankValues(cards)) - Min(RankValues(cards)) == |cards| - 1)
  {
    var v := RankValues(cards);
    var s := Sort(v);
    StepsOfOneIff(s);
    DistinctPermutation(s, v);
    if |v| > 0 {
      SortedEnds(s, v);
    }
  }

  /** Two cards whose rank values differ by the group's size or more rule out a run. */
  lemma WideSpanIsNoRun(cards: seq<Card>, i: nat, j: nat)
    requires i < |cards| && j < |cards|
    requires RankValues(cards)[i] - RankValues(cards)[j] >= |cards|
    ensures !Consecutive(cards)
  {
    var v := RankValues(cards);
    assert v[i] in v && v[j] in v;
    ConsecutiveIff(cards);
  }

  /** The ace is never high: Q-K-A of one suit does not run consecutively. */
  lemma QueenKingAceIsNoRun(suit: string, q: string, k: string, a: string)
    ensures !Consecutive([Card(q, suit, "Q", false), Card(k, suit, "K", false), Card(a, suit, "A", false)])
  {
    var cards := [Card(q, suit, "Q", false), Card(k, suit, "K", false), Card(a, suit, "A", false)];
    assert RankValues(cards)[1] == 12 by { RankValueOfRanks(12); }
    assert RankValues(cards)[2] == 0 by { RankValueOfRanks(0); }
    WideSpanIsNoRun(cards, 1, 2);
  }

  /** `isPureSequence`: at least three cards, none of them a joker, all of one suit, in
      consecutive ranks. */
  function IsPureSequence(cards: seq<Card>): bool {
    |cards| >= 3 &&
    var nonJokers := NonJokers(cards);
    |nonJokers| > 0 &&
    (forall i :: 0 <= i < |cards| ==> cards[i].suit == nonJokers[0].suit && !cards[i].isJoker) &&
    Consecutive(cards)
  }

  /** The whole meaning of `isPureSequence`, without the sort: three or more joker-free cards of
      the suit of the first, with pairwise different rank values spanning exactly |cards| - 1. */
  lemma PureSequenceIff(cards: seq<Card>)
    ensures IsPureSequence(cards) <==>
      |cards| >= 3 &&
      (forall i :: 0 <= i < |cards| ==> !cards[i].isJoker && cards[i].suit == cards[0].suit) &&
      Distinct(RankValues(cards)) &&
      Max(RankValues(cards)) - Min(RankValues(cards)) == |cards| - 1
  {
    ConsecutiveIff(cards);
    if forall i :: 0 <= i < |cards| ==> !cards[i].isJoker {
      assert NonJokers(cards) == cards;
    }
  }

  /** `isPureSequence` is false for short groups, for mixed suits and for any joker. */
  lemma PureSequenceRejects(cards: seq<Card>, i: nat, j: nat)
    requires |cards| < 3 ||
             (i < |cards| && j < |cards| && (cards[i].suit != cards[j].suit || cards[i].isJoker))
    ensures !IsPureSequence(cards)
  {
  }

  /** The jokers needed to fill the gaps of a sorted run: the sum over adjacent pairs of the
      difference minus one, where the difference exceeds one. */
  function RequiredJokers(s: seq<int>): int
    decreases |s|
  {
    if |s| <= 1 then 0
    else RequiredJokers(s[..|s| - 1]) + (var diff := s[|s| - 1] - s[|s| - 2]; if diff > 1 then diff - 1 else 0)
  }

  lemma RequiredJokersStep(s: seq<int>, i: nat)
    requires 1 <= i < |s|
    ensures RequiredJokers(s[..i + 1]) ==
      RequiredJokers(s[..i]) + (var diff := s[i] - s[i - 1]; if diff > 1 then diff - 1 else 0)
  {
    assert s[..i + 1][..i] == s[..i];
  }

  predicate NoRepeatedStep(s: seq<int>) {
    forall i :: 1 <= i < |s| ==> s[i] - s[i - 1] != 0
  }

  /** What `canFormConsecutiveWithJokers` decides. */
  predicate CanFormWithJokers(cards: seq<Card>) {
    var nonJokers := NonJokers(cards);
    nonJokers == [] ||
    (var sorted := SortedRanks(nonJokers);
     NoRepeatedStep(sorted) && |Jokers(cards)| >= RequiredJokers(sorted))
  }

  /** `canFormConsecutiveWithJokers`. */
  method CanFormConsecutiveWithJokers(cards: seq<Card>) returns (r: bool)
    ensures r == CanFormWithJokers(cards)
  {
    var jokers := Jokers(cards);
    var nonJokers := NonJokers(cards);
    if |nonJokers| == 0 {
      return true;
    }
    var sorted := SortedRanks(nonJokers);
    var requiredJokers := 0;
    var i := 1;
    while i < |sorted|
      invariant 1 <= i <= |sorted|
      invariant forall k :: 1 <= k < i ==> sorted[k] - sorted[k - 1] != 0
      invariant requiredJokers == RequiredJokers(sorted[..i])
    {
      var diff := sorted[i] - sorted[i - 1];
      if diff == 0 {
        assert !NoRepeatedStep(sorted);
        return false;
      }
      RequiredJokersStep(sorted, i);
      if diff > 1 {
        requiredJokers := requiredJokers + (diff - 1);
      }
      i := i + 1;
    }
    assert sorted[..i] == sorted;
    assert NoRepeatedStep(sorted);
    return |jokers| >= requiredJokers;
  }

  /** A sorted sequence has no repeated step exactly when it has no repeated key. */
  lemma NoRepeatedStepIff(s: seq<int>)
    requires Sorted(s)
    ensures NoRepeatedStep(s) <==> Distinct(s)
  {
    if NoRepeatedStep(s) {
      forall i, j | 0 <= i < j < |s| ensures s[i] != s[j] {
        assert s[i] <= s[j - 1] && s[j - 1] < s[j];
      }
    }
  }

  /** For a strictly increasing run the gap sum telescopes: the jokers needed are the span of the
      run minus the |s| - 1 steps the cards themselves provide. */
  lemma {:induction false} RequiredJokersSpan(s: seq<int>)
    requires Sorted(s) && Distinct(s) && |s| > 0
    ensures RequiredJokers(s) == s[|s| - 1] - s[0] - (|s| - 1)
  {
    if |s| > 1 {
      var p := s[..|s| - 1];
      assert Sorted(p) && Distinct(p);
      RequiredJokersSpan(p);
      assert s[|s| - 2] < s[|s| - 1];
    }
  }

  /** Without sorting: a group can be completed with its jokers exactly when it has no non-joker
      cards, or its non-joker rank values are pairwise different and the jokers are enough to
      fill every missing value between the smallest and the largest. */
  lemma CanFormIff(cards: seq<Card>)
    ensures
      var nonJokers := NonJokers(cards);
      var v := RankValues(nonJokers);
      CanFormWithJokers(cards) <==>
        nonJokers == [] ||
        (Distinct(v) && |Jokers(cards)| >= (Max(v) - Min(v) + 1) - |nonJokers|)
  {
    var nonJokers := NonJokers(cards);
    if nonJokers != [] {
      var v := RankValues(nonJokers);
      var s := Sort(v);
      NoRepeatedStepIff(s);
      DistinctPermutation(s, v);
      SortedEnds(s, v);
      if Distinct(s) {
        RequiredJokersSpan(s);
      }
    }
  }

  /** Two non-joker cards of equal rank value can never be bridged by jokers. */
  lemma RepeatedRankRejected(cards: seq<Card>, i: nat, j: nat)
    requires i < j < |NonJokers(cards)|
    requires RankValue(NonJokers(cards)[i].rank) == RankValue(NonJokers(cards)[j].rank)
    ensures !CanFormWithJokers(cards)
  {
    CanFormIff(cards);
    assert RankValues(NonJokers(cards))[i] == RankValues(NonJokers(cards))[j];
  }

  /** `isValidSequence`: at least three cards, at least one non-joker, all non-jokers of one
      suit, and the jokers suffice to close the gaps. */
  function IsValidSequence(cards: seq<Card>): bool {
    |cards| >= 3 &&
    var nonJokers := NonJokers(cards);
    |nonJokers| > 0 &&
    (forall c :: c in nonJokers ==> c.suit == nonJokers[0].suit) &&
    CanFormWithJokers(cards)
  }

  /** All-joker groups and groups whose non-jokers mix suits are no sequence. */
  lemma ValidSequenceRejects(cards: seq<Card>)
    requires NonJokers(cards) == [] ||
      exists i, j :: 0 <= i < j < |NonJokers(cards)| && NonJokers(cards)[i].suit != NonJokers(cards)[j].suit
    ensures !IsValidSequence(cards)
  {
    if NonJokers(cards) != [] {
      var nj := NonJokers(cards);
      var i, j :| 0 <= i < j < |nj| && nj[i].suit != nj[j].suit;
      assert nj[i] in nj && nj[j] in nj;
    }
  }

  /** Every pure sequence is also a sequence. */
  lemma PureIsValidSequence(cards: seq<Card>)
    requires IsPureSequence(cards)
    ensures IsValidSequence(cards)
  {
    assert NonJokers(cards) == cards;
    var s := SortedRanks(cards);
    StepsOfOneIff(s);
    NoRepeatedStepIff(s);
    RequiredJokersSpan(s);
    assert |Jokers(cards)| == 0;
  }

  /** Without jokers, a sequence and a pure sequence are the same thing. */
  lemma JokerFreeSequenceIsPure(cards: seq<Card>)
    requires forall c :: c in cards ==> !c.isJoker
    ensures IsValidSequence(cards) <==> IsPureSequence(cards)
  {
    if IsPureSequence(cards) {
      PureIsValidSequence(cards);
    }
    if IsValidSequence(cards) {
      assert NonJokers(cards) == cards;
      var s := SortedRanks(cards);
      NoRepeatedStepIff(s);
      RequiredJokersSpan(s);
      DistinctSortedGap(s, 0, |s| - 1);
      StepsOfOneIff(s);
    }
  }

  /** The suits of the cards, in order. */
  function SuitsOf(cards: seq<Card>): (r: seq<string>)
    ensures |r| == |cards| && forall i :: 0 <= i < |cards| ==> r[i] == cards[i].suit
  {
    seq(|cards|, i requires 0 <= i < |cards| => cards[i].suit)
  }

  /** `isValidSet`: three or four cards, at least one non-joker, all non-jokers of one rank, and
      as many different suits among the non-jokers as there are non-jokers. */
  function IsValidSet(cards: seq<Card>): bool {
    3 <= |cards| <= 4 &&
    var nonJokers := NonJokers(cards);
    |nonJokers| > 0 &&
    (forall c :: c in nonJokers ==> c.rank == nonJokers[0].rank) &&
    |ToSet(SuitsOf(nonJokers))| == |nonJokers|
  }

  /** The suit-count test of `isValidSet` means the non-jokers' suits are pairwise different;
      so two copies of one card from the two packs never make a set. */
  lemma ValidSetIff(cards: seq<Card>)
    ensures
      var nonJokers := NonJokers(cards);
      IsValidSet(cards) <==>
        3 <= |cards| <= 4 &&
        |nonJokers| > 0 &&
        (forall i :: 0 <= i < |nonJokers| ==> nonJokers[i].rank == nonJokers[0].rank) &&
        (forall i, j :: 0 <= i < j < |nonJokers| ==> nonJokers[i].suit != nonJokers[j].suit)
  {
    var nonJokers := NonJokers(cards);
    DistinctCardinality(SuitsOf(nonJokers));
    if |nonJokers| > 0 && forall i :: 0 <= i < |nonJokers| ==> nonJokers[i].rank == nonJokers[0].rank {
      forall c | c in nonJokers ensures c.rank == nonJokers[0].rank {
        var i :| 0 <= i < |nonJokers| && nonJokers[i] == c;
      }
    }
    if Distinct(SuitsOf(nonJokers)) {
      forall i, j | 0 <= i < j < |nonJokers| ensures nonJokers[i].suit != nonJokers[j].suit {
        assert SuitsOf(nonJokers)[i] != SuitsOf(nonJokers)[j];
      }
    }
  }

  /** A meld the declare check and the hand check accept: any of the three validators. */
  predicate IsMeld(cards: seq<Card>) {
    IsPureSequence(cards) || IsValidSequence(cards) || IsValidSet(cards)
  }
}
