/** The greedy auto-grouper of the rules module (`removeCards`, `extractGroups`, `autoGroup`)
    and the hand check built on it (`isValidHand`). */
module Grouping {
  import opened Wrappers
  import opened Sequences
  import opened Cards
  import opened Melds

  /** One of the three meld validators, passed to `extractGroups` as a value. */
  type Validator = seq<Card> -> bool

  // ---------------------------------------------------------------------------------------
  // removeCards

  /** One step of `removeCards`: splice out the first card carrying `id`, when there is one. */
  function RemoveId(cards: seq<Card>, id: string): seq<Card> {
    var i := FindId(cards, id);
    if i == -1 then cards else cards[..i] + cards[i + 1..]
  }

  /** Removing an id that is present takes out one card, and one occurrence of the id. */
  lemma RemoveIdPresent(cards: seq<Card>, id: string)
    requires id in IdSet(cards)
    ensures |RemoveId(cards, id)| == |cards| - 1
    ensures multiset(Ids(RemoveId(cards, id))) == multiset(Ids(cards)) - multiset{id}
  {
    FindIdFirst(cards, id);
    var i := FindId(cards, id);
    assert Ids(cards[..i] + cards[i + 1..]) == Ids(cards)[..i] + Ids(cards)[i + 1..];
    SpliceMultiset(Ids(cards), i);
  }

  /** What `removeCards(cards, toRemove)` leaves: the ids of `toRemove` are taken out one after
      the other, each time the first card with that id. */
  function Removed(cards: seq<Card>, toRemove: seq<Card>): seq<Card>
    decreases |toRemove|
  {
    if toRemove == [] then cards
    else Removed(RemoveId(cards, toRemove[0].id), toRemove[1..])
  }

  /** When every id to remove is present, as many times as it is to be removed (as for a window
      cut from the cards themselves), exactly |toRemove| cards go. */
  lemma {:induction false} RemovedLength(cards: seq<Card>, toRemove: seq<Card>)
    requires multiset(Ids(toRemove)) <= multiset(Ids(cards))
    ensures |Removed(cards, toRemove)| == |cards| - |toRemove|
    decreases |toRemove|
  {
    if toRemove != [] {
      var id := toRemove[0].id;
      var next := RemoveId(cards, id);
      assert Ids(toRemove) == [id] + Ids(toRemove[1..]);
      assert id in Ids(cards) by { assert id in multiset(Ids(cards)); }
      assert id in IdSet(cards);
      RemoveIdPresent(cards, id);
      RemovedLength(next, toRemove[1..]);
    }
  }

  lemma RemovedUnfold(cards: seq<Card>, toRemove: seq<Card>)
    requires toRemove != []
    ensures Removed(cards, toRemove) == Removed(RemoveId(cards, toRemove[0].id), toRemove[1..])
  {
  }

  /** `removeCards`: the loop over `toRemove` with `findIndex` and `splice`. The array the
      source changes in place is the value passed in and returned. */
  method RemoveCards(cards: seq<Card>, toRemove: seq<Card>) returns (rest: seq<Card>)
    ensures rest == Removed(cards, toRemove)
  {
    rest := cards;
    var k := 0;
    while k < |toRemove|
      invariant 0 <= k <= |toRemove|
      invariant Removed(rest, toRemove[k..]) == Removed(cards, toRemove)
    {
      RemovedUnfold(rest, toRemove[k..]);
      assert toRemove[k..][1..] == toRemove[k + 1..];
      var index := FindId(rest, toRemove[k].id);
      ghost var next := RemoveId(rest, toRemove[k].id);
      if index != -1 {
        rest := rest[..index] + rest[index + 1..];
      }
      assert rest == next;
      k := k + 1;
    }
    assert toRemove[k..] == [];
  }

  /** Removing a window cut from the cards themselves removes exactly as many cards as the
      window holds, whether or not ids repeat. */
  lemma RemoveWindowLength(cards: seq<Card>, i: nat, j: nat)
    requires i <= j <= |cards|
    ensures |Removed(cards, cards[i..j])| == |cards| - (j - i)
  {
    var s := Ids(cards);
    assert Ids(cards[i..j]) == s[i..j];
    SliceMultiset(s, i, j);
    RemovedLength(cards, cards[i..j]);
  }

  /** Cutting a slice out of cards with distinct ids leaves cards with distinct ids. */
  lemma DistinctIdsWithout(cards: seq<Card>, i: nat, j: nat, r: seq<Card>)
    requires DistinctIds(cards) && i <= j <= |cards|
    requires r == cards[..i] + cards[j..]
    ensures DistinctIds(r)
  {
    assert Ids(r) == Ids(cards)[..i] + Ids(cards)[j..];
    DistinctWithoutSlice(Ids(cards), i, j);
  }

  /** With distinct ids, the first card with the id of card `i` is card `i`. */
  lemma RemoveDistinctId(cards: seq<Card>, i: nat)
    requires DistinctIds(cards) && i < |cards|
    ensures RemoveId(cards, cards[i].id) == cards[..i] + cards[i + 1..]
  {
    FindIdFirst(cards, cards[i].id);
    var f := FindId(cards, cards[i].id);
    assert f == i by {
      assert cards[i].id in Ids(cards);
      assert Ids(cards)[f] == Ids(cards)[i];
    }
  }

  /** Removing a window of cards with distinct ids starts with its first card: what is left to
      do is to remove the rest of the window from the cards without that first card. */
  lemma RemoveWindowStep(cards: seq<Card>, i: nat, j: nat)
    requires DistinctIds(cards) && i < j <= |cards|
    ensures var c := cards[..i] + cards[i + 1..];
      DistinctIds(c) && Removed(cards, cards[i..j]) == Removed(c, c[i..j - 1])
  {
    var c := cards[..i] + cards[i + 1..];
    SliceShift(cards, i, j);
    RemoveDistinctId(cards, i);
    RemovedUnfold(cards, cards[i..j]);
    DistinctIdsWithout(cards, i, i + 1, c);
  }

  /** With distinct ids, removing a window cut from the cards removes exactly that window and
      keeps the order of the others. */
  lemma {:induction false} RemoveWindow(cards: seq<Card>, i: nat, j: nat)
    requires DistinctIds(cards) && i <= j <= |cards|
    ensures Removed(cards, cards[i..j]) == cards[..i] + cards[j..]
    decreases j - i
  {
    if i == j {
      SliceNone(cards, i);
    } else {
      RemoveWindowStep(cards, i, j);
      var c := cards[..i] + cards[i + 1..];
      RemoveWindow(c, i, j - 1);
      SliceShift(cards, i, j);
    }
  }

  /** With distinct ids, the cards left by removing a window still have distinct ids, and the
      window and the rest together are the original cards. */
  lemma RemoveWindowPartition(cards: seq<Card>, i: nat, j: nat)
    requires DistinctIds(cards) && i <= j <= |cards|
    ensures DistinctIds(Removed(cards, cards[i..j]))
    ensures multiset(cards[i..j]) + multiset(Removed(cards, cards[i..j])) == multiset(cards)
  {
    RemoveWindow(cards, i, j);
    DistinctIdsWithout(cards, i, j, Removed(cards, cards[i..j]));
    SliceMultiset(cards, i, j);
  }

  // ---------------------------------------------------------------------------------------
  // extractGroups

  /** The window of `size` cards starting at `i` exists and the validator accepts it. */
  predicate Fits(cards: seq<Card>, v: Validator, size: nat, i: nat) {
    i + size <= |cards| && v(cards[i..i + size])
  }

  /** The scan order of `extractGroups`: by size first, then by start position. */
  predicate ScanLe(size: nat, i: nat, size': nat, i': nat) {
    size < size' || (size == size' && i <= i')
  }

  /** No window from (size, i) on in scan order fits. */
  ghost predicate NoFitFrom(cards: seq<Card>, v: Validator, size: nat, i: nat) {
    forall a: nat, b: nat :: ScanLe(size, i, a, b) ==> !Fits(cards, v, a, b)
  }

  /** No window from (size, i) up to, but not including, (size', i') fits. */
  ghost predicate NoFitBetween(cards: seq<Card>, v: Validator, size: nat, i: nat, size': nat, i': nat) {
    forall a: nat, b: nat :: ScanLe(size, i, a, b) && !ScanLe(size', i', a, b) ==> !Fits(cards, v, a, b)
  }

  /** The nested `for` loops of one pass of `extractGroups`, from (size, i) on: the first window
      in scan order that the validator accepts, as (size, start). */
  function FirstWindow(cards: seq<Card>, v: Validator, size: nat, i: nat): Option<(nat, nat)>
    decreases |cards| + 1 - size, |cards| + 1 - i
  {
    if size > |cards| then None
    else if i + size > |cards| then FirstWindow(cards, v, size + 1, 0)
    else if v(cards[i..i + size]) then Some((size, i))
    else FirstWindow(cards, v, size, i + 1)
  }

  /** A window found lies inside the cards, is no smaller than the size the scan started from,
      and is accepted by the validator. */
  lemma {:induction false} FirstWindowInRange(cards: seq<Card>, v: Validator, size: nat, i: nat)
    ensures var r := FirstWindow(cards, v, size, i);
      r.Some? ==> size <= r.value.0 && r.value.1 + r.value.0 <= |cards| &&
                  v(cards[r.value.1..r.value.1 + r.value.0])
    decreases |cards| + 1 - size, |cards| + 1 - i
  {
    if size > |cards| {
    } else if i + size > |cards| {
      FirstWindowInRange(cards, v, size + 1, 0);
    } else if v(cards[i..i + size]) {
    } else {
      FirstWindowInRange(cards, v, size, i + 1);
    }
  }

  /** The window found is accepted, and it is the first accepted one in scan order; when none
      is found, no window from (size, i) on is accepted. */
  lemma {:induction false} FirstWindowSound(cards: seq<Card>, v: Validator, size: nat, i: nat)
    ensures var r := FirstWindow(cards, v, size, i);
      (r.Some? ==> ScanLe(size, i, r.value.0, r.value.1) && Fits(cards, v, r.value.0, r.value.1) &&
                   NoFitBetween(cards, v, size, i, r.value.0, r.value.1)) &&
      (r.None? ==> NoFitFrom(cards, v, size, i))
    decreases |cards| + 1 - size, |cards| + 1 - i
  {
    if size > |cards| {
    } else if i + size > |cards| {
      FirstWindowSound(cards, v, size + 1, 0);
      forall a: nat, b: nat | a == size && b >= i ensures !Fits(cards, v, a, b) {
      }
    } else if v(cards[i..i + size]) {
    } else {
      FirstWindowSound(cards, v, size, i + 1);
      assert !Fits(cards, v, size, i);
    }
  }

  /** What `extractGroups(cards, groups, v)` appends to `groups` and leaves in `cards`: pass after
      pass, the first accepted window of three or more cards is cut out, until no window is
      accepted. Each pass removes at least three cards, so the passes end. */
  function Extracted(cards: seq<Card>, v: Validator): (seq<seq<Card>>, seq<Card>)
    decreases |cards|
  {
    var found := FirstWindow(cards, v, 3, 0);
    if found.None? then ([], cards)
    else
      var size := found.value.0;
      var i := found.value.1;
      FirstWindowInRange(cards, v, 3, 0);
      RemoveWindowLength(cards, i, i + size);
      var next := Extracted(Removed(cards, cards[i..i + size]), v);
      ([cards[i..i + size]] + next.0, next.1)
  }

  /** One pass of `Extracted` unfolded. */
  lemma ExtractedStep(cards: seq<Card>, v: Validator, size: nat, i: nat)
    requires FirstWindow(cards, v, 3, 0) == Some((size, i))
    ensures 3 <= size && i + size <= |cards| && v(cards[i..i + size])
    ensures |Removed(cards, cards[i..i + size])| == |cards| - size
    ensures var next := Extracted(Removed(cards, cards[i..i + size]), v);
      Extracted(cards, v) == ([cards[i..i + size]] + next.0, next.1)
  {
    FirstWindowInRange(cards, v, 3, 0);
    RemoveWindowLength(cards, i, i + size);
  }

  /** Every group `extractGroups` cuts out has at least three cards and is accepted by the
      validator. */
  lemma {:induction false} ExtractedGroupsValid(cards: seq<Card>, v: Validator)
    ensures forall g :: g in Extracted(cards, v).0 ==> |g| >= 3 && v(g)
    decreases |cards|
  {
    var found := FirstWindow(cards, v, 3, 0);
    if found.Some? {
      var size, i := found.value.0, found.value.1;
      ExtractedStep(cards, v, size, i);
      ExtractedGroupsValid(Removed(cards, cards[i..i + size]), v);
    }
  }

  /** When `extractGroups` returns, no window of three or more of the remaining cards is
      accepted by the validator. */
  lemma {:induction false} ExtractedRestHasNoFit(cards: seq<Card>, v: Validator)
    ensures NoFitFrom(Extracted(cards, v).1, v, 3, 0)
    decreases |cards|
  {
    var found := FirstWindow(cards, v, 3, 0);
    if found.None? {
      FirstWindowSound(cards, v, 3, 0);
    } else {
      var size, i := found.value.0, found.value.1;
      ExtractedStep(cards, v, size, i);
      ExtractedRestHasNoFit(Removed(cards, cards[i..i + size]), v);
    }
  }

  /** `extractGroups` loses and invents no card: the groups and the rest hold as many cards as
      it was given. */
  lemma {:induction false} ExtractedLength(cards: seq<Card>, v: Validator)
    ensures |Flatten(Extracted(cards, v).0)| + |Extracted(cards, v).1| == |cards|
    decreases |cards|
  {
    var found := FirstWindow(cards, v, 3, 0);
    if found.Some? {
      var size, i := found.value.0, found.value.1;
      ExtractedStep(cards, v, size, i);
      var w := cards[i..i + size];
      var after := Removed(cards, w);
      ExtractedLength(after, v);
      FlattenCons(w, Extracted(after, v).0);
    }
  }

  /** Cutting any window out of cards that satisfy `keep` leaves cards that satisfy `keep`, and
      the window and what is left hold the cards that were there. */
  ghost predicate CutsCleanly(keep: seq<Card> -> bool) {
    forall c: seq<Card>, i: nat, j: nat :: keep(c) && i <= j <= |c| ==>
      keep(Removed(c, c[i..j])) && multiset(c[i..j]) + multiset(Removed(c, c[i..j])) == multiset(c)
  }

  /** Distinct ids are such a property. */
  lemma DistinctIdsCutCleanly()
    ensures CutsCleanly(DistinctIds)
  {
    forall c: seq<Card>, i: nat, j: nat | DistinctIds(c) && i <= j <= |c|
      ensures DistinctIds(Removed(c, c[i..j])) &&
              multiset(c[i..j]) + multiset(Removed(c, c[i..j])) == multiset(c)
    {
      RemoveWindowPartition(c, i, j);
    }
  }

  /** For a property that windows cut cleanly, `extractGroups` keeps it in the rest and
      distributes the cards between the groups and the rest. */
  lemma {:induction false} ExtractedKeeps(cards: seq<Card>, v: Validator, keep: seq<Card> -> bool)
    requires keep(cards) && CutsCleanly(keep)
    ensures keep(Extracted(cards, v).1)
    ensures multiset(Flatten(Extracted(cards, v).0)) + multiset(Extracted(cards, v).1) == multiset(cards)
    decreases |cards|
  {
    var found := FirstWindow(cards, v, 3, 0);
    if found.Some? {
      var size, i := found.value.0, found.value.1;
      ExtractedStep(cards, v, size, i);
      var w := cards[i..i + size];
      var after := Removed(cards, w);
      var next := Extracted(after, v);
      assert keep(after) && multiset(w) + multiset(after) == multiset(cards);
      ExtractedKeeps(after, v, keep);
      FlattenCons(w, next.0);
      MultisetChain(w, Flatten(next.0), next.1, after, cards);
    }
  }

  /** With distinct ids, the groups and the rest are a partition of the cards, and the rest
      keeps distinct ids. */
  lemma ExtractedPartition(cards: seq<Card>, v: Validator)
    requires DistinctIds(cards)
    ensures DistinctIds(Extracted(cards, v).1)
    ensures multiset(Flatten(Extracted(cards, v).0)) + multiset(Extracted(cards, v).1) == multiset(cards)
  {
    DistinctIdsCutCleanly();
    ExtractedKeeps(cards, v, DistinctIds);
  }

  /** Multiset bookkeeping for one pass: the window, then what the later passes do with the rest. */
  lemma MultisetChain<T>(w: seq<T>, grouped: seq<T>, rest: seq<T>, after: seq<T>, whole: seq<T>)
    requires multiset(w) + multiset(after) == multiset(whole)
    requires multiset(grouped) + multiset(rest) == multiset(after)
    ensures multiset(w + grouped) + multiset(rest) == multiset(whole)
  {
  }

  /** `extractGroups`: the `while (found)` loop around the window search. The arrays the source
      changes in place are the values passed in and returned. */
  method ExtractGroups(cards: seq<Card>, groups: seq<seq<Card>>, v: Validator)
    returns (rest: seq<Card>, grouped: seq<seq<Card>>)
    ensures grouped == groups + Extracted(cards, v).0
    ensures rest == Extracted(cards, v).1
  {
    rest, grouped := cards, groups;
    var found := true;
    while found
      invariant grouped + Extracted(rest, v).0 == groups + Extracted(cards, v).0
      invariant Extracted(rest, v).1 == Extracted(cards, v).1
      invariant !found ==> FirstWindow(rest, v, 3, 0).None?
      decreases |rest| + (if found then 1 else 0)
    {
      found := false;
      var window := FindWindow(rest, v);
      if window.Some? {
        var size, i := window.value.0, window.value.1;
        ExtractedStep(rest, v, size, i);
        var attempt := rest[i..i + size];
        grouped := grouped + [attempt];
        rest := RemoveCards(rest, attempt);
        found := true;
      }
    }
  }

  /** The two `for` loops of `extractGroups` and their `break`s: window sizes from 3 up, and
      for each size the start positions from the left, until the validator accepts one. */
  method FindWindow(cards: seq<Card>, v: Validator) returns (window: Option<(nat, nat)>)
    ensures window == FirstWindow(cards, v, 3, 0)
  {
    var size := 3;
    while size <= |cards|
      invariant 3 <= size && FirstWindow(cards, v, size, 0) == FirstWindow(cards, v, 3, 0)
      decreases |cards| - size
    {
      var i := 0;
      while i + size <= |cards|
        invariant FirstWindow(cards, v, size, i) == FirstWindow(cards, v, 3, 0)
        decreases |cards| - i
      {
        var attempt := cards[i..i + size];
        if v(attempt) {
          return Some((size, i));
        }
        i := i + 1;
      }
      size := size + 1;
    }
    return None;
  }

  // ---------------------------------------------------------------------------------------
  // autoGroup

  /** The three tiers `autoGroup` extracts, with the validators it applies in turn, and the cards
      left over after the last one. */
  function Tiers(hand: seq<Card>, first: Validator, second: Validator, third: Validator)
    : (seq<seq<Card>>, seq<seq<Card>>, seq<seq<Card>>, seq<Card>)
  {
    var e1 := Extracted(hand, first);
    var e2 := Extracted(e1.1, second);
    var e3 := Extracted(e2.1, third);
    (e1.0, e2.0, e3.0, e3.1)
  }

  /** The three tiers in order, then the leftover as one more group when there is any. */
  function GroupedBy(hand: seq<Card>, first: Validator, second: Validator, third: Validator)
    : seq<seq<Card>>
  {
    var t := Tiers(hand, first, second, third);
    t.0 + t.1 + t.2 + (if |t.3| > 0 then [t.3] else [])
  }

  /** What `autoGroup(hand)` returns: pure sequences first, then sequences with jokers, then
      sets, each tier taken greedily from what the previous tiers left, and finally the cards
      left over. */
  function Grouped(hand: seq<Card>): seq<seq<Card>> {
    GroupedBy(hand, IsPureSequence, IsValidSequence, IsValidSet)
  }

  /** `autoGroup`: the copy of the hand, the three calls of `extractGroups` and the final push
      of the leftover. */
  method AutoGroup(hand: seq<Card>) returns (groups: seq<seq<Card>>)
    ensures groups == Grouped(hand)
  {
    var cards := hand;
    groups := [];
    ghost var t := Tiers(hand, IsPureSequence, IsValidSequence, IsValidSet);
    cards, groups := ExtractGroups(cards, groups, IsPureSequence);
    assert groups == t.0;
    cards, groups := ExtractGroups(cards, groups, IsValidSequence);
    assert groups == t.0 + t.1;
    cards, groups := ExtractGroups(cards, groups, IsValidSet);
    assert groups == t.0 + t.1 + t.2 && cards == t.3;
    if |cards| > 0 {
      groups := groups + [cards];
    }
  }

  /** The cards of the grouping, in order: those of the three tiers, then the leftover. */
  lemma GroupedFlatten(hand: seq<Card>, first: Validator, second: Validator, third: Validator)
    ensures var t := Tiers(hand, first, second, third);
      Flatten(GroupedBy(hand, first, second, third)) ==
        Flatten(t.0) + Flatten(t.1) + Flatten(t.2) + t.3
  {
    var t := Tiers(hand, first, second, third);
    var last := if |t.3| > 0 then [t.3] else [];
    FlattenAppend(t.0, t.1);
    FlattenAppend(t.0 + t.1, t.2);
    FlattenAppend(t.0 + t.1 + t.2, last);
    if |t.3| > 0 {
      FlattenCons(t.3, []);
    }
  }

  /** The grouping holds exactly as many cards as the hand, and no group is empty. */
  lemma GroupedLength(hand: seq<Card>, first: Validator, second: Validator, third: Validator)
    ensures |Flatten(GroupedBy(hand, first, second, third))| == |hand|
    ensures forall g :: g in GroupedBy(hand, first, second, third) ==> |g| > 0
  {
    var e1 := Extracted(hand, first);
    var e2 := Extracted(e1.1, second);
    ExtractedLength(hand, first);
    ExtractedLength(e1.1, second);
    ExtractedLength(e2.1, third);
    ExtractedGroupsValid(hand, first);
    ExtractedGroupsValid(e1.1, second);
    ExtractedGroupsValid(e2.1, third);
    GroupedFlatten(hand, first, second, third);
  }

  /** The groups are a partition of the hand when its ids are distinct: together they hold
      every card of the hand exactly as often as the hand does. */
  lemma GroupedPartition(hand: seq<Card>, first: Validator, second: Validator, third: Validator)
    requires DistinctIds(hand)
    ensures multiset(Flatten(GroupedBy(hand, first, second, third))) == multiset(hand)
  {
    var e1 := Extracted(hand, first);
    var e2 := Extracted(e1.1, second);
    ExtractedPartition(hand, first);
    ExtractedPartition(e1.1, second);
    ExtractedPartition(e2.1, third);
    GroupedFlatten(hand, first, second, third);
  }

  /** The tiers and the leftover at the positions they occupy in a grouping: groups before `p`
      pass the first validator, those in [p, q) the second, those in [q, s) the third, each
      with at least three cards, and a group at `s`, if any, is the leftover, in which no window
      of three or more cards passes the third validator. */
  ghost predicate TierShape(g: seq<seq<Card>>, p: nat, q: nat, s: nat,
                            first: Validator, second: Validator, third: Validator) {
    p <= q <= s <= |g| &&
    (forall k :: 0 <= k < p ==> |g[k]| >= 3 && first(g[k])) &&
    (forall k :: p <= k < q ==> |g[k]| >= 3 && second(g[k])) &&
    (forall k :: q <= k < s ==> |g[k]| >= 3 && third(g[k])) &&
    (s == |g| || (s == |g| - 1 && NoFitFrom(g[s], third, 3, 0)))
  }

  /** Three tiers of accepted groups and a leftover without an accepted window, laid out as
      `GroupedBy` lays them out. */
  lemma LayoutShape(a: seq<seq<Card>>, b: seq<seq<Card>>, c: seq<seq<Card>>, rest: seq<Card>,
                    first: Validator, second: Validator, third: Validator)
    requires forall g :: g in a ==> |g| >= 3 && first(g)
    requires forall g :: g in b ==> |g| >= 3 && second(g)
    requires forall g :: g in c ==> |g| >= 3 && third(g)
    requires NoFitFrom(rest, third, 3, 0)
    ensures TierShape(a + b + c + (if |rest| > 0 then [rest] else []),
                      |a|, |a| + |b|, |a| + |b| + |c|, first, second, third)
  {
    var g := a + b + c + (if |rest| > 0 then [rest] else []);
    var p, q, s := |a|, |a| + |b|, |a| + |b| + |c|;
    forall k | 0 <= k < p ensures |g[k]| >= 3 && first(g[k]) { assert g[k] == a[k]; }
    forall k | p <= k < q ensures |g[k]| >= 3 && second(g[k]) { assert g[k] == b[k - p]; }
    forall k | q <= k < s ensures |g[k]| >= 3 && third(g[k]) { assert g[k] == c[k - q]; }
    assert s < |g| ==> g[s] == rest;
  }

  /** Groups of the first tier (for `autoGroup`, pure sequences) come first, then those of the
      second (sequences), then those of the third (sets), then at most one leftover group. */
  lemma GroupedTiers(hand: seq<Card>, first: Validator, second: Validator, third: Validator)
    ensures exists p: nat, q: nat, s: nat ::
      TierShape(GroupedBy(hand, first, second, third), p, q, s, first, second, third)
  {
    var e1 := Extracted(hand, first);
    var e2 := Extracted(e1.1, second);
    var e3 := Extracted(e2.1, third);
    ExtractedGroupsValid(hand, first);
    ExtractedGroupsValid(e1.1, second);
    ExtractedGroupsValid(e2.1, third);
    ExtractedRestHasNoFit(e2.1, third);
    LayoutShape(e1.0, e2.0, e3.0, e3.1, first, second, third);
    assert GroupedBy(hand, first, second, third) == e1.0 + e2.0 + e3.0 + (if |e3.1| > 0 then [e3.1] else []);
  }

  // ---------------------------------------------------------------------------------------
  // isValidHand

  /** The object `isValidHand` returns: `valid`, and `reason` when the hand is rejected. */
  datatype HandCheck = HandCheck(valid: bool, reason: Option<string>)

  /** `isValidHand`: the hand is grouped automatically; it is rejected with "No pure sequence"
      unless some group is a pure sequence, and with "Invalid grouping" unless every group is a
      pure sequence, a sequence or a set. The wild joker is not consulted. */
  method IsValidHand(hand: seq<Card>, wildJoker: Card) returns (r: HandCheck)
    ensures var g := Grouped(hand);
      if !exists k :: 0 <= k < |g| && IsPureSequence(g[k]) then
        r == HandCheck(false, Some("No pure sequence"))
      else if !forall k :: 0 <= k < |g| ==> IsMeld(g[k]) then
        r == HandCheck(false, Some("Invalid grouping"))
      else
        r == HandCheck(true, None)
  {
    var groups := AutoGroup(hand);
    var hasPureSequence := AnyAccepted(groups, IsPureSequence);
    if !hasPureSequence {
      return HandCheck(false, Some("No pure sequence"));
    }
    var allValid := EveryAccepted(groups, IsMeld);
    if !allValid {
      return HandCheck(false, Some("Invalid grouping"));
    }
    return HandCheck(true, None);
  }

  /** The `for` loop of `isValidHand` that sets `hasPureSequence` when some group passes. */
  method AnyAccepted(groups: seq<seq<Card>>, v: Validator) returns (found: bool)
    ensures found <==> exists k :: 0 <= k < |groups| && v(groups[k])
  {
    found := false;
    for k := 0 to |groups|
      invariant found <==> exists j :: 0 <= j < k && v(groups[j])
    {
      if v(groups[k]) {
        found := true;
      }
    }
  }

  /** `groups.every(v)`: stops at the first group that fails. */
  method EveryAccepted(groups: seq<seq<Card>>, v: Validator) returns (all: bool)
    ensures all <==> forall k :: 0 <= k < |groups| ==> v(groups[k])
  {
    var k := 0;
    while k < |groups| && v(groups[k])
      invariant 0 <= k <= |groups|
      invariant forall j :: 0 <= j < k ==> v(groups[j])
    {
      k := k + 1;
    }
    all := k == |groups|;
  }

  /** A hand of fewer than three cards never contains a pure sequence group, so it is always
      rejected with "No pure sequence". */
  lemma ShortHandHasNoPureGroup(hand: seq<Card>)
    requires |hand| < 3
    ensures forall k :: 0 <= k < |Grouped(hand)| ==> !IsPureSequence(Grouped(hand)[k])
  {
    var g := Grouped(hand);
    GroupedLength(hand, IsPureSequence, IsValidSequence, IsValidSet);
    forall k | 0 <= k < |g|
      ensures !IsPureSequence(g[k])
    {
      FlattenMember(g, k);
    }
  }
}
