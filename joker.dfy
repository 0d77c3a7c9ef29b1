/** The joker module: choosing the wild joker and marking every card of its rank as a joker. */
module Joker {
  import opened Wrappers
  import opened Cards

  /** `selectWildJoker(deck)`, with the value of `Math.random()` as the parameter `random`: the
      card at `Math.floor(random * deck.length)`. An empty deck yields JavaScript's
      `undefined`, here `None`. */
  function SelectWildJoker(deck: seq<Card>, random: real): (r: Option<Card>)
    requires 0.0 <= random < 1.0
    ensures r.Some? <==> |deck| > 0
    ensures r.Some? ==> r.value in deck
  {
    if |deck| == 0 then None
    else
      var i := PickIndex(|deck|, random);
      Some(deck[i])
  }

  /** `Math.floor(random * n)` lies in [0, n). */
  function PickIndex(n: nat, random: real): (i: nat)
    requires n > 0 && 0.0 <= random < 1.0
    ensures i < n
  {
    var x := random * n as real;
    assert 0.0 <= x < n as real by {
      assert random * n as real <= 1.0 * n as real;
      assert random * n as real != n as real || n == 0;
    }
    x.Floor
  }

  /** Every card of a non-empty deck is chosen for some value of `Math.random()`. */
  lemma EveryCardSelectable(deck: seq<Card>, i: nat)
    requires i < |deck|
    ensures SelectWildJoker(deck, i as real / |deck| as real) == Some(deck[i])
  {
    var n := |deck| as real;
    var random := i as real / n;
    assert random * n == i as real;
    assert (i as real).Floor == i;
    assert PickIndex(|deck|, random) == i;
  }

  /** The deck after `applyWildJoker(deck, wildRank)`: every card of the wild rank is flagged
      as a joker, every other card is left as it was. */
  function MarkWild(deck: seq<Card>, wildRank: string): seq<Card> {
    seq(|deck|, i requires 0 <= i < |deck| =>
      if deck[i].rank == wildRank then deck[i].(isJoker := true) else deck[i])
  }

  /** `applyWildJoker`: the loop that sets `isJoker` on the cards of the wild rank, in place. */
  method ApplyWildJoker(deck: array<Card>, wildRank: string)
    modifies deck
    ensures deck[..] == MarkWild(old(deck[..]), wildRank)
  {
    for k := 0 to deck.Length
      invariant deck[..k] == MarkWild(old(deck[..]), wildRank)[..k]
      invariant deck[k..] == old(deck[k..])
    {
      if deck[k].rank == wildRank {
        deck[k] := deck[k].(isJoker := true);
      }
      assert deck[k + 1..] == old(deck[k + 1..]) by {
        assert forall j :: k + 1 <= j < deck.Length ==> deck[j] == old(deck[j]);
      }
    }
  }

  // -----------------------------------------------------------------------------------------
  // Properties

  /** Every card of the wild rank is a joker afterwards; every other card keeps its flag. Ids,
      suits, ranks and the order and number of cards do not change. */
  lemma MarkWildEffect(deck: seq<Card>, wildRank: string)
    ensures var marked := MarkWild(deck, wildRank);
      |marked| == |deck| &&
      (forall i :: 0 <= i < |deck| ==>
        marked[i].id == deck[i].id && marked[i].suit == deck[i].suit &&
        marked[i].rank == deck[i].rank &&
        marked[i].isJoker == (deck[i].isJoker || deck[i].rank == wildRank))
  {
  }

  /** Marking twice is marking once. */
  lemma MarkWildIdempotent(deck: seq<Card>, wildRank: string)
    ensures MarkWild(MarkWild(deck, wildRank), wildRank) == MarkWild(deck, wildRank)
  {
  }

  /** Only the joker flag changes, so the ids of the deck are unchanged. */
  lemma MarkWildKeepsIds(deck: seq<Card>, wildRank: string)
    ensures Ids(MarkWild(deck, wildRank)) == Ids(deck)
  {
    var marked := MarkWild(deck, wildRank);
    assert forall i :: 0 <= i < |deck| ==> Ids(marked)[i] == Ids(deck)[i];
  }
}
