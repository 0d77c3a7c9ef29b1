/** The discard handler: the player who holds the turn and has drawn puts one card of their hand,
    named by its id, on the discard pile, and the turn passes. */
module DiscardHandler {
  import opened Sequences
  import opened Cards
  import opened Room
  import DrawHandler

  /** May `pid` discard now: it is their turn, they have a record and they have drawn. */
  predicate MayDiscard(s: RoomState, pid: string) {
    s.currentTurn == pid && pid in s.players && s.players[pid].hasDrawn
  }

  /** The card at `i` of the hand of `pid` is spliced out and pushed onto the discard pile, and
      the player is marked as not having drawn. */
  function DropCard(s: RoomState, pid: string, i: nat): RoomState
    requires pid in s.players && i < |s.players[pid].hand|
  {
    var p := s.players[pid];
    s.(players := s.players[pid := p.(hand := p.hand[..i] + p.hand[i + 1..], hasDrawn := false)],
       discardPile := s.discardPile + [p.hand[i]])
  }

  /** `handleDiscard` with `message.cardId` as `cardId`: the first card of the hand carrying
      that id is discarded and the turn passes; a card not in the hand changes nothing. */
  function Discarded(s: RoomState, pid: string, cardId: string): RoomState {
    if !MayDiscard(s, pid) then s
    else
      var i := FindId(s.players[pid].hand, cardId);
      if i == -1 then s else TurnPassed(DropCard(s, pid, i))
  }

  /** `handleDiscard(room, client, message)` for the client `pid`. */
  method HandleDiscard(room: RummyRoom, pid: string, cardId: string)
    modifies room
    ensures room.State() == Discarded(old(room.State()), pid, cardId)
  {
    if room.currentTurn != pid {
      return;
    }
    if pid !in room.players {
      return;
    }
    var player := room.players[pid];
    if !player.hasDrawn {
      return;
    }
    var cardIndex := FindId(player.hand, cardId);
    if cardIndex == -1 {
      return;
    }
    var discardedCard := player.hand[cardIndex];
    var hand := player.hand[..cardIndex] + player.hand[cardIndex + 1..];
    room.discardPile := room.discardPile + [discardedCard];
    room.players := room.players[pid := player.(hand := hand, hasDrawn := false)];
    room.NextTurn();
  }

  // -----------------------------------------------------------------------------------------
  // Properties

  /** Out of turn, without a record, before drawing, or naming a card the hand does not hold,
      nothing happens. */
  lemma DiscardRefused(s: RoomState, pid: string, cardId: string)
    requires !MayDiscard(s, pid) || cardId !in IdSet(s.players[pid].hand)
    ensures Discarded(s, pid, cardId) == s
  {
    if MayDiscard(s, pid) {
      FindIdFirst(s.players[pid].hand, cardId);
    }
  }

  /** A discard takes the first card with the id out of the hand, keeps the rest of the hand in
      order, tops the discard pile with it and leaves the deck alone; the discarder must draw
      again next time, and with two players the turn goes to the other one, who must draw too. */
  lemma DiscardEffect(s: RoomState, pid: string, cardId: string)
    requires Valid(s) && MayDiscard(s, pid) && cardId in IdSet(s.players[pid].hand)
    ensures var hand := s.players[pid].hand;
      var i := FindId(hand, cardId);
      var t := Discarded(s, pid, cardId);
      0 <= i && hand[i].id == cardId && (forall k :: 0 <= k < i ==> hand[k].id != cardId) &&
      t.discardPile == s.discardPile + [hand[i]] && t.deck == s.deck &&
      pid in t.players && t.players[pid].hand == hand[..i] + hand[i + 1..] &&
      multiset(t.players[pid].hand) == multiset(hand) - multiset{hand[i]} &&
      !t.players[pid].hasDrawn &&
      (|s.order| == 2 ==>
        t.currentTurn != pid && t.currentTurn in s.order && !t.players[t.currentTurn].hasDrawn)
  {
    var hand := s.players[pid].hand;
    FindIdFirst(hand, cardId);
    var i := FindId(hand, cardId);
    SpliceMultiset(hand, i);
    var u := DropCard(s, pid, i);
    TurnPassedEffect(u);
  }

  /** A discard moves one card from a hand to the pile, loses none and keeps the room valid. */
  lemma DiscardConserves(s: RoomState, pid: string, cardId: string)
    requires Valid(s)
    ensures Valid(Discarded(s, pid, cardId))
    ensures CardsInPlay(Discarded(s, pid, cardId)) == CardsInPlay(s)
  {
    if MayDiscard(s, pid) {
      var i := FindId(s.players[pid].hand, cardId);
      if i != -1 {
        DropCardConserves(s, pid, i);
        TurnPassedEffect(DropCard(s, pid, i));
      }
    }
  }

  lemma DropCardConserves(s: RoomState, pid: string, i: nat)
    requires Valid(s) && pid in s.players && i < |s.players[pid].hand|
    ensures Valid(DropCard(s, pid, i))
    ensures CardsInPlay(DropCard(s, pid, i)) == CardsInPlay(s)
  {
    DropCardMoves(s, pid, i);
  }

  lemma DropCardMoves(s: RoomState, pid: string, i: nat)
    requires Distinct(s.order) && pid in s.order && pid in s.players && i < |s.players[pid].hand|
    ensures CardsInPlay(DropCard(s, pid, i)) == CardsInPlay(s)
  {
    var hand := s.players[pid].hand;
    var card := hand[i];
    var p := s.players[pid].(hand := hand[..i] + hand[i + 1..], hasDrawn := false);
    SpliceMultiset(hand, i);
    assert multiset(hand) == multiset(p.hand) + multiset{card};
    HandLoses(s.players, s.order, pid, p, card);
    PopMultiset(s.discardPile + [card]);
  }

  /** Taking the top of the discard pile and discarding that same card straight away, when the
      hand held no card with its id, gives the pile and the hand back as they were. */
  lemma DrawThenDiscard(s: RoomState, pid: string)
    requires Valid(s) && DrawHandler.MayDraw(s, pid) && |s.discardPile| > 0
    requires s.discardPile[|s.discardPile| - 1].id !in IdSet(s.players[pid].hand)
    ensures var top := s.discardPile[|s.discardPile| - 1];
      var t := Discarded(DrawHandler.Drawn(s, pid, "discard"), pid, top.id);
      t.discardPile == s.discardPile && t.deck == s.deck && t.players[pid].hand == s.players[pid].hand
  {
    var top := s.discardPile[|s.discardPile| - 1];
    var hand := s.players[pid].hand;
    DrawHandler.DrawFromDiscard(s, pid);
    DrawHandler.DrawConserves(s, pid, "discard");
    var u := DrawHandler.Drawn(s, pid, "discard");
    FindIdAppended(hand, top);
    DiscardEffect(u, pid, top.id);
    PopMultiset(s.discardPile);
  }
}
