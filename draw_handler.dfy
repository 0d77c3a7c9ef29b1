/** The draw handler: the player who holds the turn and has not drawn yet takes the top card of
    the deck or of the discard pile. */
module DrawHandler {
  import opened Sequences
  import opened Cards
  import opened Room

  /** The player `pid` takes `card` and is marked as having drawn. */
  function TakeCard(s: RoomState, pid: string, card: Card): RoomState
    requires pid in s.players
  {
    s.(players := s.players[pid := s.players[pid].(hand := s.players[pid].hand + [card], hasDrawn := true)])
  }

  /** May `pid` draw now: it is their turn, they have a record and they have not drawn yet. */
  predicate MayDraw(s: RoomState, pid: string) {
    s.currentTurn == pid && pid in s.players && !s.players[pid].hasDrawn
  }

  /** `handleDraw` with `message.source` as `source`: "deck" pops the deck, "discard" pops the
      discard pile; an empty pile or any other source changes nothing. */
  function Drawn(s: RoomState, pid: string, source: string): RoomState {
    if !MayDraw(s, pid) then s
    else if source == "deck" then
      if |s.deck| == 0 then s
      else TakeCard(s.(deck := s.deck[..|s.deck| - 1]), pid, s.deck[|s.deck| - 1])
    else if source == "discard" then
      if |s.discardPile| == 0 then s
      else TakeCard(s.(discardPile := s.discardPile[..|s.discardPile| - 1]), pid,
                    s.discardPile[|s.discardPile| - 1])
    else s
  }

  /** `handleDraw(room, client, message)` for the client `pid`. */
  method HandleDraw(room: RummyRoom, pid: string, source: string)
    modifies room
    ensures room.State() == Drawn(old(room.State()), pid, source)
  {
    if room.currentTurn != pid {
      return;
    }
    if pid !in room.players {
      return;
    }
    var player := room.players[pid];
    if player.hasDrawn {
      return;
    }
    var drawnCard;
    if source == "deck" {
      if |room.deck| == 0 {
        return;
      }
      drawnCard := room.deck[|room.deck| - 1];
      room.deck := room.deck[..|room.deck| - 1];
    } else if source == "discard" {
      if |room.discardPile| == 0 {
        return;
      }
      drawnCard := room.discardPile[|room.discardPile| - 1];
      room.discardPile := room.discardPile[..|room.discardPile| - 1];
    } else {
      return;
    }
    room.players := room.players[pid := player.(hand := player.hand + [drawnCard], hasDrawn := true)];
  }

  // -----------------------------------------------------------------------------------------
  // Properties

  /** Out of turn, without a record, after a draw this turn, from an empty pile or from an
      unknown source, nothing happens. */
  lemma DrawRefused(s: RoomState, pid: string, source: string)
    requires !MayDraw(s, pid) || (source != "deck" && source != "discard") ||
             (source == "deck" && |s.deck| == 0) || (source == "discard" && |s.discardPile| == 0)
    ensures Drawn(s, pid, source) == s
  {
  }

  /** A draw from the deck moves its top card to the end of the hand and marks the player;
      the discard pile, the other players and the turn stay as they were. */
  lemma DrawFromDeck(s: RoomState, pid: string)
    requires MayDraw(s, pid) && |s.deck| > 0
    ensures var t := Drawn(s, pid, "deck");
      t.deck + [s.deck[|s.deck| - 1]] == s.deck &&
      t.players[pid].hand == s.players[pid].hand + [s.deck[|s.deck| - 1]] &&
      t.players[pid].hasDrawn && t.discardPile == s.discardPile &&
      t.currentTurn == s.currentTurn && t.status == s.status &&
      t.players.Keys == s.players.Keys &&
      (forall id :: id in s.players && id != pid ==> t.players[id] == s.players[id])
  {
    assert s.deck == s.deck[..|s.deck| - 1] + [s.deck[|s.deck| - 1]];
  }

  /** A draw from the discard pile moves the top of the pile the same way. */
  lemma DrawFromDiscard(s: RoomState, pid: string)
    requires MayDraw(s, pid) && |s.discardPile| > 0
    ensures var t := Drawn(s, pid, "discard");
      var top := s.discardPile[|s.discardPile| - 1];
      t.discardPile + [top] == s.discardPile &&
      t.players[pid].hand == s.players[pid].hand + [top] &&
      t.players[pid].hasDrawn && t.deck == s.deck &&
      t.currentTurn == s.currentTurn && t.status == s.status &&
      t.players.Keys == s.players.Keys &&
      (forall id :: id in s.players && id != pid ==> t.players[id] == s.players[id])
  {
    assert s.discardPile == s.discardPile[..|s.discardPile| - 1] + [s.discardPile[|s.discardPile| - 1]];
  }

  /** One draw per turn: once a draw has happened, a second one changes nothing. */
  lemma DrawOncePerTurn(s: RoomState, pid: string, source: string, source': string)
    requires Drawn(s, pid, source) != s
    ensures Drawn(Drawn(s, pid, source), pid, source') == Drawn(s, pid, source)
  {
  }

  /** A draw moves a card and loses none, and keeps the room valid. */
  lemma DrawConserves(s: RoomState, pid: string, source: string)
    requires Valid(s)
    ensures Valid(Drawn(s, pid, source))
    ensures CardsInPlay(Drawn(s, pid, source)) == CardsInPlay(s)
  {
    if MayDraw(s, pid) && source == "deck" && |s.deck| > 0 {
      DeckDrawConserves(s, pid);
    } else if MayDraw(s, pid) && source == "discard" && |s.discardPile| > 0 {
      PileDrawConserves(s, pid);
    }
  }

  lemma DeckDrawConserves(s: RoomState, pid: string)
    requires Valid(s) && MayDraw(s, pid) && |s.deck| > 0
    ensures Valid(Drawn(s, pid, "deck"))
    ensures CardsInPlay(Drawn(s, pid, "deck")) == CardsInPlay(s)
  {
    var card := s.deck[|s.deck| - 1];
    var u := s.(deck := s.deck[..|s.deck| - 1]);
    TakeCardConserves(u, pid, card);
    PopMultiset(s.deck);
  }

  lemma PileDrawConserves(s: RoomState, pid: string)
    requires Valid(s) && MayDraw(s, pid) && |s.discardPile| > 0
    ensures Valid(Drawn(s, pid, "discard"))
    ensures CardsInPlay(Drawn(s, pid, "discard")) == CardsInPlay(s)
  {
    var card := s.discardPile[|s.discardPile| - 1];
    var u := s.(discardPile := s.discardPile[..|s.discardPile| - 1]);
    TakeCardConserves(u, pid, card);
    PopMultiset(s.discardPile);
  }

  /** Taking a card adds it to the cards in play and keeps the room valid. */
  lemma TakeCardConserves(s: RoomState, pid: string, card: Card)
    requires Valid(s) && pid in s.players
    ensures Valid(TakeCard(s, pid, card))
    ensures CardsInPlay(TakeCard(s, pid, card)) == CardsInPlay(s) + multiset{card}
  {
    var p := s.players[pid].(hand := s.players[pid].hand + [card], hasDrawn := true);
    HandGains(s.players, s.order, pid, p, card);
  }
}
