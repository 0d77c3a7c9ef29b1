/** The declare handler: the player who holds the turn and has drawn shows their melds and names
    a card to discard. The server checks the count of distinct card ids, that it deals the
    player those ids, that one meld is a pure sequence and that every meld is a meld; then the
    game is won, or the room is told why not. */
module DeclareHandler {
  import opened Wrappers
  import opened Sequences
  import opened Cards
  import opened Melds
  import opened Room
  import Grouping

  /** The payload of a "result" broadcast; `reason` is absent on a valid declaration. */
  datatype Outcome = Outcome(winner: string, valid: bool, reason: Option<string>)

  /** The room after a declaration, and the broadcast, if there is one. */
  datatype Declaration = Declaration(state: RoomState, broadcast: Option<Outcome>)

  function Rejected(pid: string, reason: string): Outcome {
    Outcome(pid, false, Some(reason))
  }

  /** The number of cards a complete declaration names: 13 in melds and the discard. */
  const DeclaredCount := 14

  /** May `pid` declare now: it is their turn, they have a record and they have drawn. */
  predicate MayDeclare(s: RoomState, pid: string) {
    s.currentTurn == pid && pid in s.players && s.players[pid].hasDrawn
  }

  /** The set of ids of every card of every meld. */
  function MeldIds(melds: seq<seq<Card>>): set<string> {
    if melds == [] then {} else MeldIds(melds[..|melds| - 1]) + IdSet(melds[|melds| - 1])
  }

  /** `declaredCardIds`: the meld ids and the discard id. */
  function DeclaredIds(melds: seq<seq<Card>>, discardCardId: string): set<string> {
    MeldIds(melds) + {discardCardId}
  }

  predicate HasPureSequence(melds: seq<seq<Card>>) {
    exists k :: 0 <= k < |melds| && IsPureSequence(melds[k])
  }

  predicate AllMelds(melds: seq<seq<Card>>) {
    forall k :: 0 <= k < |melds| ==> IsMeld(melds[k])
  }

  /** What a valid declaration does: the first card of the hand with the discard id, if any,
      goes onto the discard pile, and the game is finished. */
  function Won(s: RoomState, pid: string, discardCardId: string): RoomState
    requires pid in s.players
  {
    var p := s.players[pid];
    var i := FindId(p.hand, discardCardId);
    var t := if i == -1 then s
             else s.(players := s.players[pid := p.(hand := p.hand[..i] + p.hand[i + 1..])],
                     discardPile := s.discardPile + [p.hand[i]]);
    t.(status := Finished)
  }

  /** The checks of `handleDeclare` after the turn guards, in the source's order: the reason
      the declaration is rejected, or None when it is valid. */
  function Verdict(hand: seq<Card>, melds: Option<seq<seq<Card>>>, discardCardId: string): Option<string> {
    if melds.None? || |melds.value| == 0 then Some("No melds provided")
    else
      var declared := DeclaredIds(melds.value, discardCardId);
      if |declared| != DeclaredCount || |hand| != DeclaredCount then Some("Invalid card count detected.")
      else if !(declared <= IdSet(hand)) then Some("Card mismatch error!")
      else if !HasPureSequence(melds.value) then Some("No pure sequence")
      else if !AllMelds(melds.value) then Some("Invalid groupings")
      else None
  }

  /** `handleDeclare` with `message.melds` as `melds` (None when absent) and
      `message.discardCardId` as `discardCardId`: only a valid declaration changes the room. */
  function Declared(s: RoomState, pid: string, melds: Option<seq<seq<Card>>>, discardCardId: string): Declaration {
    if !MayDeclare(s, pid) then Declaration(s, None)
    else
      var verdict := Verdict(s.players[pid].hand, melds, discardCardId);
      if verdict.None? then Declaration(Won(s, pid, discardCardId), Some(Outcome(pid, true, None)))
      else Declaration(s, Some(Rejected(pid, verdict.value)))
  }

  /** The two `forEach` loops that fill `declaredCardIds`, then the discard id. */
  method CollectIds(melds: seq<seq<Card>>, discardCardId: string) returns (ids: set<string>)
    ensures ids == DeclaredIds(melds, discardCardId)
  {
    ids := {};
    for k := 0 to |melds|
      invariant ids == MeldIds(melds[..k])
    {
      var meld := melds[k];
      for j := 0 to |meld|
        invariant ids == MeldIds(melds[..k]) + IdSet(meld[..j])
      {
        IdSetSnoc(meld, j);
        ids := ids + {meld[j].id};
      }
      assert meld[..|meld|] == meld;
      assert melds[..k + 1][..k] == melds[..k];
    }
    assert melds[..|melds|] == melds;
    ids := ids + {discardCardId};
  }

  lemma IdSetSnoc(cards: seq<Card>, j: nat)
    requires j < |cards|
    ensures IdSet(cards[..j + 1]) == IdSet(cards[..j]) + {cards[j].id}
  {
    assert Ids(cards[..j + 1]) == Ids(cards[..j]) + [cards[j].id];
  }

  /** The ownership loop: every declared id must be among the server's ids for the hand. */
  method OwnsAll(declared: set<string>, serverHandIds: set<string>) returns (ownAllCards: bool)
    ensures ownAllCards <==> declared <= serverHandIds
  {
    ownAllCards := true;
    var remaining := declared;
    while remaining != {}
      invariant remaining <= declared
      invariant declared - remaining <= serverHandIds
      decreases |remaining|
    {
      var id :| id in remaining;
      if id !in serverHandIds {
        ownAllCards := false;
        return;
      }
      remaining := remaining - {id};
    }
  }

  /** `handleDeclare(room, client, message)` for the client `pid`; the broadcast is returned. */
  method HandleDeclare(room: RummyRoom, pid: string, melds: Option<seq<seq<Card>>>, discardCardId: string)
      returns (broadcast: Option<Outcome>)
    modifies room
    ensures Declaration(room.State(), broadcast) == Declared(old(room.State()), pid, melds, discardCardId)
  {
    if room.currentTurn != pid {
      return None;
    }
    if pid !in room.players {
      return None;
    }
    var player := room.players[pid];
    if !player.hasDrawn {
      return None;
    }
    var reason := CheckDeclaration(player.hand, melds, discardCardId);
    if reason.None? {
      ApplyWin(room, pid, discardCardId);
      broadcast := Some(Outcome(pid, true, None));
    } else {
      broadcast := Some(Rejected(pid, reason.value));
    }
  }

  /** The winning branch of `handleDeclare`: the discard, if the card is found, and the end of
      the game. */
  method ApplyWin(room: RummyRoom, pid: string, discardCardId: string)
    requires pid in room.players
    modifies room
    ensures room.State() == Won(old(room.State()), pid, discardCardId)
  {
    var player := room.players[pid];
    var discardIndex := FindId(player.hand, discardCardId);
    if discardIndex != -1 {
      var discardedCard := player.hand[discardIndex];
      room.players := room.players[pid := player.(hand := player.hand[..discardIndex] + player.hand[discardIndex + 1..])];
      room.discardPile := room.discardPile + [discardedCard];
    }
    room.status := Finished;
  }

  /** The checks of `handleDeclare`, with its loops. */
  method CheckDeclaration(hand: seq<Card>, melds: Option<seq<seq<Card>>>, discardCardId: string)
      returns (reason: Option<string>)
    ensures reason == Verdict(hand, melds, discardCardId)
  {
    if melds.None? || |melds.value| == 0 {
      return Some("No melds provided");
    }
    var declaredCardIds := CollectIds(melds.value, discardCardId);
    if |declaredCardIds| != DeclaredCount || |hand| != DeclaredCount {
      return Some("Invalid card count detected.");
    }
    var ownAllCards := OwnsAll(declaredCardIds, IdSet(hand));
    if !ownAllCards {
      return Some("Card mismatch error!");
    }
    var hasPureSequence := Grouping.AnyAccepted(melds.value, IsPureSequence);
    if !hasPureSequence {
      return Some("No pure sequence");
    }
    var allValid := Grouping.EveryAccepted(melds.value, IsMeld);
    if !allValid {
      return Some("Invalid groupings");
    }
    return None;
  }

  // -----------------------------------------------------------------------------------------
  // Properties

  /** Out of turn, without a record or before drawing, nothing happens and nothing is
      broadcast; otherwise there is a broadcast naming the declarer. A rejected declaration
      changes nothing. */
  lemma DeclareBroadcasts(s: RoomState, pid: string, melds: Option<seq<seq<Card>>>, discardCardId: string)
    ensures var d := Declared(s, pid, melds, discardCardId);
      (d.broadcast.None? <==> !MayDeclare(s, pid)) &&
      (d.broadcast.Some? ==> d.broadcast.value.winner == pid) &&
      (d.broadcast.None? || !d.broadcast.value.valid ==> d.state == s) &&
      (d.broadcast.Some? ==> (d.broadcast.value.valid <==> d.broadcast.value.reason.None?))
  {
  }

  /** A declaration is accepted exactly when melds are given, they and the discard name 14
      distinct ids, the hand holds 14 cards carrying all of them, one meld is a pure sequence
      and every meld is a meld. */
  lemma DeclareValidIff(hand: seq<Card>, melds: Option<seq<seq<Card>>>, discardCardId: string)
    ensures Verdict(hand, melds, discardCardId).None? <==>
      melds.Some? && |melds.value| > 0 &&
      |DeclaredIds(melds.value, discardCardId)| == DeclaredCount && |hand| == DeclaredCount &&
      DeclaredIds(melds.value, discardCardId) <= IdSet(hand) &&
      HasPureSequence(melds.value) && AllMelds(melds.value)
  {
  }

  /** For a hand whose ids are distinct, a winning declaration names every card of the hand,
      so the discard card is found: it tops the discard pile, the hand keeps the other 13 in
      order, and the game is finished. */
  lemma WinningDeclaration(s: RoomState, pid: string, melds: seq<seq<Card>>, discardCardId: string)
    requires MayDeclare(s, pid) && DistinctIds(s.players[pid].hand)
    requires Verdict(s.players[pid].hand, Some(melds), discardCardId).None?
    ensures var t := Declared(s, pid, Some(melds), discardCardId).state;
      var hand := s.players[pid].hand;
      var i := FindId(hand, discardCardId);
      DeclaredIds(melds, discardCardId) == IdSet(hand) &&
      0 <= i && hand[i].id == discardCardId &&
      t.discardPile == s.discardPile + [hand[i]] &&
      t.players[pid].hand == hand[..i] + hand[i + 1..] && |t.players[pid].hand| == 13 &&
      t.status == Finished && t.deck == s.deck && t.currentTurn == s.currentTurn
  {
    var hand := s.players[pid].hand;
    var declared := DeclaredIds(melds, discardCardId);
    DistinctCardinality(Ids(hand));
    SubsetOfSameSize(declared, IdSet(hand));
    FindIdFirst(hand, discardCardId);
  }

  /** A set inside another of the same size is that set. */
  lemma SubsetOfSameSize<T>(a: set<T>, b: set<T>)
    requires a <= b && |a| == |b|
    ensures a == b
  {
    assert |b - a| == |b| - |a|;
  }

  /** Every declaration keeps the room valid and loses no card. */
  lemma DeclareConserves(s: RoomState, pid: string, melds: Option<seq<seq<Card>>>, discardCardId: string)
    requires Valid(s)
    ensures Valid(Declared(s, pid, melds, discardCardId).state)
    ensures CardsInPlay(Declared(s, pid, melds, discardCardId).state) == CardsInPlay(s)
  {
    if MayDeclare(s, pid) {
      WonConserves(s, pid, discardCardId);
    }
  }

  lemma WonConserves(s: RoomState, pid: string, discardCardId: string)
    requires Valid(s) && pid in s.players
    ensures Valid(Won(s, pid, discardCardId))
    ensures CardsInPlay(Won(s, pid, discardCardId)) == CardsInPlay(s)
  {
    WonMoves(s, pid, discardCardId);
  }

  lemma WonMoves(s: RoomState, pid: string, discardCardId: string)
    requires Distinct(s.order) && pid in s.order && pid in s.players
    ensures CardsInPlay(Won(s, pid, discardCardId)) == CardsInPlay(s)
  {
    var p := s.players[pid];
    var i := FindId(p.hand, discardCardId);
    if i != -1 {
      var card := p.hand[i];
      var q := p.(hand := p.hand[..i] + p.hand[i + 1..]);
      SpliceMultiset(p.hand, i);
      assert multiset(p.hand) == multiset(q.hand) + multiset{card};
      HandLoses(s.players, s.order, pid, q, card);
      assert multiset(s.discardPile + [card]) == multiset(s.discardPile) + multiset{card};
    }
  }
}
