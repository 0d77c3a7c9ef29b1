/** The room: who is playing, the deck, the discard pile, whose turn it is and the phase of the
    game, and the room's own operations (joining, leaving, starting, dealing, passing the
    turn). Each operation is a function on a snapshot of the room, `RoomState`; the class
    `RummyRoom` holds the same data in fields and its methods are proved to perform exactly
    those functions. */
module Room {
  import opened Wrappers
  import opened Sequences
  import opened Cards
  import opened Deck
  import opened Joker

  /** The room's `status` string: "waiting", "dealing", "playing" or "finished". */
  datatype Status = Waiting | Dealing | Playing | Finished

  /** A player record. Only `hand` and `hasDrawn` are ever changed by the room's logic. */
  datatype Player = Player(sessionId: string, hand: seq<Card>, isReady: bool, score: int,
                           hasDeclared: bool, hasDrawn: bool, isEliminated: bool,
                           hasSubmittedLoserDeclare: bool)

  function NewPlayer(sessionId: string): Player {
    Player(sessionId, [], false, 0, false, false, false, false)
  }

  /** A snapshot of the room. `clients` is the framework's list of connected session ids;
      `order` is the key order of the players map (a JavaScript `Map` iterates its keys in
      insertion order); `currentTurn` is "" where the source leaves it unset. */
  datatype RoomState = RoomState(clients: seq<string>, order: seq<string>,
                                 players: map<string, Player>, deck: seq<Card>,
                                 discardPile: seq<Card>, currentTurn: string,
                                 wildJoker: Option<Card>, status: Status)

  /** The room as `onCreate` sets it up. */
  const Created := RoomState([], [], map[], [], [], "", None, Waiting)

  const MaxClients := 2

  /** What the framework and `onJoin`/`onLeave` keep true: the clients are the players, in the
      order they joined, with distinct non-empty session ids, and there are at most two. */
  ghost predicate Valid(s: RoomState) {
    Distinct(s.order) && s.clients == s.order && |s.order| <= MaxClients &&
    (forall id :: id in s.players <==> id in s.order) &&
    (forall k :: 0 <= k < |s.order| ==> s.order[k] != "")
  }

  /** A session the framework lets join: a new, non-empty id while the room is not full. */
  predicate Joinable(s: RoomState, sessionId: string) {
    sessionId != "" && sessionId !in s.clients && |s.clients| < MaxClients
  }

  /** `s` without any occurrence of `x`. */
  function Without(s: seq<string>, x: string): seq<string> {
    if s == [] then [] else (if s[0] == x then [] else [s[0]]) + Without(s[1..], x)
  }

  lemma {:induction false} WithoutMembers(s: seq<string>, x: string)
    ensures forall y :: y in Without(s, x) <==> y in s && y != x
    ensures Distinct(s) ==> Distinct(Without(s, x))
    ensures |Without(s, x)| <= |s|
    ensures Distinct(s) && x in s ==> |Without(s, x)| == |s| - 1
    ensures x !in s ==> Without(s, x) == s
  {
    if s != [] {
      WithoutMembers(s[1..], x);
      var w := Without(s[1..], x);
      assert s == [s[0]] + s[1..];
      if Distinct(s) {
        assert s[0] !in s[1..] by {
          forall k | 0 <= k < |s[1..]| ensures s[1..][k] != s[0] { assert s[1..][k] == s[k + 1]; }
        }
        assert Distinct(s[1..]) by {
          forall i, j | 0 <= i < j < |s[1..]| ensures s[1..][i] != s[1..][j] {
            assert s[1..][i] == s[i + 1] && s[1..][j] == s[j + 1];
          }
        }
        if s[0] != x {
          forall i, j | 0 <= i < j < |[s[0]] + w| ensures ([s[0]] + w)[i] != ([s[0]] + w)[j] {
            if i == 0 { assert ([s[0]] + w)[j] in w; }
            else { assert ([s[0]] + w)[i] == w[i - 1] && ([s[0]] + w)[j] == w[j - 1]; }
          }
        } else {
          assert x !in s[1..];
        }
      }
    }
  }

  // -----------------------------------------------------------------------------------------
  // The cards in play

  /** The cards in the hands of the players `ids`, counted with multiplicity. */
  function Hands(players: map<string, Player>, ids: seq<string>): multiset<Card> {
    if ids == [] then multiset{} else HandOf(players, ids[0]) + Hands(players, ids[1..])
  }

  function HandOf(players: map<string, Player>, id: string): multiset<Card> {
    if id in players then multiset(players[id].hand) else multiset{}
  }

  /** Every card of the room: deck, discard pile and all hands. */
  function CardsInPlay(s: RoomState): multiset<Card> {
    multiset(s.deck) + multiset(s.discardPile) + Hands(s.players, s.order)
  }

  /** Replacing one player's record changes the hands only by that player's hand. */
  lemma {:induction false} HandsUpdate(players: map<string, Player>, ids: seq<string>,
                                       pid: string, p: Player)
    requires pid in players && Distinct(ids)
    ensures pid in ids ==>
      Hands(players[pid := p], ids) + multiset(players[pid].hand) ==
      Hands(players, ids) + multiset(p.hand)
    ensures pid !in ids ==> Hands(players[pid := p], ids) == Hands(players, ids)
  {
    if ids != [] {
      var rest := ids[1..];
      DistinctTail(ids);
      HandsUpdate(players, rest, pid, p);
      var players' := players[pid := p];
      var head := HandOf(players, ids[0]);
      assert Hands(players', ids) == HandOf(players', ids[0]) + Hands(players', rest);
      assert Hands(players, ids) == head + Hands(players, rest);
      if ids[0] != pid {
        assert HandOf(players', ids[0]) == head;
        if pid in ids {
          var old', new' := multiset(players[pid].hand), multiset(p.hand);
          calc {
            Hands(players', ids) + old';
            head + (Hands(players', rest) + old');
            head + (Hands(players, rest) + new');
            Hands(players, ids) + new';
          }
        }
      }
    }
  }

  /** A player's hand gaining one card adds that card to the hands. */
  lemma HandGains(players: map<string, Player>, ids: seq<string>, pid: string, p: Player, card: Card)
    requires pid in players && Distinct(ids) && pid in ids
    requires p.hand == players[pid].hand + [card]
    ensures Hands(players[pid := p], ids) == Hands(players, ids) + multiset{card}
  {
    HandsUpdate(players, ids, pid, p);
    var before := multiset(players[pid].hand);
    assert multiset(p.hand) == before + multiset{card};
    Cancel(Hands(players[pid := p], ids), Hands(players, ids) + multiset{card}, before);
  }

  /** A player's hand losing one card takes that card out of the hands. */
  lemma HandLoses(players: map<string, Player>, ids: seq<string>, pid: string, p: Player, card: Card)
    requires pid in players && Distinct(ids) && pid in ids
    requires multiset(players[pid].hand) == multiset(p.hand) + multiset{card}
    ensures Hands(players[pid := p], ids) + multiset{card} == Hands(players, ids)
  {
    HandsUpdate(players, ids, pid, p);
    Cancel(Hands(players[pid := p], ids) + multiset{card}, Hands(players, ids), multiset(p.hand));
  }

  /** A lemma to apply when a player's record changes but the hand does not. */
  lemma HandsSameHand(players: map<string, Player>, ids: seq<string>, pid: string, p: Player)
    requires pid in players && Distinct(ids) && p.hand == players[pid].hand
    ensures Hands(players[pid := p], ids) == Hands(players, ids)
  {
    HandsUpdate(players, ids, pid, p);
    if pid in ids {
      Cancel(Hands(players[pid := p], ids), Hands(players, ids), multiset(p.hand));
    }
  }

  // -----------------------------------------------------------------------------------------
  // Joining and leaving

  /** `onJoin(client)`: the framework has added the client; a fresh player record is stored
      under the session id. */
  function Joined(s: RoomState, sessionId: string): RoomState {
    s.(clients := s.clients + [sessionId],
       order := if sessionId in s.players then s.order else s.order + [sessionId],
       players := s.players[sessionId := NewPlayer(sessionId)])
  }

  /** `onLeave(client)`: the framework has removed the client; the player record is deleted,
      and with fewer than two clients left the room waits and no one has the turn. */
  function Left(s: RoomState, sessionId: string): RoomState {
    var clients := Without(s.clients, sessionId);
    var t := s.(clients := clients, order := Without(s.order, sessionId),
                players := s.players - {sessionId});
    if |clients| < MaxClients then t.(status := Waiting, currentTurn := "") else t
  }

  lemma JoinedValid(s: RoomState, sessionId: string)
    requires Valid(s) && Joinable(s, sessionId)
    ensures Valid(Joined(s, sessionId))
    ensures Joined(s, sessionId).players[sessionId] == NewPlayer(sessionId)
    ensures Joined(s, sessionId).order == s.order + [sessionId]
  {
    var t := Joined(s, sessionId);
    forall i, j | 0 <= i < j < |t.order| ensures t.order[i] != t.order[j] {
      if j == |s.order| { assert t.order[i] in s.order; }
    }
  }

  /** After `onLeave` the player is gone, and with fewer than two players left the room is
      waiting and the turn is cleared. */
  lemma LeftEffect(s: RoomState, sessionId: string)
    requires Valid(s) && sessionId in s.clients
    ensures var t := Left(s, sessionId);
      Valid(t) && sessionId !in t.players && |t.order| == |s.order| - 1 &&
      (|t.order| < MaxClients ==> t.status == Waiting && t.currentTurn == "") &&
      (forall id :: id in t.players ==> t.players[id] == s.players[id])
  {
    var t := Left(s, sessionId);
    WithoutMembers(s.order, sessionId);
    forall k | 0 <= k < |t.order| ensures t.order[k] != "" {
      assert t.order[k] in s.order;
    }
  }

  // -----------------------------------------------------------------------------------------
  // Dealing

  /** One iteration of the inner loop of `dealCards`: pop the top of the deck, if any, and
      push it onto the hand of `pid`. The card is popped even if `pid` has no record. */
  function DealOne(s: RoomState, pid: string): RoomState {
    if |s.deck| == 0 then s
    else
      var card := s.deck[|s.deck| - 1];
      s.(deck := s.deck[..|s.deck| - 1],
         players := if pid in s.players
                    then s.players[pid := s.players[pid].(hand := s.players[pid].hand + [card])]
                    else s.players)
  }

  /** One round of `dealCards`: a card to each of `ids` in turn. */
  function Round(s: RoomState, ids: seq<string>): RoomState {
    if ids == [] then s else DealOne(Round(s, ids[..|ids| - 1]), ids[|ids| - 1])
  }

  /** `rounds` rounds. */
  function Deal(s: RoomState, ids: seq<string>, rounds: nat): RoomState {
    if rounds == 0 then s else Round(Deal(s, ids, rounds - 1), ids)
  }

  /** What `dealCards` does: 13 rounds over the players in key order. */
  function Dealt(s: RoomState): RoomState {
    Deal(s, s.order, 13)
  }

  /** Dealing a card changes only the deck and the hands, keeps the players and loses no card. */
  lemma DealOneEffect(s: RoomState, pid: string)
    requires pid in s.players && Distinct(s.order) && pid in s.order
    ensures var t := DealOne(s, pid);
      t == s.(deck := t.deck, players := t.players) && t.players.Keys == s.players.Keys &&
      CardsInPlay(t) == CardsInPlay(s)
  {
    if |s.deck| > 0 {
      var card := s.deck[|s.deck| - 1];
      var p := s.players[pid].(hand := s.players[pid].hand + [card]);
      var t := DealOne(s, pid);
      assert t.players == s.players[pid := p];
      HandGains(s.players, s.order, pid, p, card);
      assert s.deck == t.deck + [card];
      MovedOne(multiset(s.deck), multiset(t.deck), Hands(s.players, s.order),
               Hands(t.players, s.order), multiset(s.discardPile), card);
    }
  }

  lemma Cancel<T>(a: multiset<T>, b: multiset<T>, m: multiset<T>)
    requires a + m == b + m
    ensures a == b
  {
    assert forall x :: a[x] == (a + m)[x] - m[x];
  }

  /** Moving one card `x` from `a` to `b`, next to `rest`, keeps the total. */
  lemma MovedOne<T>(a: multiset<T>, a': multiset<T>, b: multiset<T>, b': multiset<T>,
                    rest: multiset<T>, x: T)
    requires a == a' + multiset{x} && b' == b + multiset{x}
    ensures a' + rest + b' == a + rest + b
  {
  }

  /** A round over players of the room loses no card and keeps the other fields. */
  lemma {:induction false} RoundConserves(s: RoomState, ids: seq<string>)
    requires Distinct(s.order) && forall k :: 0 <= k < |ids| ==> ids[k] in s.players && ids[k] in s.order
    ensures var t := Round(s, ids);
      t == s.(deck := t.deck, players := t.players) && t.players.Keys == s.players.Keys &&
      CardsInPlay(t) == CardsInPlay(s)
  {
    if ids != [] {
      var front := ids[..|ids| - 1];
      RoundConserves(s, front);
      DealOneEffect(Round(s, front), ids[|ids| - 1]);
    }
  }

  /** Dealing loses no card, even when the deck runs out, and changes nothing but the deck and
      the hands. */
  lemma {:induction false} DealConserves(s: RoomState, rounds: nat)
    requires Valid(s)
    ensures var t := Deal(s, s.order, rounds);
      t == s.(deck := t.deck, players := t.players) && t.players.Keys == s.players.Keys &&
      CardsInPlay(t) == CardsInPlay(s) && Valid(t)
  {
    if rounds > 0 {
      DealConserves(s, rounds - 1);
      RoundConserves(Deal(s, s.order, rounds - 1), s.order);
    }
  }

  /** A round over players that all have a record, with a card for each, takes one card per
      player off the top of the deck and keeps the players. */
  lemma {:induction false} RoundDeck(s: RoomState, ids: seq<string>)
    requires |ids| <= |s.deck|
    requires forall k :: 0 <= k < |ids| ==> ids[k] in s.players
    ensures Round(s, ids).deck == s.deck[..|s.deck| - |ids|]
    ensures Round(s, ids).players.Keys == s.players.Keys
  {
    if ids != [] {
      RoundDeck(s, ids[..|ids| - 1]);
    }
  }

  /** With a card for each, a round gives the `j`-th player the `j`-th card from the top, and
      the deck loses exactly those cards. */
  lemma {:induction false} RoundFull(s: RoomState, ids: seq<string>)
    requires Distinct(ids) && |ids| <= |s.deck|
    requires forall k :: 0 <= k < |ids| ==> ids[k] in s.players
    ensures var t := Round(s, ids);
      t.deck == s.deck[..|s.deck| - |ids|] && t.players.Keys == s.players.Keys &&
      (forall j :: 0 <= j < |ids| ==>
         t.players[ids[j]] == s.players[ids[j]].(hand := s.players[ids[j]].hand + [s.deck[|s.deck| - 1 - j]])) &&
      (forall id :: id in s.players && id !in ids ==> t.players[id] == s.players[id])
  {
    RoundDeck(s, ids);
    if ids != [] {
      var front := ids[..|ids| - 1];
      var last := ids[|ids| - 1];
      DistinctFront(ids);
      RoundFull(s, front);
      var u := Round(s, front);
      var top := s.deck[|s.deck| - 1 - (|ids| - 1)];
      assert u.deck[|u.deck| - 1] == top;
      assert Round(s, ids).players == u.players[last := u.players[last].(hand := u.players[last].hand + [top])];
      forall j | 0 <= j < |ids| - 1
        ensures Round(s, ids).players[ids[j]] ==
          s.players[ids[j]].(hand := s.players[ids[j]].hand + [s.deck[|s.deck| - 1 - j]])
      {
        assert ids[j] == front[j] && ids[j] != last;
      }
    }
  }

  /** With enough cards, `rounds` rounds give every player `rounds` more cards and take
      `rounds` cards per player off the top of the deck. */
  lemma {:induction false} DealFull(s: RoomState, rounds: nat)
    requires Distinct(s.order) && (forall id :: id in s.players <==> id in s.order)
    requires rounds * |s.order| <= |s.deck|
    ensures var t := Deal(s, s.order, rounds);
      t.deck == s.deck[..|s.deck| - rounds * |s.order|] &&
      (forall id :: id in s.players ==>
         id in t.players && |t.players[id].hand| == |s.players[id].hand| + rounds)
  {
    if rounds > 0 {
      var n := |s.order|;
      RoundsStep(rounds, n);
      var before: nat := (rounds - 1) * n;
      DealFull(s, rounds - 1);
      var u := Deal(s, s.order, rounds - 1);
      DealShape(s, s.order, rounds - 1);
      RoundGrows(u, s.order);
      PrefixOfPrefix(s.deck, before, n);
    }
  }

  /** The cards dealt in `rounds` rounds are those of one round fewer and one more round. */
  lemma RoundsStep(rounds: nat, n: nat)
    requires rounds > 0
    ensures 0 <= (rounds - 1) * n && (rounds - 1) * n + n == rounds * n
  {
  }

  /** A full round over every player: one card more each, the deck shorter by one per player. */
  lemma RoundGrows(s: RoomState, ids: seq<string>)
    requires Distinct(ids) && |ids| <= |s.deck|
    requires forall id :: id in s.players <==> id in ids
    ensures var t := Round(s, ids);
      t.deck == s.deck[..|s.deck| - |ids|] &&
      (forall id :: id in s.players ==>
         id in t.players && |t.players[id].hand| == |s.players[id].hand| + 1)
  {
    RoundFull(s, ids);
    var t := Round(s, ids);
    forall id | id in s.players ensures id in t.players && |t.players[id].hand| == |s.players[id].hand| + 1 {
      var j :| 0 <= j < |ids| && ids[j] == id;
    }
  }

  /** Dealing touches nothing but the deck and the players. */
  lemma {:induction false} DealShape(s: RoomState, ids: seq<string>, rounds: nat)
    ensures var t := Deal(s, ids, rounds);
      t == s.(deck := t.deck, players := t.players) && t.players.Keys == s.players.Keys
  {
    if rounds > 0 {
      DealShape(s, ids, rounds - 1);
      RoundShape(Deal(s, ids, rounds - 1), ids);
    }
  }

  lemma {:induction false} RoundShape(s: RoomState, ids: seq<string>)
    ensures var t := Round(s, ids);
      t == s.(deck := t.deck, players := t.players) && t.players.Keys == s.players.Keys
  {
    if ids != [] {
      RoundShape(s, ids[..|ids| - 1]);
    }
  }

  /** Once the deck is empty every further deal is skipped: nothing changes. */
  lemma {:induction false} DealEmptyDeck(s: RoomState, ids: seq<string>, rounds: nat)
    requires |s.deck| == 0
    ensures Round(s, ids) == s && Deal(s, ids, rounds) == s
  {
    if ids != [] {
      DealEmptyDeck(s, ids[..|ids| - 1], 0);
    }
    if rounds > 0 {
      DealEmptyDeck(s, ids, rounds - 1);
    }
  }

  // -----------------------------------------------------------------------------------------
  // Passing the turn

  /** `playerIds.find(id => id !== currentTurn)`. */
  function FirstOther(ids: seq<string>, current: string): (r: Option<string>)
    ensures r.Some? ==> r.value in ids && r.value != current
    ensures r.None? ==> forall k :: 0 <= k < |ids| ==> ids[k] == current
  {
    if ids == [] then None
    else if ids[0] != current then Some(ids[0])
    else FirstOther(ids[1..], current)
  }

  /** `nextTurn`: with exactly two players the turn goes to the first one that does not hold
      it, whose `hasDrawn` is cleared. An empty id counts as not found. */
  function TurnPassed(s: RoomState): RoomState {
    if |s.order| != 2 then s
    else
      var next := FirstOther(s.order, s.currentTurn);
      if next.None? || next.value == "" then s
      else
        var id := next.value;
        s.(players := if id in s.players then s.players[id := s.players[id].(hasDrawn := false)]
                      else s.players,
           currentTurn := id)
  }

  /** With two players, the turn goes from one to the other and the other must draw again; with
      any other number nothing changes. No card moves. */
  lemma TurnPassedEffect(s: RoomState)
    requires Valid(s)
    ensures var t := TurnPassed(s);
      Valid(t) && CardsInPlay(t) == CardsInPlay(s) && t.deck == s.deck &&
      t.discardPile == s.discardPile && t.status == s.status &&
      (|s.order| != 2 ==> t == s) &&
      (|s.order| == 2 ==>
        t.currentTurn in s.order && t.currentTurn != s.currentTurn &&
        !t.players[t.currentTurn].hasDrawn &&
        t.players == s.players[t.currentTurn := s.players[t.currentTurn].(hasDrawn := false)])
  {
    if |s.order| == 2 {
      assert s.order[0] != s.order[1];
      HandsSameHand(s.players, s.order, FirstOther(s.order, s.currentTurn).value,
                    s.players[FirstOther(s.order, s.currentTurn).value].(hasDrawn := false));
    }
  }

  /** With two players of whom one holds the turn, passing it twice gives it back. */
  lemma TurnPassedTwice(s: RoomState)
    requires Valid(s) && |s.order| == 2 && s.currentTurn in s.order
    ensures TurnPassed(TurnPassed(s)).currentTurn == s.currentTurn
  {
    TurnPassedEffect(s);
    TurnPassedEffect(TurnPassed(s));
    assert s.order[0] != s.order[1];
  }

  // -----------------------------------------------------------------------------------------
  // Starting a game

  /** The shuffle: `perm` lists the positions of the generated deck in their new order. */
  predicate IsPermutation(perm: seq<nat>, n: nat) {
    |perm| == n && (forall k :: 0 <= k < n ==> perm[k] < n) && Distinct(perm)
  }

  function Permute(deck: seq<Card>, perm: seq<nat>): (r: seq<Card>)
    requires IsPermutation(perm, |deck|)
    ensures |r| == |deck|
  {
    seq(|perm|, k requires 0 <= k < |perm| => deck[perm[k]])
  }

  /** The shuffled, marked deck that `initializeGame` puts in the room, and the wild joker as
      the room stores it: the same card object, so it is marked too. */
  function WildDeck(counter: nat, perm: seq<nat>, random: real): (r: (seq<Card>, Card))
    requires IsPermutation(perm, DeckSize) && 0.0 <= random < 1.0
    ensures |r.0| == DeckSize && r.1.isJoker
  {
    var shuffled := Permute(StandardDeck(counter), perm);
    var wild := SelectWildJoker(shuffled, random).value;
    (MarkWild(shuffled, wild.rank), wild.(isJoker := true))
  }

  /** The shuffle keeps every card, as often as the deck holds it. */
  lemma PermuteMultiset(deck: seq<Card>, perm: seq<nat>)
    requires IsPermutation(perm, |deck|)
    ensures multiset(Permute(deck, perm)) == multiset(deck)
  {
    ReindexMultiset(deck, perm, Permute(deck, perm));
  }

  /** The deck `initializeGame` loads holds exactly the 108 generated cards with the wild rank
      marked, in shuffled order, and the wild joker the room keeps is one of those cards. */
  lemma WildDeckCards(counter: nat, perm: seq<nat>, random: real)
    requires IsPermutation(perm, DeckSize) && 0.0 <= random < 1.0
    ensures var w := WildDeck(counter, perm, random);
      multiset(w.0) == multiset(MarkWild(StandardDeck(counter), w.1.rank)) && w.1 in w.0
  {
    var w := WildDeck(counter, perm, random);
    var deck := StandardDeck(counter);
    var shuffled := Permute(deck, perm);
    var wild := SelectWildJoker(shuffled, random).value;
    var i :| 0 <= i < |shuffled| && shuffled[i] == wild;
    assert w.0[i] == w.1;
    ReindexMultiset(MarkWild(deck, wild.rank), perm, w.0);
  }

  /** `initializeGame`: a fresh shuffled deck with the wild rank marked, the deal, one card
      turned up onto the discard pile, the first client to play. The hands and the discard
      pile are not cleared first. */
  function Initialized(s: RoomState, counter: nat, perm: seq<nat>, random: real): RoomState
    requires IsPermutation(perm, DeckSize) && 0.0 <= random < 1.0 && |s.clients| > 0
  {
    var w := WildDeck(counter, perm, random);
    var t := TurnedUp(Dealt(s.(wildJoker := Some(w.1), deck := w.0)));
    t.(currentTurn := s.clients[0], status := Playing)
  }

  /** The first open card: the top of the deck, if any, moves onto the discard pile. */
  function TurnedUp(s: RoomState): RoomState {
    if |s.deck| > 0
    then s.(deck := s.deck[..|s.deck| - 1], discardPile := s.discardPile + [s.deck[|s.deck| - 1]])
    else s
  }

  lemma TurnedUpConserves(s: RoomState)
    ensures CardsInPlay(TurnedUp(s)) == CardsInPlay(s)
  {
    if |s.deck| > 0 {
      var top := s.deck[|s.deck| - 1];
      var t := TurnedUp(s);
      assert s.deck == t.deck + [top];
      MovedOne(multiset(s.deck), multiset(t.deck), multiset(s.discardPile),
               multiset(t.discardPile), Hands(s.players, s.order), top);
      assert multiset(s.deck) + multiset(s.discardPile) == multiset(t.deck) + multiset(t.discardPile);
    }
  }

  /** `tryStartGame`: only a waiting room with at least two players starts. */
  function Started(s: RoomState, counter: nat, perm: seq<nat>, random: real): RoomState
    requires IsPermutation(perm, DeckSize) && 0.0 <= random < 1.0 && Valid(s)
  {
    if s.status != Waiting || |s.players| < 2 then s
    else
      assert |s.clients| > 0 by { PlayersCount(s); }
      Initialized(s.(status := Dealing), counter, perm, random)
  }

  /** The number of player records is the number of clients. */
  lemma PlayersCount(s: RoomState)
    requires Valid(s)
    ensures |s.players| == |s.clients|
  {
    assert s.players.Keys == ToSet(s.order);
    DistinctCardinality(s.order);
  }

  /** A join, and the start of the game when it makes two clients. */
  function AfterJoin(s: RoomState, sessionId: string, counter: nat, perm: seq<nat>, random: real): RoomState
    requires IsPermutation(perm, DeckSize) && 0.0 <= random < 1.0 && Valid(s) && Joinable(s, sessionId)
  {
    JoinedValid(s, sessionId);
    var j := Joined(s, sessionId);
    if |j.clients| == MaxClients then Started(j, counter, perm, random) else j
  }

  /** A room that is not waiting, or has fewer than two players, does not start. */
  lemma StartedNoop(s: RoomState, counter: nat, perm: seq<nat>, random: real)
    requires IsPermutation(perm, DeckSize) && 0.0 <= random < 1.0 && Valid(s)
    requires s.status != Waiting || |s.players| < 2
    ensures Started(s, counter, perm, random) == s
  {
  }

  /** After `initializeGame`: every player has 13 more cards, one card has gone to the discard
      pile, the deck holds the rest of the 108, the first client has the turn, the game is on,
      and the wild joker is a marked joker. */
  lemma InitializedEffect(s: RoomState, counter: nat, perm: seq<nat>, random: real)
    requires IsPermutation(perm, DeckSize) && 0.0 <= random < 1.0 && Valid(s) && |s.clients| > 0
    ensures var t := Initialized(s, counter, perm, random);
      Valid(t) && |t.deck| == DeckSize - 13 * |s.order| - 1 &&
      |t.discardPile| == |s.discardPile| + 1 &&
      t.discardPile[..|s.discardPile|] == s.discardPile &&
      (forall id :: id in s.players ==>
         id in t.players && |t.players[id].hand| == |s.players[id].hand| + 13) &&
      t.currentTurn == s.clients[0] && t.status == Playing &&
      t.wildJoker.Some? && t.wildJoker.value.isJoker
  {
    var w := WildDeck(counter, perm, random);
    var s1 := s.(wildJoker := Some(w.1), deck := w.0);
    DealFull(s1, 13);
    DealConserves(s1, 13);
    var t := Dealt(s1);
    assert |t.deck| == DeckSize - 13 * |s.order|;
  }

  /** `initializeGame` replaces the deck by the 108 new cards and keeps the discard pile and
      the hands: every card of the room afterwards is one of those. */
  lemma InitializedConserves(s: RoomState, counter: nat, perm: seq<nat>, random: real)
    requires IsPermutation(perm, DeckSize) && 0.0 <= random < 1.0 && Valid(s) && |s.clients| > 0
    ensures CardsInPlay(Initialized(s, counter, perm, random)) ==
      multiset(WildDeck(counter, perm, random).0) + multiset(s.discardPile) + Hands(s.players, s.order)
  {
    var w := WildDeck(counter, perm, random);
    var s1 := s.(wildJoker := Some(w.1), deck := w.0);
    DealConserves(s1, 13);
    TurnedUpConserves(Dealt(s1));
  }

  lemma {:induction false} HandsEmpty(players: map<string, Player>, ids: seq<string>)
    requires forall id :: id in players ==> players[id].hand == []
    ensures Hands(players, ids) == multiset{}
  {
    if ids != [] {
      HandsEmpty(players, ids[1..]);
    }
  }

  /** From a fresh deck, with two players holding nothing and an empty discard pile: 13 cards
      each, one turned up, 81 left. */
  lemma FirstDeal(s: RoomState, counter: nat, perm: seq<nat>, random: real)
    requires IsPermutation(perm, DeckSize) && 0.0 <= random < 1.0 && Valid(s)
    requires |s.order| == 2 && s.discardPile == []
    requires forall id :: id in s.players ==> s.players[id].hand == []
    ensures var t := Initialized(s, counter, perm, random);
      (forall id :: id in s.players ==> id in t.players && |t.players[id].hand| == 13) &&
      |t.discardPile| == 1 && |t.deck| == 81 &&
      CardsInPlay(t) == multiset(WildDeck(counter, perm, random).0)
  {
    InitializedEffect(s, counter, perm, random);
    InitializedConserves(s, counter, perm, random);
    HandsEmpty(s.players, s.order);
  }

  /** The first steps of `initializeGame`: generate, shuffle, pick the wild joker and mark its
      rank in the shuffled array. */
  method ShuffledDeck(factory: CardFactory, perm: seq<nat>, random: real)
      returns (marked: array<Card>, wild: Card)
    requires IsPermutation(perm, DeckSize) && 0.0 <= random < 1.0
    modifies factory
    ensures fresh(marked)
    ensures (marked[..], wild) == WildDeck(old(factory.cardCounter), perm, random)
    ensures factory.cardCounter == old(factory.cardCounter) + DeckSize
  {
    var rawDeck := factory.GenerateDeck();
    var shuffled := Permute(rawDeck, perm);
    var wildJoker := SelectWildJoker(shuffled, random).value;
    marked := new Card[|shuffled|](k requires 0 <= k < |shuffled| => shuffled[k]);
    assert marked[..] == shuffled;
    ApplyWildJoker(marked, wildJoker.rank);
    wild := wildJoker.(isJoker := true);
  }

  // -----------------------------------------------------------------------------------------
  // The room object

  class RummyRoom {
    var clients: seq<string>
    var order: seq<string>
    var players: map<string, Player>
    var deck: seq<Card>
    var discardPile: seq<Card>
    var currentTurn: string
    var wildJoker: Option<Card>
    var status: Status

    function State(): RoomState
      reads this
    {
      RoomState(clients, order, players, deck, discardPile, currentTurn, wildJoker, status)
    }

    /** `onCreate`: a new, empty state. */
    constructor ()
      ensures State() == Created
    {
      clients, order, players := [], [], map[];
      deck, discardPile := [], [];
      currentTurn, wildJoker, status := "", None, Waiting;
    }

    /** `onJoin`, preceded by the framework's own addition of the client. */
    method OnJoin(sessionId: string, factory: CardFactory, perm: seq<nat>, random: real)
      requires Valid(State()) && Joinable(State(), sessionId)
      requires IsPermutation(perm, DeckSize) && 0.0 <= random < 1.0
      modifies this, factory
      ensures State() == AfterJoin(old(State()), sessionId, old(factory.cardCounter), perm, random)
    {
      ghost var s := State();
      JoinedValid(s, sessionId);
      clients := clients + [sessionId];
      if sessionId !in players {
        order := order + [sessionId];
      }
      players := players[sessionId := NewPlayer(sessionId)];
      assert State() == Joined(s, sessionId);
      if |clients| == MaxClients {
        TryStartGame(factory, perm, random);
      }
    }

    /** `onLeave`, preceded by the framework's own removal of the client. */
    method OnLeave(sessionId: string)
      requires sessionId in clients
      modifies this
      ensures State() == Left(old(State()), sessionId)
    {
      clients := Without(clients, sessionId);
      order := Without(order, sessionId);
      players := players - {sessionId};
      if |clients| < MaxClients {
        status := Waiting;
        currentTurn := "";
      }
    }

    /** `tryStartGame`. */
    method TryStartGame(factory: CardFactory, perm: seq<nat>, random: real)
      requires Valid(State()) && IsPermutation(perm, DeckSize) && 0.0 <= random < 1.0
      modifies this, factory
      ensures State() == Started(old(State()), old(factory.cardCounter), perm, random)
    {
      if status != Waiting {
        return;
      }
      if |players| < 2 {
        return;
      }
      PlayersCount(State());
      status := Dealing;
      InitializeGame(factory, perm, random);
    }

    /** `initializeGame`, with the shuffle given as `perm` and the value of `Math.random()` as
        `random`. */
    method InitializeGame(factory: CardFactory, perm: seq<nat>, random: real)
      requires IsPermutation(perm, DeckSize) && 0.0 <= random < 1.0 && |clients| > 0
      modifies this, factory
      ensures State() == Initialized(old(State()), old(factory.cardCounter), perm, random)
      ensures factory.cardCounter == old(factory.cardCounter) + DeckSize
    {
      ghost var s0 := State();
      var marked, wild := ShuffledDeck(factory, perm, random);
      wildJoker := Some(wild);
      LoadDeck(marked);
      assert State() == s0.(wildJoker := Some(wild), deck := marked[..]);
      DealShape(State(), order, 13);
      DealCards();
      if |deck| > 0 {
        var firstOpenCard := deck[|deck| - 1];
        deck := deck[..|deck| - 1];
        discardPile := discardPile + [firstOpenCard];
      }
      currentTurn := clients[0];
      status := Playing;
    }

    /** `deck.clear()`, then a push of every card of `cards`. */
    method LoadDeck(cards: array<Card>)
      modifies this
      ensures State() == old(State()).(deck := cards[..])
    {
      deck := [];
      for k := 0 to cards.Length
        invariant State() == old(State()).(deck := cards[..k])
      {
        deck := deck + [cards[k]];
      }
      assert cards[..cards.Length] == cards[..];
    }

    /** `dealCards`: 13 rounds; in each, every player in key order gets the top card, and a
        pop from an empty deck is skipped. */
    method DealCards()
      modifies this
      ensures State() == Dealt(old(State()))
    {
      var playerIds := order;
      ghost var s0 := State();
      for i := 0 to 13
        invariant State() == Deal(s0, playerIds, i)
      {
        ghost var si := State();
        for k := 0 to |playerIds|
          invariant State() == Round(si, playerIds[..k])
        {
          assert playerIds[..k + 1][..k] == playerIds[..k];
          if |deck| > 0 {
            var card := deck[|deck| - 1];
            deck := deck[..|deck| - 1];
            var playerId := playerIds[k];
            if playerId in players {
              players := players[playerId := players[playerId].(hand := players[playerId].hand + [card])];
            }
          }
        }
        assert playerIds[..|playerIds|] == playerIds;
      }
    }

    /** `nextTurn`. */
    method NextTurn()
      modifies this
      ensures State() == TurnPassed(old(State()))
    {
      var playerIds := order;
      if |playerIds| != 2 {
        return;
      }
      var nextPlayerId := FirstOther(playerIds, currentTurn);
      if nextPlayerId.None? || nextPlayerId.value == "" {
        return;
      }
      var id := nextPlayerId.value;
      if id in players {
        players := players[id := players[id].(hasDrawn := false)];
      }
      currentTurn := id;
    }
  }
}
