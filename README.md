# Two-player Rummy room, modelled in Dafny

This project models the game core of a Colyseus server for two-player Rummy:

- the pure card logic:
  - the meld validators;
  - the greedy auto-grouper and the hand check built on it;
  - the penalty scorer;
  - the deck generator with its running id counter;
  - the wild-joker pick and marking;
- the room's state machine:
  - joining and leaving;
  - starting, dealing and passing the turn;
  - the draw, discard and declare handlers.

Each file follows one source file:

| Dafny file | models |
|---|---|
| `cards.dfy` | the card record, the suit and rank tables, `rankValue`, `findIndex` by id |
| `melds.dfy` | `isPureSequence`, `isConsecutive`, `isValidSequence`, `canFormConsecutiveWithJokers`, `isValidSet` |
| `grouping.dfy` | `removeCards`, `extractGroups`, `autoGroup`, `isValidHand` |
| `score.dfy` | `calculatesPenaltyPoints`, with JavaScript's `parseInt` and NaN |
| `deck.dfy` | `createCard`, `generateDeck` and the module-level `cardCounter` |
| `joker.dfy` | `selectWildJoker`, `applyWildJoker` |
| `rummy_room.dfy` | the `RummyRoom` class and its state |
| `draw_handler.dfy`, `discard_handler.dfy`, `declare_handler.dfy` | the three handlers |

`rankValue` and the `SUIT`/`RANKS` tables are defined in `src/game/deck.ts`. The model puts them in `cards.dfy` next to the card record they describe. The meld validators then import only the card definitions, not the deck generator and its counter; in the source, `rules.ts` imports `rankValue` from `deck.ts`.

`wrappers.dfy`, `sequences.dfy` and `sorting.dfy` hold general definitions: an Option type, distinctness, flattening, multiset facts, and an insertion sort of rank values.

**How imperative code is modelled.** Loops and in-place updates become methods with loops. Each method is proved equal to a specification function:
- `isConsecutive` and `canFormConsecutiveWithJokers` loop over the sorted rank values.
- `extractGroups` has a `while (found)` loop around the nested window scans, and `removeCards` runs `findIndex` and `splice`.
- The scorer's loop has a `continue`.
- `generateDeck` has nested loops over a `CardFactory` object that holds the counter.
- `applyWildJoker` updates an `array` in place.

The room is a `class RummyRoom` with one field per piece of room state. Its methods (`OnJoin`, `OnLeave`, `TryStartGame`, `InitializeGame`, `DealCards`, `NextTurn`) are proved equal to functions on a snapshot value, `RoomState`.

The three handlers are methods on the room, proved equal to `Drawn`, `Discarded` and `Declared`. The declare handler returns the `result` broadcast as a value (`Outcome`: winner, valid flag, optional reason) instead of sending it.

**Card conservation.** `CardsInPlay` is the multiset of cards in the deck, the discard pile and every hand. The model proves that dealing, drawing, discarding and declaring never create or destroy a card. It also proves that a rejected action leaves the room unchanged.

**Where the code and the written design disagree, the model follows the code:**
- Ranks are ace-low only. `rankValue` indexes the list A..K, so Q-K-A is no run; there is no ace-high check.
- The validators consult only the `isJoker` flag. `applyWildJoker` sets that flag on every card of the wild rank; the validators never look at the wild joker itself.
- A declaration needs one pure sequence and every meld valid. There is no "two sequences" rule.
- `initializeGame` clears only the deck. Hands and the discard pile carry over.

The code has no turn timers, elimination, score accumulation, loser-declare window, ready voting or reshuffle of an empty deck, so none of these is modelled.

## Model

| member | source | states |
|---|---|---|
| Cards.RankValue | src/game/deck.ts:47-49 | the value lies in -1..12; it is -1 exactly when the rank is not one of A..K, and otherwise the position of the rank in A..K |
| Cards.RankValueOfRanks | src/game/deck.ts:4-18 | A..K are numbered 0..12 in order, so the ace is 0 and never high |
| Cards.RankValueInjective | src/game/deck.ts:47-49 | two ranks with the same non-negative value are the same rank |
| Cards.PrintedJokerRankValue | src/game/deck.ts:47-49 | the printed joker's rank "pj" has value -1 |
| Cards.IndexOf | src/game/deck.ts:48 | `indexOf`: -1 exactly when absent, otherwise the first position holding the value |
| Cards.FindId | src/handlers/discard.handler.ts:28-30 | `findIndex` by id: -1, or a position whose card carries the id |
| Cards.FindIdFirst | src/handlers/discard.handler.ts:28-34 | `findIndex` gives -1 exactly when no card carries the id; otherwise no earlier card carries it |
| Cards.FindIdAppended | src/handlers/draw.handler.ts:40 | a card appended to a hand without its id is the one found by its id, and splicing it out restores the hand |
| Melds.NonJokers | src/game/rules.ts:8 | the filter keeps exactly the non-joker cards, and keeps a joker-free group whole |
| Melds.Jokers | src/game/rules.ts:56 | the filter keeps exactly the jokers; jokers and non-jokers together are the whole group |
| Melds.IsConsecutive | src/game/rules.ts:25-34 | the loop returns true exactly when, after sorting by rank value, each value is one above the previous |
| Melds.ConsecutiveIff | src/game/rules.ts:25-34 | consecutive exactly when the rank values are pairwise different and max - min = size - 1 |
| Melds.WideSpanIsNoRun | src/game/rules.ts:25-34 | two cards whose rank values differ by the group size or more rule out a run |
| Melds.QueenKingAceIsNoRun | src/game/rules.ts:25-34 | Q-K-A of one suit is not consecutive (ace-low only) |
| Melds.PureSequenceIff | src/game/rules.ts:4-23 | pure sequence exactly when: at least 3 cards, no jokers, one suit, distinct rank values spanning size - 1 |
| Melds.PureSequenceRejects | src/game/rules.ts:5-20 | fewer than 3 cards (the empty group included), two different suits or any joker means no pure sequence |
| Melds.RequiredJokersStep | src/game/rules.ts:64-72 | each loop step adds diff - 1 to the joker count when diff exceeds 1 |
| Melds.CanFormConsecutiveWithJokers | src/game/rules.ts:54-76 | the loop with its early `return false` on a zero difference returns exactly the gap-sum test |
| Melds.NoRepeatedStepIff | src/game/rules.ts:64-68 | on sorted values, no zero step exactly when no value repeats |
| Melds.RequiredJokersSpan | src/game/rules.ts:63-72 | for a strictly increasing run, the gap sum is (max - min) - (size - 1) |
| Melds.CanFormIff | src/game/rules.ts:54-76 | accepted exactly when there is no non-joker, or the non-joker values are distinct and the jokers cover every missing value between min and max |
| Melds.RepeatedRankRejected | src/game/rules.ts:65-68 | a repeated non-joker rank value is always rejected |
| Melds.ValidSequenceRejects | src/game/rules.ts:36-52 | all-joker groups and groups whose non-jokers mix suits are no sequence |
| Melds.PureIsValidSequence | src/game/rules.ts:36-52 | every pure sequence is also a valid sequence |
| Melds.JokerFreeSequenceIsPure | src/game/rules.ts:36-52 | without jokers, sequence and pure sequence coincide |
| Melds.SuitsOf | src/game/rules.ts:90 | the suits of the cards, in order |
| Melds.ValidSetIff | src/game/rules.ts:78-92 | set exactly when: 3 or 4 cards, some non-joker, all non-jokers of one rank, their suits pairwise different |
| Grouping.RemoveIdPresent | src/game/rules.ts:157-161 | removing a present id takes out one card and one occurrence of that id |
| Grouping.RemovedLength | src/game/rules.ts:156-163 | when every id to remove is present often enough, exactly that many cards go |
| Grouping.RemoveCards | src/game/rules.ts:156-163 | the `forEach`/`findIndex`/`splice` loop leaves exactly `Removed(cards, toRemove)` |
| Grouping.RemoveWindowLength | src/game/rules.ts:142-146 | removing a window cut from the cards removes as many cards as it holds, even with repeated ids |
| Grouping.RemoveDistinctId | src/game/rules.ts:158-160 | with distinct ids, the card found for card i's id is card i |
| Grouping.RemoveWindow | src/game/rules.ts:156-163 | with distinct ids, removing a window removes exactly it and keeps the others in order |
| Grouping.RemoveWindowPartition | src/game/rules.ts:156-163 | the window and the rest together are the original cards, and the rest keeps distinct ids |
| Grouping.FirstWindowInRange | src/game/rules.ts:140-149 | a window found lies inside the cards, has at least the starting size, and is accepted |
| Grouping.FirstWindowSound | src/game/rules.ts:140-149 | the window found is the first accepted one in (size, start) scan order; none found means none is accepted |
| Grouping.FindWindow | src/game/rules.ts:140-152 | the nested `for` loops with their `break`s return exactly the first accepted window |
| Grouping.ExtractedStep | src/game/rules.ts:137-153 | one pass of the `while` loop cuts out the first accepted window of 3 or more cards and continues on the rest |
| Grouping.ExtractedGroupsValid | src/game/rules.ts:144-147 | every extracted group has at least 3 cards and passes the validator |
| Grouping.ExtractedRestHasNoFit | src/game/rules.ts:135-153 | when extraction ends, no window of 3 or more of the remaining cards passes the validator |
| Grouping.ExtractedLength | src/game/rules.ts:135-153 | groups and rest together hold as many cards as were given |
| Grouping.ExtractedKeeps | src/game/rules.ts:135-153 | a property that cutting windows preserves holds of the rest, and groups plus rest are the cards given |
| Grouping.ExtractedPartition | src/game/rules.ts:135-153 | with distinct ids, the groups and the rest partition the cards, and the rest keeps distinct ids |
| Grouping.ExtractGroups | src/game/rules.ts:130-154 | the `while (found)` loop appends exactly the extracted groups and leaves exactly the extracted rest |
| Grouping.AutoGroup | src/game/rules.ts:116-128 | the three extraction calls and the final push return exactly `Grouped(hand)` |
| Grouping.GroupedFlatten | src/game/rules.ts:116-128 | the grouping lists the tiers' cards, then the leftover |
| Grouping.GroupedLength | src/game/rules.ts:116-128 | the grouping holds as many cards as the hand, and no group is empty |
| Grouping.GroupedPartition | src/game/rules.ts:116-128 | with distinct ids, the groups together are a permutation of the hand |
| Grouping.GroupedTiers | src/game/rules.ts:119-124 | for the three tier validators (`autoGroup` passes pure sequence, sequence, set), the groups form three consecutive blocks of 3 or more cards: the first block accepted by the first validator, the second by the second, the third by the third; then at most one leftover, in which no window of 3 or more passes the third validator |
| Grouping.IsValidHand | src/game/rules.ts:93-114 | "No pure sequence" unless some group is pure; else "Invalid grouping" unless every group is a meld; else valid |
| Grouping.AnyAccepted | src/game/rules.ts:95-100 | the flag loop is true exactly when some group passes |
| Grouping.EveryAccepted | src/game/rules.ts:104-108 | `every` is true exactly when all groups pass |
| Grouping.ShortHandHasNoPureGroup | src/game/rules.ts:93-103 | a hand of fewer than 3 cards has no pure-sequence group |
| Score.Cap | src/game/score.ts:16 | `Math.min(x, 80)`: NaN stays NaN; otherwise at most 80, and x itself unless x exceeds 80 |
| Score.DigitsPrefix | src/game/score.ts:13 | the length of the leading run of decimal digits |
| Score.ParseInt | src/game/score.ts:13 | `parseInt` gives a number exactly when a digit follows the optional sign, and NaN otherwise |
| Score.Penalty | src/game/score.ts:16 | the score is at most 80, and NaN exactly when the sum is NaN |
| Score.CalculatesPenaltyPoints | src/game/score.ts:4-17 | the loop with its `continue` and the cap returns exactly `Penalty(cards, wildJoker)` |
| Score.ParseDigits | src/game/score.ts:13 | the numeral ranks 2..10 parse to their face values |
| Score.FaceValues | src/game/score.ts:10-14 | outside the joker case, J, Q, K and A add 10 and numerals add their face value |
| Score.JokersAddNothing | src/game/score.ts:7-9 | a card judged a joker adds 0; with no wild joker no card is skipped |
| Score.PrintedJokerWithoutWild | src/game/score.ts:7-14 | with no wild joker, a printed joker makes the whole score NaN |
| Score.PointsSumNaN | src/game/score.ts:6-15 | one NaN contribution makes the sum NaN |
| Score.EmptyHandScoresZero | src/game/score.ts:5-16 | the empty hand scores 0 |
| Score.StandardContribution | src/game/score.ts:10-14 | a standard rank adds a whole number between 0 and 10 |
| Score.StandardSum | src/game/score.ts:6-15 | for standard ranks the sum is a whole number of at least 0 |
| Score.StandardHandScore | src/game/score.ts:5-16 | for standard ranks the score is min(sum, 80), between 0 and 80 |
| Score.FoldPermutation | src/game/score.ts:6-15 | the accumulated sum depends only on the multiset of cards |
| Score.PenaltyPermutation | src/game/score.ts:6-15 | the score does not depend on the order of the hand |
| Deck.DecimalString | src/game/deck.ts:23 | the template literal of the counter is a non-empty run of decimal digits |
| Deck.DecimalStringInjective | src/game/deck.ts:23 | different counter values have different decimal texts |
| Deck.CardIdInjective | src/game/deck.ts:23 | the counter value can be read back from an id |
| Deck.CardFactory.constructor | src/game/deck.ts:20 | the counter starts at 0 |
| Deck.CardFactory.CreateCard | src/game/deck.ts:21-28 | the card's id is rank-suit-counter, and the counter goes up by one |
| Deck.CardFactory.GenerateDeck | src/game/deck.ts:30-46 | the nested loops return exactly `StandardDeck(start)`, and the counter goes up by 108 |
| Deck.CardFactory.PushPack | src/game/deck.ts:33-40 | one outer pass pushes the next 54 cards of the standard deck |
| Deck.CardFactory.PushSuit | src/game/deck.ts:34-36 | one suit pass pushes the next 13 cards of the standard deck |
| Deck.StandardDeck | src/game/deck.ts:30-46 | the generated deck has exactly 108 cards |
| Deck.EachPairTwice | src/game/deck.ts:32-37 | each of the 52 (suit, rank) pairs appears, not as a joker, exactly twice: once in each pack |
| Deck.FourPrintedJokers | src/game/deck.ts:39-40 | exactly four cards are jokers, the last two of each pack, each with suit "joker" and rank "pj" |
| Deck.DeckIdsCarryCounter | src/game/deck.ts:20-23 | equal ids mean equal counter values |
| Deck.DeckIdsDistinct | src/game/deck.ts:20-23 | all ids of a generated deck are distinct |
| Deck.SuccessiveDecksDisjoint | src/game/deck.ts:20-23 | decks generated one after the other share no id |
| Joker.SelectWildJoker | src/game/joker.ts:3-7 | a non-empty deck yields one of its cards; only an empty deck yields `undefined` |
| Joker.PickIndex | src/game/joker.ts:4 | `Math.floor(random * n)` lies in [0, n) |
| Joker.EveryCardSelectable | src/game/joker.ts:4 | every card of a non-empty deck is picked for some random value |
| Joker.ApplyWildJoker | src/game/joker.ts:9-15 | the in-place loop leaves exactly `MarkWild(old deck, wildRank)` |
| Joker.MarkWildEffect | src/game/joker.ts:10-14 | cards of the wild rank become jokers, others keep their flag; ids, suits, ranks, length and order are unchanged |
| Joker.MarkWildIdempotent | src/game/joker.ts:9-15 | marking twice is marking once |
| Joker.MarkWildKeepsIds | src/game/joker.ts:9-15 | the deck's ids are unchanged |
| Room.JoinedValid | src/rooms/RummyRoom.ts:36-43 | a join stores a fresh player record, appends it to the key order, and keeps the room valid |
| Room.LeftEffect | src/rooms/RummyRoom.ts:51-61 | the player is removed and nobody else changes; with fewer than two left the room waits and the turn is "" |
| Room.DealOneEffect | src/rooms/RummyRoom.ts:108-113 | one inner step changes only the deck and the hands, keeps the players, and loses no card |
| Room.RoundConserves | src/rooms/RummyRoom.ts:107-114 | a round over room players loses no card and changes only the deck and the hands |
| Room.DealConserves | src/rooms/RummyRoom.ts:103-120 | dealing loses no card, even when the deck runs out, and keeps the room valid |
| Room.RoundDeck | src/rooms/RummyRoom.ts:107-114 | with a card for each, a round takes one card per player off the top of the deck |
| Room.RoundFull | src/rooms/RummyRoom.ts:107-114 | the j-th player receives the j-th card from the top; the others are unchanged |
| Room.RoundGrows | src/rooms/RummyRoom.ts:107-114 | a full round gives every player one more card |
| Room.DealFull | src/rooms/RummyRoom.ts:103-115 | with enough cards, r rounds give each player r more cards and take r cards per player off the top |
| Room.DealShape | src/rooms/RummyRoom.ts:103-120 | dealing touches only the deck and the hands |
| Room.DealEmptyDeck | src/rooms/RummyRoom.ts:108-111 | on an empty deck every further deal is skipped and nothing changes |
| Room.FirstOther | src/rooms/RummyRoom.ts:130 | `find` gives a player other than the current one, or none when every id is the current one |
| Room.TurnPassedEffect | src/rooms/RummyRoom.ts:122-143 | with two players the turn passes to the other, who must draw again; otherwise nothing changes; no card moves |
| Room.TurnPassedTwice | src/rooms/RummyRoom.ts:122-143 | with two players, passing the turn twice gives it back |
| Room.Permute | src/rooms/RummyRoom.ts:80 | the shuffled deck has the length of the deck |
| Room.PermuteMultiset | src/rooms/RummyRoom.ts:80 | the shuffle keeps every card, as often as the deck holds it |
| Room.WildDeck | src/rooms/RummyRoom.ts:78-85 | the loaded deck has 108 cards, and the stored wild joker is marked as a joker |
| Room.WildDeckCards | src/rooms/RummyRoom.ts:78-88 | the loaded deck is exactly the generated cards with the wild rank marked, and the wild joker is one of them |
| Room.ShuffledDeck | src/rooms/RummyRoom.ts:78-84 | generate, shuffle, pick and mark produce exactly `WildDeck(counter, perm, random)`, and the counter goes up by 108 |
| Room.TurnedUpConserves | src/rooms/RummyRoom.ts:93-96 | turning up the first open card loses no card |
| Room.StartedNoop | src/rooms/RummyRoom.ts:64-71 | a room that is not waiting, or has fewer than two players, does not start |
| Room.InitializedEffect | src/rooms/RummyRoom.ts:77-101 | every player has 13 more cards; the pile gains one card on top; the deck holds 108 - 13n - 1; the first client has the turn; the game is playing |
| Room.InitializedConserves | src/rooms/RummyRoom.ts:87-96 | afterwards the room holds the new deck's cards plus the old pile and hands, which are not cleared |
| Room.FirstDeal | src/rooms/RummyRoom.ts:87-99 | from empty hands and pile with two players: 13 cards each, 1 on the pile, 81 in the deck, and exactly the new deck's cards in play |
| Room.RummyRoom.constructor | src/rooms/RummyRoom.ts:14-15 | a new room is the empty waiting state |
| Room.RummyRoom.OnJoin | src/rooms/RummyRoom.ts:36-49 | the new state is the join, followed by the start when the room now has two clients |
| Room.RummyRoom.OnLeave | src/rooms/RummyRoom.ts:51-61 | the new state is exactly `Left(old state, sessionId)` |
| Room.RummyRoom.TryStartGame | src/rooms/RummyRoom.ts:64-75 | the new state is exactly `Started(old state, ...)` |
| Room.RummyRoom.InitializeGame | src/rooms/RummyRoom.ts:77-101 | the new state is exactly `Initialized(old state, ...)`, and the counter goes up by 108 |
| Room.RummyRoom.LoadDeck | src/rooms/RummyRoom.ts:87-88 | the deck is replaced by the given cards, and nothing else changes |
| Room.RummyRoom.DealCards | src/rooms/RummyRoom.ts:103-120 | the nested loops leave exactly `Dealt(old state)` |
| Room.RummyRoom.NextTurn | src/rooms/RummyRoom.ts:122-143 | the new state is exactly `TurnPassed(old state)` |
| DrawHandler.HandleDraw | src/handlers/draw.handler.ts:4-43 | the new state is exactly `Drawn(old state, pid, source)` |
| DrawHandler.DrawRefused | src/handlers/draw.handler.ts:7-38 | out of turn, unknown, already drawn, an empty chosen pile, or an unknown source: nothing changes |
| DrawHandler.DrawFromDeck | src/handlers/draw.handler.ts:22-41 | the deck's top moves to the end of the hand and `hasDrawn` is set; the pile, the other players and the turn are unchanged |
| DrawHandler.DrawFromDiscard | src/handlers/draw.handler.ts:29-41 | the pile's top moves to the end of the hand in the same way |
| DrawHandler.DrawOncePerTurn | src/handlers/draw.handler.ts:17-41 | after a draw that changed the room, a second draw changes nothing |
| DrawHandler.DrawConserves | src/handlers/draw.handler.ts:22-41 | a draw keeps the room valid and loses or adds no card |
| DrawHandler.TakeCardConserves | src/handlers/draw.handler.ts:40-41 | the hand gains exactly the drawn card |
| DiscardHandler.HandleDiscard | src/handlers/discard.handler.ts:5-55 | the new state is exactly `Discarded(old state, pid, cardId)` |
| DiscardHandler.DiscardRefused | src/handlers/discard.handler.ts:10-34 | out of turn, unknown, not yet drawn, or a card id not in the hand: nothing changes |
| DiscardHandler.DiscardEffect | src/handlers/discard.handler.ts:28-49 | the first card with the id leaves the hand, the others keep their order, and it tops the pile; the discarder's `hasDrawn` is false; with two players the other player gets the turn and must draw |
| DiscardHandler.DiscardConserves | src/handlers/discard.handler.ts:36-49 | a discard keeps the room valid and loses no card |
| DiscardHandler.DropCardConserves | src/handlers/discard.handler.ts:36-39 | moving the card from the hand to the pile loses no card |
| DiscardHandler.DrawThenDiscard | src/handlers/discard.handler.ts:28-39 | drawing the pile's top and discarding it again restores the pile, the deck and the hand |
| DeclareHandler.CollectIds | src/handlers/diclare.handler.ts:35-39 | the `forEach` loops collect exactly the meld ids plus the discard id |
| DeclareHandler.OwnsAll | src/handlers/diclare.handler.ts:49-56 | the ownership loop is true exactly when every declared id is a hand id |
| DeclareHandler.CheckDeclaration | src/handlers/diclare.handler.ts:25-91 | the checks return exactly `Verdict`, in the source's order |
| DeclareHandler.ApplyWin | src/handlers/diclare.handler.ts:93-104 | the new state is exactly `Won`: the discard card, if found, moves to the pile, and the game is finished |
| DeclareHandler.HandleDeclare | src/handlers/diclare.handler.ts:6-113 | state and broadcast are exactly `Declared(old state, ...)` |
| DeclareHandler.DeclareBroadcasts | src/handlers/diclare.handler.ts:9-112 | no broadcast and no change when the turn guards fail; otherwise the broadcast names the declarer; a rejection changes nothing; valid exactly when there is no reason |
| DeclareHandler.DeclareValidIff | src/handlers/diclare.handler.ts:25-91 | accepted exactly when: melds are given; 14 distinct declared ids; a 14-card hand owning them all; a pure sequence among the melds; every meld valid |
| DeclareHandler.WinningDeclaration | src/handlers/diclare.handler.ts:93-104 | with distinct hand ids, a winner's declared ids are the hand's ids; the discard card moves to the pile; 13 cards stay in order; the game is finished |
| DeclareHandler.DeclareConserves | src/handlers/diclare.handler.ts:93-103 | every declaration keeps the room valid and loses no card |

## Left out

- The Colyseus plumbing is not modelled: `onMessage` wiring, `broadcast` transport, `setState`, the schema decorators and `maxClients` enforcement. The framework's own additions to and removals from `clients` are folded into `OnJoin` and `OnLeave`. Their requires state what the framework guarantees: a new, non-empty session id while the room holds fewer than 2 clients, and a leaving client that joined earlier.
- All `console.log` output, the unused `turnTimeRemaining`, and the `try`/`catch` around `nextTurn` are left out; nothing in `nextTurn` can throw in the model.
- `shuffle` comes from `utils/suffle.js`, which is not part of this model. It is a parameter `perm`, an arbitrary permutation of the 108 positions.
- `Math.random()` is the real parameter `random` in [0, 1). The model fixes nothing about either parameter beyond that.
- `Score.IsCardJoker`: the score module imports `isCardJoker` from the rules module, which defines no such function. The model takes it to mean `card.isJoker || card.rank == wildJoker.rank`.
- `Score.ParseInt`: models decimal digits after an optional sign only. Leading whitespace and the `0x` prefix of JavaScript's `parseInt` are not modelled, because no rank contains them.
- JavaScript `undefined` inputs are not modelled:
  - declare payload fields other than an absent `melds` (modelled as `None`);
  - a missing `discardCardId` or a card without an `id`;
  - a null `wildJoker` object.
- Card objects are values, not shared references. The one aliasing the source relies on is the wild joker: `applyWildJoker` also marks the object stored as `wildJoker`. The model stores that card with `isJoker` set.
- `extractGroups` and `removeCards` change their arrays in place. The model passes those arrays in and returns them as values.
- Ownership in `handleDeclare` is checked by id only, and the meld cards' suits and ranks come from the client. The model validates the client's cards as written, so it accepts a card that appears in two melds, or a meld card that is also the discard, as long as 14 distinct ids are named.
- Deck.CardFactory, Deck.DeckIdsDistinct and Deck.SuccessiveDecksDisjoint: the counter is an unbounded integer. In the source `cardCounter` is a JavaScript number, and `cardCounter++` stops increasing at 2^53, after which `createCard` repeats ids. The distinctness lemmas therefore describe the source only while the counter stays below 2^53 - 108.
- The handlers do not check `status`, and neither does the model: moves after the game is finished are processed like any other.

## Findings

None.
