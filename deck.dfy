/** The deck module: card creation with a running id counter, and the two-pack deck with four
    printed jokers. */
module Deck {
  import opened Sequences
  import opened Cards

  /** The decimal text of a number, as a template literal renders it. */
  function DecimalString(n: nat): (s: string)
    ensures |s| >= 1 && forall k :: 0 <= k < |s| ==> '0' <= s[k] <= '9'
    ensures |s| == 1 <==> n < 10
  {
    var digit := ['0' + (n % 10) as char];
    if n < 10 then digit else DecimalString(n / 10) + digit
  }

  /** Different numbers have different decimal texts. */
  lemma {:induction false} DecimalStringInjective(m: nat, n: nat)
    requires DecimalString(m) == DecimalString(n)
    ensures m == n
  {
    var s, t := DecimalString(m), DecimalString(n);
    if m >= 10 && n >= 10 {
      assert s[..|s| - 1] == DecimalString(m / 10);
      assert t[..|t| - 1] == DecimalString(n / 10);
      DecimalStringInjective(m / 10, n / 10);
      assert s[|s| - 1] == t[|t| - 1];
    } else {
      assert s[0] == t[0];
    }
  }

  /** The id `createCard` gives: rank, suit and counter value joined by dashes. */
  function CardId(rank: string, suit: string, counter: nat): string {
    rank + "-" + suit + "-" + DecimalString(counter)
  }

  /** What follows the last dash of `x`, or all of `x` when it has none. */
  function AfterLastDash(x: string): string {
    if x == [] || x[|x| - 1] == '-' then [] else AfterLastDash(x[..|x| - 1]) + [x[|x| - 1]]
  }

  /** The text after the last dash of `a + "-" + d` is `d` when `d` holds no dash. */
  lemma {:induction false} AfterLastDashOf(a: string, d: string)
    requires forall k :: 0 <= k < |d| ==> d[k] != '-'
    ensures AfterLastDash(a + "-" + d) == d
  {
    var x := a + "-" + d;
    if d != [] {
      var d' := d[..|d| - 1];
      assert x[..|x| - 1] == a + "-" + d';
      AfterLastDashOf(a, d');
      assert d == d' + [d[|d| - 1]];
    } else {
      assert x[|x| - 1] == '-';
    }
  }

  /** The counter value can be read back from an id. */
  lemma CardIdInjective(r1: string, s1: string, m: nat, r2: string, s2: string, n: nat)
    requires CardId(r1, s1, m) == CardId(r2, s2, n)
    ensures m == n
  {
    AfterLastDashOf(r1 + "-" + s1, DecimalString(m));
    AfterLastDashOf(r2 + "-" + s2, DecimalString(n));
    DecimalStringInjective(m, n);
  }

  /** The module-level `cardCounter` and the function that advances it. */
  class CardFactory {
    var cardCounter: nat

    constructor ()
      ensures cardCounter == 0
    {
      cardCounter := 0;
    }

    /** `createCard`: a card whose id carries the current counter value, which then goes up. */
    method CreateCard(suit: string, rank: string, isJoker: bool) returns (card: Card)
      modifies this
      ensures card == Card(CardId(rank, suit, old(cardCounter)), suit, rank, isJoker)
      ensures cardCounter == old(cardCounter) + 1
    {
      card := Card(CardId(rank, suit, cardCounter), suit, rank, isJoker);
      cardCounter := cardCounter + 1;
    }

    /** `generateDeck`: twice, 13 ranks of each of the 4 suits, then 2 printed jokers. The
        counter goes up by one per card. */
    method GenerateDeck() returns (deck: seq<Card>)
      modifies this
      ensures deck == StandardDeck(old(cardCounter))
      ensures cardCounter == old(cardCounter) + DeckSize
    {
      var start := cardCounter;
      deck := [];
      assert DealtSoFar(deck, start);
      for deckIndex := 0 to 2
        invariant |deck| == PackSize * deckIndex
        invariant cardCounter == start + |deck|
        invariant DealtSoFar(deck, start)
      {
        deck := PushPack(deck, start, deckIndex);
      }
      DealtAll(deck, start);
    }

    /** One pass of the outer loop of `generateDeck`: the suit and rank loops, then the two
        printed jokers. */
    method PushPack(deck: seq<Card>, start: nat, deckIndex: nat) returns (deck': seq<Card>)
      requires deckIndex < 2 && |deck| == PackSize * deckIndex
      requires cardCounter == start + |deck| && DealtSoFar(deck, start)
      modifies this
      ensures |deck'| == |deck| + PackSize
      ensures cardCounter == start + |deck'| && DealtSoFar(deck', start)
    {
      deck' := deck;
      for suitIndex := 0 to 4
        invariant |deck'| == |deck| + 13 * suitIndex
        invariant cardCounter == start + |deck'|
        invariant DealtSoFar(deck', start)
      {
        deck' := PushSuit(deck', start, deckIndex, suitIndex);
      }
      var base := |deck'|;
      JokerAt(start, deckIndex, 52, base);
      var joker := CreateCard("joker", "pj", true);
      PushCard(deck', joker, start);
      deck' := deck' + [joker];
      JokerAt(start, deckIndex, 53, base + 1);
      joker := CreateCard("joker", "pj", true);
      PushCard(deck', joker, start);
      deck' := deck' + [joker];
    }

    /** One pass of the suit loop of `generateDeck`: the 13 ranks of one suit. */
    method PushSuit(deck: seq<Card>, start: nat, deckIndex: nat, suitIndex: nat) returns (deck': seq<Card>)
      requires deckIndex < 2 && suitIndex < 4 && |deck| == PackSize * deckIndex + 13 * suitIndex
      requires cardCounter == start + |deck| && DealtSoFar(deck, start)
      modifies this
      ensures |deck'| == |deck| + 13
      ensures cardCounter == start + |deck'| && DealtSoFar(deck', start)
    {
      deck' := deck;
      for rankIndex := 0 to 13
        invariant |deck'| == |deck| + rankIndex
        invariant cardCounter == start + |deck'|
        invariant DealtSoFar(deck', start)
      {
        CardAt(start, deckIndex, suitIndex, rankIndex, |deck'|);
        var card := CreateCard(Suits[suitIndex], Ranks[rankIndex], false);
        PushCard(deck', card, start);
        deck' := deck' + [card];
      }
    }
  }

  const PackSize: nat := 54
  const DeckSize: nat := 108

  /** The card at position `p` of a deck whose first card took counter value `start`: within
      each pack of 54, position 13 * s + r holds rank r of suit s, and 52 and 53 are the printed
      jokers. */
  function DeckCard(start: nat, p: nat): Card {
    var q := p % PackSize;
    if q < 52 then
      var suit := Suits[q / 13];
      var rank := Ranks[q % 13];
      Card(CardId(rank, suit, start + p), suit, rank, false)
    else
      Card(CardId("pj", "joker", start + p), "joker", "pj", true)
  }

  /** The deck `generateDeck` returns when the counter starts at `start`. */
  function StandardDeck(start: nat): (deck: seq<Card>)
    ensures |deck| == DeckSize
  {
    seq(DeckSize, p requires 0 <= p < DeckSize => DeckCard(start, p))
  }

  /** Rank `r` of suit `s` in pack `d`, at position `p`. */
  lemma CardAt(start: nat, d: nat, s: nat, r: nat, p: nat)
    requires d < 2 && s < 4 && r < 13 && p == PackSize * d + 13 * s + r
    ensures DeckCard(start, p) == Card(CardId(Ranks[r], Suits[s], start + p), Suits[s], Ranks[r], false)
  {
    var q := 13 * s + r;
    assert p % PackSize == q;
    assert q / 13 == s && q % 13 == r;
  }

  /** The printed jokers at offsets 52 and 53 of pack `d`, at position `p`. */
  lemma JokerAt(start: nat, d: nat, q: nat, p: nat)
    requires d < 2 && 52 <= q < PackSize && p == PackSize * d + q
    ensures DeckCard(start, p) == Card(CardId("pj", "joker", start + p), "joker", "pj", true)
  {
    assert p % PackSize == q;
  }

  /** The cards pushed so far are the first ones of the standard deck. */
  ghost predicate DealtSoFar(deck: seq<Card>, start: nat) {
    |deck| <= DeckSize && forall p :: 0 <= p < |deck| ==> deck[p] == DeckCard(start, p)
  }

  /** Appending the next card keeps the deck a prefix of the standard deck. */
  lemma PushCard(deck: seq<Card>, card: Card, start: nat)
    requires |deck| < DeckSize && DealtSoFar(deck, start)
    requires card == DeckCard(start, |deck|)
    ensures DealtSoFar(deck + [card], start)
  {
  }

  lemma DealtAll(deck: seq<Card>, start: nat)
    requires |deck| == DeckSize && DealtSoFar(deck, start)
    ensures deck == StandardDeck(start)
  {
  }

  // -----------------------------------------------------------------------------------------
  // Properties

  /** Each of the 52 (suit, rank) pairs appears, not as a joker, at exactly two positions, one
      in each pack. */
  lemma EachPairTwice(start: nat, s: nat, r: nat)
    requires s < 4 && r < 13
    ensures var deck := StandardDeck(start);
      forall p :: 0 <= p < DeckSize ==>
        ((deck[p].suit == Suits[s] && deck[p].rank == Ranks[r] && !deck[p].isJoker) <==>
         (p == 13 * s + r || p == PackSize + 13 * s + r))
  {
    SuitsDistinct();
    RanksDistinct();
    var deck := StandardDeck(start);
    forall p | 0 <= p < DeckSize
      ensures (deck[p].suit == Suits[s] && deck[p].rank == Ranks[r] && !deck[p].isJoker) <==>
              (p == 13 * s + r || p == PackSize + 13 * s + r)
    {
      var q := p % PackSize;
      assert p == q || p == PackSize + q;
      if q < 52 && deck[p].suit == Suits[s] && deck[p].rank == Ranks[r] {
        assert Suits[q / 13] == Suits[s] && Ranks[q % 13] == Ranks[r];
        assert q / 13 == s && q % 13 == r;
      }
    }
  }

  /** Exactly four cards are jokers, the last two of each pack, and they are printed jokers. */
  lemma FourPrintedJokers(start: nat)
    ensures var deck := StandardDeck(start);
      forall p :: 0 <= p < DeckSize ==>
        (deck[p].isJoker <==> p in {52, 53, 106, 107}) &&
        (deck[p].isJoker ==> deck[p].suit == "joker" && deck[p].rank == "pj")
  {
    var deck := StandardDeck(start);
    forall p | 0 <= p < DeckSize
      ensures (deck[p].isJoker <==> p in {52, 53, 106, 107}) &&
        (deck[p].isJoker ==> deck[p].suit == "joker" && deck[p].rank == "pj")
    {
      var q := p % PackSize;
      assert p == q || p == PackSize + q;
    }
  }

  /** The id of each card carries its own counter value, so a deck's ids are distinct, and ids of
      decks whose counter ranges do not overlap are distinct too. */
  lemma DeckIdsCarryCounter(start: nat, p: nat, start': nat, p': nat)
    requires p < DeckSize && p' < DeckSize
    requires DeckCard(start, p).id == DeckCard(start', p').id
    ensures start + p == start' + p'
  {
    var c, c' := DeckCard(start, p), DeckCard(start', p');
    CardIdInjective(c.rank, c.suit, start + p, c'.rank, c'.suit, start' + p');
  }

  /** All ids of a generated deck are distinct. */
  lemma DeckIdsDistinct(start: nat)
    ensures DistinctIds(StandardDeck(start))
  {
    var deck := StandardDeck(start);
    var ids := Ids(deck);
    forall i, j | 0 <= i < j < |ids| ensures ids[i] != ids[j] {
      if ids[i] == ids[j] {
        DeckIdsCarryCounter(start, i, start, j);
      }
    }
  }

  /** Decks generated one after the other, each starting where the counter was left, share no
      id. */
  lemma SuccessiveDecksDisjoint(start: nat, start': nat)
    requires start + DeckSize <= start'
    ensures IdSet(StandardDeck(start)) !! IdSet(StandardDeck(start'))
  {
    var a, b := StandardDeck(start), StandardDeck(start');
    forall x | x in IdSet(a) && x in IdSet(b) ensures false {
      var i :| 0 <= i < |a| && Ids(a)[i] == x;
      var j :| 0 <= j < |b| && Ids(b)[j] == x;
      DeckIdsCarryCounter(start, i, start', j);
    }
  }
}
