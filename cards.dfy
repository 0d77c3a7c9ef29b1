/** The card record of the game schema and the suit and rank tables of the deck module. */
module Cards {
  import opened Sequences

  /** A card as the server stores it. `isJoker` is set on printed jokers and, once the wild
      rank is applied, on every card of that rank; it is the only joker marker the meld
      validators read. */
  datatype Card = Card(id: string, suit: string, rank: string, isJoker: bool)

  const Suits: seq<string> := ["hearts", "diamonds", "clubs", "spades"]
  const Ranks: seq<string> := ["A", "2", "3", "4", "5", "6", "7", "8", "9", "10", "J", "Q", "K"]

  /** `Array.prototype.indexOf`: the first position of `x` in `s`, or -1. */
  function IndexOf(s: seq<string>, x: string): (i: int)
    ensures -1 <= i < |s|
    ensures i == -1 <==> x !in s
    ensures 0 <= i ==> s[i] == x && x !in s[..i]
  {
    if s == [] then -1
    else if s[0] == x then 0
    else
      var j := IndexOf(s[1..], x);
      if j == -1 then -1
      else
        assert s[..j + 1] == [s[0]] + s[1..][..j];
        j + 1
  }

  /** `rankValue`: the position of the rank in A..K, so the ace is 0 and never high; any
      other rank (the printed joker's "pj", or a malformed one) is -1. */
  function RankValue(rank: string): (v: int)
    ensures -1 <= v < 13
    ensures v == -1 <==> rank !in Ranks
    ensures 0 <= v ==> Ranks[v] == rank
  {
    IndexOf(Ranks, rank)
  }

  lemma RanksDistinct()
    ensures Distinct(Ranks)
  {
  }

  lemma SuitsDistinct()
    ensures Distinct(Suits)
  {
  }

  /** `RankValue` numbers A..K as 0..12. */
  lemma RankValueOfRanks(i: nat)
    requires i < |Ranks|
    ensures RankValue(Ranks[i]) == i
  {
    RanksDistinct();
    var v := RankValue(Ranks[i]);
    assert Ranks[v] == Ranks[i];
  }

  /** Two ranks with the same non-negative value are the same rank. */
  lemma RankValueInjective(a: string, b: string)
    requires RankValue(a) == RankValue(b) && 0 <= RankValue(a)
    ensures a == b
  {
  }

  lemma PrintedJokerRankValue()
    ensures RankValue("pj") == -1
  {
    assert "pj" !in Ranks;
  }

  /** The identities of a sequence of cards, in order. */
  function Ids(cards: seq<Card>): (r: seq<string>)
    ensures |r| == |cards| && forall i :: 0 <= i < |cards| ==> r[i] == cards[i].id
  {
    seq(|cards|, i requires 0 <= i < |cards| => cards[i].id)
  }

  /** `new Set(cards.map(c => c.id))`. */
  function IdSet(cards: seq<Card>): set<string> {
    ToSet(Ids(cards))
  }

  predicate DistinctIds(cards: seq<Card>) {
    Distinct(Ids(cards))
  }

  /** `findIndex(c => c.id === id)`: the first position holding that id, or -1. */
  function FindId(cards: seq<Card>, id: string): (i: int)
    ensures -1 <= i < |cards|
    ensures 0 <= i ==> cards[i].id == id
  {
    if cards == [] then -1
    else if cards[0].id == id then 0
    else
      var j := FindId(cards[1..], id);
      if j == -1 then -1 else j + 1
  }

  /** `FindId` finds an id exactly when some card carries it, and then it finds the first such
      card. */
  lemma {:induction false} FindIdFirst(cards: seq<Card>, id: string)
    ensures FindId(cards, id) == -1 <==> id !in IdSet(cards)
    ensures 0 <= FindId(cards, id) ==> forall k :: 0 <= k < FindId(cards, id) ==> cards[k].id != id
  {
    if cards != [] && cards[0].id != id {
      FindIdFirst(cards[1..], id);
      assert forall k :: 1 <= k < |cards| ==> cards[k] == cards[1..][k - 1];
      assert id in IdSet(cards) <==> id in IdSet(cards[1..]) by {
        assert id in IdSet(cards) <==> exists k :: 0 <= k < |cards| && cards[k].id == id;
        assert id in IdSet(cards[1..]) <==> exists k :: 0 <= k < |cards| - 1 && cards[1..][k].id == id;
      }
    } else if cards != [] {
      assert cards[0].id in Ids(cards);
    }
  }

  /** A card appended to cards none of which carries its id is the one `FindId` finds, and
      splicing it out gives the cards back. */
  lemma FindIdAppended(cards: seq<Card>, c: Card)
    requires c.id !in IdSet(cards)
    ensures FindId(cards + [c], c.id) == |cards|
    ensures (cards + [c])[..|cards|] + (cards + [c])[|cards| + 1..] == cards
  {
    var all := cards + [c];
    assert Ids(all)[|cards|] == c.id;
    FindIdFirst(all, c.id);
    forall k | 0 <= k < |cards| ensures all[k].id != c.id {
      assert all[k] == cards[k];
      assert Ids(cards)[k] in IdSet(cards);
    }
    assert all[..|cards|] == cards;
  }
}
