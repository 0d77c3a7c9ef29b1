/** The penalty scorer of the score module: the points a hand still holds when a round ends,
    capped at 80. JavaScript numbers are modelled as integers plus NaN, which `parseInt`
    produces for a rank with no leading digits and which then spreads through every sum. */
module Score {
  import opened Wrappers
  import opened Sequences
  import opened Cards

  /** A JavaScript number as it can arise here: a whole number or NaN. */
  datatype Num = Finite(n: int) | NaN

  /** `+` on numbers: NaN as soon as one operand is NaN. */
  function Add(a: Num, b: Num): Num {
    if a.Finite? && b.Finite? then Finite(a.n + b.n) else NaN
  }

  /** `Math.min(x, 80)`: NaN stays NaN. */
  function Cap(x: Num): (r: Num)
    ensures r.NaN? <==> x.NaN?
    ensures r.Finite? ==> r.n <= 80 && (r.n == x.n || (r.n == 80 && x.n > 80))
  {
    if x.NaN? then NaN else if x.n < 80 then x else Finite(80)
  }

  predicate IsDigit(c: char) {
    '0' <= c <= '9'
  }

  /** The number of leading decimal digits of `s`. */
  function DigitsPrefix(s: string): (k: nat)
    ensures k <= |s|
    ensures forall j :: 0 <= j < k ==> IsDigit(s[j])
    ensures k < |s| ==> !IsDigit(s[k])
  {
    if s == [] || !IsDigit(s[0]) then 0 else 1 + DigitsPrefix(s[1..])
  }

  /** The value of a string of decimal digits. */
  function DigitsValue(s: string): nat
    requires forall j :: 0 <= j < |s| ==> IsDigit(s[j])
  {
    if s == [] then 0
    else
      var last := s[|s| - 1];
      assert IsDigit(last);
      10 * DigitsValue(s[..|s| - 1]) + (last as int - '0' as int)
  }

  /** `parseInt(s)` with no radix, for decimal text: an optional sign, then the longest run of
      digits; NaN when there is no digit. */
  function ParseInt(s: string): (r: Num)
    ensures r.Finite? <==> (var t := if s != [] && (s[0] == '+' || s[0] == '-') then s[1..] else s;
                            t != [] && IsDigit(t[0]))
  {
    var negative := s != [] && s[0] == '-';
    var t := if s != [] && (s[0] == '+' || s[0] == '-') then s[1..] else s;
    var k := DigitsPrefix(t);
    if k == 0 then NaN
    else
      var v: int := DigitsValue(t[..k]);
      Finite(if negative then -v else v)
  }

  /** `isCardJoker(card, wildJoker)`. The score module imports it from the rules module, which
      defines no such function; this model takes it to mean a printed or marked joker, or a
      card of the wild rank. */
  predicate IsCardJoker(card: Card, wildJoker: Card) {
    card.isJoker || card.rank == wildJoker.rank
  }

  /** The points one card adds: nothing for a joker when a wild joker is known, 10 for a
      court card or an ace, and the parsed rank otherwise. */
  function Contribution(card: Card, wildJoker: Option<Card>): Num {
    if wildJoker.Some? && IsCardJoker(card, wildJoker.value) then Finite(0)
    else if card.rank in ["J", "Q", "K", "A"] then Finite(10)
    else ParseInt(card.rank)
  }

  /** The sum of `points` over the cards, from the left. */
  function Fold(cards: seq<Card>, points: Card -> Num): Num {
    if cards == [] then Finite(0)
    else Add(Fold(cards[..|cards| - 1], points), points(cards[|cards| - 1]))
  }

  /** The sum the loop accumulates over the hand. */
  function PointsSum(cards: seq<Card>, wildJoker: Option<Card>): Num {
    Fold(cards, card => Contribution(card, wildJoker))
  }

  /** What `calculatesPenaltyPoints(cards, wildJoker)` returns. */
  function Penalty(cards: seq<Card>, wildJoker: Option<Card>): (r: Num)
    ensures r.Finite? ==> r.n <= 80
    ensures r.NaN? <==> PointsSum(cards, wildJoker).NaN?
  {
    Cap(PointsSum(cards, wildJoker))
  }

  /** `calculatesPenaltyPoints`: the `for` loop with its `continue`, then the cap. */
  method CalculatesPenaltyPoints(cards: seq<Card>, wildJoker: Option<Card>) returns (r: Num)
    ensures r == Penalty(cards, wildJoker)
  {
    var points := Finite(0);
    var k := 0;
    while k < |cards|
      invariant 0 <= k <= |cards|
      invariant points == PointsSum(cards[..k], wildJoker)
    {
      var card := cards[k];
      assert cards[..k + 1][..k] == cards[..k];
      if wildJoker.Some? && IsCardJoker(card, wildJoker.value) {
        points := Add(points, Finite(0));
      } else if card.rank in ["J", "Q", "K", "A"] {
        points := Add(points, Finite(10));
      } else {
        points := Add(points, ParseInt(card.rank));
      }
      k := k + 1;
    }
    assert cards[..k] == cards;
    r := Cap(points);
  }

  // -----------------------------------------------------------------------------------------
  // Properties

  /** `parseInt` on the numeral ranks 2..10. */
  lemma ParseDigits()
    ensures forall i :: 1 <= i <= 8 ==> ParseInt(Ranks[i]) == Finite(i + 1)
    ensures ParseInt("10") == Finite(10)
  {
    assert DigitsValue("10"[..2]) == 10 by {
      assert "10"[..2] == "10" && "10"[..1] == "1";
    }
    forall i | 1 <= i <= 8 ensures ParseInt(Ranks[i]) == Finite(i + 1) {
      var t := Ranks[i];
      assert |t| == 1 && t[..1] == t;
      assert DigitsPrefix(t) == 1;
    }
  }

  /** Outside the joker case, J, Q, K and A add 10 and the numerals 2..10 their face value. */
  lemma FaceValues(card: Card, wildJoker: Option<Card>)
    requires wildJoker.None? || !IsCardJoker(card, wildJoker.value)
    ensures card.rank in ["J", "Q", "K", "A"] ==> Contribution(card, wildJoker) == Finite(10)
    ensures forall i :: 1 <= i <= 9 && card.rank == Ranks[i] ==>
      Contribution(card, wildJoker) == Finite(i + 1)
  {
    ParseDigits();
  }

  /** A card judged a joker against a known wild joker adds nothing; with no wild joker no card
      is passed over. */
  lemma JokersAddNothing(card: Card, wildJoker: Option<Card>)
    ensures wildJoker.Some? && IsCardJoker(card, wildJoker.value) ==> Contribution(card, wildJoker) == Finite(0)
    ensures wildJoker.None? ==>
      Contribution(card, wildJoker) ==
        (if card.rank in ["J", "Q", "K", "A"] then Finite(10) else ParseInt(card.rank))
  {
  }

  /** With no wild joker, a printed joker's rank "pj" parses to NaN and so does the whole
      score. */
  lemma PrintedJokerWithoutWild(cards: seq<Card>, k: nat)
    requires k < |cards| && cards[k].rank == "pj"
    ensures Penalty(cards, None).NaN?
  {
    assert Contribution(cards[k], None).NaN?;
    PointsSumNaN(cards, k, None);
  }

  /** One NaN contribution makes the whole sum NaN. */
  lemma PointsSumNaN(cards: seq<Card>, k: nat, wildJoker: Option<Card>)
    requires k < |cards| && Contribution(cards[k], wildJoker).NaN?
    ensures PointsSum(cards, wildJoker).NaN?
  {
    FoldNaN(cards, k, card => Contribution(card, wildJoker));
  }

  lemma {:induction false} FoldNaN(cards: seq<Card>, k: nat, points: Card -> Num)
    requires k < |cards| && points(cards[k]).NaN?
    ensures Fold(cards, points).NaN?
  {
    if k < |cards| - 1 {
      assert cards[..|cards| - 1][k] == cards[k];
      FoldNaN(cards[..|cards| - 1], k, points);
    }
  }

  /** The empty hand scores 0. */
  lemma EmptyHandScoresZero(wildJoker: Option<Card>)
    ensures Penalty([], wildJoker) == Finite(0)
  {
  }

  /** A standard rank adds a whole number of points, at least 0 and at most 10. */
  lemma StandardContribution(card: Card, wildJoker: Option<Card>)
    requires card.rank in Ranks
    ensures Contribution(card, wildJoker).Finite?
    ensures 0 <= Contribution(card, wildJoker).n <= 10
  {
    ParseDigits();
    var i :| 0 <= i < |Ranks| && Ranks[i] == card.rank;
    if i == 9 {
      assert card.rank == "10";
    }
  }

  /** For a hand of standard ranks the sum is a whole number, at least 0. */
  lemma StandardSum(cards: seq<Card>, wildJoker: Option<Card>)
    requires forall c :: c in cards ==> c.rank in Ranks
    ensures PointsSum(cards, wildJoker).Finite? && PointsSum(cards, wildJoker).n >= 0
  {
    var points := card => Contribution(card, wildJoker);
    forall c | c in cards ensures points(c).Finite? && points(c).n >= 0 {
      StandardContribution(c, wildJoker);
    }
    FoldNonNegative(cards, points);
  }

  lemma {:induction false} FoldNonNegative(cards: seq<Card>, points: Card -> Num)
    requires forall c :: c in cards ==> points(c).Finite? && points(c).n >= 0
    ensures Fold(cards, points).Finite? && Fold(cards, points).n >= 0
  {
    if cards != [] {
      assert forall c :: c in cards[..|cards| - 1] ==> c in cards;
      FoldNonNegative(cards[..|cards| - 1], points);
    }
  }

  /** For a hand of standard ranks the score is min(sum, 80), a number between 0 and 80. */
  lemma StandardHandScore(cards: seq<Card>, wildJoker: Option<Card>)
    requires forall c :: c in cards ==> c.rank in Ranks
    ensures var sum := PointsSum(cards, wildJoker);
      sum.Finite? && Penalty(cards, wildJoker) == Finite(if sum.n < 80 then sum.n else 80) &&
      0 <= Penalty(cards, wildJoker).n <= 80
  {
    StandardSum(cards, wildJoker);
  }

  /** The sum over two parts is the sum of the sums. */
  lemma {:induction false} FoldAppend(a: seq<Card>, b: seq<Card>, points: Card -> Num)
    ensures Fold(a + b, points) == Add(Fold(a, points), Fold(b, points))
    decreases |b|
  {
    if b == [] {
      assert a + b == a;
    } else {
      var b' := b[..|b| - 1];
      assert (a + b)[..|a + b| - 1] == a + b';
      assert (a + b)[|a + b| - 1] == b[|b| - 1];
      FoldAppend(a, b', points);
    }
  }

  /** Taking one card out of the hand takes its points out of the sum. */
  lemma FoldSplice(s: seq<Card>, i: nat, points: Card -> Num)
    requires i < |s|
    ensures Fold(s, points) == Add(Fold(s[..i] + s[i + 1..], points), points(s[i]))
  {
    var front, back := s[..i + 1], s[i + 1..];
    assert s == front + back;
    assert front[..i] == s[..i] && front[i] == s[i];
    FoldAppend(front, back, points);
    FoldAppend(s[..i], back, points);
    AddSwap(Fold(s[..i], points), points(s[i]), Fold(back, points));
  }

  /** `+` on numbers, NaN included, lets the middle term move to the end. */
  lemma AddSwap(a: Num, x: Num, b: Num)
    ensures Add(Add(a, x), b) == Add(Add(a, b), x)
  {
  }

  /** The sum depends only on which cards the hand holds, not on their order. */
  lemma {:induction false} FoldPermutation(a: seq<Card>, b: seq<Card>, points: Card -> Num)
    requires multiset(a) == multiset(b)
    ensures Fold(a, points) == Fold(b, points)
    decreases |a|
  {
    if a != [] {
      var x := a[|a| - 1];
      assert x in multiset(b);
      var j :| 0 <= j < |b| && b[j] == x;
      var a' := a[..|a| - 1];
      var b' := b[..j] + b[j + 1..];
      SpliceMultiset(a, |a| - 1);
      SpliceMultiset(b, j);
      assert a[..|a| - 1] + a[|a|..] == a';
      FoldPermutation(a', b', points);
      FoldSplice(b, j, points);
    } else {
      assert |b| == |multiset(b)| == 0;
    }
  }

  /** So the score of a hand does not depend on the order of its cards. */
  lemma PenaltyPermutation(a: seq<Card>, b: seq<Card>, wildJoker: Option<Card>)
    requires multiset(a) == multiset(b)
    ensures Penalty(a, wildJoker) == Penalty(b, wildJoker)
  {
    FoldPermutation(a, b, card => Contribution(card, wildJoker));
  }
}
