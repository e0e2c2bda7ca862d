/**
 * The hand evaluator: bestHandValue counts every Ace as 1, then upgrades
 * Aces to 11 one at a time while the total stays at most 21; isBlackjack and
 * isBusted are built on it.
 */
module Evaluate {
  import opened Cards

  /** What the first loop of bestHandValue adds for a card: 1 for an Ace, `values[0]` otherwise. */
  function HardValue(c: Card): int
  {
    if c.rank == Ace then 1 else Values(c.rank)[0]
  }

  /** What the first loop of bestHandValue adds to `aces` for a card. */
  function AcePoint(c: Card): int
  {
    if c.rank == Ace then 1 else 0
  }

  /** The sum of `f` over the cards, accumulated front to back. */
  function Sum(cards: seq<Card>, f: Card -> int): int
  {
    if cards == [] then 0 else Sum(cards[..|cards| - 1], f) + f(cards[|cards| - 1])
  }

  /** The total with every Ace counted as 1. */
  function HardTotal(cards: seq<Card>): int
  {
    Sum(cards, HardValue)
  }

  /** The number of Aces in the hand. */
  function AceCount(cards: seq<Card>): int
  {
    Sum(cards, AcePoint)
  }

  /** The second loop of bestHandValue: `aces` times, add 10 if that keeps the total at most 21. */
  function UpgradeAces(total: int, aces: nat): (r: int)
    ensures total <= r <= total + 10 * aces
    ensures total <= 21 ==> r <= 21
    ensures total > 21 ==> r == total
    ensures aces > 0 && total + 10 <= 21 ==> r >= total + 10
    decreases aces
  {
    if aces == 0 then total
    else UpgradeAces(if total + 10 <= 21 then total + 10 else total, aces - 1)
  }

  /** The value of a hand: at most one Ace ever counts as 11, and only if that does not bust. */
  function BestHandValue(cards: seq<Card>): (v: int)
    ensures v == HardTotal(cards) + (if AceCount(cards) > 0 && HardTotal(cards) + 10 <= 21 then 10 else 0)
  {
    HardTotalCoversAces(cards);
    UpgradeAcesClosedForm(HardTotal(cards), AceCount(cards));
    UpgradeAces(HardTotal(cards), AceCount(cards))
  }

  /** A hand is a blackjack when it has two cards worth 21: an Ace and cards counting 11 in all as hard total. */
  function IsBlackjack(cards: seq<Card>): (b: bool)
    ensures b <==> |cards| == 2 && AceCount(cards) > 0 && HardTotal(cards) == 11
  {
    if |cards| == 2 then
      TwoCardTotals(cards);
      BestHandValue(cards) == 21
    else false
  }

  /** A hand is busted when it is worth more than 21, which happens exactly when its hard total is. */
  function IsBusted(cards: seq<Card>): (b: bool)
    ensures b <==> HardTotal(cards) > 21
  {
    BestHandValue(cards) > 21
  }

  /** The total with `j` of the Aces counted as 11. */
  function WithElevens(cards: seq<Card>, j: nat): int
  {
    HardTotal(cards) + 10 * j
  }

  // ----- sums -----

  lemma {:induction false} SumAppend(a: seq<Card>, b: seq<Card>, f: Card -> int)
    ensures Sum(a + b, f) == Sum(a, f) + Sum(b, f)
  {
    if b == [] {
      assert a + b == a;
    } else {
      var init, last := b[..|b| - 1], b[|b| - 1];
      assert (a + b)[..|a + b| - 1] == a + init;
      assert (a + b)[|a + b| - 1] == last;
      SumAppend(a, init, f);
    }
  }

  /** Taking out one occurrence of the same card keeps two equal multisets equal. */
  lemma RemoveMatching(init: seq<Card>, x: Card, b: seq<Card>, i: nat)
    requires i < |b| && b[i] == x && multiset(init + [x]) == multiset(b)
    ensures multiset(init) == multiset(b[..i] + b[i + 1..])
  {
    assert b == b[..i] + [x] + b[i + 1..];
    assert multiset(b) == multiset(b[..i]) + multiset{x} + multiset(b[i + 1..]);
    assert multiset(init + [x]) == multiset(init) + multiset{x};
    assert multiset(b[..i] + b[i + 1..]) == multiset(b[..i]) + multiset(b[i + 1..]);
    forall y ensures multiset(init)[y] == multiset(b[..i] + b[i + 1..])[y] {
      assert multiset(init + [x])[y] == multiset(b)[y];
    }
  }

  /** A sum over one card is that card's value. */
  lemma SumSingle(x: Card, f: Card -> int)
    ensures Sum([x], f) == f(x)
  {
    assert [x][..0] == [];
  }

  /** A sum is the card at `i` plus the sum without it. */
  lemma SumWithout(b: seq<Card>, i: nat, f: Card -> int)
    requires i < |b|
    ensures Sum(b, f) == Sum(b[..i] + b[i + 1..], f) + f(b[i])
  {
    var pre, x, post := b[..i], b[i], b[i + 1..];
    assert b == (pre + [x]) + post;
    calc {
      Sum(b, f);
      { SumAppend(pre + [x], post, f); }
      Sum(pre + [x], f) + Sum(post, f);
      { SumAppend(pre, [x], f); SumSingle(x, f); }
      Sum(pre, f) + f(x) + Sum(post, f);
      { SumAppend(pre, post, f); }
      Sum(pre + post, f) + f(x);
    }
  }

  /** A sum over the cards does not depend on their order. */
  lemma {:induction false} SumPermutation(a: seq<Card>, b: seq<Card>, f: Card -> int)
    requires multiset(a) == multiset(b)
    ensures Sum(a, f) == Sum(b, f)
  {
    if a == [] {
      assert |b| == |multiset(b)| == 0;
    } else {
      var init, x := a[..|a| - 1], a[|a| - 1];
      assert a == init + [x];
      assert x in multiset(b);
      var i :| 0 <= i < |b| && b[i] == x;
      RemoveMatching(init, x, b, i);
      SumPermutation(init, b[..i] + b[i + 1..], f);
      SumWithout(b, i, f);
    }
  }

  lemma {:induction false} HardTotalCoversAces(cards: seq<Card>)
    ensures HardTotal(cards) >= AceCount(cards) >= 0
    ensures HardTotal(cards) >= |cards|
  {
    if cards != [] {
      HardTotalCoversAces(cards[..|cards| - 1]);
    }
  }

  lemma {:induction false} UpgradeAcesClosedForm(total: int, aces: nat)
    requires total >= aces
    ensures UpgradeAces(total, aces) == total + (if aces > 0 && total + 10 <= 21 then 10 else 0)
    decreases aces
  {
    if aces > 0 {
      UpgradeAcesClosedForm(if total + 10 <= 21 then total + 10 else total, aces - 1);
    }
  }

  // ----- properties of the evaluator -----

  /** The value is never below the hard total and at most 10 above it; it busts exactly when the hard total does. */
  lemma BestHandValueBounds(cards: seq<Card>)
    ensures HardTotal(cards) <= BestHandValue(cards) <= HardTotal(cards) + 10
    ensures IsBusted(cards) <==> HardTotal(cards) > 21
  {
  }

  /** The greedy upgrade counts as many Aces as 11 as possible without busting. */
  lemma BestHandValueIsOptimal(cards: seq<Card>)
    ensures forall j :: 0 <= j <= AceCount(cards) && WithElevens(cards, j) <= 21
                   ==> WithElevens(cards, j) <= BestHandValue(cards)
    ensures exists j :: 0 <= j <= AceCount(cards) && WithElevens(cards, j) == BestHandValue(cards)
  {
    HardTotalCoversAces(cards);
    if AceCount(cards) > 0 && HardTotal(cards) + 10 <= 21 {
      assert WithElevens(cards, 1) == BestHandValue(cards);
    } else {
      assert WithElevens(cards, 0) == BestHandValue(cards);
    }
  }

  /** The value depends only on the multiset of cards, not on their order. */
  lemma BestHandValuePermutation(a: seq<Card>, b: seq<Card>)
    requires multiset(a) == multiset(b)
    ensures BestHandValue(a) == BestHandValue(b)
    ensures IsBusted(a) == IsBusted(b)
  {
    SumPermutation(a, b, HardValue);
    SumPermutation(a, b, AcePoint);
  }

  /** The totals of a two-card hand. */
  lemma TwoCardTotals(cards: seq<Card>)
    requires |cards| == 2
    ensures HardTotal(cards) == HardValue(cards[0]) + HardValue(cards[1])
    ensures AceCount(cards) == AcePoint(cards[0]) + AcePoint(cards[1])
  {
    var first := cards[..1];
    assert first[..0] == [] && first[0] == cards[0];
    assert Sum(first, HardValue) == HardValue(cards[0]);
    assert Sum(first, AcePoint) == AcePoint(cards[0]);
  }

  /** A blackjack is exactly an Ace together with a ten-valued card. */
  lemma BlackjackIsAceAndTen(cards: seq<Card>)
    ensures IsBlackjack(cards) <==>
              |cards| == 2 &&
              ((cards[0].rank == Ace && HardValue(cards[1]) == 10) ||
               (cards[1].rank == Ace && HardValue(cards[0]) == 10))
  {
    if |cards| == 2 {
      TwoCardTotals(cards);
    }
  }

  /** Two cards never bust, and two cards worth 21 are a blackjack. */
  lemma TwoCardsNeverBust(cards: seq<Card>)
    requires |cards| == 2
    ensures BestHandValue(cards) <= 21
    ensures BestHandValue(cards) == 21 <==> IsBlackjack(cards)
  {
    TwoCardTotals(cards);
  }

  /** bestHandValue as written: two loops over local accumulators. */
  method ComputeBestHandValue(cards: seq<Card>) returns (total: int)
    ensures total == BestHandValue(cards)
  {
    total := 0;
    var aces: nat := 0;
    for i := 0 to |cards|
      invariant total == HardTotal(cards[..i])
      invariant aces == AceCount(cards[..i])
    {
      assert cards[..i + 1][..i] == cards[..i];
      var c := cards[i];
      if c.rank == Ace {
        aces := aces + 1;
        total := total + 1;
      } else {
        total := total + Values(c.rank)[0];
      }
    }
    assert cards[..|cards|] == cards;
    for i := 0 to aces
      invariant UpgradeAces(total, aces - i) == UpgradeAces(HardTotal(cards), AceCount(cards))
    {
      if total + 10 <= 21 {
        total := total + 10;
      }
    }
  }
}
