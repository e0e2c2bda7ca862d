/**
 * The round state machine.  The globals of script.js (deck, balance,
 * baseBet, playerHands, dealerHand, activeHandIndex, roundInProgress and
 * the constant shoeSize) become the fields of one Game object; each player
 * action is a method that runs to completion, including the dealer's turn
 * and the settlement it may trigger.
 */
module Round {
  import opened Wrappers
  import opened Cards
  import opened Shoe
  import opened Evaluate
  import opened Settlement

  /** drawCard rebuilds the shoe when fewer cards than this remain. */
  const ReshuffleBelow: nat := 15

  /** The dealer stands on any total of at least this, soft or hard. */
  const DealerStandsAt: int := 17

  datatype Seat = ToPlayer | ToDealer

  /** dealInitial's dealOrder: player, dealer, player, dealer (the hole card). */
  const DealOrder: seq<Seat> := [ToPlayer, ToDealer, ToPlayer, ToDealer]

  /** The cards that go to seat `who` when `cards` are handed out one by one in the order `order`. */
  ghost function SeatCards(order: seq<Seat>, cards: seq<Card>, who: Seat): seq<Card>
    requires |cards| == |order|
    decreases |order|
  {
    if order == [] then []
    else SeatCards(order[..|order| - 1], cards[..|cards| - 1], who)
         + (if order[|order| - 1] == who then [cards[|cards| - 1]] else [])
  }

  /** Handing out one more card, in seat `order[i]`, adds it to that seat's cards only. */
  lemma SeatCardsExtend(order: seq<Seat>, i: nat, prior: seq<Card>, c: Card, who: Seat)
    requires i < |order| && |prior| == i
    ensures SeatCards(order[..i + 1], prior + [c], who)
            == SeatCards(order[..i], prior, who) + (if order[i] == who then [c] else [])
  {
    assert order[..i + 1][..i] == order[..i];
    assert (prior + [c])[..i] == prior;
  }

  /** Dealt in dealOrder, the player gets the first and third card and the dealer the second and fourth. */
  lemma DealOrderSeats(cards: seq<Card>)
    requires |cards| == 4
    ensures SeatCards(DealOrder, cards, ToPlayer) == [cards[0], cards[2]]
    ensures SeatCards(DealOrder, cards, ToDealer) == [cards[1], cards[3]]
  {
    var c1, c2, c3 := cards[..1], cards[..2], cards[..3];
    assert c3[..2] == c2 && c2[..1] == c1 && c1[..0] == [];
    assert DealOrder[..3] == [ToPlayer, ToDealer, ToPlayer];
    assert DealOrder[..3][..2] == [ToPlayer, ToDealer];
    assert DealOrder[..3][..2][..1] == [ToPlayer];
    assert SeatCards([ToPlayer], c1, ToPlayer) == [cards[0]];
    assert SeatCards([ToPlayer], c1, ToDealer) == [];
    assert SeatCards([ToPlayer, ToDealer], c2, ToPlayer) == [cards[0]];
    assert SeatCards([ToPlayer, ToDealer], c2, ToDealer) == [cards[1]];
    assert SeatCards([ToPlayer, ToDealer, ToPlayer], c3, ToPlayer) == [cards[0], cards[2]];
    assert SeatCards([ToPlayer, ToDealer, ToPlayer], c3, ToDealer) == [cards[1]];
  }

  /**
   * What the shoe has been through: the cards left in it, every card drawn
   * so far in the order drawn, and every shoe drawCard rebuilt so far.
   */
  datatype ShoeLog = ShoeLog(deck: seq<Card>, dealt: seq<Card>, rebuilt: seq<seq<Card>>)

  /**
   * drawCard applied once per card of `cards`, starting from `deck0`, leaves
   * `deck1`, and `shoes` are the shoes it rebuilt on the way, in order.  Each
   * draw takes the last card of a deck of at least 15 cards, or else of a
   * fresh shuffled shoe of `n` decks.
   */
  ghost predicate Drew(deck0: seq<Card>, cards: seq<Card>, shoes: seq<seq<Card>>, deck1: seq<Card>, n: nat)
    decreases |cards|
  {
    if cards == [] then
      shoes == [] && deck1 == deck0
    else if |deck0| >= ReshuffleBelow then
      && deck0[|deck0| - 1] == cards[0]
      && Drew(deck0[..|deck0| - 1], cards[1..], shoes, deck1, n)
    else
      && shoes != [] && |shoes[0]| > 0
      && multiset(shoes[0]) == multiset(FreshShoe(n))
      && shoes[0][|shoes[0]| - 1] == cards[0]
      && Drew(shoes[0][..|shoes[0]| - 1], cards[1..], shoes[1..], deck1, n)
  }

  /** `after` is `before` followed by zero or more draws from its deck. */
  ghost predicate Follows(before: ShoeLog, after: ShoeLog, n: nat)
  {
    && |before.dealt| <= |after.dealt| && after.dealt[..|before.dealt|] == before.dealt
    && |before.rebuilt| <= |after.rebuilt| && after.rebuilt[..|before.rebuilt|] == before.rebuilt
    && Drew(before.deck, after.dealt[|before.dealt|..], after.rebuilt[|before.rebuilt|..], after.deck, n)
  }

  /** Drawing `c1` and then `c2` is drawing `c1 + c2`. */
  lemma {:induction false} DrewAppend(d0: seq<Card>, c1: seq<Card>, s1: seq<seq<Card>>, d1: seq<Card>,
                                      c2: seq<Card>, s2: seq<seq<Card>>, d2: seq<Card>, n: nat)
    requires Drew(d0, c1, s1, d1, n) && Drew(d1, c2, s2, d2, n)
    ensures Drew(d0, c1 + c2, s1 + s2, d2, n)
    decreases |c1|
  {
    if c1 == [] {
      assert c1 + c2 == c2 && s1 + s2 == s2;
    } else {
      assert (c1 + c2)[0] == c1[0] && (c1 + c2)[1..] == c1[1..] + c2;
      if |d0| >= ReshuffleBelow {
        DrewAppend(d0[..|d0| - 1], c1[1..], s1, d1, c2, s2, d2, n);
      } else {
        assert (s1 + s2)[0] == s1[0] && (s1 + s2)[1..] == s1[1..] + s2;
        DrewAppend(s1[0][..|s1[0]| - 1], c1[1..], s1[1..], d1, c2, s2, d2, n);
      }
    }
  }

  /** One draw from a deck of at least 15 cards takes its last card. */
  lemma PopFollows(log: ShoeLog, n: nat)
    requires |log.deck| >= ReshuffleBelow
    ensures var last := log.deck[|log.deck| - 1];
            Follows(log, ShoeLog(log.deck[..|log.deck| - 1], log.dealt + [last], log.rebuilt), n)
  {
    var last := log.deck[|log.deck| - 1];
    var dealt := log.dealt + [last];
    assert dealt[..|log.dealt|] == log.dealt && dealt[|log.dealt|..] == [last] && [last][1..] == [];
    assert log.rebuilt[|log.rebuilt|..] == [];
  }

  /** One draw from a deck of fewer than 15 cards takes the last card of a rebuilt shoe. */
  lemma RebuildFollows(log: ShoeLog, shoe: seq<Card>, n: nat)
    requires |log.deck| < ReshuffleBelow
    requires |shoe| > 0 && multiset(shoe) == multiset(FreshShoe(n))
    ensures var last := shoe[|shoe| - 1];
            Follows(log, ShoeLog(shoe[..|shoe| - 1], log.dealt + [last], log.rebuilt + [shoe]), n)
  {
    var last := shoe[|shoe| - 1];
    var dealt, rebuilt := log.dealt + [last], log.rebuilt + [shoe];
    assert dealt[..|log.dealt|] == log.dealt && dealt[|log.dealt|..] == [last] && [last][1..] == [];
    assert rebuilt[..|log.rebuilt|] == log.rebuilt && rebuilt[|log.rebuilt|..] == [shoe] && [shoe][1..] == [];
  }

  /** No draw at all. */
  lemma FollowsRefl(log: ShoeLog, n: nat)
    ensures Follows(log, log, n)
  {
    assert log.dealt[|log.dealt|..] == [] && log.rebuilt[|log.rebuilt|..] == [];
  }

  /** Draws after draws are draws. */
  lemma FollowsTrans(a: ShoeLog, b: ShoeLog, c: ShoeLog, n: nat)
    requires Follows(a, b, n) && Follows(b, c, n)
    ensures Follows(a, c, n)
  {
    var i, j := |a.dealt|, |a.rebuilt|;
    assert c.dealt[..i] == c.dealt[..|b.dealt|][..i];
    assert c.rebuilt[..j] == c.rebuilt[..|b.rebuilt|][..j];
    assert c.dealt[i..] == b.dealt[i..] + c.dealt[|b.dealt|..];
    assert c.rebuilt[j..] == b.rebuilt[j..] + c.rebuilt[|b.rebuilt|..];
    DrewAppend(a.deck, b.dealt[i..], b.rebuilt[j..], b.deck, c.dealt[|b.dealt|..], c.rebuilt[|b.rebuilt|..], c.deck, n);
  }

  /** The cards of `s`, last first. */
  function Reversed(s: seq<Card>): (r: seq<Card>)
    ensures |r| == |s|
  {
    if s == [] then [] else Reversed(s[1..]) + [s[0]]
  }

  /**
   * While the shoe holds enough cards that it is never rebuilt, the drawn
   * cards are the top of the shoe, last card first, and what is left is the
   * rest of the shoe.
   */
  lemma {:induction false} DrewFromTop(deck0: seq<Card>, cards: seq<Card>, shoes: seq<seq<Card>>, deck1: seq<Card>, n: nat)
    requires Drew(deck0, cards, shoes, deck1, n)
    requires |deck0| + 1 >= ReshuffleBelow + |cards|
    ensures shoes == [] && deck0 == deck1 + Reversed(cards)
    decreases |cards|
  {
    if cards != [] {
      var rest := deck0[..|deck0| - 1];
      DrewFromTop(rest, cards[1..], shoes, deck1, n);
      assert deck0 == rest + [cards[0]];
    }
  }

  /**
   * Whatever happens, every card drawn is the last card of a deck that
   * descends from `deck0` or from one of the rebuilt shoes, each of which is
   * a permutation of the full shoe of `n` decks.
   */
  lemma {:induction false} DrewRebuiltShoesAreFull(deck0: seq<Card>, cards: seq<Card>, shoes: seq<seq<Card>>, deck1: seq<Card>, n: nat)
    requires Drew(deck0, cards, shoes, deck1, n)
    ensures |shoes| <= |cards|
    ensures forall k :: 0 <= k < |shoes| ==> multiset(shoes[k]) == multiset(FreshShoe(n))
    decreases |cards|
  {
    if cards != [] {
      if |deck0| >= ReshuffleBelow {
        DrewRebuiltShoesAreFull(deck0[..|deck0| - 1], cards[1..], shoes, deck1, n);
      } else {
        DrewRebuiltShoesAreFull(shoes[0][..|shoes[0]| - 1], cards[1..], shoes[1..], deck1, n);
        assert forall k :: 1 <= k < |shoes| ==> shoes[k] == shoes[1..][k - 1];
      }
    }
  }

  /** Array.prototype.findIndex over the hands, starting the search at `from`. */
  function FindIndexFrom(hands: seq<Hand>, p: (Hand, int) -> bool, from: nat): (k: int)
    requires from <= |hands|
    ensures k == -1 || (from <= k < |hands| && p(hands[k], k))
    ensures k == -1 ==> forall j :: from <= j < |hands| ==> !p(hands[j], j)
    ensures k != -1 ==> forall j :: from <= j < k ==> !p(hands[j], j)
    decreases |hands| - from
  {
    if from == |hands| then -1
    else if p(hands[from], from) then from
    else FindIndexFrom(hands, p, from + 1)
  }

  /**
   * The hand nextPlayerHandOrDealer moves to: the lowest-index unfinished
   * hand after `active`, failing that the lowest-index unfinished hand
   * before it; -1 when every other hand is finished.
   */
  function NextHandIndex(hands: seq<Hand>, active: int): (k: int)
    ensures k == -1 <==> forall j :: 0 <= j < |hands| && j != active ==> hands[j].finished
    ensures k != -1 ==> 0 <= k < |hands| && k != active && !hands[k].finished
    ensures k != -1 && k > active ==> forall j :: 0 <= j < k && j > active ==> hands[j].finished
    ensures k != -1 && k < active ==>
              (forall j :: active < j < |hands| ==> hands[j].finished) &&
              (forall j :: 0 <= j < k ==> hands[j].finished)
  {
    var later := FindIndexFrom(hands, (h: Hand, idx: int) => !h.finished && idx > active, 0);
    if later != -1 then later
    else FindIndexFrom(hands, (h: Hand, idx: int) => !h.finished && idx < active, 0)
  }

  /**
   * The dealer's policy, from the hand `before` to the hand `after`: only
   * cards are added, each one while the hand was worth less than 17, and the
   * final hand is worth at least 17.
   */
  ghost predicate DealerStood(before: seq<Card>, after: seq<Card>)
  {
    && |before| <= |after|
    && after[..|before|] == before
    && BestHandValue(after) >= DealerStandsAt
    && forall k :: |before| <= k < |after| ==> BestHandValue(after[..k]) < DealerStandsAt
  }

  /**
   * One draw of dealerPlay's loop: a card taken while the hand `before` is
   * worth less than 17 extends the hand and the cards dealt since `dealt0`
   * alike, and raises the hard total, which stays below 17 before the draw.
   */
  lemma DealerDrawStep(hand0: seq<Card>, before: seq<Card>, dealt0: seq<Card>, dealt: seq<Card>, c: Card)
    requires |dealt0| <= |dealt| && dealt[..|dealt0|] == dealt0
    requires before == hand0 + dealt[|dealt0|..]
    requires forall k :: |hand0| <= k < |before| ==> BestHandValue(before[..k]) < DealerStandsAt
    requires BestHandValue(before) < DealerStandsAt
    ensures var after := before + [c];
            && (dealt + [c])[..|dealt0|] == dealt0
            && after == hand0 + (dealt + [c])[|dealt0|..]
            && (forall k :: |hand0| <= k < |after| ==> BestHandValue(after[..k]) < DealerStandsAt)
            && 0 <= HardTotal(before) < DealerStandsAt
            && HardTotal(before) < HardTotal(after)
  {
    var after := before + [c];
    assert after[..|before|] == before;
    assert (dealt + [c])[|dealt0|..] == dealt[|dealt0|..] + [c];
    assert (dealt + [c])[..|dealt0|] == dealt[..|dealt0|];
    forall k | |hand0| <= k < |after|
      ensures BestHandValue(after[..k]) < DealerStandsAt
    {
      if k < |before| {
        assert after[..k] == before[..k];
      }
    }
    HardTotalCoversAces(before);
  }

  /** Once the dealer's hand is worth 17 or more, soft or hard, the dealer draws nothing. */
  lemma DealerDrawsNothingAtSeventeen(before: seq<Card>, after: seq<Card>)
    requires DealerStood(before, after)
    requires BestHandValue(before) >= DealerStandsAt
    ensures after == before
  {
    assert BestHandValue(after[..|before|]) >= DealerStandsAt;
  }

  /** The dealer stands on a soft 17 such as Ace-Six. */
  lemma DealerStandsOnSoftSeventeen(before: seq<Card>, after: seq<Card>)
    requires DealerStood(before, after)
    requires |before| == 2 && before[0].rank == Ace && before[1].rank == Six
    ensures after == before
  {
    TwoCardTotals(before);
    DealerDrawsNothingAtSeventeen(before, after);
  }

  /**
   * The body of resolveRound's loop for one hand, given the dealer's
   * total and whether the dealer holds a natural: a natural beats a
   * dealer without one at 3:2, a bust loses, a dealer bust or a higher
   * total wins even money, an equal total pushes, a lower total loses.
   */
  method SettleHand(h: Hand, ghost dealer: seq<Card>, dealerVal: int, dealerBusted: bool, dealerBJ: bool)
    returns (result: Outcome, payout: int)
    requires dealerVal == BestHandValue(dealer) && dealerBusted == (dealerVal > 21)
    requires dealerBJ == IsBlackjack(dealer)
    ensures Decision(result, payout) == Settle(h, dealer)
  {
    var hv := ComputeBestHandValue(h.cards);
    payout := 0;
    if IsBlackjack(h.cards) && !dealerBJ {
      payout := ThreeToTwo(h.bet);
      result := Blackjack;
    } else if hv > 21 {
      result := Lose;
    } else if dealerBusted {
      payout := h.bet * 2;
      result := Win;
    } else if hv > dealerVal {
      payout := h.bet * 2;
      result := Win;
    } else if hv == dealerVal {
      payout := h.bet;
      result := Push;
    } else {
      result := Lose;
    }
  }

  /**
   * At most two hands (one split), the active index points at one of them
   * when there are any, every stake is positive, and a doubled hand holds
   * exactly three cards and is finished.
   */
  predicate HandsInPlay(hands: seq<Hand>, active: int)
  {
    && |hands| <= 2
    && 0 <= active
    && (hands != [] ==> active < |hands|)
    && forall i :: 0 <= i < |hands| ==>
         hands[i].bet > 0 && (hands[i].doubled ==> |hands[i].cards| == 3 && hands[i].finished)
  }

  /** Recording results changes neither the number of hands nor their stakes or flags. */
  lemma SettlingKeepsHandsInPlay(hands: seq<Hand>, active: int, dealer: seq<Card>)
    requires HandsInPlay(hands, active)
    ensures HandsInPlay(WithResults(hands, dealer), active)
  {
  }

  /** enablePlayerActionsForActiveHand's gate on Double: two cards, a balance covering the bet, not doubled. */
  predicate DoubleOffered(h: Hand, balance: int)
  {
    |h.cards| == 2 && balance >= h.bet && !h.doubled
  }

  /** enablePlayerActionsForActiveHand's gate on Split: a two-card pair, a balance covering the bet, one hand. */
  predicate SplitOffered(hands: seq<Hand>, active: int, balance: int)
    requires 0 <= active < |hands|
  {
    var h := hands[active];
    |h.cards| == 2 && h.cards[0].rank == h.cards[1].rank && balance >= h.bet && |hands| == 1
  }

  /**
   * During play the Double button appears exactly when playerDouble's own
   * checks pass: its extra `!doubled` test never excludes a two-card hand.
   */
  lemma DoubleGateMatchesChecks(hands: seq<Hand>, active: int, balance: int)
    requires HandsInPlay(hands, active) && hands != []
    ensures DoubleOffered(hands[active], balance) <==>
              |hands[active].cards| == 2 && balance >= hands[active].bet
  {
    if hands[active].doubled {
      assert |hands[active].cards| == 3;
    }
  }

  /**
   * The Split button appears exactly when playerSplit's own checks pass and
   * there is a single hand, which is then the active one.
   */
  lemma SplitGateMatchesChecks(hands: seq<Hand>, active: int, balance: int)
    requires HandsInPlay(hands, active) && hands != []
    ensures SplitOffered(hands, active, balance) <==>
              && |hands| == 1 && active == 0
              && |hands[0].cards| == 2 && hands[0].cards[0].rank == hands[0].cards[1].rank
              && balance >= hands[0].bet
  {
  }

  class Game {
    var deck: seq<Card>
    const shoeSize: nat
    var balance: int
    var baseBet: int
    var playerHands: seq<Hand>
    var dealerHand: seq<Card>
    var activeHandIndex: int
    var roundInProgress: bool

    /** Every card drawn from the shoe so far, in the order drawn. */
    ghost var dealt: seq<Card>
    /** The balance before the current round's bet was taken. */
    ghost var openingBalance: int
    /** What the current round has paid back so far. */
    ghost var paidOut: int
    /** Every shoe drawCard has rebuilt, in order. */
    ghost var rebuilt: seq<seq<Card>>

    /** The shoe's part of the state. */
    ghost function Log(): ShoeLog
      reads this
    {
      ShoeLog(deck, dealt, rebuilt)
    }

    /**
     * The engine invariant: the shoe has at least one deck, there are at
     * most two player hands and the active index points at one of them,
     * every stake is positive, a doubled hand holds exactly three cards and
     * is finished, and the money reconciles: the balance is the opening
     * balance less the stakes of the hands plus what has been paid back.
     */
    ghost predicate Valid()
      reads this
    {
      && shoeSize >= 1
      && HandsInPlay(playerHands, activeHandIndex)
      && balance == openingBalance - TotalStake(playerHands) + paidOut
    }

    /**
     * How the state stands after nextPlayerHandOrDealer ran on the state
     * given by the parameters: either the next unfinished hand became
     * active, or the dealer played out its hand and every hand was settled.
     */
    ghost predicate Advanced(hands0: seq<Hand>, active0: int, dealer0: seq<Card>, balance0: int,
                             paid0: int, dealt0: seq<Card>, inProgress0: bool)
      reads this
    {
      var k := NextHandIndex(hands0, active0);
      if k != -1 then
        && playerHands == hands0 && activeHandIndex == k && dealerHand == dealer0
        && balance == balance0 && paidOut == paid0 && dealt == dealt0
        && roundInProgress == inProgress0
      else
        && |dealt0| <= |dealt| && dealt[..|dealt0|] == dealt0
        && dealerHand == dealer0 + dealt[|dealt0|..]
        && DealerStood(dealer0, dealerHand)
        && playerHands == WithResults(hands0, dealerHand)
        && balance == balance0 + TotalPayout(hands0, dealerHand)
        && paidOut == paid0 + TotalPayout(hands0, dealerHand)
        && activeHandIndex == active0 && !roundInProgress
    }

    /**
     * init: the balance and bet read from the page, a freshly shuffled shoe
     * of `decks` decks (script.js uses shoeSize = 6), no round in progress.
     */
    constructor (startingBalance: int, startingBet: int, decks: nat := 6)
      requires decks >= 1
      ensures Valid()
      ensures shoeSize == decks && multiset(deck) == multiset(FreshShoe(shoeSize))
      ensures forall c :: multiset(deck)[c] == ShoeCopies(c, shoeSize)
      ensures balance == startingBalance && baseBet == startingBet
      ensures playerHands == [] && dealerHand == [] && activeHandIndex == 0 && !roundInProgress
      ensures dealt == [] && rebuilt == []
    {
      shoeSize := decks;
      balance := startingBalance;
      baseBet := startingBet;
      playerHands := [];
      dealerHand := [];
      activeHandIndex := 0;
      roundInProgress := false;
      dealt := [];
      rebuilt := [];
      openingBalance := startingBalance;
      paidOut := 0;
      new;
      deck := CreateDeck(shoeSize);
    }

    /** drawCard: rebuild the shoe if fewer than 15 cards remain, then take the last card. */
    method DrawCard() returns (c: Card)
      requires Valid()
      modifies this`deck, this`dealt, this`rebuilt
      ensures Valid()
      ensures dealt == old(dealt) + [c]
      ensures Follows(old(Log()), Log(), shoeSize)
      ensures |old(deck)| >= ReshuffleBelow ==> deck + [c] == old(deck)
      ensures |old(deck)| < ReshuffleBelow ==>
                (forall x :: multiset(deck + [c])[x] == ShoeCopies(x, shoeSize)) && |deck| == 52 * shoeSize - 1
    {
      ghost var log0 := Log();
      if |deck| < ReshuffleBelow {
        Reshoe();
      }
      ghost var full := deck;
      c := deck[|deck| - 1];
      deck := deck[..|deck| - 1];
      dealt := dealt + [c];
      assert full == deck + [c];
      if |log0.deck| < ReshuffleBelow {
        ShuffledShoe(full, shoeSize);
        RebuildFollows(log0, full, shoeSize);
        assert Log() == ShoeLog(full[..|full| - 1], log0.dealt + [c], log0.rebuilt + [full]);
      } else {
        PopFollows(log0, shoeSize);
        assert Log() == ShoeLog(log0.deck[..|log0.deck| - 1], log0.dealt + [c], log0.rebuilt);
      }
    }

    /** The reshuffle in drawCard: a new shoe from createDeck, recorded in `rebuilt`. */
    method Reshoe()
      requires Valid()
      modifies this`deck, this`rebuilt
      ensures Valid()
      ensures |deck| == 52 * shoeSize && multiset(deck) == multiset(FreshShoe(shoeSize))
      ensures rebuilt == old(rebuilt) + [deck]
    {
      deck := CreateDeck(shoeSize);
      rebuilt := rebuilt + [deck];
    }

    /**
     * dealInitial: start a round, validate the bet, take it from the
     * balance, deal player, dealer, player, dealer, and settle at once if
     * either side holds a natural.  `parsedBet` is what parseInt read from
     * the bet input (None for NaN); a missing or zero bet keeps the old one.
     * `accepted` tells whether the bet passed validation.
     */
    method DealInitial(parsedBet: Option<int>) returns (accepted: bool)
      requires Valid()
      modifies this
      ensures Valid()
      ensures Follows(old(Log()), Log(), shoeSize)
      ensures baseBet == if parsedBet == None || parsedBet == Some(0) then old(baseBet) else parsedBet.value
      ensures accepted <==> 0 < baseBet <= old(balance)
      ensures activeHandIndex == 0 && openingBalance == old(balance)
      ensures !accepted ==>
                && playerHands == [] && dealerHand == [] && roundInProgress
                && balance == old(balance) && deck == old(deck) && dealt == old(dealt) && rebuilt == old(rebuilt)
      ensures accepted ==>
                var n := |old(dealt)|;
                && |dealt| == n + 4 && dealt[..n] == old(dealt)
                && var player, dealer := [dealt[n], dealt[n + 2]], [dealt[n + 1], dealt[n + 3]];
                   var natural := IsBlackjack(player) || IsBlackjack(dealer);
                   && playerHands == [Hand(player, baseBet, false, false, None)]
                   && dealerHand == dealer
                   && balance == old(balance) - baseBet + ImmediatePayout(baseBet, IsBlackjack(player), IsBlackjack(dealer))
                   && roundInProgress == !natural
    {
      FollowsRefl(Log(), shoeSize);
      ResetTable();
      baseBet := if parsedBet == None || parsedBet == Some(0) then baseBet else parsedBet.value;
      if baseBet <= 0 {
        return false;
      }
      if baseBet > balance {
        return false;
      }
      OpenRound();
      accepted := true;
    }

    /** dealInitial once the bet is valid: stake it, deal the four cards and check for naturals. */
    method OpenRound()
      requires Valid() && playerHands == [] && dealerHand == [] && activeHandIndex == 0 && roundInProgress
      requires 0 < baseBet <= balance
      modifies this`deck, this`dealt, this`rebuilt, this`playerHands, this`dealerHand, this`balance,
               this`paidOut, this`roundInProgress
      ensures Valid()
      ensures Follows(old(Log()), Log(), shoeSize)
      ensures var n := |old(dealt)|;
              && |dealt| == n + 4 && dealt[..n] == old(dealt)
              && var player, dealer := [dealt[n], dealt[n + 2]], [dealt[n + 1], dealt[n + 3]];
                 var natural := IsBlackjack(player) || IsBlackjack(dealer);
                 && playerHands == [Hand(player, baseBet, false, false, None)]
                 && dealerHand == dealer
                 && balance == old(balance) - baseBet + ImmediatePayout(baseBet, IsBlackjack(player), IsBlackjack(dealer))
                 && paidOut == old(paidOut) + ImmediatePayout(baseBet, IsBlackjack(player), IsBlackjack(dealer))
                 && roundInProgress == !natural
    {
      PlaceBet();
      ghost var n := |dealt|;
      DealSequence();
      ghost var player, dealer := [dealt[n], dealt[n + 2]], [dealt[n + 1], dealt[n + 3]];
      assert playerHands == [Hand(player, baseBet, false, false, None)] && dealerHand == dealer;
      CheckNaturals();
    }

    /** The end of dealInitial: a natural on either side settles the round at once. */
    method CheckNaturals()
      requires Valid() && |playerHands| == 1 && roundInProgress
      modifies this`balance, this`paidOut, this`roundInProgress
      ensures Valid()
      ensures var playerBJ, dealerBJ := IsBlackjack(playerHands[0].cards), IsBlackjack(dealerHand);
              && balance == old(balance) + ImmediatePayout(playerHands[0].bet, playerBJ, dealerBJ)
              && paidOut == old(paidOut) + ImmediatePayout(playerHands[0].bet, playerBJ, dealerBJ)
              && roundInProgress == !(playerBJ || dealerBJ)
    {
      var playerBJ := IsBlackjack(playerHands[0].cards);
      var dealerBJ := IsBlackjack(dealerHand);
      if playerBJ || dealerBJ {
        EndRoundImmediate(playerBJ, dealerBJ);
      }
    }

    /**
     * The start of dealInitial: clear the table and mark a round in progress.
     * There is no round check, so stakes still on the table are dropped and
     * the ledger starts over from the current balance.
     */
    method ResetTable()
      requires Valid()
      modifies this`playerHands, this`dealerHand, this`activeHandIndex, this`roundInProgress,
               this`openingBalance, this`paidOut
      ensures Valid()
      ensures playerHands == [] && dealerHand == [] && activeHandIndex == 0 && roundInProgress
      ensures openingBalance == balance && paidOut == 0
    {
      playerHands := [];
      dealerHand := [];
      activeHandIndex := 0;
      roundInProgress := true;
      openingBalance := balance;
      paidOut := 0;
    }

    /** dealInitial after validation: one empty hand holding the base bet, paid from the balance. */
    method PlaceBet()
      requires Valid() && playerHands == [] && activeHandIndex == 0 && baseBet > 0
      modifies this`playerHands, this`balance
      ensures Valid()
      ensures playerHands == [Hand([], baseBet, false, false, None)]
      ensures balance == old(balance) - baseBet
    {
      playerHands := [Hand([], baseBet, false, false, None)];
      balance := balance - baseBet;
    }

    /** dealInitial's deal loop over dealOrder: player, dealer, player, dealer, one drawn card each. */
    method DealSequence()
      requires Valid() && |playerHands| == 1 && playerHands[0].cards == [] && dealerHand == []
      modifies this`deck, this`dealt, this`rebuilt, this`playerHands, this`dealerHand
      ensures Valid()
      ensures Follows(old(Log()), Log(), shoeSize)
      ensures var n := |old(dealt)|;
              && |dealt| == n + 4 && dealt[..n] == old(dealt)
              && playerHands == [old(playerHands[0]).(cards := [dealt[n], dealt[n + 2]])]
              && dealerHand == [dealt[n + 1], dealt[n + 3]]
    {
      ghost var n := |dealt|;
      FollowsRefl(Log(), shoeSize);
      for i := 0 to |DealOrder|
        invariant Valid()
        invariant Follows(old(Log()), Log(), shoeSize)
        invariant |playerHands| == 1 && playerHands[0] == old(playerHands[0]).(cards := playerHands[0].cards)
        invariant |dealt| == n + i && dealt[..n] == old(dealt)
        invariant playerHands[0].cards == SeatCards(DealOrder[..i], dealt[n..], ToPlayer)
        invariant dealerHand == SeatCards(DealOrder[..i], dealt[n..], ToDealer)
      {
        ghost var before := Log();
        var card := DealToSeat(DealOrder[i]);
        FollowsTrans(old(Log()), before, Log(), shoeSize);
        assert dealt[n..] == before.dealt[n..] + [card];
        SeatCardsExtend(DealOrder, i, before.dealt[n..], card, ToPlayer);
        SeatCardsExtend(DealOrder, i, before.dealt[n..], card, ToDealer);
      }
      assert DealOrder[..|DealOrder|] == DealOrder;
      DealOrderSeats(dealt[n..]);
    }

    /** One step of dealInitial's deal loop: a drawn card goes to the player's only hand or to the dealer. */
    method DealToSeat(who: Seat) returns (card: Card)
      requires Valid() && |playerHands| == 1 && !playerHands[0].doubled
      modifies this`deck, this`dealt, this`rebuilt, this`playerHands, this`dealerHand
      ensures Valid()
      ensures Follows(old(Log()), Log(), shoeSize)
      ensures dealt == old(dealt) + [card]
      ensures |playerHands| == 1
      ensures playerHands[0] == old(playerHands[0]).(cards := old(playerHands[0].cards) + (if who == ToPlayer then [card] else []))
      ensures dealerHand == old(dealerHand) + (if who == ToDealer then [card] else [])
    {
      if who == ToPlayer {
        card := DealTo(0);
      } else {
        card := DealToDealer();
      }
    }

    /** The money part of endRoundImmediate: pay out the naturals and end the round. */
    method EndRoundImmediate(playerBJ: bool, dealerBJ: bool)
      requires Valid() && playerHands != []
      modifies this`balance, this`paidOut, this`roundInProgress
      ensures Valid() && !roundInProgress
      ensures balance == old(balance) + ImmediatePayout(playerHands[0].bet, playerBJ, dealerBJ)
      ensures paidOut == old(paidOut) + ImmediatePayout(playerHands[0].bet, playerBJ, dealerBJ)
    {
      if playerBJ && dealerBJ {
        balance := balance + playerHands[0].bet;
        paidOut := paidOut + playerHands[0].bet;
      } else if playerBJ {
        balance := balance + ThreeToTwo(playerHands[0].bet);
        paidOut := paidOut + ThreeToTwo(playerHands[0].bet);
      }
      roundInProgress := false;
    }

    /**
     * playerHit: outside a round, or on a finished hand, nothing happens.
     * Otherwise one card goes to the active hand; a bust finishes it and
     * moves on, any other total (21 included) leaves the hand in play.
     */
    method PlayerHit()
      requires Valid()
      requires roundInProgress ==> playerHands != []
      modifies this`deck, this`dealt, this`rebuilt, this`playerHands, this`dealerHand, this`balance, this`paidOut,
               this`activeHandIndex, this`roundInProgress
      ensures Valid()
      ensures Follows(old(Log()), Log(), shoeSize)
      ensures !old(roundInProgress) || old(playerHands[activeHandIndex].finished) ==> unchanged(this)
      ensures old(roundInProgress) && !old(playerHands[activeHandIndex].finished) ==>
                var a, h := old(activeHandIndex), old(playerHands[activeHandIndex]);
                && |dealt| > |old(dealt)|
                && var hit := h.(cards := h.cards + [dealt[|old(dealt)|]]);
                   if IsBusted(hit.cards) then
                     Advanced(old(playerHands)[a := hit.(finished := true)], a, old(dealerHand),
                              old(balance), old(paidOut), old(dealt) + [dealt[|old(dealt)|]], true)
                   else
                     && playerHands == old(playerHands)[a := hit] && activeHandIndex == a
                     && dealt == old(dealt) + [dealt[|old(dealt)|]]
                     && dealerHand == old(dealerHand) && balance == old(balance)
                     && paidOut == old(paidOut) && roundInProgress
    {
      FollowsRefl(Log(), shoeSize);
      if !roundInProgress {
        return;
      }
      var hand := playerHands[activeHandIndex];
      if hand.finished {
        return;
      }
      var card := DealTo(activeHandIndex);
      hand := playerHands[activeHandIndex];
      if IsBusted(hand.cards) {
        // a bust finishes the hand and moves on, the same steps as playerStand
        ghost var h := old(playerHands[activeHandIndex]);
        ghost var hands1 := playerHands[activeHandIndex := hand.(finished := true)];
        assert hands1 == old(playerHands)[activeHandIndex := h.(cards := h.cards + [card]).(finished := true)];
        ghost var dealt1 := dealt;
        ghost var log1 := Log();
        PlayerStand();
        FollowsTrans(old(Log()), log1, Log(), shoeSize);
        assert dealt[|old(dealt)|] == dealt[..|dealt1|][|old(dealt)|] == card;
        assert Advanced(hands1, old(activeHandIndex), old(dealerHand), old(balance), old(paidOut), dealt1, true);
      } else if hand.doubled {
        // script.js finishes a doubled hand here, but a doubled hand is
        // already finished (Valid), so this branch is never taken.
        assert false;
      }
    }

    /** `playerHands[i].cards.push(drawCard())`, on a hand that is not doubled. */
    method DealTo(i: int) returns (card: Card)
      requires Valid() && 0 <= i < |playerHands| && !playerHands[i].doubled
      modifies this`deck, this`dealt, this`rebuilt, this`playerHands
      ensures Valid()
      ensures dealt == old(dealt) + [card]
      ensures Follows(old(Log()), Log(), shoeSize)
      ensures playerHands == old(playerHands)[i := old(playerHands[i]).(cards := old(playerHands[i]).cards + [card])]
    {
      card := DrawCard();
      var hand := playerHands[i];
      hand := hand.(cards := hand.cards + [card]);
      StakeOfUpdate(playerHands, i, hand);
      playerHands := playerHands[i := hand];
    }

    /** `dealerHand.push(drawCard())`. */
    method DealToDealer() returns (card: Card)
      requires Valid()
      modifies this`deck, this`dealt, this`rebuilt, this`dealerHand
      ensures Valid()
      ensures dealt == old(dealt) + [card]
      ensures Follows(old(Log()), Log(), shoeSize)
      ensures dealerHand == old(dealerHand) + [card]
    {
      card := DrawCard();
      dealerHand := dealerHand + [card];
    }

    /** playerStand: finish the active hand and move on; there is no round check. */
    method PlayerStand()
      requires Valid() && playerHands != []
      modifies this`deck, this`dealt, this`rebuilt, this`playerHands, this`dealerHand, this`balance, this`paidOut,
               this`activeHandIndex, this`roundInProgress
      ensures Valid()
      ensures Follows(old(Log()), Log(), shoeSize)
      ensures var a := old(activeHandIndex);
              Advanced(old(playerHands)[a := old(playerHands[activeHandIndex]).(finished := true)], a,
                       old(dealerHand), old(balance), old(paidOut), old(dealt), old(roundInProgress))
    {
      var hand := playerHands[activeHandIndex];
      hand := hand.(finished := true);
      StakeOfUpdate(playerHands, activeHandIndex, hand);
      playerHands := playerHands[activeHandIndex := hand];
      NextPlayerHandOrDealer();
    }

    /**
     * playerDouble: on a two-card hand, with the balance to cover it, take a
     * second stake, double the bet, deal exactly one card and finish the
     * hand whatever its total.  Rejected (nothing changes) otherwise.
     */
    method PlayerDouble() returns (accepted: bool)
      requires Valid() && playerHands != []
      modifies this`deck, this`dealt, this`rebuilt, this`playerHands, this`dealerHand, this`balance, this`paidOut,
               this`activeHandIndex, this`roundInProgress
      ensures Valid()
      ensures Follows(old(Log()), Log(), shoeSize)
      ensures accepted <==> old(|playerHands[activeHandIndex].cards| == 2 && balance >= playerHands[activeHandIndex].bet)
      ensures !accepted ==> unchanged(this)
      ensures accepted ==>
                var a, h := old(activeHandIndex), old(playerHands[activeHandIndex]);
                && |dealt| > |old(dealt)|
                && var c := dealt[|old(dealt)|];
                   Advanced(old(playerHands)[a := Hand(h.cards + [c], 2 * h.bet, true, true, h.result)], a,
                            old(dealerHand), old(balance) - h.bet, old(paidOut), old(dealt) + [c],
                            old(roundInProgress))
    {
      FollowsRefl(Log(), shoeSize);
      var hand := playerHands[activeHandIndex];
      if |hand.cards| != 2 {
        return false;
      }
      if balance < hand.bet {
        return false;
      }
      DoubleActive();
      ghost var hands1, balance1, dealt1 := playerHands, balance, dealt;
      ghost var log1 := Log();
      NextPlayerHandOrDealer();
      FollowsTrans(old(Log()), log1, Log(), shoeSize);
      assert dealt[|old(dealt)|] == dealt[..|dealt1|][|old(dealt)|];
      assert dealt1 == old(dealt) + [dealt[|old(dealt)|]];
      assert Advanced(hands1, old(activeHandIndex), old(dealerHand), balance1, old(paidOut), dealt1, old(roundInProgress));
      accepted := true;
    }

    /**
     * The body of playerDouble once its checks pass: a second stake, the
     * doubled bet, exactly one card, and the hand finished whatever its total.
     */
    method DoubleActive()
      requires Valid() && playerHands != []
      requires |playerHands[activeHandIndex].cards| == 2 && balance >= playerHands[activeHandIndex].bet
      modifies this`deck, this`dealt, this`rebuilt, this`balance, this`playerHands
      ensures Valid()
      ensures Follows(old(Log()), Log(), shoeSize)
      ensures |dealt| == |old(dealt)| + 1 && dealt[..|old(dealt)|] == old(dealt)
      ensures var h := old(playerHands[activeHandIndex]);
              && playerHands == old(playerHands)[activeHandIndex := Hand(h.cards + [dealt[|old(dealt)|]], 2 * h.bet, true, true, h.result)]
              && balance == old(balance) - h.bet
    {
      var hand := playerHands[activeHandIndex];
      // The card is drawn before the hand and the balance are updated; the
      // shoe is independent of both, so the order makes no difference.
      var card := DrawCard();
      balance := balance - hand.bet;
      hand := hand.(bet := hand.bet * 2, doubled := true);
      hand := hand.(cards := hand.cards + [card]);
      // Busted or not, the hand is finished.
      hand := hand.(finished := true);
      StakeOfUpdate(playerHands, activeHandIndex, hand);
      playerHands := playerHands[activeHandIndex := hand];
    }

    /**
     * playerSplit: on a pair, with the balance to cover a second stake,
     * replace the single hand by two hands at the same bet, seeded with the
     * first and the second card, and deal one card to each.  It is offered
     * only while there is exactly one hand.  Rejected (nothing changes)
     * otherwise.
     */
    method PlayerSplit() returns (accepted: bool)
      requires Valid() && |playerHands| == 1
      modifies this`deck, this`dealt, this`rebuilt, this`playerHands, this`balance
      ensures Valid()
      ensures Follows(old(Log()), Log(), shoeSize)
      ensures accepted <==> old(|playerHands[0].cards| == 2 &&
                                playerHands[0].cards[0].rank == playerHands[0].cards[1].rank &&
                                balance >= playerHands[0].bet)
      ensures !accepted ==> unchanged(this)
      ensures accepted ==>
                var h, n := old(playerHands[0]), |old(dealt)|;
                && |dealt| == n + 2 && dealt[..n] == old(dealt)
                && playerHands == [Hand([h.cards[0], dealt[n]], h.bet, false, false, None),
                                   Hand([h.cards[1], dealt[n + 1]], h.bet, false, false, None)]
                && balance == old(balance) - h.bet && activeHandIndex == 0
                && dealerHand == old(dealerHand) && paidOut == old(paidOut)
                && roundInProgress == old(roundInProgress)
    {
      FollowsRefl(Log(), shoeSize);
      var hand := playerHands[activeHandIndex];
      if |hand.cards| != 2 {
        return false;
      }
      if hand.cards[0].rank != hand.cards[1].rank {
        return false;
      }
      if balance < hand.bet {
        return false;
      }
      SplitActive();
      accepted := true;
    }

    /** The body of playerSplit once its checks pass. */
    method SplitActive()
      requires Valid() && |playerHands| == 1
      requires |playerHands[0].cards| == 2 && playerHands[0].cards[0].rank == playerHands[0].cards[1].rank
      requires balance >= playerHands[0].bet
      modifies this`deck, this`dealt, this`rebuilt, this`playerHands, this`balance
      ensures Valid()
      ensures Follows(old(Log()), Log(), shoeSize)
      ensures var h, n := old(playerHands[0]), |old(dealt)|;
              && |dealt| == n + 2 && dealt[..n] == old(dealt)
              && playerHands == [Hand([h.cards[0], dealt[n]], h.bet, false, false, None),
                                 Hand([h.cards[1], dealt[n + 1]], h.bet, false, false, None)]
              && balance == old(balance) - h.bet
    {
      var hand := playerHands[0];
      var card1, card2, bet := hand.cards[0], hand.cards[1], hand.bet;
      playerHands := [Hand([card1], bet, false, false, None), Hand([card2], bet, false, false, None)];
      balance := balance - bet;
      ghost var log0 := Log();
      var cA := DealTo(0);
      assert [card1] + [cA] == [card1, cA];
      assert playerHands[0] == Hand([card1, cA], bet, false, false, None);
      ghost var log1 := Log();
      var cB := DealTo(1);
      assert [card2] + [cB] == [card2, cB];
      FollowsTrans(log0, log1, Log(), shoeSize);
      assert playerHands == [Hand([card1, cA], bet, false, false, None), Hand([card2, cB], bet, false, false, None)];
      assert dealt[|old(dealt)|] == cA && dealt[|old(dealt)| + 1] == cB;
    }

    /** nextPlayerHandOrDealer: activate the next unfinished hand, or play the dealer and settle. */
    method NextPlayerHandOrDealer()
      requires Valid()
      modifies this`deck, this`dealt, this`rebuilt, this`playerHands, this`dealerHand, this`balance, this`paidOut,
               this`activeHandIndex, this`roundInProgress
      ensures Valid()
      ensures Follows(old(Log()), Log(), shoeSize)
      ensures |old(dealt)| <= |dealt| && dealt[..|old(dealt)|] == old(dealt)
      ensures Advanced(old(playerHands), old(activeHandIndex), old(dealerHand), old(balance),
                       old(paidOut), old(dealt), old(roundInProgress))
    {
      var next := NextHandIndex(playerHands, activeHandIndex);
      if next != -1 {
        activeHandIndex := next;
        FollowsRefl(Log(), shoeSize);
        return;
      }
      DealerPlay();
      ResolveRound();
    }

    /** dealerPlay: draw while the dealer's hand is worth less than 17. */
    method DealerPlay()
      requires Valid()
      modifies this`deck, this`dealt, this`rebuilt, this`dealerHand
      ensures Valid()
      ensures Follows(old(Log()), Log(), shoeSize)
      ensures |old(dealt)| <= |dealt| && dealt[..|old(dealt)|] == old(dealt)
      ensures dealerHand == old(dealerHand) + dealt[|old(dealt)|..]
      ensures DealerStood(old(dealerHand), dealerHand)
    {
      FollowsRefl(Log(), shoeSize);
      while true
        invariant Valid()
        invariant Follows(old(Log()), Log(), shoeSize)
        invariant |old(dealt)| <= |dealt| && dealt[..|old(dealt)|] == old(dealt)
        invariant dealerHand == old(dealerHand) + dealt[|old(dealt)|..]
        invariant forall k :: |old(dealerHand)| <= k < |dealerHand| ==> BestHandValue(dealerHand[..k]) < DealerStandsAt
        decreases DealerStandsAt - HardTotal(dealerHand)
      {
        var val := ComputeBestHandValue(dealerHand);
        if val >= DealerStandsAt {
          break;
        }
        ghost var log1 := Log();
        ghost var before := dealerHand;
        var card := DealToDealer();
        DealerDrawStep(old(dealerHand), before, old(dealt), log1.dealt, card);
        FollowsTrans(old(Log()), log1, Log(), shoeSize);
      }
    }

    /** One iteration of resolveRound's loop: record hand `i`'s result and pay it out. */
    method PayHand(i: nat, dealerVal: int, dealerBusted: bool, dealerBJ: bool)
      requires i < |playerHands|
      requires dealerVal == BestHandValue(dealerHand) && dealerBusted == (dealerVal > 21)
      requires dealerBJ == IsBlackjack(dealerHand)
      modifies this`balance, this`paidOut, this`playerHands
      ensures var s := Settle(old(playerHands[i]), dealerHand);
              && playerHands == old(playerHands)[i := old(playerHands[i]).(result := Some(s.outcome))]
              && balance == old(balance) + s.payout
              && paidOut == old(paidOut) + s.payout
    {
      var h := playerHands[i];
      var result, payout := SettleHand(h, dealerHand, dealerVal, dealerBusted, dealerBJ);
      balance := balance + payout;
      paidOut := paidOut + payout;
      playerHands := playerHands[i := h.(result := Some(result))];
    }

    /** resolveRound's loop: settle and pay the hands in index order. */
    method PayAllHands(dealerVal: int, dealerBusted: bool, dealerBJ: bool)
      requires dealerVal == BestHandValue(dealerHand) && dealerBusted == (dealerVal > 21)
      requires dealerBJ == IsBlackjack(dealerHand)
      modifies this`balance, this`paidOut, this`playerHands
      ensures playerHands == WithResults(old(playerHands), dealerHand)
      ensures balance == old(balance) + TotalPayout(old(playerHands), dealerHand)
      ensures paidOut == old(paidOut) + TotalPayout(old(playerHands), dealerHand)
    {
      ghost var hands0 := playerHands;
      for i := 0 to |playerHands|
        invariant |playerHands| == |hands0|
        invariant forall j :: 0 <= j < i ==> playerHands[j] == hands0[j].(result := Some(Settle(hands0[j], dealerHand).outcome))
        invariant forall j :: i <= j < |playerHands| ==> playerHands[j] == hands0[j]
        invariant balance == old(balance) + TotalPayout(hands0[..i], dealerHand)
        invariant paidOut == old(paidOut) + TotalPayout(hands0[..i], dealerHand)
      {
        TotalPayoutStep(hands0, i, dealerHand);
        PayHand(i, dealerVal, dealerBusted, dealerBJ);
      }
      assert hands0[..|hands0|] == hands0;
      assert playerHands == WithResults(hands0, dealerHand);
    }

    /** resolveRound: settle every hand against the dealer, add the payouts and end the round. */
    method ResolveRound()
      requires Valid()
      modifies this`balance, this`paidOut, this`playerHands, this`roundInProgress
      ensures Valid() && !roundInProgress
      ensures playerHands == WithResults(old(playerHands), dealerHand)
      ensures balance == old(balance) + TotalPayout(old(playerHands), dealerHand)
      ensures paidOut == old(paidOut) + TotalPayout(old(playerHands), dealerHand)
    {
      var dealerVal := ComputeBestHandValue(dealerHand);
      var dealerBusted := dealerVal > 21;
      var dealerBJ := IsBlackjack(dealerHand);
      PayAllHands(dealerVal, dealerBusted, dealerBJ);
      roundInProgress := false;
      SameBetsSameStake(old(playerHands), playerHands);
      SettlingKeepsHandsInPlay(old(playerHands), activeHandIndex, dealerHand);
    }
  }
}
