/**
 * Settlement: the payout of endRoundImmediate for naturals and the
 * per-hand decision of resolveRound.
 */
module Settlement {
  import opened Wrappers
  import opened Cards
  import opened Evaluate

  datatype Outcome = Blackjack | Win | Push | Lose

  /** A player hand as script.js keeps it: {cards, bet, doubled, finished, result}. */
  datatype Hand = Hand(cards: seq<Card>, bet: int, doubled: bool, finished: bool, result: Option<Outcome>)

  /** The decision for one hand and how much the balance rises for it. */
  datatype Decision = Decision(outcome: Outcome, payout: int)

  /** Math.floor(bet * 2.5): the stake back plus a 3:2 profit, rounded down. */
  function ThreeToTwo(bet: int): (p: int)
    ensures 2 * p <= 5 * bet < 2 * p + 2
  {
    (bet * 5) / 2
  }

  /** How much the balance rises for a hand with this outcome and stake. */
  function Returned(outcome: Outcome, bet: int): int
  {
    match outcome
    case Blackjack => ThreeToTwo(bet)
    case Win => 2 * bet
    case Push => bet
    case Lose => 0
  }

  /** A 2-card 21 that the dealer does not match takes precedence over every comparison. */
  predicate BlackjackWins(cards: seq<Card>, dealer: seq<Card>)
  {
    IsBlackjack(cards) && !IsBlackjack(dealer)
  }

  /** resolveRound's decision for one hand, checked in the source's order. */
  function Settle(h: Hand, dealer: seq<Card>): (s: Decision)
    ensures s.payout == Returned(s.outcome, h.bet)
    ensures h.bet >= 0 ==> 0 <= s.payout <= ThreeToTwo(h.bet)
  {
    var dealerVal := BestHandValue(dealer);
    var dealerBusted := dealerVal > 21;
    var hv := BestHandValue(h.cards);
    if IsBlackjack(h.cards) && !IsBlackjack(dealer) then Decision(Blackjack, ThreeToTwo(h.bet))
    else if hv > 21 then Decision(Lose, 0)
    else if dealerBusted then Decision(Win, h.bet * 2)
    else if hv > dealerVal then Decision(Win, h.bet * 2)
    else if hv == dealerVal then Decision(Push, h.bet)
    else Decision(Lose, 0)
  }

  /**
   * Each outcome of Settle, characterised without reference to the order
   * in which resolveRound tests the cases.
   */
  lemma SettleDecision(h: Hand, dealer: seq<Card>)
    ensures var s := Settle(h, dealer);
            && (s.outcome == Blackjack <==> BlackjackWins(h.cards, dealer))
            && (s.outcome == Win <==>
                  !BlackjackWins(h.cards, dealer) && !IsBusted(h.cards) &&
                  (IsBusted(dealer) || BestHandValue(h.cards) > BestHandValue(dealer)))
            && (s.outcome == Push <==>
                  !BlackjackWins(h.cards, dealer) && !IsBusted(h.cards) && !IsBusted(dealer) &&
                  BestHandValue(h.cards) == BestHandValue(dealer))
            && (s.outcome == Lose <==>
                  !BlackjackWins(h.cards, dealer) &&
                  (IsBusted(h.cards) || (!IsBusted(dealer) && BestHandValue(h.cards) < BestHandValue(dealer))))
  {
  }

  /** endRoundImmediate's payout: a push returns the bet, a player natural pays 3:2, otherwise nothing. */
  function ImmediatePayout(bet: int, playerBJ: bool, dealerBJ: bool): (r: int)
    ensures playerBJ && dealerBJ ==> r == Returned(Push, bet)
    ensures playerBJ && !dealerBJ ==> r == Returned(Blackjack, bet)
    ensures !playerBJ ==> r == Returned(Lose, bet)
  {
    if playerBJ && dealerBJ then bet
    else if playerBJ then ThreeToTwo(bet)
    else 0
  }

  /** The sum of the payouts of all hands against one dealer hand. */
  function TotalPayout(hands: seq<Hand>, dealer: seq<Card>): (total: int)
    ensures (forall i :: 0 <= i < |hands| ==> hands[i].bet >= 0) ==> total >= 0
  {
    if hands == [] then 0
    else TotalPayout(hands[..|hands| - 1], dealer) + Settle(hands[|hands| - 1], dealer).payout
  }

  /** The sum of the stakes of all hands. */
  function TotalStake(hands: seq<Hand>): int
  {
    if hands == [] then 0 else TotalStake(hands[..|hands| - 1]) + hands[|hands| - 1].bet
  }

  /** Replacing one hand changes the total stake by the difference of the two bets. */
  lemma {:induction false} StakeOfUpdate(hands: seq<Hand>, i: int, h: Hand)
    requires 0 <= i < |hands|
    ensures TotalStake(hands[i := h]) == TotalStake(hands) - hands[i].bet + h.bet
  {
    var n := |hands| - 1;
    if i == n {
      assert hands[i := h][..n] == hands[..n];
    } else {
      assert hands[i := h][..n] == hands[..n][i := h];
      StakeOfUpdate(hands[..n], i, h);
    }
  }

  /** The hands with the result resolveRound assigns to each. */
  function WithResults(hands: seq<Hand>, dealer: seq<Card>): (settled: seq<Hand>)
    ensures |settled| == |hands|
  {
    seq(|hands|, i requires 0 <= i < |hands| =>
      hands[i].(result := Some(Settle(hands[i], dealer).outcome)))
  }

  /** The payout of the first `i + 1` hands adds hand `i`'s payout to that of the first `i`. */
  lemma TotalPayoutStep(hands: seq<Hand>, i: nat, dealer: seq<Card>)
    requires i < |hands|
    ensures TotalPayout(hands[..i + 1], dealer) == TotalPayout(hands[..i], dealer) + Settle(hands[i], dealer).payout
  {
    assert hands[..i + 1][..i] == hands[..i];
  }

  /** Hands with the same stakes, one by one, have the same total stake. */
  lemma {:induction false} SameBetsSameStake(a: seq<Hand>, b: seq<Hand>)
    requires |a| == |b|
    requires forall i :: 0 <= i < |a| ==> a[i].bet == b[i].bet
    ensures TotalStake(a) == TotalStake(b)
  {
    if a != [] {
      SameBetsSameStake(a[..|a| - 1], b[..|b| - 1]);
    }
  }

  /**
   * The immediate settlement of naturals agrees with the general rule: on
   * an initial deal where either side has a blackjack, endRoundImmediate
   * pays exactly what resolveRound would pay for the same cards.
   */
  lemma NaturalsSettleAlike(player: seq<Card>, dealer: seq<Card>, bet: int)
    requires |player| == 2 && |dealer| == 2
    requires IsBlackjack(player) || IsBlackjack(dealer)
    ensures var s := Settle(Hand(player, bet, false, false, None), dealer);
            s.payout == ImmediatePayout(bet, IsBlackjack(player), IsBlackjack(dealer)) &&
            s.outcome == (if IsBlackjack(player) && IsBlackjack(dealer) then Push
                          else if IsBlackjack(player) then Blackjack
                          else Lose)
  {
    TwoCardsNeverBust(player);
    TwoCardsNeverBust(dealer);
    SettleDecision(Hand(player, bet, false, false, None), dealer);
  }
}
