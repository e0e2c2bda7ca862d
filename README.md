# Blackjack engine (blackjack-teacher, `script.js`)

A Dafny model of the game engine inside the browser blackjack simulator
`script.js`. The rest of that file is DOM and animation code.

- **Shoe.** A multi-deck shoe is built in deck, suit, rank order. It is then
  shuffled in place by Fisher–Yates. Cards are drawn from its end, and the
  shoe is rebuilt when fewer than 15 cards remain.
- **Hand evaluator.** Every Ace first counts as 1. The Aces are then upgraded
  by 10 each while the total stays at most 21. On this evaluator sit the
  blackjack (two cards worth 21) and bust (over 21) tests.
- **Round state machine.** The rules are:
  - the bet is validated and staked;
  - the deal goes player, dealer, player, dealer;
  - naturals settle at once;
  - the player may hit, stand, double (two cards, one more card, hand
    finished) and split once (a pair becomes two hands, one new card each);
  - play then moves to the next unfinished hand or to the dealer;
  - the dealer draws while below 17 and stands on every 17, soft 17 included.
- **Settlement.** Naturals pay 3:2 rounded down, and a double natural pushes.
  After the dealer's turn each hand is settled in the source's order:
  1. a player natural against a dealer without one pays 3:2;
  2. a bust loses;
  3. a dealer bust or a higher total pays 2 × bet;
  4. a tie returns the bet;
  5. a lower total loses.

Files, one module each:

- `wrappers.dfy`: `Option`.
- `cards.dfy`: `Suit`, `Rank`, `Card`, and the `SUITS`/`RANKS` tables with their `values`.
- `shoe.dfy`: `FreshShoe`, the reference order of `createDeck`, plus the loops of `createDeck`, `Shuffle` and the composition lemmas.
- `evaluate.dfy`: `bestHandValue` as a function with a closed form, together with the loop method, `isBlackjack` and `isBusted`.
- `settlement.dfy`: the `Hand` record, the per-hand decision `Settle`, the immediate payout and the payout sums.
- `round.dfy`: the class `Game`, whose fields are the globals `deck`, `shoeSize`, `balance`, `baseBet`, `playerHands`, `dealerHand`, `activeHandIndex` and `roundInProgress`. Each action is a method of it.

`Game` also keeps four ghost fields:

- `dealt`: every card drawn, in order;
- `rebuilt`: every shoe `drawCard` rebuilt, in order;
- `openingBalance`: the balance before the round's stake;
- `paidOut`: what the round has paid back.

Its invariant `Valid` states that the money reconciles:
`balance == openingBalance - TotalStake(playerHands) + paidOut`.
It also says that there are at most two hands, every stake is positive, and a
doubled hand holds exactly three cards and is finished.

`Follows(before, after, n)` ties the shoe to the cards drawn between two
states. Read card by card, each newly dealt card is the last card of the
shoe at that point. When that shoe held fewer than 15 cards, the card comes
instead from the next newly rebuilt shoe, which is a full shoe of `n` decks.
`DrawCard` and every action that draws ensure `Follows` from their old state to their new one.

The actions call each other as in the source. The player's last action runs
`NextPlayerHandOrDealer`, which runs `DealerPlay` and `ResolveRound`.
`Advanced` describes the state after `nextPlayerHandOrDealer` without
reference to its body. Either the next unfinished hand (`NextHandIndex`)
becomes active, or both of these hold:

- the dealer's hand was extended by the next drawn cards under the
  dealer's rule (`DealerStood`);
- every hand carries its `Settle` result, and the balance rose by exactly
  the sum of the per-hand payouts.

## Model

| member | source | states |
|---|---|---|
| Cards.Values | script.js:15-20 | An Ace's values are exactly [1, 11]; any other rank has one value between 2 and 10 |
| Cards.RanksComplete | script.js:15-20 | Every rank occurs in the RANKS table |
| Cards.SuitsComplete | script.js:14 | Every suit occurs in the SUITS table |
| Cards.TablesDistinct | script.js:14-20 | No rank and no suit is listed twice |
| Shoe.PushRow | script.js:27-33 | The inner loop appends the thirteen cards of one suit of one deck, in RANKS order |
| Shoe.PushDeck | script.js:25-34 | The middle loop appends one deck, suit by suit in SUITS order |
| Shoe.OrderedShoe | script.js:22-36 | The nested loops produce exactly the reference shoe `FreshShoe(numDecks)` |
| Shoe.FreshShoeMembers | script.js:22-36 | The unshuffled shoe holds a card exactly when its deck index is below the number of decks |
| Shoe.FreshShoeDistinct | script.js:22-36 | The unshuffled shoe has pairwise distinct cards, that is, unique ids |
| Shoe.Shuffle | script.js:40-46 | Fisher–Yates, with an arbitrary index in 0..i, keeps the multiset of the array (and so its length) |
| Shoe.ShuffledShoe | script.js:22-46 | Any permutation of the shoe of n decks has 52·n cards with distinct ids, one copy of each card of deck index below n, and each (rank, suit) pair exactly n times |
| Shoe.CreateDeck | script.js:22-37 | The returned deck is a permutation of the fresh shoe: 52·n cards, distinct ids, each card of deck index below n once, each (rank, suit) pair n times |
| Evaluate.UpgradeAces | script.js:104-106 | The upgrade loop adds between 0 and 10 per Ace, never passes 21 from a total of at most 21, leaves a total above 21 alone, and adds at least 10 when there is an Ace and 10 more still fits |
| Evaluate.IsBlackjack | script.js:110-112 | A blackjack is exactly two cards, at least one an Ace, with hard total 11 |
| Evaluate.IsBusted | script.js:114-116 | A hand is busted exactly when its hard total, every Ace counted as 1, passes 21 |
| Evaluate.UpgradeAcesClosedForm | script.js:104-106 | The Ace-upgrade loop adds 10 exactly once when there is an Ace and the hard total plus 10 is at most 21, and nothing otherwise |
| Evaluate.BestHandValue | script.js:95-108 | The value is the hard total, plus 10 exactly when the hand has an Ace and that does not pass 21 |
| Evaluate.ComputeBestHandValue | script.js:95-108 | The two loops of bestHandValue compute `BestHandValue` |
| Evaluate.BestHandValueBounds | script.js:95-116 | The value lies between the hard total and the hard total plus 10; isBusted holds exactly when the hard total passes 21 |
| Evaluate.BestHandValueIsOptimal | script.js:95-108 | No choice of Aces counted as 11 gives a larger total of at most 21, and the value is reached by some such choice |
| Evaluate.SumPermutation | script.js:99-102 | A card sum accumulated by the first loop does not depend on the order of the cards |
| Evaluate.BestHandValuePermutation | script.js:95-116 | The value and the bust test are invariant under reordering the cards |
| Evaluate.TwoCardsNeverBust | script.js:110-116 | A two-card hand is never busted, and it is worth 21 exactly when it is a blackjack |
| Evaluate.BlackjackIsAceAndTen | script.js:110-112 | A blackjack is exactly an Ace together with a ten-valued card |
| Settlement.ThreeToTwo | script.js:541 | `Math.floor(bet * 2.5)`: the largest p with 2p ≤ 5·bet |
| Settlement.Settle | script.js:536-561 | A hand's payout is what its outcome returns on its bet, between 0 and the 3:2 payout |
| Settlement.SettleDecision | script.js:536-561 | Each outcome in both directions: Blackjack iff a natural the dealer does not match; Win iff not that, not busted, and the dealer busts or is lower; Push iff equal unbusted totals; Lose iff busted or lower than an unbusted dealer |
| Settlement.ImmediatePayout | script.js:515-525 | A double natural returns the stake as a push does, a lone player natural returns what a Blackjack outcome does, and a dealer natural returns what a loss does |
| Settlement.NaturalsSettleAlike | script.js:515-525 | On a two-card deal with a natural, endRoundImmediate pays and decides exactly what the general rule would |
| Round.DrewAppend | script.js:238-244 | Two runs of draws in a row are one run of draws, with the cards and the rebuilt shoes concatenated |
| Round.PopFollows | script.js:238-244 | With at least 15 cards in the shoe, popping the last one is a draw that rebuilds nothing |
| Round.RebuildFollows | script.js:238-244 | With fewer than 15 cards, popping the last card of a newly built full shoe is a draw that records that shoe |
| Round.FollowsTrans | script.js:238-244 | The draws from a first state to a second, then from the second to a third, are the draws from the first to the third |
| Round.DrewFromTop | script.js:238-244 | While the shoe holds enough cards that it never drops below 15, no shoe is rebuilt and the cards drawn are the shoe's last cards, last one first |
| Round.DrewRebuiltShoesAreFull | script.js:238-244 | Each draw rebuilds at most one shoe, and every rebuilt shoe is a full shoe |
| Round.SeatCardsExtend | script.js:279-288 | One more card handed out in dealOrder goes to the seat named at that step and to no other |
| Round.DealOrderSeats | script.js:272-288 | Four cards dealt in dealOrder: the player gets the first and third, the dealer the second and fourth |
| Round.DealerDrawStep | script.js:480-487 | A card drawn while the dealer is below 17 extends the dealer's hand and the dealt cards alike, and raises the hard total from below 17 |
| Round.FindIndexFrom | script.js:451 | `findIndex`: the least index satisfying the predicate, or -1 when there is none |
| Round.NextHandIndex | script.js:449-463 | -1 exactly when every other hand is finished. Otherwise an unfinished other hand: the first after the active one, or failing that the first before it |
| Round.DealerDrawsNothingAtSeventeen | script.js:480-487 | A dealer hand already worth 17 or more gets no card |
| Round.DealerStandsOnSoftSeventeen | script.js:480-487 | The dealer stands on Ace-Six |
| Round.SettleHand | script.js:535-561 | The branch chain of resolveRound's loop body, given the dealer's value, bust flag and natural flag, gives `Settle` |
| Round.SettlingKeepsHandsInPlay | script.js:537-561 | Recording results keeps the number of hands, their stakes and their flags |
| Round.DoubleOffered | script.js:316 | The Double gate's expression only: two cards, a balance covering the bet, not doubled. The early return at script.js:309 is not part of it, so the buttons are never enabled outside a round, which the predicate does not say |
| Round.SplitOffered | script.js:317 | The Split gate's expression only: a two-card pair, a balance covering the bet, exactly one hand. The early return at script.js:309 is not part of it, so the buttons are never enabled outside a round, which the predicate does not say |
| Round.DoubleGateMatchesChecks | script.js:308-319 | During play the Double button is shown exactly when playerDouble's own checks (two cards, balance covers the bet) pass |
| Round.SplitGateMatchesChecks | script.js:308-319 | The Split button is shown exactly when there is one hand, it is active, and it is a two-card pair the balance covers |
| Round.Game.constructor | script.js:68-91 | init: the given balance and bet, no hands, no round in progress, and a deck that is a shuffled shoe of `decks` decks (6 by default) |
| Round.Game.Reshoe | script.js:239-240 | The shoe is replaced by a new full shoe of shoeSize decks, which is recorded in `rebuilt` |
| Round.Game.DrawCard | script.js:238-244 | The last card is taken and recorded in `dealt`, and `Follows` holds. If the shoe held at least 15 cards the rest is the old shoe minus that card; otherwise the card and the new shoe together are a full shoe of 52·shoeSize cards |
| Round.Game.DealInitial | script.js:246-306 | A bet falls back to the old one when unparsed or 0, and is rejected when ≤ 0 or above the balance (balance and shoe unchanged, round still flagged). Otherwise one stake is deducted, the drawn cards go player, dealer, player, dealer, and a natural pays at once and ends the round |
| Round.Game.OpenRound | script.js:259-299 | After validation: stake, deal the four cards in order, settle naturals at once |
| Round.Game.ResetTable | script.js:249-252 | The table is cleared and the round flagged in progress before the bet is looked at |
| Round.Game.PlaceBet | script.js:260-262 | One empty hand holding the base bet, paid from the balance |
| Round.Game.DealSequence | script.js:272-289 | The four drawn cards go player, dealer, player, dealer, and they are the shoe's next draws |
| Round.Game.DealToSeat | script.js:280-286 | One drawn card goes to the player's only hand or to the dealer, as the step names |
| Round.Game.CheckNaturals | script.js:294-300 | A natural on either side pays the immediate payout and ends the round; otherwise nothing changes |
| Round.Game.EndRoundImmediate | script.js:515-525 | A double natural returns the bet, a player natural pays floor(2.5·bet), a dealer natural pays nothing; the round ends |
| Round.Game.PlayerHit | script.js:364-387 | Outside a round or on a finished hand, nothing. Otherwise the next drawn card joins the active hand; a bust finishes it and play advances, any other total (21 too) keeps it in play and changes nothing else |
| Round.Game.DealTo | script.js:368-369 | The next drawn card is appended to the given hand, and nothing else changes but the shoe |
| Round.Game.DealToDealer | script.js:484-485 | The next drawn card is appended to the dealer's hand, and nothing else changes but the shoe |
| Round.Game.PlayerStand | script.js:389-393 | The active hand is finished and play advances, without a round check |
| Round.Game.PlayerDouble | script.js:395-417 | Accepted exactly on two cards with the balance covering the bet, and otherwise nothing changes. When accepted, one stake is deducted, the bet doubled, doubled set, exactly one card added, the hand finished whatever its total, and play advances |
| Round.Game.DoubleActive | script.js:398-414 | The second stake, the doubled bet and exactly one card; the hand is finished busted or not |
| Round.Game.PlayerSplit | script.js:420-446 | Accepted exactly on a pair with the balance covering the bet, and otherwise nothing changes. When accepted there are two hands at the old bet, `[cards[0], next card]` and `[cards[1], card after]`, neither doubled nor finished, and one more stake is deducted |
| Round.Game.SplitActive | script.js:426-442 | Two hands at the old bet replace the pair, each seeded with one of its cards and then given the next drawn card in turn; one more stake is deducted |
| Round.Game.NextPlayerHandOrDealer | script.js:449-471 | `Advanced`: the next unfinished hand becomes active; or, when none is left, the dealer plays and every hand is settled and paid |
| Round.Game.DealerPlay | script.js:474-489 | Only drawn cards are added to the dealer's hand, each while it was worth less than 17, and it ends worth at least 17 |
| Round.Game.PayHand | script.js:537-561 | One hand gets its `Settle` result and the balance rises by its payout |
| Round.Game.PayAllHands | script.js:537-561 | Every hand in turn gets its `Settle` result, and the balance rises by the sum of their payouts |
| Round.Game.ResolveRound | script.js:533-570 | Every hand is settled against the dealer, the balance rises by exactly the sum of the payouts, and the round ends |

## Left out

- DOM, rendering and animation are left out, because they are presentation only. This covers `createCardElement`, `animateCardTo`, `removeCardElement`, `getHandSlotPosition`, `clearTableVisuals`, `renderHandPlaceholders`, `updateHandBadges`, `animateDeal`, `updateBalanceDisplay`, `setButtons`, the card re-rendering in `endRoundImmediate`, and every message string.
- `async`, `await`, `setTimeout` and `wait` are left out. Every action runs as one synchronous, atomic step, so the 900 ms delay before `endRoundImmediate` pays is not modelled.
- `Math.random` in `shuffle` becomes an arbitrary choice of an index in 0..i. Only the permutation property is kept.
- `init`, `restartGame`, the event listeners and the input syncing are not modelled. The constructor stands for the state part of `init`. The `parseInt(...) || x` readings become an `Option<int>` argument: `None` is NaN, and `Some(0)` falls back like NaN does.
- `console.log` on reshuffle is left out.
- The number of decks is a constructor parameter that defaults to 6, the value of `shoeSize`. `shoeSize` never changes.
- A card's `values` array and `id` string are not stored. The card is its (suit, rank, deck index), and `values` is the function `Cards.Values` of the rank.
- Hand objects are values in a sequence, not shared objects. The source never aliases a hand outside the function that updates it, so each update writes the new hand back in place of the old one.
- Round.Game.DrawCard: between reshuffles, the deck is not shown to stay part of a full shoe. `Follows` ties every drawn card to the shoe it came from, but not the cards drawn to the multiset of a full shoe.
- Round.Game.DoubleActive: the card is drawn before the stake and the bet change, while the source changes them first. The shoe does not depend on either, so the final state is the same.
- Round.Game.PlayerSplit: its requires clause `|playerHands| == 1` comes from the Split gate (script.js:317); the function body itself does not check it. On two hands the source would drop the other hand and its stake, which breaks the money invariant, so that case is not modelled.
- Round.Game.PlayerHit: the source's `hand.doubled` branch (script.js:380-383) cannot be reached, because a doubled hand is always finished. The model proves that branch dead instead of modelling it.
- The buttons' `deal`, `hit` and `stand` gating is not modelled, and no action method takes a gate as a precondition except PlayerSplit's hand count. `playerHit` checks the round itself. `dealInitial` checks only the bet (script.js:255-257); only the Deal button stops a deal during a round, because it is disabled from script.js:267 until script.js:528 or script.js:570. `playerStand`, `playerDouble` and `playerSplit` have no round check. The model runs all of these whenever the source's own checks let them through, and it keeps the consequences listed below. Only the Double and Split gates are modelled, as `DoubleOffered` and `SplitOffered`.
- Round.Game.PlayerHit, Round.Game.PlayerStand, Round.Game.PlayerDouble: these require a hand to exist (PlayerHit only during a round). With no hands, before the first deal or after a rejected bet (script.js:249-257), the source reads a property of `undefined` and throws a TypeError (script.js:366-367, 390-391, 396-397). That failure is not modelled.
- Settlement.ThreeToTwo: money is an unbounded integer. In JavaScript it is a double, so balance arithmetic is exact only below 2^53, and `Math.floor(bet * 2.5)` (script.js:520, 541) equals `(5 · bet) / 2` only while 5 · bet stays below 2^53. Rounding of larger amounts is not modelled.

The model keeps the following behaviours of the code as written:

- a rejected bet leaves `roundInProgress` true with no hands (script.js:252 against 256-257);
- `dealInitial` has no round check. A deal during a round empties `playerHands`, and the stakes on the table are lost. `ResetTable` then starts a new ledger (`openingBalance := balance`), so `Valid` still holds;
- `playerStand`, `playerDouble` and `playerSplit` have no round check (script.js:389-391, 395-397, 420-422);
- after a round has ended, a Stand (or a Double that is accepted) finishes the hand again. When no hand is unfinished, that runs `dealerPlay` and `resolveRound` a second time, and every hand is paid again by `Advanced`;
- `playerDouble` and `playerSplit` do not check `!hand.doubled`;
- `resolveRound` pays 3:2 to any two-card 21 the dealer does not match, split hands included;
- hitting to 21 does not stand automatically.
