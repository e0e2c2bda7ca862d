/**
 * Cards of a multi-deck shoe.  A card is its rank, its suit and the index of
 * the deck it came from; together these are the card's identity (the
 * `id` string of script.js is the concatenation of the three).
 */
module Cards {

  datatype Suit = Spades | Hearts | Diamonds | Clubs

  datatype Rank = Ace | Two | Three | Four | Five | Six | Seven
                | Eight | Nine | Ten | Jack | Queen | King

  datatype Card = Card(suit: Suit, rank: Rank, deck: nat)

  /** The SUITS table, in its order. */
  const Suits: seq<Suit> := [Spades, Hearts, Diamonds, Clubs]

  /** The RANKS table, in its order. */
  const Ranks: seq<Rank> :=
    [Ace, Two, Three, Four, Five, Six, Seven, Eight, Nine, Ten, Jack, Queen, King]

  /** The `values` of a rank in the RANKS table: [1, 11] for an Ace, the pip value otherwise. */
  function Values(r: Rank): (vs: seq<int>)
    ensures |vs| >= 1 && 1 <= vs[0] <= 10
    ensures r == Ace <==> vs == [1, 11]
    ensures r != Ace ==> |vs| == 1 && vs[0] >= 2
  {
    match r
    case Ace => [1, 11]
    case Two => [2]
    case Three => [3]
    case Four => [4]
    case Five => [5]
    case Six => [6]
    case Seven => [7]
    case Eight => [8]
    case Nine => [9]
    case Ten => [10]
    case Jack => [10]
    case Queen => [10]
    case King => [10]
  }

  /** Every rank is listed in the RANKS table. */
  lemma RanksComplete(r: Rank)
    ensures r in Ranks
  {
    match r
    case Ace => assert Ranks[0] == r;
    case Two => assert Ranks[1] == r;
    case Three => assert Ranks[2] == r;
    case Four => assert Ranks[3] == r;
    case Five => assert Ranks[4] == r;
    case Six => assert Ranks[5] == r;
    case Seven => assert Ranks[6] == r;
    case Eight => assert Ranks[7] == r;
    case Nine => assert Ranks[8] == r;
    case Ten => assert Ranks[9] == r;
    case Jack => assert Ranks[10] == r;
    case Queen => assert Ranks[11] == r;
    case King => assert Ranks[12] == r;
  }

  /** Every suit is listed in the SUITS table. */
  lemma SuitsComplete(s: Suit)
    ensures s in Suits
  {
    match s
    case Spades => assert Suits[0] == s;
    case Hearts => assert Suits[1] == s;
    case Diamonds => assert Suits[2] == s;
    case Clubs => assert Suits[3] == s;
  }

  /** No rank appears twice in RANKS and no suit twice in SUITS. */
  lemma TablesDistinct()
    ensures forall i, j :: 0 <= i < j < |Ranks| ==> Ranks[i] != Ranks[j]
    ensures forall i, j :: 0 <= i < j < |Suits| ==> Suits[i] != Suits[j]
  {
  }
}
