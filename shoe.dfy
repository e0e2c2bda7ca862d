/**
 * The shoe: `createDeck` builds `numDecks` standard decks and shuffles them,
 * `shuffle` is an in-place Fisher-Yates shuffle.  The unshuffled order is
 * given by the function FreshShoe; every shoe the engine uses is a
 * permutation of it.
 */
module Shoe {
  import opened Cards

  /** The thirteen cards of one suit of deck `d`, in RANKS order (the inner loop of createDeck). */
  function RankRow(s: Suit, d: nat): seq<Card>
  {
    seq(|Ranks|, i requires 0 <= i < |Ranks| => Card(s, Ranks[i], d))
  }

  /** The rows of deck `d` for the suits `ss`, in order (the middle loop of createDeck). */
  function Suited(ss: seq<Suit>, d: nat): (cards: seq<Card>)
    ensures |cards| == |Ranks| * |ss|
  {
    if ss == [] then [] else Suited(ss[..|ss| - 1], d) + RankRow(ss[|ss| - 1], d)
  }

  /** The cards createDeck pushes for `n` decks, before the shuffle: deck 0 first. */
  function FreshShoe(n: nat): (shoe: seq<Card>)
    ensures |shoe| == 52 * n
  {
    if n == 0 then [] else FreshShoe(n - 1) + Suited(Suits, n - 1)
  }

  /** No element occurs twice. */
  ghost predicate Distinct<T>(s: seq<T>)
  {
    forall i, j :: 0 <= i < j < |s| ==> s[i] != s[j]
  }

  /** How many cards of rank `r` and suit `s` the sequence holds. */
  function Occurrences(cards: seq<Card>, r: Rank, s: Suit): nat
  {
    if cards == [] then 0
    else
      var last := cards[|cards| - 1];
      Occurrences(cards[..|cards| - 1], r, s) + (if last.rank == r && last.suit == s then 1 else 0)
  }

  // ----- membership -----

  lemma RankRowMembers(s: Suit, d: nat, c: Card)
    ensures c in RankRow(s, d) <==> c.suit == s && c.deck == d
  {
    if c.suit == s && c.deck == d {
      RanksComplete(c.rank);
      var i :| 0 <= i < |Ranks| && Ranks[i] == c.rank;
      assert RankRow(s, d)[i] == c;
    }
  }

  lemma {:induction false} SuitedMembers(ss: seq<Suit>, d: nat, c: Card)
    ensures c in Suited(ss, d) <==> c.suit in ss && c.deck == d
  {
    if ss != [] {
      var init, last := ss[..|ss| - 1], ss[|ss| - 1];
      assert ss == init + [last];
      SuitedMembers(init, d, c);
      RankRowMembers(last, d, c);
    }
  }

  /** A card is in the fresh shoe of `n` decks exactly when its deck index is below `n`. */
  lemma {:induction false} FreshShoeMembers(n: nat, c: Card)
    ensures c in FreshShoe(n) <==> c.deck < n
  {
    if n > 0 {
      FreshShoeMembers(n - 1, c);
      SuitedMembers(Suits, n - 1, c);
      SuitsComplete(c.suit);
    }
  }

  // ----- distinctness -----

  lemma DistinctConcat<T>(a: seq<T>, b: seq<T>)
    requires Distinct(a) && Distinct(b)
    requires forall x :: x in a ==> x !in b
    ensures Distinct(a + b)
  {
    forall i, j | 0 <= i < j < |a + b| ensures (a + b)[i] != (a + b)[j] {
      if j < |a| {
        assert (a + b)[i] == a[i] && (a + b)[j] == a[j];
      } else if i >= |a| {
        assert (a + b)[i] == b[i - |a|] && (a + b)[j] == b[j - |a|];
      } else {
        assert (a + b)[i] == a[i] && (a + b)[j] == b[j - |a|];
        assert a[i] in a && b[j - |a|] in b;
      }
    }
  }

  lemma RankRowDistinct(s: Suit, d: nat)
    ensures Distinct(RankRow(s, d))
  {
    TablesDistinct();
  }

  lemma {:induction false} SuitedDistinct(ss: seq<Suit>, d: nat)
    requires Distinct(ss)
    ensures Distinct(Suited(ss, d))
  {
    if ss != [] {
      var init, last := ss[..|ss| - 1], ss[|ss| - 1];
      assert ss == init + [last];
      assert last !in init;
      SuitedDistinct(init, d);
      RankRowDistinct(last, d);
      forall x | x in Suited(init, d) ensures x !in RankRow(last, d) {
        SuitedMembers(init, d, x);
        RankRowMembers(last, d, x);
      }
      DistinctConcat(Suited(init, d), RankRow(last, d));
    }
  }

  /** The fresh shoe holds no card twice: the ids are pairwise distinct. */
  lemma {:induction false} FreshShoeDistinct(n: nat)
    ensures Distinct(FreshShoe(n))
  {
    if n > 0 {
      var prev, top := FreshShoe(n - 1), Suited(Suits, n - 1);
      FreshShoeDistinct(n - 1);
      TablesDistinct();
      SuitedDistinct(Suits, n - 1);
      forall x | x in prev ensures x !in top {
        FreshShoeMembers(n - 1, x);
        SuitedMembers(Suits, n - 1, x);
      }
      DistinctConcat(prev, top);
    }
  }

  lemma {:induction false} DistinctHasSingleCopies<T>(s: seq<T>, x: T)
    requires Distinct(s)
    ensures multiset(s)[x] <= 1
  {
    if s != [] {
      var init, last := s[..|s| - 1], s[|s| - 1];
      assert s == init + [last];
      assert Distinct(init) by {
        forall i, j | 0 <= i < j < |init| ensures init[i] != init[j] {
          assert init[i] == s[i] && init[j] == s[j];
        }
      }
      DistinctHasSingleCopies(init, x);
      assert last !in init by {
        forall k | 0 <= k < |init| ensures init[k] != last {
          assert init[k] == s[k];
        }
      }
    }
  }

  lemma SingleCopiesAreDistinct<T>(s: seq<T>)
    requires forall x :: multiset(s)[x] <= 1
    ensures Distinct(s)
  {
    forall i, j | 0 <= i < j < |s| ensures s[i] != s[j] {
      assert s == s[..j] + s[j..];
      assert multiset(s)[s[j]] == multiset(s[..j])[s[j]] + multiset(s[j..])[s[j]];
      assert s[j..][0] == s[j];
      assert s[..j][i] == s[i];
    }
  }

  // ----- counting copies of a (rank, suit) pair -----

  /** The number of copies of rank `r` and suit `s` with deck index below `n` in `m`. */
  ghost function CopiesBelow(m: multiset<Card>, r: Rank, s: Suit, n: nat): nat
  {
    if n == 0 then 0 else CopiesBelow(m, r, s, n - 1) + m[Card(s, r, n - 1)]
  }

  lemma {:induction false} CopiesBelowAdd(m: multiset<Card>, x: Card, r: Rank, s: Suit, n: nat)
    ensures CopiesBelow(m + multiset{x}, r, s, n)
         == CopiesBelow(m, r, s, n) + (if x.rank == r && x.suit == s && x.deck < n then 1 else 0)
  {
    if n > 0 {
      CopiesBelowAdd(m, x, r, s, n - 1);
    }
  }

  lemma {:induction false} CopiesBelowEach(m: multiset<Card>, r: Rank, s: Suit, n: nat, k: nat)
    requires forall d :: 0 <= d < n ==> m[Card(s, r, d)] == k
    ensures CopiesBelow(m, r, s, n) == n * k
  {
    if n > 0 {
      CopiesBelowEach(m, r, s, n - 1, k);
    }
  }

  lemma {:induction false} OccurrencesAsCopies(cards: seq<Card>, r: Rank, s: Suit, n: nat)
    requires forall c :: c in cards ==> c.deck < n
    ensures Occurrences(cards, r, s) == CopiesBelow(multiset(cards), r, s, n)
  {
    if cards == [] {
      CopiesBelowEach(multiset{}, r, s, n, 0);
    } else {
      var init, last := cards[..|cards| - 1], cards[|cards| - 1];
      assert cards == init + [last];
      OccurrencesAsCopies(init, r, s, n);
      CopiesBelowAdd(multiset(init), last, r, s, n);
    }
  }

  /** How many copies of card `c` a full shoe of `n` decks holds. */
  function ShoeCopies(c: Card, n: nat): nat
  {
    if c.deck < n then 1 else 0
  }

  /**
   * What createDeck promises about its result: any permutation of the fresh
   * shoe of `n` decks has 52 * n cards, pairwise distinct ids, every card of
   * deck index below `n` exactly once, and each (rank, suit) pair exactly
   * `n` times.
   */
  lemma ShuffledShoe(deck: seq<Card>, n: nat)
    requires multiset(deck) == multiset(FreshShoe(n))
    ensures |deck| == 52 * n
    ensures forall c :: multiset(deck)[c] == ShoeCopies(c, n)
    ensures Distinct(deck)
    ensures forall r, s :: Occurrences(deck, r, s) == n
  {
    assert |deck| == |multiset(deck)| == |multiset(FreshShoe(n))| == |FreshShoe(n)|;
    FreshShoeDistinct(n);
    forall c ensures multiset(deck)[c] == ShoeCopies(c, n) {
      DistinctHasSingleCopies(FreshShoe(n), c);
      FreshShoeMembers(n, c);
    }
    SingleCopiesAreDistinct(deck);
    forall r, s ensures Occurrences(deck, r, s) == n {
      forall c | c in deck ensures c.deck < n {
        assert c in multiset(deck);
        FreshShoeMembers(n, c);
      }
      OccurrencesAsCopies(deck, r, s, n);
      CopiesBelowEach(multiset(deck), r, s, n, 1);
    }
  }

  /** Fisher-Yates: the random index is an arbitrary pick in 0..i. */
  method Shuffle<T>(a: array<T>)
    modifies a
    ensures multiset(a[..]) == old(multiset(a[..]))
  {
    var i := a.Length - 1;
    while i > 0
      invariant -1 <= i < a.Length
      invariant multiset(a[..]) == old(multiset(a[..]))
    {
      var j :| 0 <= j <= i;
      a[i], a[j] := a[j], a[i];
      i := i - 1;
    }
  }

  /** createDeck's nested loops: push every card of `numDecks` decks in deck, suit, rank order. */
  method OrderedShoe(numDecks: nat) returns (cards: seq<Card>)
    ensures cards == FreshShoe(numDecks)
  {
    cards := [];
    for d := 0 to numDecks
      invariant cards == FreshShoe(d)
    {
      cards := PushDeck(cards, d);
    }
  }

  /** The middle loop of createDeck: push deck `d`, suit by suit. */
  method PushDeck(cards0: seq<Card>, d: nat) returns (cards: seq<Card>)
    ensures cards == cards0 + Suited(Suits, d)
  {
    cards := cards0;
    for si := 0 to |Suits|
      invariant cards == cards0 + Suited(Suits[..si], d)
    {
      assert Suits[..si + 1][..si] == Suits[..si];
      cards := PushRow(cards, Suits[si], d);
    }
    assert Suits[..|Suits|] == Suits;
  }

  /** The inner loop of createDeck: push the thirteen ranks of suit `s` of deck `d`. */
  method PushRow(cards0: seq<Card>, s: Suit, d: nat) returns (cards: seq<Card>)
    ensures cards == cards0 + RankRow(s, d)
  {
    cards := cards0;
    for ri := 0 to |Ranks|
      invariant cards == cards0 + RankRow(s, d)[..ri]
    {
      cards := cards + [Card(s, Ranks[ri], d)];
    }
    assert RankRow(s, d)[..|Ranks|] == RankRow(s, d);
  }

  /** createDeck: build the decks in order, then shuffle them. */
  method CreateDeck(numDecks: nat) returns (deck: seq<Card>)
    ensures multiset(deck) == multiset(FreshShoe(numDecks))
    ensures |deck| == 52 * numDecks
    ensures forall c :: multiset(deck)[c] == ShoeCopies(c, numDecks)
    ensures Distinct(deck)
    ensures forall r, s :: Occurrences(deck, r, s) == numDecks
  {
    var cards := OrderedShoe(numDecks);
    var a := new Card[|cards|](i requires 0 <= i < |cards| => cards[i]);
    assert a[..] == cards;
    Shuffle(a);
    deck := a[..];
    ShuffledShoe(deck, numDecks);
  }
}
