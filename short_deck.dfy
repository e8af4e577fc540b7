/** The cut-down deck of cards/deck.go: the same newDeck loop and deal, but
    only four values per suit, so 16 cards. */
module ShortDeck {
  import opened Cards

  const Suits: seq<string> := ["Clubs", "Spades", "Hearts", "Diamonds"]
  const Values: seq<string> := ["Ace", "Two", "Three", "Four"]

  /** The deck newDeck returns, as a value. */
  function SixteenCardDeck(): Deck {
    Layout(Suits, Values)
  }

  /** Card 4 * s + v of the deck is value v of suit s. */
  lemma ShortDeckOrder()
    ensures |SixteenCardDeck()| == 16
    ensures forall s, v :: 0 <= s < 4 && 0 <= v < 4 ==>
              SixteenCardDeck()[4 * s + v] == Values[v] + " of " + Suits[s]
  {
    forall s, v | 0 <= s < 4 && 0 <= v < 4
      ensures SixteenCardDeck()[4 * s + v] == Values[v] + " of " + Suits[s]
    {
      LayoutAt(Suits, Values, s, v);
    }
  }

  lemma ShortDeckEnds()
    ensures |SixteenCardDeck()| == 16
    ensures SixteenCardDeck()[0] == "Ace of Clubs" && SixteenCardDeck()[15] == "Four of Diamonds"
  {
    LayoutAt(Suits, Values, 0, 0);
    LayoutAt(Suits, Values, 3, 3);
  }

  /** The 16 cards are pairwise different. */
  lemma ShortDeckDistinct()
    ensures Distinct(SixteenCardDeck())
  {
    assert Distinct(Suits) && Distinct(Values);
    assert forall v :: v in Values ==> ' ' !in v;
    LayoutDistinct(Suits, Values);
  }

  /** newDeck. */
  method NewDeck() returns (d: Deck)
    ensures d == SixteenCardDeck()
    ensures |d| == 16
    ensures d[0] == "Ace of Clubs" && d[15] == "Four of Diamonds"
    ensures forall s, v :: 0 <= s < 4 && 0 <= v < 4 ==> d[4 * s + v] == Values[v] + " of " + Suits[s]
    ensures Distinct(d)
  {
    d := BuildDeck(Suits, Values);
    ShortDeckOrder();
    ShortDeckEnds();
    ShortDeckDistinct();
  }

  /** deal on the 16-card deck: an error outside 1..16, otherwise the first
      handSize cards and the other 16 - handSize, which together are the deck. */
  lemma DealShortDeck(handSize: int)
    ensures Deal(SixteenCardDeck(), handSize).Err? <==> handSize <= 0 || handSize > 16
    ensures Deal(SixteenCardDeck(), handSize).Ok? ==>
              var dealt := Deal(SixteenCardDeck(), handSize).value;
              |dealt.hand| == handSize && |dealt.rest| == 16 - handSize &&
              dealt.hand + dealt.rest == SixteenCardDeck()
  {
    assert |SixteenCardDeck()| == 16;
  }
}
