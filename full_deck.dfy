/** The 52-card deck of learning_go/cards: newDeck, and toString with the
    splitting half of newDeckFromFile, which store a deck as its cards joined by ",". */
module FullDeck {
  import opened Cards

  const Suits: seq<string> := ["Clubs", "Spades", "Hearts", "Diamonds"]
  const Values: seq<string> :=
    ["Ace", "Two", "Three", "Four", "Five", "Six", "Seven",
     "Eight", "Nine", "Ten", "Jack", "Queen", "King"]

  /** The separator toString joins with and newDeckFromFile splits on. */
  const Sep: char := ','

  /** The deck newDeck returns, as a value. */
  function StandardDeck(): Deck {
    Layout(Suits, Values)
  }

  /** No suit or value contains a space or the separator, and none repeats. */
  lemma NamesWellFormed()
    ensures Distinct(Suits) && Distinct(Values)
    ensures forall v :: v in Values ==> ' ' !in v && Sep !in v
    ensures forall s :: s in Suits ==> ' ' !in s && Sep !in s
  {
    forall s | s in Suits ensures ' ' !in s && Sep !in s {
      assert s == "Clubs" || s == "Spades" || s == "Hearts" || s == "Diamonds";
    }
  }

  lemma StandardDeckSize()
    ensures |StandardDeck()| == 52
  {
  }

  /** Card 13 * s + v of a new deck is value v of suit s. */
  lemma StandardDeckOrder()
    ensures |StandardDeck()| == 52
    ensures forall s, v :: 0 <= s < 4 && 0 <= v < 13 ==>
              StandardDeck()[13 * s + v] == Values[v] + " of " + Suits[s]
  {
    forall s, v | 0 <= s < 4 && 0 <= v < 13
      ensures StandardDeck()[13 * s + v] == Values[v] + " of " + Suits[s]
    {
      LayoutAt(Suits, Values, s, v);
    }
  }

  lemma StandardDeckEnds()
    ensures |StandardDeck()| == 52
    ensures StandardDeck()[0] == "Ace of Clubs" && StandardDeck()[51] == "King of Diamonds"
  {
    LayoutAt(Suits, Values, 0, 0);
    LayoutAt(Suits, Values, 3, 12);
  }

  /** No two cards of a new deck are the same, and none contains ",". */
  lemma StandardDeckDistinct()
    ensures Distinct(StandardDeck())
    ensures forall c :: c in StandardDeck() ==> Sep !in c
  {
    NamesWellFormed();
    LayoutDistinct(Suits, Values);
    LayoutAvoids(Suits, Values, Sep);
  }

  /** newDeck. */
  method NewDeck() returns (d: Deck)
    ensures d == StandardDeck()
    ensures |d| == 52
    ensures d[0] == "Ace of Clubs" && d[51] == "King of Diamonds"
    ensures forall s, v :: 0 <= s < 4 && 0 <= v < 13 ==> d[13 * s + v] == Values[v] + " of " + Suits[s]
    ensures Distinct(d)
  {
    d := BuildDeck(Suits, Values);
    StandardDeckOrder();
    StandardDeckEnds();
    StandardDeckDistinct();
  }

  /** toString: strings.Join of the cards with ",". The text starts with the
      first card, which a "," follows when there is a second; an empty deck
      gives "". */
  function ToString(d: Deck): (s: string)
    ensures d == [] ==> s == ""
    ensures d != [] ==> d[0] <= s
    ensures |d| > 1 ==> |d[0]| < |s| && s[|d[0]|] == Sep
  {
    if d == [] then ""
    else if |d| == 1 then d[0]
    else d[0] + [Sep] + ToString(d[1..])
  }

  /** The saved text ends with the last card. */
  lemma {:induction false} ToStringEndsWithLast(d: Deck)
    requires d != []
    ensures |d[|d| - 1]| <= |ToString(d)|
    ensures ToString(d)[|ToString(d)| - |d[|d| - 1]|..] == d[|d| - 1]
  {
    if |d| > 1 {
      ToStringEndsWithLast(d[1..]);
      var t := ToString(d[1..]);
      var last := d[|d| - 1];
      assert d[1..][|d[1..]| - 1] == last;
      assert ToString(d) == (d[0] + [Sep]) + t;
      assert ToString(d)[|ToString(d)| - |last|..] == t[|t| - |last|..];
    }
  }

  /** The splitting half of newDeckFromFile: strings.Split(s, ","). It always
      yields at least one piece, and no piece contains the separator. */
  function Parse(s: string): (d: Deck)
    ensures d != []
    ensures forall c :: c in d ==> Sep !in c
  {
    if s == [] then [""]
    else
      var rest := Parse(s[1..]);
      if s[0] == Sep then [""] + rest
      else [[s[0]] + rest[0]] + rest[1..]
  }

  /** Splitting yields exactly one piece more than the text has separators. */
  lemma {:induction false} ParseCount(s: string)
    ensures |Parse(s)| == multiset(s)[Sep] + 1
  {
    if s != [] {
      ParseCount(s[1..]);
      assert s == [s[0]] + s[1..];
      assert multiset(s) == multiset([s[0]]) + multiset(s[1..]);
    }
  }

  /** Text without a separator parses as a single card. */
  lemma {:induction false} ParseWithoutSep(a: string)
    requires Sep !in a
    ensures Parse(a) == [a]
  {
    if a != [] {
      ParseWithoutSep(a[1..]);
      assert a[0] in a;
      assert a == [a[0]] + a[1..];
    }
  }

  /** A separator-free first card followed by "," splits off as the first piece. */
  lemma {:induction false} ParseSplitsFirst(a: string, rest: string)
    requires Sep !in a
    ensures Parse(a + [Sep] + rest) == [a] + Parse(rest)
  {
    var x := a + [Sep] + rest;
    if a == [] {
      assert x == [Sep] + rest;
      assert x[1..] == rest;
    } else {
      assert x[0] == a[0] && a[0] in a;
      assert x[1..] == a[1..] + [Sep] + rest;
      var r := Parse(x[1..]);
      ParseSplitsFirst(a[1..], rest);
      assert r == [a[1..]] + Parse(rest);
      assert Parse(x) == [[a[0]] + r[0]] + r[1..];
      assert r[0] == a[1..] && r[1..] == Parse(rest);
      assert [a[0]] + a[1..] == a;
    }
  }

  /** Loading what toString saved gives back the deck, for a non-empty deck
      whose cards contain no ",". */
  lemma {:induction false} ParseToString(d: Deck)
    requires d != []
    requires forall c :: c in d ==> Sep !in c
    ensures Parse(ToString(d)) == d
  {
    if |d| == 1 {
      ParseWithoutSep(d[0]);
    } else {
      ParseSplitsFirst(d[0], ToString(d[1..]));
      ParseToString(d[1..]);
      assert d == [d[0]] + d[1..];
    }
  }

  /** Joining the pieces of any text gives the text back. */
  lemma {:induction false} ToStringParse(s: string)
    ensures ToString(Parse(s)) == s
  {
    if s != [] {
      var tail := s[1..];
      var rest := Parse(tail);
      ToStringParse(tail);
      ParseStep(s);
      if s[0] == Sep {
        ToStringCons("", rest);
      } else {
        ToStringExtendFirst(s[0], rest);
      }
      assert s == [s[0]] + tail;
    }
  }

  /** One step of the split: the first character either ends the first piece or joins it. */
  lemma ParseStep(s: string)
    requires s != []
    ensures s[0] == Sep ==> Parse(s) == [""] + Parse(s[1..])
    ensures s[0] != Sep ==> Parse(s) == [[s[0]] + Parse(s[1..])[0]] + Parse(s[1..])[1..]
  {
  }

  /** Putting a card in front of a non-empty deck puts it and "," in front of its text. */
  lemma ToStringCons(c: string, d: Deck)
    requires d != []
    ensures ToString([c] + d) == c + [Sep] + ToString(d)
  {
    assert ([c] + d)[1..] == d;
  }

  /** Putting a character in front of the first card puts it in front of the text. */
  lemma ToStringExtendFirst(ch: char, d: Deck)
    requires d != []
    ensures ToString([[ch] + d[0]] + d[1..]) == [ch] + ToString(d)
  {
    var e := [[ch] + d[0]] + d[1..];
    if |d| > 1 {
      assert e[1..] == d[1..];
      assert ToString(e) == ([ch] + d[0]) + [Sep] + ToString(d[1..]);
    }
  }

  /** The empty deck does not survive: "" loads as one empty card. */
  lemma EmptyDeckLoadsOneCard()
    ensures ToString([]) == "" && Parse(ToString([])) == [""]
  {
  }

  /** Saving and loading a new deck restores it: same length, first and last card. */
  lemma SaveLoadStandardDeck()
    ensures Parse(ToString(StandardDeck())) == StandardDeck()
    ensures |Parse(ToString(StandardDeck()))| == 52
    ensures Parse(ToString(StandardDeck()))[0] == "Ace of Clubs"
    ensures Parse(ToString(StandardDeck()))[51] == "King of Diamonds"
  {
    StandardDeckEnds();
    StandardDeckDistinct();
    ParseToString(StandardDeck());
  }

  /** Dealing from a new deck fails exactly outside 1..52 and otherwise splits it. */
  lemma DealFromNewDeck(handSize: int)
    ensures Deal(StandardDeck(), handSize).Err? <==> handSize <= 0 || handSize > 52
    ensures Deal(StandardDeck(), handSize).Ok? ==>
              Deal(StandardDeck(), handSize).value.hand == StandardDeck()[..handSize] &&
              Deal(StandardDeck(), handSize).value.rest == StandardDeck()[handSize..]
  {
    StandardDeckSize();
  }
}
