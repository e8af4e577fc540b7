/** What the two deck.go files share: a card's name, the suit-major order in
    which newDeck's nested loops lay the cards out, that loop itself, and deal. */
module Cards {

  /** A deck is a slice of card names. */
  type Deck = seq<string>

  /** The error deal reports; it carries the two numbers its message prints. */
  datatype DealError = InvalidHandSize(handSize: int, deckSize: int)

  /** The two slices deal hands back on success. */
  datatype Dealt = Dealt(hand: Deck, rest: Deck)

  datatype Result<T> = Ok(value: T) | Err(error: DealError)

  /** All cards of a deck are pairwise different. */
  predicate Distinct(d: Deck) {
    forall i, j :: 0 <= i < j < |d| ==> d[i] != d[j]
  }

  /** The name newDeck gives the card of `value` in `suit`. */
  function Card(value: string, suit: string): string {
    value + " of " + suit
  }

  /** The cards of one suit, in the order of `values`: one run of newDeck's inner loop. */
  function Row(suit: string, values: seq<string>): (r: Deck)
    ensures |r| == |values|
    ensures forall v :: 0 <= v < |values| ==> r[v] == Card(values[v], suit)
  {
    if values == [] then []
    else Row(suit, values[..|values| - 1]) + [Card(values[|values| - 1], suit)]
  }

  /** The whole deck newDeck builds: one row per suit, suits in order. */
  function Layout(suits: seq<string>, values: seq<string>): (d: Deck)
    ensures |d| == |suits| * |values|
  {
    if suits == [] then []
    else
      var k := |suits| - 1;
      assert (k + 1) * |values| == k * |values| + |values|;
      Layout(suits[..k], values) + Row(suits[k], values)
  }

  /** The card at index `s * |values| + v` is value v of suit s. */
  lemma {:induction false} LayoutAt(suits: seq<string>, values: seq<string>, s: int, v: int)
    requires 0 <= s < |suits| && 0 <= v < |values|
    ensures s * |values| + v < |Layout(suits, values)|
    ensures Layout(suits, values)[s * |values| + v] == Card(values[v], suits[s])
  {
    var k, n := |suits| - 1, |values|;
    assert Layout(suits, values) == Layout(suits[..k], values) + Row(suits[k], values);
    assert |Layout(suits[..k], values)| == k * n;
    if s < k {
      assert (s + 1) * n <= k * n by { MulMonotone(s + 1, k, n); }
      LayoutAt(suits[..k], values, s, v);
    } else {
      assert s * n + v == k * n + v;
    }
  }

  /** Index form of LayoutAt: index i holds value i % |values| of suit i / |values|. */
  lemma LayoutIndex(suits: seq<string>, values: seq<string>, i: int)
    requires 0 <= i < |Layout(suits, values)|
    ensures |values| > 0 && 0 <= i / |values| < |suits|
    ensures Layout(suits, values)[i] == Card(values[i % |values|], suits[i / |values|])
  {
    var n, m := |values|, |suits|;
    assert i < m * n;
    assert n > 0;
    DivBelow(i, n, m);
    var q, r := i / n, i % n;
    LayoutAt(suits, values, q, r);
    assert q * n + r == i;
  }

  /** Splitting an index below m * n into a quotient and a remainder by n. */
  lemma DivBelow(i: nat, n: nat, m: nat)
    requires n > 0 && i < m * n
    ensures i / n < m && i == (i / n) * n + i % n && 0 <= i % n < n
  {
    var q, r := i / n, i % n;
    assert i == q * n + r;
    if q >= m {
      MulMonotone(m, q, n);
    }
  }

  lemma MulMonotone(a: nat, b: nat, n: nat)
    requires a <= b
    ensures a * n <= b * n
  {
  }

  /** Two card names are equal exactly when value and suit are, provided no
      value contains a space: the first space then marks where the value ends. */
  lemma CardInjective(v1: string, s1: string, v2: string, s2: string)
    requires ' ' !in v1 && ' ' !in v2
    ensures Card(v1, s1) == Card(v2, s2) <==> v1 == v2 && s1 == s2
  {
    var c1, c2 := Card(v1, s1), Card(v2, s2);
    if c1 == c2 {
      FirstSpace(v1, s1);
      FirstSpace(v2, s2);
      assert |v1| == |v2|;
      assert v1 == c1[..|v1|] && v2 == c2[..|v2|];
      assert s1 == c1[|v1| + 4..] && s2 == c2[|v2| + 4..];
    }
  }

  /** In a card whose value has no space, the first space follows the value. */
  lemma FirstSpace(v: string, s: string)
    requires ' ' !in v
    ensures |v| < |Card(v, s)| && Card(v, s)[|v|] == ' '
    ensures forall k :: 0 <= k < |v| ==> Card(v, s)[k] != ' '
  {
    forall k | 0 <= k < |v| ensures Card(v, s)[k] != ' ' {
      assert Card(v, s)[k] == v[k];
    }
  }

  /** Distinct suits and distinct space-free values give a deck without duplicates. */
  lemma LayoutDistinct(suits: seq<string>, values: seq<string>)
    requires Distinct(suits) && Distinct(values)
    requires forall v :: v in values ==> ' ' !in v
    ensures Distinct(Layout(suits, values))
  {
    var d, n := Layout(suits, values), |values|;
    forall i, j | 0 <= i < j < |d| ensures d[i] != d[j] {
      LayoutIndex(suits, values, i);
      LayoutIndex(suits, values, j);
      var qi, ri, qj, rj := i / n, i % n, j / n, j % n;
      DivBelow(i, n, |suits|);
      DivBelow(j, n, |suits|);
      assert qi != qj || ri != rj;
      assert values[ri] != values[rj] || suits[qi] != suits[qj] by {
        if ri != rj {
          DistinctAt(values, ri, rj);
        } else {
          DistinctAt(suits, qi, qj);
        }
      }
      CardInjective(values[ri], suits[qi], values[rj], suits[qj]);
    }
  }

  lemma DistinctAt(d: Deck, a: int, b: int)
    requires Distinct(d) && 0 <= a < |d| && 0 <= b < |d| && a != b
    ensures d[a] != d[b]
  {
    if a > b {
      assert d[b] != d[a];
    }
  }

  /** A character that occurs in no suit, no value and not in " of " occurs in no card. */
  lemma LayoutAvoids(suits: seq<string>, values: seq<string>, ch: char)
    requires ch !in " of "
    requires forall s :: s in suits ==> ch !in s
    requires forall v :: v in values ==> ch !in v
    ensures forall c :: c in Layout(suits, values) ==> ch !in c
  {
    var d := Layout(suits, values);
    forall i | 0 <= i < |d| ensures ch !in d[i] {
      LayoutIndex(suits, values, i);
      var v, s := values[i % |values|], suits[i / |values|];
      assert d[i] == v + " of " + s;
    }
  }

  /** newDeck's nested loops: suits outer, values inner, appending each card. */
  method BuildDeck(suits: seq<string>, values: seq<string>) returns (cards: Deck)
    ensures cards == Layout(suits, values)
  {
    cards := [];
    var si := 0;
    while si < |suits|
      invariant 0 <= si <= |suits|
      invariant cards == Layout(suits[..si], values)
    {
      var vi := 0;
      while vi < |values|
        invariant 0 <= vi <= |values|
        invariant cards == Layout(suits[..si], values) + Row(suits[si], values[..vi])
      {
        assert values[..vi + 1][..vi] == values[..vi];
        cards := cards + [Card(values[vi], suits[si])];
        vi := vi + 1;
      }
      assert values[..vi] == values;
      assert suits[..si + 1][..si] == suits[..si];
      si := si + 1;
    }
    assert suits[..si] == suits;
  }

  /** deal: the first handSize cards and the rest, or an error when handSize is
      not positive or exceeds the deck. */
  function Deal(d: Deck, handSize: int): (r: Result<Dealt>)
    ensures r.Err? <==> handSize <= 0 || handSize > |d|
    ensures r.Err? ==> r.error == InvalidHandSize(handSize, |d|)
    ensures r.Ok? ==> |r.value.hand| == handSize && |r.value.rest| == |d| - handSize
    ensures r.Ok? ==> r.value.hand + r.value.rest == d
  {
    if handSize <= 0 || handSize > |d| then Err(InvalidHandSize(handSize, |d|))
    else Ok(Dealt(d[..handSize], d[handSize..]))
  }
}
