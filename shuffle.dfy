/** The two in-place shuffles of learning_go/cards: shuffle and shuffleWithFY.
    Each walks the deck once and swaps card i with a card j drawn from rand.Intn;
    the values rand.Intn returns are given as `rolls`, in call order. */
module Shuffle {
  import opened Cards

  /** The deck after `d[i], d[j] = d[j], d[i]`. */
  function Swap(d: Deck, i: int, j: int): (r: Deck)
    requires 0 <= i < |d| && 0 <= j < |d|
    ensures |r| == |d| && r[i] == d[j] && r[j] == d[i]
    ensures forall k :: 0 <= k < |d| && k != i && k != j ==> r[k] == d[k]
  {
    d[i := d[j]][j := d[i]]
  }

  /** A swap keeps the multiset of cards. */
  lemma SwapPermutes(d: Deck, i: int, j: int)
    requires 0 <= i < |d| && 0 <= j < |d|
    ensures multiset(Swap(d, i, j)) == multiset(d)
  {
  }

  /** Every partner index lies in [0, n). */
  predicate InRange(js: seq<int>, n: int) {
    forall k :: 0 <= k < |js| ==> 0 <= js[k] < n
  }

  /** The deck after the first |js| steps of a shuffle loop, step k swapping
      card k with card js[k]. */
  function ApplySwaps(d: Deck, js: seq<int>): (r: Deck)
    requires |js| <= |d| && InRange(js, |d|)
    ensures |r| == |d|
  {
    if js == [] then d
    else Swap(ApplySwaps(d, js[..|js| - 1]), |js| - 1, js[|js| - 1])
  }

  /** Any run of swap steps rearranges the deck: the same cards, each as often. */
  lemma {:induction false} ApplySwapsPermutes(d: Deck, js: seq<int>)
    requires |js| <= |d| && InRange(js, |d|)
    ensures multiset(ApplySwaps(d, js)) == multiset(d)
  {
    if js != [] {
      var k := |js| - 1;
      ApplySwapsPermutes(d, js[..k]);
      SwapPermutes(ApplySwaps(d, js[..k]), k, js[k]);
    }
  }

  /** Extending the steps by one more applies one more swap. */
  lemma ApplySwapsStep(d: Deck, js: seq<int>, i: nat)
    requires i < |js| <= |d| && InRange(js, |d|)
    ensures InRange(js[..i], |d|) && InRange(js[..i + 1], |d|)
    ensures ApplySwaps(d, js[..i + 1]) == Swap(ApplySwaps(d, js[..i]), i, js[i])
  {
    var e := js[..i + 1];
    assert |e| == i + 1 && e[..i] == js[..i] && e[i] == js[i];
    assert InRange(e, |d|);
    assert ApplySwaps(d, e) == Swap(ApplySwaps(d, e[..i]), i, e[i]);
  }

  /** What rand.Intn(len(d) - 1) returned on each pass of shuffle's loop: one
      value per card, each in [0, len(d) - 1). On a one-card deck the first call,
      rand.Intn(0), panics, so there is none. */
  predicate ShuffleRolls(rolls: seq<int>, n: nat) {
    |rolls| == (if n == 1 then 0 else n) && InRange(rolls, n - 1)
  }

  /** shuffle: swaps card i with card rolls[i] for every i. A one-card deck
      panics before any swap; an empty deck is left as it is. */
  method ShuffleDeck(d: array<string>, rolls: seq<int>) returns (panicked: bool)
    requires ShuffleRolls(rolls, d.Length)
    modifies d
    ensures panicked <==> d.Length == 1
    ensures panicked ==> d[..] == old(d[..])
    ensures !panicked ==> d[..] == ApplySwaps(old(d[..]), rolls)
    ensures multiset(d[..]) == multiset(old(d[..]))
  {
    panicked := false;
    var i := 0;
    while i < d.Length
      invariant 0 <= i <= d.Length && i <= |rolls|
      invariant d[..] == ApplySwaps(old(d[..]), rolls[..i])
    {
      if d.Length - 1 <= 0 {
        // rand.Intn panics when its bound is not positive
        panicked := true;
        return;
      }
      var j := rolls[i];
      ghost var before := d[..];
      d[i], d[j] := d[j], d[i];
      assert d[..] == Swap(before, i, j);
      ApplySwapsStep(old(d[..]), rolls, i);
      i := i + 1;
    }
    assert rolls[..i] == rolls;
    ApplySwapsPermutes(old(d[..]), rolls);
  }

  /** What rand.Intn(len(d) - i) returned on pass i of shuffleWithFY's loop. */
  predicate FisherYatesRolls(rolls: seq<int>, n: nat) {
    |rolls| == n && forall k :: 0 <= k < n ==> 0 <= rolls[k] < n - k
  }

  /** The partners of shuffleWithFY: step k swaps card k with card
      rand.Intn(len(d) - k) + k. Given rolls within rand.Intn's bounds, every
      partner j of step k satisfies k <= j < len(d). */
  function FisherYatesPartners(rolls: seq<int>, n: nat): (js: seq<int>)
    requires FisherYatesRolls(rolls, n)
    ensures |js| == n && InRange(js, n)
    ensures forall k :: 0 <= k < n ==> k <= js[k] < n && js[k] == rolls[k] + k
  {
    seq(n, k requires 0 <= k < n => rolls[k] + k)
  }

  /** shuffleWithFY: swaps card i with card rolls[i] + i for every i. */
  method ShuffleWithFY(d: array<string>, rolls: seq<int>)
    requires FisherYatesRolls(rolls, d.Length)
    modifies d
    ensures d[..] == ApplySwaps(old(d[..]), FisherYatesPartners(rolls, d.Length))
    ensures multiset(d[..]) == multiset(old(d[..]))
  {
    ghost var js := FisherYatesPartners(rolls, d.Length);
    var i := 0;
    while i < d.Length
      invariant 0 <= i <= d.Length
      invariant d[..] == ApplySwaps(old(d[..]), js[..i])
    {
      var j := rolls[i] + i;
      ghost var before := d[..];
      d[i], d[j] := d[j], d[i];
      assert d[..] == Swap(before, i, j);
      ApplySwapsStep(old(d[..]), js, i);
      i := i + 1;
    }
    assert js[..i] == js;
    ApplySwapsPermutes(old(d[..]), js);
  }

  /** Once step i is done, a Fisher-Yates loop never touches cards 0..i-1 again:
      later partners all lie at or beyond their own step. */
  lemma {:induction false} FisherYatesPrefixSettled(d: Deck, js: seq<int>, i: nat, m: nat)
    requires |js| <= |d| && InRange(js, |d|)
    requires forall k :: 0 <= k < |js| ==> k <= js[k]
    requires i <= m <= |js|
    ensures ApplySwaps(d, js[..m])[..i] == ApplySwaps(d, js[..i])[..i]
  {
    if m > i {
      var prefix := js[..m - 1];
      assert js[..m][..m - 1] == prefix;
      FisherYatesPrefixSettled(d, js, i, m - 1);
      var before := ApplySwaps(d, prefix);
      var p := js[m - 1];
      var after := Swap(before, m - 1, p);
      assert ApplySwaps(d, js[..m]) == after;
      forall k | 0 <= k < i ensures after[k] == before[k] {
        assert k != m - 1 && k != p;
      }
      assert after[..i] == before[..i];
    }
  }
}
