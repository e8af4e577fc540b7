# Playing-card deck, struct updates and site-status classification in Dafny

This project models the verifiable core of a set of Go learning exercises:

- **The 52-card deck** of `legacy/learning_go/cards/deck.go`:
  - `newDeck` builds the deck with two nested loops, suits outer and values inner.
  - `deal` splits a deck into a hand and the rest, or reports an invalid hand size.
  - `toString` joins the cards with `","`, and `newDeckFromFile` splits a saved text on `","`.
  - `shuffle` and `shuffleWithFY` permute the deck in place by swaps whose partners come from `rand.Intn`.
- **The cut-down deck** of `legacy/cards/deck.go`: the same `newDeck` loop with four values per suit (16 cards), and the same `deal`.
- **learn_structs**: `updateFirstName` writes a person's first name through a pointer. `updateSlice` overwrites element 0 of the caller's slice.
- **learn_goroutine**: the decision inside `getSiteStatus`. A probe outcome is a transport error or an HTTP status code, and it classifies as `"error"`, `"down"` or `"up"`.

## Layout

- `cards.dfy`, module `Cards`: what both deck files share.
  - `Card` names a card `value + " of " + suit`.
  - `Row` and `Layout` give the suit-major order as functions.
  - `BuildDeck` is the nested loop itself, appending to a sequence as Go's `append` does, and is proved equal to `Layout`.
  - `Deal` returns a `Result`.
  - Lemmas give each card's index and the absence of duplicates. No value contains a space, so the first space in a card's name marks where its value ends.
- `full_deck.dfy`, module `FullDeck`: the 13 values and 4 suits, `NewDeck`, `ToString`, `Parse`, and the save/load round trip in both directions.
- `short_deck.dfy`, module `ShortDeck`: the 16-card deck.
- `shuffle.dfy`, module `Shuffle`: both shuffles, as methods on an `array<string>`.
  - The values `rand.Intn` returns are an input `rolls`, in call order and within the bounds `rand.Intn` guarantees.
  - Each method is proved equal to `ApplySwaps` over those partners, which is a permutation of its input.
- `structs.dfy`, module `Structs`: `person` becomes a class, because a pointer receiver updates it in place.
  - `contactInfo` is a datatype, since it is embedded by value.
  - The slice becomes an `array<string>`, because `updateSlice` writes into the caller's backing array.
- `site_status.dfy`, module `SiteStatus`: the classification, related to the 2xx status class of section 15.3 of RFC 9110 (status class = first digit of the code).

Notes on the code:
- `getSiteStatus` returns the strings `"up"`, `"down"` and `"error"`, and so does the model.
- The site monitor's `main` has no shutdown path; only the classification is modelled.
- The test file `legacy/cards/deck_test.go` expects 52 cards ending in `"King of Diamonds"` and a file round trip. Those facts hold of the full deck in `legacy/learning_go/cards/deck.go` and are proved there. The 16-card `legacy/cards/deck.go` ends in `"Four of Diamonds"` and defines no file functions.

## Model

| member | source | states |
|---|---|---|
| Cards.Row | legacy/learning_go/cards/deck.go:22-24 | one run of the inner loop yields one card per value, in value order, each named `value + " of " + suit` |
| Cards.Layout | legacy/learning_go/cards/deck.go:21-25 | the nested loops produce exactly `#suits * #values` cards |
| Cards.LayoutAt | legacy/learning_go/cards/deck.go:21-25 | suit-major order: the card at index `s * #values + v` is value v of suit s |
| Cards.CardInjective | legacy/learning_go/cards/deck.go:23 | two card names are equal exactly when their values and suits are, for values without spaces |
| Cards.LayoutDistinct | legacy/learning_go/cards/deck.go:18-25 | distinct suits and distinct space-free values give a deck with no card twice |
| Cards.BuildDeck | legacy/learning_go/cards/deck.go:17-27 | the loop that appends `value + " of " + suit` for each suit, then each value, returns exactly the suit-major layout |
| Cards.Deal | legacy/learning_go/cards/deck.go:37-43 | fails, with the hand size and deck size, exactly when `handSize <= 0` or `handSize > len(d)`; otherwise the hand has `handSize` cards, the rest has `len(d) - handSize`, and hand followed by rest is `d` |
| FullDeck.NamesWellFormed | legacy/learning_go/cards/deck.go:18-19 | the 4 suits and 13 values are distinct, and none of them contains a space or `","` |
| FullDeck.NewDeck | legacy/learning_go/cards/deck.go:16-28 | 52 cards, first `"Ace of Clubs"`, last `"King of Diamonds"`, card `13*s + v` is value v of suit s, no duplicates |
| FullDeck.StandardDeckOrder | legacy/learning_go/cards/deck.go:18-25 | card `13*s + v` of the new deck is `cardValues[v] + " of " + cardSuits[s]` |
| FullDeck.StandardDeckEnds | legacy/learning_go/cards/deck.go:16-28 | the new deck has 52 cards, starting with `"Ace of Clubs"` and ending with `"King of Diamonds"` (the assertions of the deck test) |
| FullDeck.StandardDeckDistinct | legacy/learning_go/cards/deck.go:18-25 | the 52 cards are pairwise different and none contains `","` |
| FullDeck.ToString | legacy/learning_go/cards/deck.go:46-48 | `strings.Join` with `","`: an empty deck saves as `""`; otherwise the text starts with the first card, and a `","` follows it when there is a second card (the split of it is `ParseToString`, the converse `ToStringParse`) |
| FullDeck.ToStringEndsWithLast | legacy/learning_go/cards/deck.go:46-48 | the text of a non-empty deck ends with its last card |
| FullDeck.Parse | legacy/learning_go/cards/deck.go:65-67 | splitting on `","` always yields at least one card, and no card contains a comma |
| FullDeck.ParseCount | legacy/learning_go/cards/deck.go:66 | splitting yields exactly one card more than the text has commas |
| FullDeck.ParseToString | legacy/learning_go/cards/deck.go:46-67 | for a non-empty deck whose cards contain no `","`, splitting what `toString` produced gives the deck back |
| FullDeck.ToStringParse | legacy/learning_go/cards/deck.go:46-67 | joining the pieces of any saved text with `","` restores the text exactly |
| FullDeck.EmptyDeckLoadsOneCard | legacy/learning_go/cards/deck.go:46-67 | the empty deck saves as `""` and loads back as one empty card, not as an empty deck |
| FullDeck.SaveLoadStandardDeck | legacy/learning_go/cards/deck.go:50-67 | saving and loading a new deck restores it: 52 cards, the same first and last card (what the save/load test checks) |
| FullDeck.DealFromNewDeck | legacy/learning_go/cards/deck.go:38-43 | dealing from a new deck fails exactly outside 1..52, and otherwise hands back its first `handSize` cards and the remaining ones |
| ShortDeck.NewDeck | legacy/cards/deck.go:8-21 | 16 cards, first `"Ace of Clubs"`, last `"Four of Diamonds"`, card `4*s + v` is value v of suit s, no duplicates |
| ShortDeck.ShortDeckOrder | legacy/cards/deck.go:10-18 | 16 cards in suit-major order: card `4*s + v` is `cardValues[v] + " of " + cardSuits[s]` |
| ShortDeck.ShortDeckEnds | legacy/cards/deck.go:10-18 | the first card is `"Ace of Clubs"` and the last is `"Four of Diamonds"` |
| ShortDeck.ShortDeckDistinct | legacy/cards/deck.go:14-18 | all 16 cards are different |
| ShortDeck.DealShortDeck | legacy/cards/deck.go:30-36 | dealing from the 16-card deck fails exactly when `handSize <= 0` or `handSize > 16`; otherwise hand and rest have `handSize` and `16 - handSize` cards and together are the deck |
| Shuffle.Swap | legacy/learning_go/cards/deck.go:74 | the parallel assignment exchanges cards i and j and leaves every other card in place |
| Shuffle.ApplySwapsPermutes | legacy/learning_go/cards/deck.go:72-75 | any run of swap steps keeps the multiset of cards: the result is a permutation |
| Shuffle.ShuffleDeck | legacy/learning_go/cards/deck.go:70-76 | a one-card deck panics (`rand.Intn(0)`) before any swap and is unchanged; otherwise the deck becomes card i swapped with card `rolls[i]` (each in `[0, len(d)-2]`) for every i in order, which is a permutation; an empty deck is unchanged |
| Shuffle.FisherYatesPartners | legacy/learning_go/cards/deck.go:80-82 | with each roll within `rand.Intn(len(d) - k)`'s bounds, the partner `j` of every step k satisfies `k <= j < len(d)`, one partner per card |
| Shuffle.ShuffleWithFY | legacy/learning_go/cards/deck.go:78-85 | the deck becomes card i swapped with card `rolls[i] + i` for every i in order; the result is a permutation of the deck |
| Shuffle.FisherYatesPrefixSettled | legacy/learning_go/cards/deck.go:80-84 | once step i is done, the Fisher–Yates loop never changes cards 0..i-1 again |
| Structs.Person.constructor | legacy/learning_go/learn_structs/main.go:5-14 | a person holds the given first name, last name and embedded contact info |
| Structs.Person.UpdateFirstName | legacy/learning_go/learn_structs/main.go:51-53 | the first name becomes the argument; last name, email and zip code are unchanged |
| Structs.UpdateSlice | legacy/learning_go/learn_structs/main.go:63-65 | element 0 of the caller's slice becomes `"Good morning"`; the length and every later element are unchanged |
| Structs.Demo | legacy/learning_go/learn_structs/main.go:24-41 | after the calls in main, the caller sees Carlos Canvas with the original contact info, and the slice `["Good morning", "There", "How", "Are", "You"]` |
| SiteStatus.GetSiteStatus | legacy/learning_go/learn_goroutine/main.go:79-93 | a transport error gives `"error"`; a response gives `"up"` exactly when its code is in the 2xx success class (first digit 2) and `"down"` otherwise; every outcome gets exactly one of the three |
| SiteStatus.KnownCodes | legacy/learning_go/learn_goroutine/main.go:81-92 | 200 and 299 are up; 199, 300, 404 and 500 are down; a transport error is error |

## Left out

- `print` (deck) and `person.print`: console output.
- `saveToFile`, and the `os.ReadFile` / `os.Exit` half of `newDeckFromFile`: file I/O. Only the join and the split are modelled.
- `shuffleWithShuffle`: its behaviour lives in `rand.Shuffle`, which is not part of this model.
- Randomness: `rand.Intn` is replaced by the input `rolls`, which meets the bounds `rand.Intn` guarantees. That `shuffleWithFY` draws each permutation with equal probability is a statement about distributions and is not modelled.
- Cards.Deal: in Go the hand and the rest share the input slice's backing array. The model works on values, so it does not capture that aliasing. That `deal` leaves its input unchanged holds by value semantics.
- Structs.UpdateSlice: the panic on an empty slice is a precondition (`s.Length > 0`), not a modelled outcome.
- Structs.Person: Go's promotion of the embedded `contactInfo` fields (`p.email`) is not modelled. The contact info is one field holding a `ContactInfo` value.
- learn_goroutine's `main`: the goroutines, the completion channel, the relaunch loop, `time.Sleep` and the one-check-per-site-in-flight behaviour are concurrency and timing. `http.Get` and `res.Body.Close` are network I/O. The `fmt.Printf` that `getSiteStatus` runs on the error path, and `reportSiteStatus`, are console output. The probe's outcome is an input to `GetSiteStatus`.
- Go's `int` is 64 bits wide. No modelled operation does arithmetic that could overflow on realistic decks, so integers are unbounded here.
