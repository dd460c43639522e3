/** How many 52-card decks a game needs (service/DeckCalculatorService.java). */
module DeckCalculator {
  import opened JavaInt

  /** Cards in one deck. */
  const DeckSize: int := 52

  /** `calculateDecks`: the `int` product `numPlayers * cardsPerHand`, which
      wraps around when it leaves the `int` range, divided by 52 and rounded
      up. The division is done in `double`; for an `int` numerator the
      quotient is never close enough to a whole number to round onto it, so
      the rounded-up `double` is the exact ceiling. */
  function CalculateDecks(numPlayers: Int32, cardsPerHand: Int32): (r: Int32)
    ensures DeckSize * (r - 1) < Wrap(numPlayers * cardsPerHand) <= DeckSize * r
    ensures InRange(numPlayers * cardsPerHand) ==>
      DeckSize * (r - 1) < numPlayers * cardsPerHand <= DeckSize * r
  {
    var cards: int := Wrap(numPlayers * cardsPerHand);
    var q := (-cards) / DeckSize;
    assert InRange(cards);
    assert DeckSize * q <= -cards < DeckSize * q + DeckSize;
    -q
  }

  /** The fewest decks that hold `cards` cards: the least `d` with
      `52 * d >= cards`. */
  lemma {:induction false} DecksAreFewest(numPlayers: Int32, cardsPerHand: Int32, d: int)
    requires DeckSize * d >= Wrap(numPlayers * cardsPerHand)
    ensures CalculateDecks(numPlayers, cardsPerHand) <= d
  {
    var r: int := CalculateDecks(numPlayers, cardsPerHand);
    assert DeckSize * (r - 1) < DeckSize * d;
  }

  /** Valid inputs whose product fits in an `int` need at least one deck, and
      the decks hold every card with fewer than 52 to spare. */
  lemma DecksForValidGame(numPlayers: Int32, cardsPerHand: Int32)
    requires numPlayers >= 1 && cardsPerHand >= 1
    requires numPlayers * cardsPerHand <= 0x7FFF_FFFF
    ensures CalculateDecks(numPlayers, cardsPerHand) >= 1
    ensures numPlayers * cardsPerHand <= DeckSize * CalculateDecks(numPlayers, cardsPerHand) < numPlayers * cardsPerHand + DeckSize
  {
    var cards: int := numPlayers * cardsPerHand;
    ProductOfPositives(numPlayers, cardsPerHand);
    assert InRange(cards);
    var r: int := CalculateDecks(numPlayers, cardsPerHand);
    assert DeckSize * (r - 1) < cards <= DeckSize * r;
  }

  lemma ProductOfPositives(x: int, y: int)
    requires x >= 1 && y >= 1
    ensures x * y >= 1
  {
    assert x * y >= x * 1;
  }

  /** The unit tests' cases (DeckCalculatorServiceTest.java:19-23): 40
      cards fit in one deck, 60 need two, no players or no cards need none,
      52 cards fit exactly in one. */
  lemma Examples()
    ensures CalculateDecks(4, 10) == 1
    ensures CalculateDecks(6, 10) == 2
    ensures CalculateDecks(0, 10) == 0
    ensures CalculateDecks(4, 0) == 0
    ensures CalculateDecks(13, 4) == 1
  {
  }

  /** The product is an `int` multiplication: 65536 players with 65536 cards
      each make 2^32 cards, which wraps to 0, so no deck is asked for; with
      32768 cards each the product wraps to the least `int` and the count
      is negative. */
  lemma OverflowExamples()
    ensures CalculateDecks(65536, 65536) == 0
    ensures CalculateDecks(65536, 32768) == -41297762
  {
    assert Wrap(65536 * 65536) == 0;
    assert Wrap(65536 * 32768) == -0x8000_0000;
  }
}
