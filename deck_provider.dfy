/** The external deck provider as the core sees it
    (adapter/outbound/DeckOfCardsClient.java): two calls whose argument
    guards are local and whose answers come from outside. */
module DeckProvider {
  import opened Results
  import opened JavaInt
  import opened Domain

  const DeckCountMessage: string := "O número de decks deve ser maior que zero."
  const DeckIdMessage: string := "O deckId não pode ser nulo ou vazio."
  const CardCountMessage: string := "O número de cartas deve ser maior que zero."

  /** The arguments of one `dealCards` call. */
  datatype DealRequest = DealRequest(deckId: string, numberOfCards: int)

  /** What the `k`-th `createDeck` call (counting from 0) returns: a
      non-positive deck count is rejected before the provider is asked;
      otherwise the provider's `k`-th answer is passed on, a deck id or a
      `DeckCreationException`. */
  function CreateAnswer(newDeck: nat -> Result<string>, k: nat, numberOfDecks: int): (r: Result<string>)
    ensures numberOfDecks <= 0 ==> r == Err(IllegalArgument(DeckCountMessage))
    ensures numberOfDecks > 0 ==> r == newDeck(k)
  {
    if numberOfDecks <= 0 then Err(IllegalArgument(DeckCountMessage)) else newDeck(k)
  }

  /** What the `k`-th `dealCards` call (counting from 0) returns: an empty
      deck id, then a non-positive card count, is rejected before the
      provider is asked; otherwise the provider's `k`-th answer is passed
      on, a list of cards or a `DeckCreationException`. */
  function DealAnswer(draw: nat -> Result<seq<CardDTO>>, k: nat, deckId: string, numberOfCards: int): (r: Result<seq<CardDTO>>)
    ensures deckId == [] ==> r == Err(IllegalArgument(DeckIdMessage))
    ensures deckId != [] && numberOfCards <= 0 ==> r == Err(IllegalArgument(CardCountMessage))
    ensures deckId != [] && numberOfCards > 0 ==> r == draw(k)
  {
    if deckId == [] then Err(IllegalArgument(DeckIdMessage))
    else if numberOfCards <= 0 then Err(IllegalArgument(CardCountMessage))
    else draw(k)
  }

  /** The answers of `n` consecutive `dealCards(deckId, numberOfCards)`
      calls, the first of them being call number `from`. */
  function DealAnswers(draw: nat -> Result<seq<CardDTO>>, from: nat, n: nat, deckId: string, numberOfCards: int)
    : (r: seq<Result<seq<CardDTO>>>)
    ensures |r| == n
    ensures forall i :: 0 <= i < n ==> r[i] == DealAnswer(draw, from + i, deckId, numberOfCards)
  {
    seq(n, i requires 0 <= i < n => DealAnswer(draw, from + i, deckId, numberOfCards))
  }

  /** The answers to the first `i` of `n` successive draws are the first
      `i` answers. */
  lemma DealAnswersPrefix(draw: nat -> Result<seq<CardDTO>>, from: nat, n: nat, deckId: string, numberOfCards: int, i: nat)
    requires i <= n
    ensures DealAnswers(draw, from, i, deckId, numberOfCards) == DealAnswers(draw, from, n, deckId, numberOfCards)[..i]
  {
  }

  /** The `i`-th of `n` draws made from call number `from` on is call
      number `from + i - 1`. */
  lemma NextAnswer(draw: nat -> Result<seq<CardDTO>>, from: nat, n: nat, deckId: string, numberOfCards: int, k: nat, i: nat)
    requires 1 <= i <= n && k == from + i - 1
    ensures DealAnswers(draw, from, n, deckId, numberOfCards)[i - 1] == DealAnswer(draw, k, deckId, numberOfCards)
  {
  }

  /** `n` copies of one request. */
  function Repeat(req: DealRequest, n: nat): (r: seq<DealRequest>)
    ensures |r| == n
    ensures forall i :: 0 <= i < n ==> r[i] == req
  {
    seq(n, _ => req)
  }

  /** A log of `n` equal requests followed by one more is a log of
      `n + 1`. */
  lemma RepeatSnoc(log: seq<DealRequest>, req: DealRequest, n: nat)
    ensures log + Repeat(req, n) + [req] == log + Repeat(req, n + 1)
  {
    assert Repeat(req, n) + [req] == Repeat(req, n + 1);
  }

  /** The client. `newDeck` and `draw` are what the provider answers to the
      successive calls that reach it; `createCalls` and `dealCalls` record
      the arguments of every call made so far, in order. */
  class DeckOfCardsClient {
    const newDeck: nat -> Result<string>
    const draw: nat -> Result<seq<CardDTO>>
    var createCalls: seq<int>
    var dealCalls: seq<DealRequest>

    constructor (newDeck: nat -> Result<string>, draw: nat -> Result<seq<CardDTO>>)
      ensures this.newDeck == newDeck && this.draw == draw
      ensures createCalls == [] && dealCalls == []
    {
      this.newDeck := newDeck;
      this.draw := draw;
      createCalls := [];
      dealCalls := [];
    }

    /** `createDeck(numberOfDecks)`. */
    method CreateDeck(numberOfDecks: Int32) returns (r: Result<string>)
      modifies this
      ensures createCalls == old(createCalls) + [numberOfDecks as int]
      ensures dealCalls == old(dealCalls)
      ensures r == CreateAnswer(newDeck, |old(createCalls)|, numberOfDecks)
    {
      r := CreateAnswer(newDeck, |createCalls|, numberOfDecks);
      createCalls := createCalls + [numberOfDecks as int];
    }

    /** `dealCards(deckId, numberOfCards)`. */
    method DealCards(deckId: string, numberOfCards: Int32) returns (r: Result<seq<CardDTO>>)
      modifies this
      ensures dealCalls == old(dealCalls) + [DealRequest(deckId, numberOfCards as int)]
      ensures createCalls == old(createCalls)
      ensures r == DealAnswer(draw, |old(dealCalls)|, deckId, numberOfCards)
    {
      r := DealAnswer(draw, |dealCalls|, deckId, numberOfCards);
      dealCalls := dealCalls + [DealRequest(deckId, numberOfCards as int)];
    }
  }

  /** The unit tests' guard cases (DeckOfCardsClientTest.java:98-175): no
      decks, an empty deck id and no cards are rejected whatever the
      provider would have answered. */
  lemma GuardExamples(newDeck: nat -> Result<string>, draw: nat -> Result<seq<CardDTO>>, k: nat)
    ensures CreateAnswer(newDeck, k, 0) == Err(IllegalArgument("O número de decks deve ser maior que zero."))
    ensures DealAnswer(draw, k, "", 5) == Err(IllegalArgument("O deckId não pode ser nulo ou vazio."))
    ensures DealAnswer(draw, k, "12345", 0) == Err(IllegalArgument("O número de cartas deve ser maior que zero."))
  {
  }
}
