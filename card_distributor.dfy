/** Dealing hands to players (service/CardDistributorService.java): the
    display text of a hand, the player built from one draw, and the loop
    that draws once per player. */
module CardDistributor {
  import opened Results
  import opened JavaInt
  import opened JavaText
  import opened Domain
  import opened ScoreCalculator
  import opened DeckProvider
  import TV = TranslatedValueTable
  import TS = TranslatedSuitTable

  const HandSeparator: string := ", "

  /** `getTranslatedCardValue`: the Portuguese name of a face rank given in
      any case; any other value, numerals included, is shown as it is. */
  function GetTranslatedCardValue(cardValue: string): (r: string)
    ensures forall v: TV.TranslatedCardValue :: EqualsIgnoreCase(v.Name(), cardValue) ==> r == v.TranslatedValue()
    ensures (forall v: TV.TranslatedCardValue :: !EqualsIgnoreCase(v.Name(), cardValue)) ==> r == cardValue
  {
    match TV.FromString(cardValue)
    case Ok(v) => v.TranslatedValue()
    case Err(_) => cardValue
  }

  /** One card as the hand string shows it, "<value> de <suit>"; a suit
      outside the table makes `TranslatedCardSuit.fromString` throw. */
  function CardText(card: CardDTO): (r: Result<string>)
    ensures forall t: TS.TranslatedCardSuit :: EqualsIgnoreCase(t.Name(), card.suit) ==>
      r == Ok(GetTranslatedCardValue(card.value) + " de " + t.TranslatedSuit())
    ensures (forall t: TS.TranslatedCardSuit :: !EqualsIgnoreCase(t.Name(), card.suit)) ==>
      r == Err(IllegalArgument("Naipe inválido: " + card.suit))
  {
    var suit :- TS.FromString(card.suit);
    Ok(GetTranslatedCardValue(card.value) + " de " + suit.TranslatedSuit())
  }

  /** `buildHandString`: the cards' texts in draw order, joined with ", ".
      The first card with an unknown suit makes the whole call throw. */
  function BuildHandString(cards: seq<CardDTO>): (r: Result<string>)
    ensures cards == [] ==> r == Ok("")
  {
    var texts :- Traverse(cards, CardText);
    Ok(Join(texts, HandSeparator))
  }

  /** A hand can be shown exactly when each of its cards can; otherwise the
      exception is that of the first card whose suit is unknown. */
  lemma HandFailsOnCard(cards: seq<CardDTO>)
    ensures BuildHandString(cards).Ok? <==> forall i :: 0 <= i < |cards| ==> CardText(cards[i]).Ok?
    ensures BuildHandString(cards).Err? ==>
      exists i :: 0 <= i < |cards| && CardText(cards[i]) == Err(BuildHandString(cards).error) &&
                  forall j :: 0 <= j < i ==> CardText(cards[j]).Ok?
  {
  }

  /** A one-card hand is that card's text. */
  lemma HandStringOfOneCard(c: CardDTO)
    ensures BuildHandString([c]) == CardText(c)
  {
    if CardText(c).Ok? {
      assert [c][0] == c;
      assert Traverse([c], CardText).value == [CardText(c).value];
    }
  }

  /** Two hands laid end to end read as the first, ", ", then the second. */
  lemma {:induction false} HandStringAppend(a: seq<CardDTO>, b: seq<CardDTO>)
    requires a != [] && b != []
    requires BuildHandString(a).Ok? && BuildHandString(b).Ok?
    ensures BuildHandString(a + b) == Ok(BuildHandString(a).value + HandSeparator + BuildHandString(b).value)
  {
    TraverseAppend(a, b, CardText);
    var ta, tb := Traverse(a, CardText).value, Traverse(b, CardText).value;
    assert Traverse(a + b, CardText) == Ok(ta + tb);
    JoinAppend(ta, tb, HandSeparator);
  }

  /** `Collectors.joining` of two non-empty lists of parts. */
  lemma {:induction false} JoinAppend(xs: seq<string>, ys: seq<string>, sep: string)
    requires xs != [] && ys != []
    ensures Join(xs + ys, sep) == Join(xs, sep) + sep + Join(ys, sep)
  {
    if |xs| == 1 {
      assert (xs + ys)[1..] == ys;
    } else {
      assert (xs + ys)[1..] == xs[1..] + ys;
      JoinAppend(xs[1..], ys, sep);
    }
  }

  /** A face card named as the enums name it reads "<rank> de <suit>" in
      Portuguese. */
  lemma FaceCardText(v: TV.TranslatedCardValue, t: TS.TranslatedCardSuit)
    ensures CardText(CardDTO(v.Name(), t.Name())) == Ok(v.TranslatedValue() + " de " + t.TranslatedSuit())
  {
    TV.FromStringName(v);
    TS.FromStringName(t);
  }

  /** A numeral card keeps its digits: only the suit is translated. */
  lemma NumeralCardText(n: nat, t: TS.TranslatedCardSuit)
    ensures CardText(CardDTO(Decimal(n), t.Name())) == Ok(Decimal(n) + " de " + t.TranslatedSuit())
  {
    var s := Decimal(n);
    assert IsDigit(s[0]);
    TV.NumeralRejected(s);
    TS.FromStringName(t);
  }

  /** A two-card hand is the two texts joined with ", ". */
  lemma TwoCardHand(c: CardDTO, d: CardDTO)
    requires CardText(c).Ok? && CardText(d).Ok?
    ensures BuildHandString([c, d]) == Ok(CardText(c).value + HandSeparator + CardText(d).value)
  {
    HandStringOfOneCard(c);
    HandStringOfOneCard(d);
    HandStringAppend([c], [d]);
    assert [c] + [d] == [c, d];
  }

  /** The label of the `i`-th player, `"Jogador " + i`. */
  function PlayerName(i: int): string {
    "Jogador " + IntToString(i)
  }

  /** Different players get different labels. */
  lemma PlayerNamesDistinct(i: Int32, j: Int32)
    requires i != j
    ensures PlayerName(i) != PlayerName(j)
  {
    ParseIntToString(i);
    ParseIntToString(j);
    assert PlayerName(i)[8..] == IntToString(i);
    assert PlayerName(j)[8..] == IntToString(j);
  }

  /** The player built from the `i`-th draw: the hand's score is computed
      first, then its text, so an invalid value wins over an invalid suit. */
  function MakePlayer(i: int, cards: seq<CardDTO>): (r: Result<PlayerInfo>)
    ensures r.Ok? <==> CalculateScore(cards).Ok? && BuildHandString(cards).Ok?
    ensures r.Ok? ==> r.value == PlayerInfo(PlayerName(i), CalculateScore(cards).value, BuildHandString(cards).value)
    ensures CalculateScore(cards).Err? ==> r == Err(CalculateScore(cards).error)
    ensures CalculateScore(cards).Ok? && BuildHandString(cards).Err? ==> r == Err(BuildHandString(cards).error)
  {
    var score :- CalculateScore(cards);
    var hand :- BuildHandString(cards);
    Ok(PlayerInfo(PlayerName(i), score, hand))
  }

  /** One iteration of the loop for the player at (0-based) position `k`:
      the draw's answer, then the player made from it. */
  function DealStep(k: nat, answer: Result<seq<CardDTO>>): Result<PlayerInfo> {
    var cards :- answer;
    MakePlayer(k + 1, cards)
  }

  /** `distributeCards` seen through the answers its draws get: one player
      per answer, in order, and the first step that throws ends the loop
      with its exception. */
  function Deal(answers: seq<Result<seq<CardDTO>>>): (r: Result<seq<PlayerInfo>>)
    ensures answers == [] ==> r == Ok([])
  {
    TraverseIndexed(answers, DealStep)
  }

  /** The deal succeeds exactly when every step succeeds, and the `k`-th
      player is the one the `k`-th step makes. */
  lemma DealPlayers(answers: seq<Result<seq<CardDTO>>>)
    ensures Deal(answers).Ok? <==> forall k :: 0 <= k < |answers| ==> DealStep(k, answers[k]).Ok?
    ensures Deal(answers).Ok? ==> |Deal(answers).value| == |answers|
    ensures Deal(answers).Ok? ==>
      forall k :: 0 <= k < |answers| ==> DealStep(k, answers[k]) == Ok(Deal(answers).value[k])
  {
    TraverseIndexedSpec(answers, DealStep);
  }

  /** When the deal fails, its exception is that of the first step that
      fails: a draw that threw, or a hand that could not be scored or shown. */
  lemma DealError(answers: seq<Result<seq<CardDTO>>>)
    requires Deal(answers).Err?
    ensures exists k :: 0 <= k < |answers| && DealStep(k, answers[k]) == Err(Deal(answers).error) &&
                        forall j :: 0 <= j < k ==> DealStep(j, answers[j]).Ok?
  {
    TraverseIndexedSpec(answers, DealStep);
  }

  /** The `k`-th step of a deal is the player made from the `k`-th draw,
      labelled `k + 1`. */
  lemma DealStepMakesPlayer(k: nat, answer: Result<seq<CardDTO>>)
    ensures DealStep(k, answer).Ok? <==> answer.Ok? && MakePlayer(k + 1, answer.value).Ok?
    ensures DealStep(k, answer).Ok? ==> DealStep(k, answer).value.identifier == PlayerName(k + 1)
  {
  }

  /** Once a step has thrown, later draws change nothing. */
  lemma DealFailureSticks(a: seq<Result<seq<CardDTO>>>, b: seq<Result<seq<CardDTO>>>)
    requires Deal(a).Err?
    ensures Deal(a + b) == Deal(a)
  {
    TraverseIndexedFailureSticks(a, b, DealStep);
  }

  /** A successful deal extends the deal of every prefix of the draws. */
  lemma DealPrefix(a: seq<Result<seq<CardDTO>>>, b: seq<Result<seq<CardDTO>>>)
    requires Deal(a + b).Ok?
    ensures |Deal(a + b).value| == |a| + |b|
    ensures Deal(a).Ok? && Deal(a).value == Deal(a + b).value[..|a|]
  {
    if Deal(a).Err? {
      DealFailureSticks(a, b);
    }
    assert forall k :: 0 <= k < |a| ==> (a + b)[k] == a[k];
    TraverseIndexedSpec(a, DealStep);
    TraverseIndexedSpec(a + b, DealStep);
  }

  /** One more step of a deal whose earlier steps all succeeded: a player
      is appended, or the deal of all the draws fails with that step's
      exception. */
  lemma DealSnoc(answers: seq<Result<seq<CardDTO>>>, i: nat)
    requires 1 <= i <= |answers| && Deal(answers[..i - 1]).Ok?
    ensures DealStep(i - 1, answers[i - 1]).Ok? ==>
      Deal(answers[..i]) == Ok(Deal(answers[..i - 1]).value + [DealStep(i - 1, answers[i - 1]).value])
    ensures DealStep(i - 1, answers[i - 1]).Err? ==>
      Deal(answers[..i]) == Err(DealStep(i - 1, answers[i - 1]).error) &&
      Deal(answers) == Err(DealStep(i - 1, answers[i - 1]).error)
  {
    TraverseIndexedSnoc(answers, i, DealStep);
    if DealStep(i - 1, answers[i - 1]).Err? {
      TraverseIndexedFailsAt(answers, i, DealStep);
    }
  }

  /** Every dealt player is labelled by its position, "Jogador 1" first, so
      the labels are pairwise distinct. */
  lemma DealLabels(answers: seq<Result<seq<CardDTO>>>)
    requires Deal(answers).Ok?
    ensures |Deal(answers).value| == |answers|
    ensures forall k :: 0 <= k < |answers| ==> Deal(answers).value[k].identifier == PlayerName(k + 1)
  {
    DealPlayers(answers);
    forall k | 0 <= k < |answers| {
      DealStepMakesPlayer(k, answers[k]);
    }
  }

  /** A draw that came back empty gives a player with score 0 and an empty
      hand. */
  lemma EmptyDrawExample(i: int)
    ensures MakePlayer(i, []) == Ok(PlayerInfo(PlayerName(i), 0, ""))
  {
  }

  /** How many times `for (int i = 1; i <= numPlayers; i++)` runs. */
  function Count(numPlayers: int): nat {
    if numPlayers <= 0 then 0 else numPlayers
  }

  /** A deal that succeeds has one player per requested player; with no
      players requested nothing is drawn and the list is empty. */
  lemma DealCount(draw: nat -> Result<seq<CardDTO>>, from: nat, numPlayers: int, deckId: string, cardsPerHand: int)
    ensures numPlayers <= 0 ==> Deal(DealAnswers(draw, from, Count(numPlayers), deckId, cardsPerHand)) == Ok([])
    ensures Deal(DealAnswers(draw, from, Count(numPlayers), deckId, cardsPerHand)).Ok? ==>
      |Deal(DealAnswers(draw, from, Count(numPlayers), deckId, cardsPerHand)).value| ==
        if numPlayers <= 0 then 0 else numPlayers
  {
    DealPlayers(DealAnswers(draw, from, Count(numPlayers), deckId, cardsPerHand));
  }

  /** The result of the loop, seen through what each player was dealt. */
  function ResultInfos(r: Result<seq<Player>>): Result<seq<PlayerInfo>> {
    match r
    case Ok(players) => Ok(Infos(players))
    case Err(e) => Err(e)
  }

  class CardDistributorService {
    const client: DeckOfCardsClient

    constructor (client: DeckOfCardsClient)
      ensures this.client == client
    {
      this.client := client;
    }

    /** `distributeCards`: one `dealCards(deckId, cardsPerHand)` call per
        player, in order, stopping at the first exception. */
    method DistributeCards(numPlayers: Int32, cardsPerHand: Int32, deckId: string) returns (r: Result<seq<Player>>)
      modifies client
      ensures client.createCalls == old(client.createCalls)
      ensures ResultInfos(r) ==
        Deal(DealAnswers(client.draw, |old(client.dealCalls)|, Count(numPlayers), deckId, cardsPerHand))
      ensures |old(client.dealCalls)| <= |client.dealCalls| <= |old(client.dealCalls)| + Count(numPlayers)
      ensures client.dealCalls == old(client.dealCalls) +
        Repeat(DealRequest(deckId, cardsPerHand as int), |client.dealCalls| - |old(client.dealCalls)|)
      ensures r.Ok? ==> |client.dealCalls| == |old(client.dealCalls)| + Count(numPlayers)
      ensures r.Err? ==> |old(client.dealCalls)| < |client.dealCalls|
      ensures r.Err? ==>
        Deal(DealAnswers(client.draw, |old(client.dealCalls)|, Count(numPlayers), deckId, cardsPerHand)
             [..|client.dealCalls| - |old(client.dealCalls)|]).Err?
      ensures r.Err? ==>
        Deal(DealAnswers(client.draw, |old(client.dealCalls)|, Count(numPlayers), deckId, cardsPerHand)
             [..|client.dealCalls| - |old(client.dealCalls)| - 1]).Ok?
      ensures r.Ok? ==> forall p :: p in r.value ==> fresh(p) && p.gameHistory == None
    {
      var start := |client.dealCalls|;
      ghost var answers := DealAnswers(client.draw, start, Count(numPlayers), deckId, cardsPerHand);
      var players: seq<Player> := [];
      var i := 1;
      while i <= numPlayers
        invariant 1 <= i <= Count(numPlayers) + 1
        invariant client.createCalls == old(client.createCalls)
        invariant client.dealCalls == old(client.dealCalls) + Repeat(DealRequest(deckId, cardsPerHand as int), i - 1)
        invariant Deal(answers[..i - 1]) == Ok(Infos(players))
        invariant forall p :: p in players ==> fresh(p) && p.gameHistory == None
        decreases numPlayers - i
      {
        var made := DealNext(i, deckId, cardsPerHand, answers, players, old(client.dealCalls));
        if made.Err? {
          return Err(made.error);
        }
        players := players + [made.value];
        i := i + 1;
      }
      assert answers[..i - 1] == answers;
      r := Ok(players);
    }

    /** One pass of the loop, for player `i`: one more draw, then the player
        made from it. The deal of the draws so far grows by that player, or
        the deal of all the draws fails with its exception. */
    method DealNext(i: int, deckId: string, cardsPerHand: Int32, ghost answers: seq<Result<seq<CardDTO>>>,
                    ghost players: seq<Player>, ghost log: seq<DealRequest>)
      returns (made: Result<Player>)
      modifies client
      requires 1 <= i <= |answers|
      requires answers == DealAnswers(client.draw, |log|, |answers|, deckId, cardsPerHand)
      requires client.dealCalls == log + Repeat(DealRequest(deckId, cardsPerHand as int), i - 1)
      requires Deal(answers[..i - 1]) == Ok(Infos(players))
      ensures client.createCalls == old(client.createCalls)
      ensures client.dealCalls == log + Repeat(DealRequest(deckId, cardsPerHand as int), i)
      ensures made.Ok? ==> fresh(made.value) && made.value.gameHistory == None
      ensures made.Ok? ==> Deal(answers[..i]) == Ok(Infos(players + [made.value]))
      ensures made.Err? ==> Deal(answers[..i]).Err? && Deal(answers) == Err(made.error)
    {
      ghost var k := |client.dealCalls|;
      var cards := client.DealCards(deckId, cardsPerHand);
      NextAnswer(client.draw, |log|, |answers|, deckId, cardsPerHand, k, i);
      RepeatSnoc(log, DealRequest(deckId, cardsPerHand as int), i - 1);
      made := NewPlayer(i, cards);
      DealSnoc(answers, i);
      if made.Ok? {
        InfosSnoc(players, made.value);
      }
    }
  }

  /** The body of the loop for player `i`: the hand is scored, then
      shown, and the player made from the two. */
  method NewPlayer(i: int, cards: Result<seq<CardDTO>>) returns (r: Result<Player>)
    requires 1 <= i
    ensures r.Ok? ==> fresh(r.value) && r.value.gameHistory == None && DealStep(i - 1, cards) == Ok(r.value.Info())
    ensures r.Err? ==> DealStep(i - 1, cards) == Err(r.error)
  {
    if cards.Err? {
      return Err(cards.error);
    }
    var score := CalculateScore(cards.value);
    if score.Err? {
      return Err(score.error);
    }
    var hand := BuildHandString(cards.value);
    if hand.Err? {
      return Err(hand.error);
    }
    var p := new Player(PlayerName(i), score.value, hand.value);
    r := Ok(p);
  }
}
