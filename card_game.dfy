/** The game service (service/CardGameService.java): `playGame` checks the
    counts, sizes and creates the deck, deals, picks the winner and records
    the game. The class keeps private copies of the dealing, scoring, hand,
    winner and saving code of the split-out services: the pure copies are
    word for word those services' functions and are used from there; the
    copies that change state are methods of this class, proved against the
    same specification functions as the originals. */
module CardGame {
  import opened Results
  import opened JavaInt
  import opened Domain
  import opened InputValidator
  import opened DeckCalculator
  import opened DeckProvider
  import opened CardDistributor
  import opened GameResult
  import opened Repositories
  import opened GamePersistence

  /** What `playGame` returns, given the provider's answers to the
      `createDeck` call number `createFrom` and to the `dealCards` calls from
      number `dealFrom` on, the number of games already saved, and the
      clock. */
  function GameOutcome(numPlayers: Int32, cardsPerHand: Int32,
                       newDeck: nat -> Result<string>, draw: nat -> Result<seq<CardDTO>>,
                       createFrom: nat, dealFrom: nat, stored: nat, now: Timestamp): (r: Result<GameHistory>)
    ensures ValidateInputs(numPlayers, cardsPerHand).Fail? ==> r == Err(ValidateInputs(numPlayers, cardsPerHand).error)
    ensures r.Ok? ==> numPlayers >= 1 && cardsPerHand >= 1 && r.value.id == Some(stored + 1)
  {
    match ValidateInputs(numPlayers, cardsPerHand)
    case Fail(e) => Err(e)
    case Pass =>
      var deckId :- CreateAnswer(newDeck, createFrom, CalculateDecks(numPlayers, cardsPerHand));
      var players :- Deal(DealAnswers(draw, dealFrom, Count(numPlayers), deckId, cardsPerHand));
      Ok(NewRecord(numPlayers, cardsPerHand, deckId, DetermineWinner(players), players, now).(id := Some(stored + 1)))
  }

  /** Counts below 1 are rejected before anything else happens. */
  lemma InvalidCountsRejected(numPlayers: Int32, cardsPerHand: Int32,
                              newDeck: nat -> Result<string>, draw: nat -> Result<seq<CardDTO>>,
                              createFrom: nat, dealFrom: nat, stored: nat, now: Timestamp)
    requires numPlayers < 1 || cardsPerHand < 1
    ensures GameOutcome(numPlayers, cardsPerHand, newDeck, draw, createFrom, dealFrom, stored, now) ==
      Err(IllegalArgument(InvalidInputMessage))
  {
  }

  /** A recorded game: the deck the provider created, one player per
      requested player, labelled in order, and a record that carries the
      counts, that deck, the winner of those players, their best score and
      the next id. */
  lemma RecordedGame(numPlayers: Int32, cardsPerHand: Int32,
                     newDeck: nat -> Result<string>, draw: nat -> Result<seq<CardDTO>>,
                     createFrom: nat, dealFrom: nat, stored: nat, now: Timestamp)
    requires GameOutcome(numPlayers, cardsPerHand, newDeck, draw, createFrom, dealFrom, stored, now).Ok?
    ensures var h := GameOutcome(numPlayers, cardsPerHand, newDeck, draw, createFrom, dealFrom, stored, now).value;
      && numPlayers >= 1 && cardsPerHand >= 1
      && newDeck(createFrom) == Ok(h.deckId)
      && h.id == Some(stored + 1) && h.playerCount == numPlayers as int && h.cardsPerPlayer == cardsPerHand as int
      && h.gameTimestamp == now
      && var players := Deal(DealAnswers(draw, dealFrom, numPlayers as int, h.deckId, cardsPerHand));
         && players.Ok? && |players.value| == numPlayers as int
         && (forall k :: 0 <= k < numPlayers as int ==> players.value[k].identifier == PlayerName(k + 1))
         && h.winner == DetermineWinner(players.value)
         && (forall k :: 0 <= k < numPlayers as int ==> players.value[k].score <= h.highestScore)
         && (exists k :: 0 <= k < numPlayers as int && players.value[k].score == h.highestScore)
  {
    var h := GameOutcome(numPlayers, cardsPerHand, newDeck, draw, createFrom, dealFrom, stored, now).value;
    assert numPlayers >= 1 && cardsPerHand >= 1;
    assert CreateAnswer(newDeck, createFrom, CalculateDecks(numPlayers, cardsPerHand)) == Ok(h.deckId);
    var answers := DealAnswers(draw, dealFrom, numPlayers as int, h.deckId, cardsPerHand);
    assert Count(numPlayers) == numPlayers as int;
    var players := Deal(answers).value;
    assert h == NewRecord(numPlayers, cardsPerHand, h.deckId, DetermineWinner(players), players, now).(id := Some(stored + 1));
    NewRecordFields(numPlayers, cardsPerHand, h.deckId, DetermineWinner(players), players, now);
    DealLabels(answers);
  }

  /** Once the deck is created, the outcome is decided by the deal. */
  lemma OutcomeWithDeck(numPlayers: Int32, cardsPerHand: Int32,
                        newDeck: nat -> Result<string>, draw: nat -> Result<seq<CardDTO>>,
                        createFrom: nat, dealFrom: nat, stored: nat, now: Timestamp, deckId: string)
    requires numPlayers >= 1 && cardsPerHand >= 1
    requires CreateAnswer(newDeck, createFrom, CalculateDecks(numPlayers, cardsPerHand)) == Ok(deckId)
    ensures GameOutcome(numPlayers, cardsPerHand, newDeck, draw, createFrom, dealFrom, stored, now) ==
      match Deal(DealAnswers(draw, dealFrom, Count(numPlayers), deckId, cardsPerHand))
      case Err(e) => Err(e)
      case Ok(players) =>
        Ok(NewRecord(numPlayers, cardsPerHand, deckId, DetermineWinner(players), players, now).(id := Some(stored + 1)))
  {
  }

  /** A deck that could not be created, or a hand that could not be dealt,
      is the game's exception. */
  lemma FailedGame(numPlayers: Int32, cardsPerHand: Int32,
                   newDeck: nat -> Result<string>, draw: nat -> Result<seq<CardDTO>>,
                   createFrom: nat, dealFrom: nat, stored: nat, now: Timestamp)
    requires numPlayers >= 1 && cardsPerHand >= 1
    ensures CreateAnswer(newDeck, createFrom, CalculateDecks(numPlayers, cardsPerHand)).Err? ==>
      GameOutcome(numPlayers, cardsPerHand, newDeck, draw, createFrom, dealFrom, stored, now) ==
      Err(CreateAnswer(newDeck, createFrom, CalculateDecks(numPlayers, cardsPerHand)).error)
    ensures CreateAnswer(newDeck, createFrom, CalculateDecks(numPlayers, cardsPerHand)).Ok? ==>
      var deckId := CreateAnswer(newDeck, createFrom, CalculateDecks(numPlayers, cardsPerHand)).value;
      var dealt := Deal(DealAnswers(draw, dealFrom, numPlayers as int, deckId, cardsPerHand));
      dealt.Err? ==> GameOutcome(numPlayers, cardsPerHand, newDeck, draw, createFrom, dealFrom, stored, now) == Err(dealt.error)
  {
  }

  /** The message of the `IllegalArgumentException` for an unknown id. */
  function UnknownGameMessage(gameId: int): string {
    "Jogo não encontrado com ID: " + IntToString(gameId)
  }

  class CardGameService {
    const deckOfCardsClient: DeckOfCardsClient
    const gameHistoryRepository: GameHistoryRepository
    const playerRepository: PlayerRepository

    constructor (deckOfCardsClient: DeckOfCardsClient, gameHistoryRepository: GameHistoryRepository,
                 playerRepository: PlayerRepository)
      ensures this.deckOfCardsClient == deckOfCardsClient
      ensures this.gameHistoryRepository == gameHistoryRepository
      ensures this.playerRepository == playerRepository
    {
      this.deckOfCardsClient := deckOfCardsClient;
      this.gameHistoryRepository := gameHistoryRepository;
      this.playerRepository := playerRepository;
    }

    /** `playGame`. Invalid counts leave the provider and the repositories
        untouched; otherwise one deck of the computed size is requested. A
        game that throws saves nothing; a game that completes is saved with
        the next id and its players are saved once, all referring to it. */
    method PlayGame(numPlayers: Int32, cardsPerHand: Int32, now: Timestamp) returns (r: Result<GameHistory>)
      modifies deckOfCardsClient, gameHistoryRepository, playerRepository
      requires gameHistoryRepository.Valid()
      ensures gameHistoryRepository.Valid()
      ensures r == GameOutcome(numPlayers, cardsPerHand, deckOfCardsClient.newDeck, deckOfCardsClient.draw,
                               |old(deckOfCardsClient.createCalls)|, |old(deckOfCardsClient.dealCalls)|,
                               |old(gameHistoryRepository.histories)|, now)
      ensures ValidateInputs(numPlayers, cardsPerHand).Fail? ==>
        deckOfCardsClient.createCalls == old(deckOfCardsClient.createCalls) &&
        deckOfCardsClient.dealCalls == old(deckOfCardsClient.dealCalls)
      ensures ValidateInputs(numPlayers, cardsPerHand).Pass? ==>
        deckOfCardsClient.createCalls == old(deckOfCardsClient.createCalls) + [CalculateDecks(numPlayers, cardsPerHand) as int]
      ensures (ValidateInputs(numPlayers, cardsPerHand).Pass? &&
               CreateAnswer(deckOfCardsClient.newDeck, |old(deckOfCardsClient.createCalls)|,
                            CalculateDecks(numPlayers, cardsPerHand)).Err?) ==>
        deckOfCardsClient.dealCalls == old(deckOfCardsClient.dealCalls)
      ensures (ValidateInputs(numPlayers, cardsPerHand).Pass? &&
               CreateAnswer(deckOfCardsClient.newDeck, |old(deckOfCardsClient.createCalls)|,
                            CalculateDecks(numPlayers, cardsPerHand)).Ok?) ==>
        |old(deckOfCardsClient.dealCalls)| <= |deckOfCardsClient.dealCalls| <= |old(deckOfCardsClient.dealCalls)| + Count(numPlayers) &&
        deckOfCardsClient.dealCalls == old(deckOfCardsClient.dealCalls) +
          Repeat(DealRequest(CreateAnswer(deckOfCardsClient.newDeck, |old(deckOfCardsClient.createCalls)|,
                                          CalculateDecks(numPlayers, cardsPerHand)).value, cardsPerHand as int),
                 |deckOfCardsClient.dealCalls| - |old(deckOfCardsClient.dealCalls)|)
      ensures r.Ok? ==>
        deckOfCardsClient.dealCalls == old(deckOfCardsClient.dealCalls) +
          Repeat(DealRequest(r.value.deckId, cardsPerHand as int), Count(numPlayers))
      ensures r.Err? ==>
        gameHistoryRepository.histories == old(gameHistoryRepository.histories) &&
        playerRepository.batches == old(playerRepository.batches)
      ensures r.Ok? ==> gameHistoryRepository.histories == old(gameHistoryRepository.histories) + [r.value]
      ensures r.Ok? ==>
        playerRepository.batches == old(playerRepository.batches) +
          [RowsOf(Deal(DealAnswers(deckOfCardsClient.draw, |old(deckOfCardsClient.dealCalls)|, Count(numPlayers),
                                   r.value.deckId, cardsPerHand)).value, r.value)]
    {
      ghost var createFrom, dealFrom := |deckOfCardsClient.createCalls|, |deckOfCardsClient.dealCalls|;
      var check := ValidateInputs(numPlayers, cardsPerHand);
      if check.Fail? {
        return Err(check.error);
      }
      var requiredDecks := CalculateDecks(numPlayers, cardsPerHand);
      var deck := deckOfCardsClient.CreateDeck(requiredDecks);
      if deck.Err? {
        return Err(deck.error);
      }
      OutcomeWithDeck(numPlayers, cardsPerHand, deckOfCardsClient.newDeck, deckOfCardsClient.draw,
                      createFrom, dealFrom, |gameHistoryRepository.histories|, now, deck.value);
      var dealt := DistributeCards(numPlayers, cardsPerHand, deck.value);
      if dealt.Err? {
        return Err(dealt.error);
      }
      var players := dealt.value;
      var winner := DetermineWinner(Infos(players));
      var saved := SaveGameHistory(numPlayers, cardsPerHand, deck.value, winner, players, now);
      r := Ok(saved);
    }

    /** The private `distributeCards`: the same loop as
        `CardDistributorService.distributeCards`, with the same outcome for
        the same draws. */
    method DistributeCards(numPlayers: Int32, cardsPerHand: Int32, deckId: string) returns (r: Result<seq<Player>>)
      modifies deckOfCardsClient
      ensures deckOfCardsClient.createCalls == old(deckOfCardsClient.createCalls)
      ensures ResultInfos(r) ==
        Deal(DealAnswers(deckOfCardsClient.draw, |old(deckOfCardsClient.dealCalls)|, Count(numPlayers), deckId, cardsPerHand))
      ensures |old(deckOfCardsClient.dealCalls)| <= |deckOfCardsClient.dealCalls| <=
        |old(deckOfCardsClient.dealCalls)| + Count(numPlayers)
      ensures deckOfCardsClient.dealCalls == old(deckOfCardsClient.dealCalls) +
        Repeat(DealRequest(deckId, cardsPerHand as int), |deckOfCardsClient.dealCalls| - |old(deckOfCardsClient.dealCalls)|)
      ensures r.Ok? ==> |deckOfCardsClient.dealCalls| == |old(deckOfCardsClient.dealCalls)| + Count(numPlayers)
      ensures r.Err? ==> |old(deckOfCardsClient.dealCalls)| < |deckOfCardsClient.dealCalls|
      ensures r.Err? ==>
        Deal(DealAnswers(deckOfCardsClient.draw, |old(deckOfCardsClient.dealCalls)|, Count(numPlayers), deckId, cardsPerHand)
             [..|deckOfCardsClient.dealCalls| - |old(deckOfCardsClient.dealCalls)|]).Err?
      ensures r.Err? ==>
        Deal(DealAnswers(deckOfCardsClient.draw, |old(deckOfCardsClient.dealCalls)|, Count(numPlayers), deckId, cardsPerHand)
             [..|deckOfCardsClient.dealCalls| - |old(deckOfCardsClient.dealCalls)| - 1]).Ok?
      ensures r.Ok? ==> forall p :: p in r.value ==> fresh(p) && p.gameHistory == None
    {
      var start := |deckOfCardsClient.dealCalls|;
      ghost var answers := DealAnswers(deckOfCardsClient.draw, start, Count(numPlayers), deckId, cardsPerHand);
      var players: seq<Player> := [];
      var i := 1;
      while i <= numPlayers
        invariant 1 <= i <= Count(numPlayers) + 1
        invariant deckOfCardsClient.createCalls == old(deckOfCardsClient.createCalls)
        invariant deckOfCardsClient.dealCalls ==
          old(deckOfCardsClient.dealCalls) + Repeat(DealRequest(deckId, cardsPerHand as int), i - 1)
        invariant Deal(answers[..i - 1]) == Ok(Infos(players))
        invariant forall p :: p in players ==> fresh(p) && p.gameHistory == None
        decreases numPlayers - i
      {
        var made := DealNext(i, deckId, cardsPerHand, answers, players, old(deckOfCardsClient.dealCalls));
        if made.Err? {
          return Err(made.error);
        }
        players := players + [made.value];
        i := i + 1;
      }
      assert answers[..i - 1] == answers;
      r := Ok(players);
    }

    /** One pass of the private loop, for player `i`. */
    method DealNext(i: int, deckId: string, cardsPerHand: Int32, ghost answers: seq<Result<seq<CardDTO>>>,
                    ghost players: seq<Player>, ghost log: seq<DealRequest>)
      returns (made: Result<Player>)
      modifies deckOfCardsClient
      requires 1 <= i <= |answers|
      requires answers == DealAnswers(deckOfCardsClient.draw, |log|, |answers|, deckId, cardsPerHand)
      requires deckOfCardsClient.dealCalls == log + Repeat(DealRequest(deckId, cardsPerHand as int), i - 1)
      requires Deal(answers[..i - 1]) == Ok(Infos(players))
      ensures deckOfCardsClient.createCalls == old(deckOfCardsClient.createCalls)
      ensures deckOfCardsClient.dealCalls == log + Repeat(DealRequest(deckId, cardsPerHand as int), i)
      ensures made.Ok? ==> fresh(made.value) && made.value.gameHistory == None
      ensures made.Ok? ==> Deal(answers[..i]) == Ok(Infos(players + [made.value]))
      ensures made.Err? ==> Deal(answers[..i]).Err? && Deal(answers) == Err(made.error)
    {
      ghost var k := |deckOfCardsClient.dealCalls|;
      var cards := deckOfCardsClient.DealCards(deckId, cardsPerHand);
      NextAnswer(deckOfCardsClient.draw, |log|, |answers|, deckId, cardsPerHand, k, i);
      RepeatSnoc(log, DealRequest(deckId, cardsPerHand as int), i - 1);
      made := NewPlayer(i, cards);
      DealSnoc(answers, i);
      if made.Ok? {
        InfosSnoc(players, made.value);
      }
    }

    /** The private `saveGameHistory`: the same steps as
        `GamePersistenceService.saveGameHistory`. */
    method SaveGameHistory(numPlayers: Int32, cardsPerHand: Int32, deckId: string, winner: string,
                           players: seq<Player>, now: Timestamp)
      returns (saved: GameHistory)
      modifies gameHistoryRepository, playerRepository, set p: Player | p in players
      requires gameHistoryRepository.Valid()
      ensures gameHistoryRepository.Valid()
      ensures saved == NewRecord(numPlayers, cardsPerHand, deckId, winner, Infos(players), now)
                         .(id := Some(|old(gameHistoryRepository.histories)| + 1))
      ensures gameHistoryRepository.histories == old(gameHistoryRepository.histories) + [saved]
      ensures forall p :: p in players ==> p.gameHistory == Some(saved)
      ensures playerRepository.batches == old(playerRepository.batches) + [RowsOf(Infos(players), saved)]
    {
      var h := NewRecord(numPlayers, cardsPerHand, deckId, winner, Infos(players), now);
      saved := gameHistoryRepository.Save(h);
      SavePlayers(players, saved);
    }

    /** The private `savePlayers`. */
    method SavePlayers(players: seq<Player>, h: GameHistory)
      modifies playerRepository, set p: Player | p in players
      ensures forall p :: p in players ==> p.gameHistory == Some(h)
      ensures playerRepository.batches == old(playerRepository.batches) + [RowsOf(Infos(players), h)]
    {
      AssignGameHistory(players, h);
      playerRepository.SaveAll(players);
      RowsOfAssigned(players, h);
    }

    /** `getGameHistoryById`: unlike the persistence service, an unknown id
        raises `IllegalArgumentException`. */
    method GetGameHistoryById(gameId: int) returns (r: Result<GameHistory>)
      requires gameHistoryRepository.Valid()
      ensures r.Ok? <==> exists i :: 0 <= i < |gameHistoryRepository.histories| &&
                                     gameHistoryRepository.histories[i].id == Some(gameId)
      ensures r.Ok? ==> r.value in gameHistoryRepository.histories && r.value.id == Some(gameId)
      ensures r.Err? ==> r.error == IllegalArgument(UnknownGameMessage(gameId))
    {
      match gameHistoryRepository.FindById(gameId)
      case Some(h) => r := Ok(h);
      case None => r := Err(IllegalArgument(UnknownGameMessage(gameId)));
    }

    /** `getAllGameHistories`: every saved game, in order of saving. */
    method GetAllGameHistories() returns (all: seq<GameHistory>)
      ensures all == gameHistoryRepository.histories
    {
      all := gameHistoryRepository.histories;
    }
  }
}
