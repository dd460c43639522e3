/** Recording a finished game (service/GamePersistenceService.java): the
    game's record is saved, every player is pointed at it and the players are
    saved; saved games are looked up by id. */
module GamePersistence {
  import opened Results
  import opened JavaInt
  import opened Domain
  import opened GameResult
  import opened Repositories

  /** The record `saveGameHistory` builds before saving it; `now` stands for
      `LocalDateTime.now()`. */
  function NewRecord(numPlayers: Int32, cardsPerHand: Int32, deckId: string, winner: string,
                     players: seq<PlayerInfo>, now: Timestamp): (h: GameHistory)
    ensures h.id == None
    ensures players == [] ==> h.highestScore == 0
    ensures players != [] ==> h.highestScore >= players[0].score
  {
    GameHistory(None, numPlayers as int, cardsPerHand as int, deckId, winner, HighestScore(players), now)
  }

  /** The record carries the game's parameters as given, and as its highest
      score the best score of the players, 0 when there are none. */
  lemma NewRecordFields(numPlayers: Int32, cardsPerHand: Int32, deckId: string, winner: string,
                        players: seq<PlayerInfo>, now: Timestamp)
    ensures var h := NewRecord(numPlayers, cardsPerHand, deckId, winner, players, now);
      && h.id == None && h.playerCount == numPlayers as int && h.cardsPerPlayer == cardsPerHand as int
      && h.deckId == deckId && h.winner == winner && h.gameTimestamp == now
      && (players == [] ==> h.highestScore == 0)
      && (players != [] ==> exists i :: 0 <= i < |players| && players[i].score == h.highestScore)
      && (forall i :: 0 <= i < |players| ==> players[i].score <= h.highestScore)
  {
    HighestScoreIsMax(players);
  }

  /** `players.forEach(player -> player.setGameHistory(gameHistory))`. */
  method AssignGameHistory(players: seq<Player>, h: GameHistory)
    modifies set p: Player | p in players
    ensures forall p :: p in players ==> p.gameHistory == Some(h)
  {
    for i := 0 to |players|
      invariant forall p :: p in players[..i] ==> p.gameHistory == Some(h)
    {
      players[i].gameHistory := Some(h);
      assert players[..i + 1] == players[..i] + [players[i]];
    }
    assert players[..|players|] == players;
  }

  /** The message of `GameNotFoundException` for an unknown id. */
  function NotFoundMessage(gameId: int): string {
    "Jogo com ID " + IntToString(gameId) + " não encontrado."
  }

  class GamePersistenceService {
    const gameHistoryRepository: GameHistoryRepository
    const playerRepository: PlayerRepository

    constructor (gameHistoryRepository: GameHistoryRepository, playerRepository: PlayerRepository)
      ensures this.gameHistoryRepository == gameHistoryRepository
      ensures this.playerRepository == playerRepository
    {
      this.gameHistoryRepository := gameHistoryRepository;
      this.playerRepository := playerRepository;
    }

    /** `saveGameHistory`: the new record is saved and gets the next id,
        then the players are pointed at the saved record and saved in one
        batch. */
    method SaveGameHistory(numPlayers: Int32, cardsPerHand: Int32, deckId: string, winner: string,
                           players: seq<Player>, now: Timestamp)
      returns (saved: GameHistory)
      modifies gameHistoryRepository, playerRepository, set p: Player | p in players
      requires gameHistoryRepository.Valid()
      ensures gameHistoryRepository.Valid()
      ensures saved == NewRecord(numPlayers, cardsPerHand, deckId, winner, Infos(players), now)
                         .(id := Some(|old(gameHistoryRepository.histories)| + 1))
      ensures gameHistoryRepository.histories == old(gameHistoryRepository.histories) + [saved]
      ensures gameHistoryRepository.FindById(saved.id.value) == Some(saved)
      ensures forall p :: p in players ==> p.gameHistory == Some(saved)
      ensures playerRepository.batches == old(playerRepository.batches) + [RowsOf(Infos(players), saved)]
    {
      var h := NewRecord(numPlayers, cardsPerHand, deckId, winner, Infos(players), now);
      saved := gameHistoryRepository.Save(h);
      SavePlayers(players, saved);
    }

    /** `savePlayers`: every player refers to `h`, then the list is saved. */
    method SavePlayers(players: seq<Player>, h: GameHistory)
      modifies playerRepository, set p: Player | p in players
      ensures forall p :: p in players ==> p.gameHistory == Some(h)
      ensures playerRepository.batches == old(playerRepository.batches) + [RowsOf(Infos(players), h)]
    {
      AssignGameHistory(players, h);
      playerRepository.SaveAll(players);
      RowsOfAssigned(players, h);
    }

    /** `getGameHistoryById`: the saved game with that id, or
        `GameNotFoundException`. */
    method GetGameHistoryById(gameId: int) returns (r: Result<GameHistory>)
      requires gameHistoryRepository.Valid()
      ensures r.Ok? <==> exists i :: 0 <= i < |gameHistoryRepository.histories| &&
                                     gameHistoryRepository.histories[i].id == Some(gameId)
      ensures r.Ok? ==> r.value in gameHistoryRepository.histories && r.value.id == Some(gameId)
      ensures r.Err? ==> r.error == GameNotFound(NotFoundMessage(gameId))
    {
      match gameHistoryRepository.FindById(gameId)
      case Some(h) => r := Ok(h);
      case None => r := Err(GameNotFound(NotFoundMessage(gameId)));
    }

    /** `getAllGameHistories`: every saved game, in order of saving. */
    method GetAllGameHistories() returns (all: seq<GameHistory>)
      ensures all == gameHistoryRepository.histories
    {
      all := gameHistoryRepository.histories;
    }
  }
}
