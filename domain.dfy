/** The entities of the card game: a card as the deck provider reports it,
    a player, and the record of one game. */
module Domain {
  import opened Results

  /** A card drawn from the external deck: its rank symbol ("ACE", "KING",
      "10", ...) and its suit code ("HEARTS", ...), both as received. */
  datatype CardDTO = CardDTO(value: string, suit: string)

  /** The moment a game is recorded; the model receives it as an input. */
  type Timestamp = int

  /** A game's record. `id` is `None` until the repository assigns one. */
  datatype GameHistory = GameHistory(
    id: Option<int>,
    playerCount: int,
    cardsPerPlayer: int,
    deckId: string,
    winner: string,
    highestScore: int,
    gameTimestamp: Timestamp)

  /** What a player was dealt: label, score and hand description. */
  datatype PlayerInfo = PlayerInfo(identifier: string, score: int, hand: string)

  /** A player entity. Its label, score and hand are fixed when it is dealt;
      the back-reference to its game is set when the game is saved. */
  class Player {
    const identifier: string
    const score: int
    const hand: string
    var gameHistory: Option<GameHistory>

    constructor (identifier: string, score: int, hand: string)
      ensures Info() == PlayerInfo(identifier, score, hand)
      ensures gameHistory == None
    {
      this.identifier := identifier;
      this.score := score;
      this.hand := hand;
      gameHistory := None;
    }

    function Info(): PlayerInfo {
      PlayerInfo(identifier, score, hand)
    }
  }

  /** What each player of a list was dealt, in order. */
  function Infos(players: seq<Player>): (r: seq<PlayerInfo>)
    ensures |r| == |players|
    ensures forall i :: 0 <= i < |players| ==> r[i] == players[i].Info()
  {
    seq(|players|, i requires 0 <= i < |players| => players[i].Info())
  }

  /** Adding a player to the end of a list adds what it was dealt to the
      end of the infos. */
  lemma InfosSnoc(players: seq<Player>, p: Player)
    ensures Infos(players + [p]) == Infos(players) + [p.Info()]
  {
    assert forall i :: 0 <= i < |players| ==> (players + [p])[i] == players[i];
  }
}
