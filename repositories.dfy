/** The two JPA repositories the services write to
    (repository/GameHistoryRepository.java, repository/PlayerRepository.java),
    as in-memory stores: the game table hands out the ids 1, 2, 3, ... in
    order of saving, and the player table keeps every `saveAll` batch. */
module Repositories {
  import opened Results
  import opened Domain

  /** The stored games carry the ids 1, 2, ... in the order they were
      saved. */
  predicate IdsArePositions(histories: seq<GameHistory>) {
    forall i :: 0 <= i < |histories| ==> histories[i].id == Some(i + 1)
  }

  /** `findById(id)` over the stored games. */
  function Lookup(histories: seq<GameHistory>, id: int): (r: Option<GameHistory>)
    requires IdsArePositions(histories)
    ensures r.Some? <==> exists i :: 0 <= i < |histories| && histories[i].id == Some(id)
    ensures r.Some? ==> r.value in histories && r.value.id == Some(id)
  {
    if 1 <= id <= |histories| then Some(histories[id - 1]) else None
  }

  /** `save(h)` of a new game: it gets the next id and is appended. */
  function Store(histories: seq<GameHistory>, h: GameHistory): seq<GameHistory> {
    histories + [h.(id := Some(|histories| + 1))]
  }

  /** Saving keeps the ids in order, makes the new game findable under its
      id and leaves every other lookup as it was. */
  lemma StoreThenLookup(histories: seq<GameHistory>, h: GameHistory, id: int)
    requires IdsArePositions(histories)
    ensures IdsArePositions(Store(histories, h))
    ensures Lookup(Store(histories, h), |histories| + 1) == Some(h.(id := Some(|histories| + 1)))
    ensures id != |histories| + 1 ==> Lookup(Store(histories, h), id) == Lookup(histories, id)
  {
  }

  /** What the player table holds for one saved player: what it was dealt
      and the game it belongs to. */
  datatype PlayerRow = PlayerRow(info: PlayerInfo, gameHistory: Option<GameHistory>)

  /** The rows `saveAll(players)` writes: each player as it is at that
      moment. */
  function Rows(players: seq<Player>): (r: seq<PlayerRow>)
    reads players
    ensures |r| == |players|
    ensures forall i :: 0 <= i < |players| ==> r[i] == PlayerRow(players[i].Info(), players[i].gameHistory)
  {
    seq(|players|, i requires 0 <= i < |players| reads players => PlayerRow(players[i].Info(), players[i].gameHistory))
  }

  /** The rows of players who were dealt `infos` and all belong to game `h`. */
  function RowsOf(infos: seq<PlayerInfo>, h: GameHistory): (r: seq<PlayerRow>)
    ensures |r| == |infos|
    ensures forall i :: 0 <= i < |infos| ==> r[i] == PlayerRow(infos[i], Some(h))
  {
    seq(|infos|, i requires 0 <= i < |infos| => PlayerRow(infos[i], Some(h)))
  }

  /** Players who all refer to `h` are saved as rows of game `h`. */
  lemma RowsOfAssigned(players: seq<Player>, h: GameHistory)
    requires forall p :: p in players ==> p.gameHistory == Some(h)
    ensures Rows(players) == RowsOf(Infos(players), h)
  {
    assert forall i :: 0 <= i < |players| ==> players[i] in players;
  }

  class GameHistoryRepository {
    var histories: seq<GameHistory>

    predicate Valid()
      reads this
    {
      IdsArePositions(histories)
    }

    constructor ()
      ensures histories == [] && Valid()
    {
      histories := [];
    }

    /** `save` of a game that has no id yet. */
    method Save(h: GameHistory) returns (saved: GameHistory)
      modifies this
      requires Valid()
      ensures Valid()
      ensures histories == Store(old(histories), h)
      ensures saved == h.(id := Some(|old(histories)| + 1))
      ensures FindById(|histories|) == Some(saved)
    {
      StoreThenLookup(histories, h, 0);
      saved := h.(id := Some(|histories| + 1));
      histories := histories + [saved];
    }

    function FindById(id: int): Option<GameHistory>
      reads this
      requires Valid()
    {
      Lookup(histories, id)
    }
  }

  class PlayerRepository {
    /** The rows written by each `saveAll` call, in order. */
    var batches: seq<seq<PlayerRow>>

    constructor ()
      ensures batches == []
    {
      batches := [];
    }

    method SaveAll(players: seq<Player>)
      modifies this
      ensures batches == old(batches) + [Rows(players)]
    {
      batches := batches + [Rows(players)];
    }
  }
}
