/** The outcome of a game (service/GameResultService.java): the highest
    score and the player or players who reached it. */
module GameResult {
  import opened JavaText
  import opened Domain

  const WinnerSeparator: string := ", "

  /** `players.stream().mapToInt(Player::getScore).max().orElse(0)`. */
  function HighestScore(players: seq<PlayerInfo>): (top: int)
    ensures players == [] ==> top == 0
    ensures players != [] ==> top >= players[0].score
  {
    if players == [] then 0
    else if |players| == 1 then players[0].score
    else
      var rest := HighestScore(players[1..]);
      if players[0].score >= rest then players[0].score else rest
  }

  /** No players give 0; otherwise the highest score is reached by some
      player and no player scores more. */
  lemma {:induction false} HighestScoreIsMax(players: seq<PlayerInfo>)
    ensures players == [] ==> HighestScore(players) == 0
    ensures players != [] ==> exists i :: 0 <= i < |players| && players[i].score == HighestScore(players)
    ensures forall i :: 0 <= i < |players| ==> players[i].score <= HighestScore(players)
  {
    if |players| == 1 {
      assert players[0].score == HighestScore(players);
    } else if |players| > 1 {
      var tail := players[1..];
      HighestScoreIsMax(tail);
      var j :| 0 <= j < |tail| && tail[j].score == HighestScore(tail);
      if players[0].score < HighestScore(tail) {
        assert players[j + 1].score == HighestScore(players);
      } else {
        assert players[0].score == HighestScore(players);
      }
      forall i | 1 <= i < |players|
        ensures players[i].score <= HighestScore(players)
      {
        assert players[i] == tail[i - 1];
      }
    }
  }

  /** The identifiers of the players whose score is `top`, in input order:
      `filter(player -> player.getScore() == top).map(Player::getIdentifier)`. */
  function WinnerNames(players: seq<PlayerInfo>, top: int): (names: seq<string>)
    ensures |names| <= |players|
  {
    if players == [] then []
    else (if players[0].score == top then [players[0].identifier] else []) + WinnerNames(players[1..], top)
  }

  /** The filter keeps the input order: filtering a concatenation
      concatenates the filtered parts. */
  lemma {:induction false} WinnerNamesAppend(a: seq<PlayerInfo>, b: seq<PlayerInfo>, top: int)
    ensures WinnerNames(a + b, top) == WinnerNames(a, top) + WinnerNames(b, top)
  {
    if a == [] {
      assert a + b == b;
    } else {
      assert (a + b)[1..] == a[1..] + b;
      WinnerNamesAppend(a[1..], b, top);
    }
  }

  /** A name is kept exactly when some player with that name has score
      `top`. */
  lemma {:induction false} WinnerNamesMembers(players: seq<PlayerInfo>, top: int, name: string)
    ensures name in WinnerNames(players, top) <==>
      exists i :: 0 <= i < |players| && players[i].score == top && players[i].identifier == name
  {
    if players != [] {
      var tail := players[1..];
      WinnerNamesMembers(tail, top, name);
      if name in WinnerNames(tail, top) {
        var i :| 0 <= i < |tail| && tail[i].score == top && tail[i].identifier == name;
        assert players[i + 1] == tail[i];
      }
      if exists i :: 0 <= i < |players| && players[i].score == top && players[i].identifier == name {
        var i :| 0 <= i < |players| && players[i].score == top && players[i].identifier == name;
        if i > 0 {
          assert tail[i - 1] == players[i];
        }
      }
    }
  }

  /** When nobody has score `top`, nobody is kept. */
  lemma {:induction false} WinnerNamesNone(players: seq<PlayerInfo>, top: int)
    requires forall i :: 0 <= i < |players| ==> players[i].score != top
    ensures WinnerNames(players, top) == []
  {
    if players != [] {
      assert forall i :: 0 <= i < |players| - 1 ==> players[1..][i] == players[i + 1];
      WinnerNamesNone(players[1..], top);
    }
  }

  /** `determineWinner`: the identifiers of every player with the highest
      score, in input order, joined by ", ". */
  function DetermineWinner(players: seq<PlayerInfo>): (winner: string)
    ensures players == [] ==> winner == ""
  {
    Join(WinnerNames(players, HighestScore(players)), WinnerSeparator)
  }

  /** Somebody wins every game with players, and a game without players has
      the empty winner. */
  lemma SomebodyWins(players: seq<PlayerInfo>)
    ensures players == [] ==> DetermineWinner(players) == ""
    ensures players != [] ==> WinnerNames(players, HighestScore(players)) != []
  {
    HighestScoreIsMax(players);
    if players != [] {
      var i :| 0 <= i < |players| && players[i].score == HighestScore(players);
      WinnerNamesMembers(players, HighestScore(players), players[i].identifier);
    }
  }

  /** With distinct identifiers, a player is among the winners exactly when
      its score is the highest. */
  lemma WinnerIffTopScore(players: seq<PlayerInfo>, i: int)
    requires 0 <= i < |players|
    requires forall j, k :: 0 <= j < k < |players| ==> players[j].identifier != players[k].identifier
    ensures players[i].identifier in WinnerNames(players, HighestScore(players)) <==>
      players[i].score == HighestScore(players)
  {
    WinnerNamesMembers(players, HighestScore(players), players[i].identifier);
  }

  /** When exactly one player has score `top`, only its name is kept. */
  lemma {:induction false} OnlyOneKept(players: seq<PlayerInfo>, top: int, i: int)
    requires 0 <= i < |players| && players[i].score == top
    requires forall j :: 0 <= j < |players| && j != i ==> players[j].score != top
    ensures WinnerNames(players, top) == [players[i].identifier]
  {
    var before, after := players[..i], players[i + 1..];
    forall j | 0 <= j < |before|
      ensures before[j].score != top
    {
      assert before[j] == players[j];
    }
    forall j | 0 <= j < |after|
      ensures after[j].score != top
    {
      assert after[j] == players[i + 1 + j];
    }
    WinnerNamesNone(before, top);
    WinnerNamesNone(after, top);
    assert WinnerNames([players[i]], top) == [players[i].identifier] by {
      assert [players[i]][1..] == [];
    }
    assert players == before + [players[i]] + after;
    WinnerNamesAppend(before + [players[i]], after, top);
    WinnerNamesAppend(before, [players[i]], top);
  }

  /** A player who alone has the highest score is the whole result. */
  lemma UniqueWinner(players: seq<PlayerInfo>, i: int)
    requires 0 <= i < |players| && players[i].score == HighestScore(players)
    requires forall j :: 0 <= j < |players| && j != i ==> players[j].score != HighestScore(players)
    ensures DetermineWinner(players) == players[i].identifier
  {
    OnlyOneKept(players, HighestScore(players), i);
  }

  /** A single player always wins. */
  lemma SinglePlayerWins(p: PlayerInfo)
    ensures DetermineWinner([p]) == p.identifier
  {
    assert [p][1..] == [];
    assert WinnerNames([p], p.score) == [p.identifier];
  }

  /** Scores 15, 20, 10: the second player alone wins. */
  lemma UniqueMaximumExample(a: string, b: string, c: string, ha: string, hb: string, hc: string)
    ensures DetermineWinner([PlayerInfo(a, 15, ha), PlayerInfo(b, 20, hb), PlayerInfo(c, 10, hc)]) == b
  {
    var players := [PlayerInfo(a, 15, ha), PlayerInfo(b, 20, hb), PlayerInfo(c, 10, hc)];
    assert HighestScore(players[1..]) == 20;
    UniqueWinner(players, 1);
  }

  /** Scores 20, 20, 10: the first two tie and are listed in input order. */
  lemma TieExample(a: string, b: string, c: string, ha: string, hb: string, hc: string)
    ensures DetermineWinner([PlayerInfo(a, 20, ha), PlayerInfo(b, 20, hb), PlayerInfo(c, 10, hc)]) == a + ", " + b
  {
    var players := [PlayerInfo(a, 20, ha), PlayerInfo(b, 20, hb), PlayerInfo(c, 10, hc)];
    assert HighestScore(players[1..]) == 20;
    var last := players[1..][1..];
    assert last == [PlayerInfo(c, 10, hc)] && last[1..] == [];
    assert WinnerNames(last, 20) == [];
    assert WinnerNames(players[1..], 20) == [b];
    assert HighestScore(players) == 20;
    assert WinnerNames(players, 20) == [a, b];
    assert [a, b][1..] == [b];
    assert Join([a, b], WinnerSeparator) == a + WinnerSeparator + Join([b], WinnerSeparator);
  }
}
