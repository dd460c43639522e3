/** The check of the two game parameters (service/InputValidator.java). */
module InputValidator {
  import opened Results
  import opened JavaInt

  const InvalidInputMessage: string := "Número de jogadores ou cartas por mão inválido."

  /** `validateInputs`: a game needs at least one player and at least one
      card per hand; otherwise an `IllegalArgumentException` is thrown. */
  function ValidateInputs(numPlayers: Int32, cardsPerHand: Int32): (r: Outcome)
    ensures r == Pass <==> numPlayers >= 1 && cardsPerHand >= 1
    ensures r.Fail? ==> r.error == IllegalArgument(InvalidInputMessage)
  {
    if numPlayers < 1 || cardsPerHand < 1 then Fail(IllegalArgument(InvalidInputMessage))
    else Pass
  }

  /** The unit tests' cases (InputValidatorTest.java:18-49): no players,
      and no cards per hand, are rejected; two players with five cards each
      pass. */
  lemma Examples()
    ensures ValidateInputs(0, 5) == Fail(IllegalArgument(InvalidInputMessage))
    ensures ValidateInputs(2, 0) == Fail(IllegalArgument(InvalidInputMessage))
    ensures ValidateInputs(2, 5) == Pass
  {
  }

  /** A case beyond the tests: a negative number of players is rejected
      like zero. */
  lemma NegativePlayersExample()
    ensures ValidateInputs(-3, 5) == Fail(IllegalArgument(InvalidInputMessage))
  {
  }
}
