# card-game-api, modelled in Dafny

This project models the game pipeline of the card-game-api service. A game
runs these steps in order:

1. Check the number of players and the cards per hand.
2. Work out how many 52-card decks are needed.
3. Ask an external provider for a shuffled deck.
4. Draw one hand per player. Score each hand and describe it in Portuguese
   ("Ás de Copas, 8 de Espadas").
5. Pick the player or players with the highest score.
6. Save the game record and point every player at it.

Java exceptions become values. `Results.Result` holds either a value or an
`Error` (`IllegalArgument`, `DeckCreation`, `GameNotFound`), and the error
keeps the exception's message. Java `int` is the subset type
`JavaInt.Int32`. Its wrap-around is written out for the deck product and
`IntStream.sum()`. The dealing loops' counter `i++` is not: "## Left out"
says why.

The modules follow the source files:

| module | source | form |
|---|---|---|
| `JavaInt`, `JavaText`, `Results` | `int` arithmetic, `Integer.parseInt`/`toString`, `equalsIgnoreCase`, `Collectors.joining`, exceptions | functions and lemmas |
| `CardValueTable`, `TranslatedValueTable`, `TranslatedSuitTable`, `CardSuitTable` | `domain/CardValue.java`, `TranslatedCardValue.java`, `TranslatedCardSuit.java`, `CardSuit.java` | enum datatypes; `fromString` lookups as functions |
| `InputValidator`, `DeckCalculator`, `ScoreCalculator`, `GameResult` | the services of the same names | functions and lemmas |
| `DeckProvider` | `adapter/outbound/DeckOfCardsClient.java` | a class whose provider answers are an oracle, with a log of the calls made |
| `Domain` | `domain/Player.java`, `domain/GameHistory.java` | `Player` is a class with a mutable `gameHistory`; `GameHistory` is a datatype |
| `CardDistributor` | `service/CardDistributorService.java` | pure hand text; the dealing loop is a method with invariants |
| `Repositories` | `repository/GameHistoryRepository.java`, `PlayerRepository.java` | in-memory classes; games get the ids 1, 2, 3, … |
| `GamePersistence` | `service/GamePersistenceService.java` | methods that change the repositories and the players |
| `CardGame` | `service/CardGameService.java` | `playGame` as a method, proved against the function `GameOutcome` |

The deck provider is a pair of functions, `newDeck` and `draw`. Each gives
the answer, a value or a `DeckCreationException`, for the n-th call made to
the client. Calls that the client's argument guards reject also take a
number, so the provider's answer for that number is never used. The guards
themselves are modelled exactly. `DealAnswers` lists what the loop's
successive draws receive.

The dealing loop is specified by `CardDistributor.Deal`, a function of those
answers. `Deal` stops at the first failure. Both copies of the loop are
proved equal to `Deal` of the same answers:

- `CardDistributorService.distributeCards`
- the private copy in `CardGameService`

So both copies produce the same players from the same draws, and they make
the same calls.

`playGame` is proved equal to `CardGame.GameOutcome`: validate, then size
and create the deck, then deal, then pick the winner, then build the record
with the next id. Its other postconditions say:

- what it asks of the provider: nothing when the counts are invalid; one
  deck of the computed size otherwise; no draw when that deck cannot be
  created; otherwise at most one draw of `(deckId, cardsPerHand)` per
  player, and exactly `numPlayers` draws for a game that completes;
- a game that throws saves nothing;
- a game that completes is saved once, with its players in one batch, all
  pointing at the record.

Three behaviours of the code that the model keeps:

- `dealCards` rejects an empty deck id or a non-positive card count with
  `IllegalArgumentException` (`DeckOfCardsClient.java:76-82`).
- `calculateDecks` multiplies in `int` before dividing, so a product over
  2^31 - 1 wraps around (`DeckCalculatorService.java:20`,
  `DeckCalculator.OverflowExamples`).
- The two lookups by id raise different exceptions.
  `CardGameService.getGameHistoryById` raises `IllegalArgumentException`
  ("Jogo não encontrado com ID: …"). `GamePersistenceService` raises
  `GameNotFoundException` ("Jogo com ID … não encontrado.").

## Model

| member | source | states |
|---|---|---|
| Results.Traverse | src/main/java/br/com/card_game_api/service/ScoreCalculatorService.java:24-26 | a stream `map` collected: succeeds iff every element maps, results in order; otherwise the error of the first element that fails, all before it succeeding |
| JavaInt.WrapCongruent | src/main/java/br/com/card_game_api/service/DeckCalculatorService.java:20 | the `int` result of an operation is congruent to the exact result modulo 2^32 |
| JavaInt.WrapUnique | src/main/java/br/com/card_game_api/service/DeckCalculatorService.java:20 | the `int` congruent to the exact result modulo 2^32 is the one Java keeps |
| JavaInt.WrapAdd | src/main/java/br/com/card_game_api/service/ScoreCalculatorService.java:24-26 | wrapping an intermediate sum does not change the wrapped total |
| JavaInt.StreamSumIsWrappedSum | src/main/java/br/com/card_game_api/service/ScoreCalculatorService.java:24-26 | `IntStream.sum()`, wrapping at every addition, equals the exact sum wrapped once |
| JavaInt.StreamSumAppend | src/main/java/br/com/card_game_api/service/ScoreCalculatorService.java:24-26 | summing two lists one after the other is the `int` sum of the two sums |
| JavaInt.ParseInt | src/main/java/br/com/card_game_api/domain/CardValue.java:36 | `Integer.parseInt`: only a non-empty value parses; `ParseIntSpelling` and `ParseIntParsed` state exactly what parses to what |
| JavaInt.ParseIntToString | src/main/java/br/com/card_game_api/domain/CardValue.java:36 | every `int` printed in decimal parses back to itself |
| JavaInt.ParseIntOfDecimal | src/main/java/br/com/card_game_api/domain/CardValue.java:36-38 | any integer printed in decimal parses back to itself when it fits in an `int`, and raises `NumberFormatException` when it does not |
| JavaInt.ParseIntSpelling | src/main/java/br/com/card_game_api/domain/CardValue.java:36-38 | an optional `+` or `-` followed by one or more digits parses to its signed value when that fits in an `int`, and raises `NumberFormatException` otherwise |
| JavaInt.ParseIntParsed | src/main/java/br/com/card_game_api/domain/CardValue.java:36 | conversely, every value that parses is an optional sign followed by one or more digits, and the result is their signed value |
| JavaInt.ParseIntPlusSign | src/main/java/br/com/card_game_api/domain/CardValue.java:36 | a leading `+` does not change the result |
| JavaInt.ParseIntLeadingZero | src/main/java/br/com/card_game_api/domain/CardValue.java:36 | a leading zero, after a sign or without one, does not change the result |
| JavaInt.ParseIntSignExamples | src/main/java/br/com/card_game_api/domain/CardValue.java:36-38 | "+7" and "007" parse to 7; a bare "-" or "+" raises `NumberFormatException` |
| JavaInt.ParseIntMaxExamples | src/main/java/br/com/card_game_api/domain/CardValue.java:36-38 | "2147483647" parses; "2147483648" raises `NumberFormatException` |
| JavaInt.ParseIntMinExamples | src/main/java/br/com/card_game_api/domain/CardValue.java:36-38 | "-2147483648" parses; "-2147483649" raises `NumberFormatException` |
| JavaInt.ParseIntNeedsSignOrDigit | src/main/java/br/com/card_game_api/domain/CardValue.java:36-38 | a value starting with neither a sign nor a digit raises `NumberFormatException` |
| JavaText.FoldEnumName | src/main/java/br/com/card_game_api/domain/TranslatedCardValue.java:21 | an enum constant's name equals itself ignoring case |
| JavaText.FindByNameSpec | src/main/java/br/com/card_game_api/domain/TranslatedCardValue.java:20-25 | the `values()` loop returns the first constant whose name equals the input ignoring case, and falls through exactly when none does |
| JavaText.FindByNameExact | src/main/java/br/com/card_game_api/domain/TranslatedCardSuit.java:20-25 | with distinct names, the loop returns a constant exactly when that constant's name equals the input ignoring case |
| TranslatedValueTable.FromString | src/main/java/br/com/card_game_api/domain/TranslatedCardValue.java:19-26 | returns constant `v` iff `v`'s name equals the input ignoring case; otherwise `IllegalArgumentException` "Valor de carta inválido: " + input |
| TranslatedValueTable.FromStringIgnoresCase | src/main/java/br/com/card_game_api/domain/TranslatedCardValue.java:21 | any spelling that folds to a constant's name finds that constant ("ace", "Ace", "ACE") |
| TranslatedValueTable.TranslationsDistinct | src/main/java/br/com/card_game_api/domain/TranslatedCardValue.java:4-7 | the four display names are pairwise distinct |
| TranslatedValueTable.FromStringName | src/main/java/br/com/card_game_api/domain/TranslatedCardValue.java:19-26 | round trip: every constant is found from its own name |
| TranslatedValueTable.NumeralRejected | src/main/java/br/com/card_game_api/domain/TranslatedCardValue.java:25 | a value starting with a digit, such as "10", is rejected with its message |
| TranslatedSuitTable.FromString | src/main/java/br/com/card_game_api/domain/TranslatedCardSuit.java:19-26 | returns constant `t` iff `t`'s name equals the input ignoring case; otherwise `IllegalArgumentException` "Naipe inválido: " + input |
| TranslatedSuitTable.FromStringIgnoresCase | src/main/java/br/com/card_game_api/domain/TranslatedCardSuit.java:21 | any spelling that folds to a constant's name finds that constant |
| TranslatedSuitTable.TranslationInjective | src/main/java/br/com/card_game_api/domain/TranslatedCardSuit.java:4-7 | no two suits share a display name |
| TranslatedSuitTable.FromStringName | src/main/java/br/com/card_game_api/domain/TranslatedCardSuit.java:19-26 | round trip: every constant is found from its own name |
| TranslatedSuitTable.SuitCodeRejected | src/main/java/br/com/card_game_api/domain/TranslatedCardSuit.java:25 | the one-letter code "H" is rejected with "Naipe inválido: H" |
| CardSuitTable.FromString | src/main/java/br/com/card_game_api/domain/CardSuit.java:19-26 | returns constant `c` iff `c`'s name equals the input ignoring case; otherwise "Naipe inválido: " + input |
| CardSuitTable.FromStringIgnoresCase | src/main/java/br/com/card_game_api/domain/CardSuit.java:21 | any spelling that folds to a constant's name finds that constant |
| CardSuitTable.Counterpart | src/main/java/br/com/card_game_api/domain/CardSuit.java:4-7 | each `CardSuit` has a `TranslatedCardSuit` with the same name and the same translation |
| CardSuitTable.AgreesWithTranslatedCardSuit | src/main/java/br/com/card_game_api/domain/CardSuit.java:19-26 | on every input the two suit lookups both succeed with the same translation, or both fail with the same exception |
| CardValueTable.GetScoreFromCardDTO | src/main/java/br/com/card_game_api/domain/CardValue.java:28-40 | a value equal to a face symbol ignoring case scores that face; any other value scores its `Integer.parseInt` value, or raises "Valor inválido para a carta: " + value |
| CardValueTable.FaceScores | src/main/java/br/com/card_game_api/domain/CardValue.java:6-9 | every face scores between 1 and 13; no two faces share a score or a symbol |
| CardValueTable.FaceScoreIgnoresCase | src/main/java/br/com/card_game_api/domain/CardValue.java:30 | any spelling that folds to a face symbol scores that face |
| CardValueTable.FaceSymbolScore | src/main/java/br/com/card_game_api/domain/CardValue.java:29-33 | each face symbol as the provider spells it scores its fixed value |
| CardValueTable.NumericCardScore | src/main/java/br/com/card_game_api/domain/CardValue.java:36 | the decimal spelling of any `int` scores that `int` (no face symbol gets in the way) |
| CardValueTable.FaceExamples | src/main/java/br/com/card_game_api/domain/CardValue.java:30 | "ace" and "Ace" both score 1 |
| CardValueTable.NumeralExample | src/main/java/br/com/card_game_api/domain/CardValue.java:36 | "10" scores 10 |
| CardValueTable.InvalidValueExample | src/main/java/br/com/card_game_api/domain/CardValue.java:37-38 | "ACES" is rejected with "Valor inválido para a carta: ACES" |
| InputValidator.ValidateInputs | src/main/java/br/com/card_game_api/service/InputValidator.java:18-22 | passes iff both counts are at least 1; otherwise `IllegalArgumentException` with the one fixed message |
| InputValidator.Examples | src/test/java/br/com/card_game_api/service/InputValidatorTest.java:18-49 | (0, 5) and (2, 0) are rejected with the message; (2, 5) passes |
| InputValidator.NegativePlayersExample | src/main/java/br/com/card_game_api/service/InputValidator.java:18-22 | a negative number of players is rejected with the same message as zero |
| DeckCalculator.CalculateDecks | src/main/java/br/com/card_game_api/service/DeckCalculatorService.java:19-21 | the result is the ceiling of the `int` product over 52: `52 (r - 1) < cards <= 52 r`, for the exact product whenever it fits in an `int` |
| DeckCalculator.DecksAreFewest | src/main/java/br/com/card_game_api/service/DeckCalculatorService.java:20 | no smaller number of decks holds the cards |
| DeckCalculator.DecksForValidGame | src/main/java/br/com/card_game_api/service/DeckCalculatorService.java:20 | valid counts whose product fits need at least one deck, with fewer than 52 cards to spare |
| DeckCalculator.Examples | src/test/java/br/com/card_game_api/service/DeckCalculatorServiceTest.java:19-23 | (4, 10) → 1, (6, 10) → 2, (0, 10) → 0, (4, 0) → 0, (13, 4) → 1 |
| DeckCalculator.OverflowExamples | src/main/java/br/com/card_game_api/service/DeckCalculatorService.java:20 | a product that overflows the `int` asks for 0 decks, or a negative number of decks |
| ScoreCalculator.CalculateScore | src/main/java/br/com/card_game_api/service/ScoreCalculatorService.java:23-27 | an empty hand scores 0 |
| ScoreCalculator.ScoreFailsOnCard | src/main/java/br/com/card_game_api/service/ScoreCalculatorService.java:25 | a hand scores iff every card scores; otherwise its exception is that of the first card that fails |
| ScoreCalculator.ScoreIsWrappedSum | src/main/java/br/com/card_game_api/service/ScoreCalculatorService.java:24-26 | the score is the exact sum of the card scores, wrapped to an `int` |
| ScoreCalculator.MappedSumAppend | src/main/java/br/com/card_game_api/service/ScoreCalculatorService.java:24-26 | map-then-sum of a concatenation: the first part's exception wins, then the second's; otherwise the `int` sum of the parts' sums |
| ScoreCalculator.CalculateScoreAppend | src/main/java/br/com/card_game_api/service/ScoreCalculatorService.java:24-26 | additivity: score(a + b) is the `int` sum of score(a) and score(b); an invalid card in either part makes the whole fail |
| ScoreCalculator.CalculateScoreCommutes | src/main/java/br/com/card_game_api/service/ScoreCalculatorService.java:24-26 | the order of two parts of a hand does not change its score |
| ScoreCalculator.SingleCard | src/main/java/br/com/card_game_api/service/ScoreCalculatorService.java:24-26 | a one-card hand scores that card, or fails as it does |
| ScoreCalculator.NoWrapForRealCards | src/main/java/br/com/card_game_api/service/ScoreCalculatorService.java:24-26 | hands of cards scoring 1 to 13 never wrap: the score is the exact sum and at most 13 per card |
| ScoreCalculator.FaceHandExample | src/test/java/br/com/card_game_api/service/ScoreCalculatorServiceTest.java:21-36 | ACE, KING, QUEEN, JACK and "10" score 47 |
| ScoreCalculator.NumeralHandExample | src/test/java/br/com/card_game_api/service/ScoreCalculatorServiceTest.java:51-64 | "2", "5" and "9" score 16 |
| DeckProvider.CreateAnswer | src/main/java/br/com/card_game_api/adapter/outbound/DeckOfCardsClient.java:38-41 | a non-positive deck count is rejected before the provider is asked; otherwise the provider's answer is passed on |
| DeckProvider.DealAnswer | src/main/java/br/com/card_game_api/adapter/outbound/DeckOfCardsClient.java:75-82 | an empty deck id, then a non-positive card count, is rejected before the provider is asked; otherwise the provider's answer is passed on |
| DeckProvider.DealAnswers | src/main/java/br/com/card_game_api/service/CardDistributorService.java:38-39 | the `i`-th of `n` successive draws gets the answer to call number `from + i` |
| DeckProvider.DeckOfCardsClient.CreateDeck | src/main/java/br/com/card_game_api/adapter/outbound/DeckOfCardsClient.java:38-41 | logs the call and returns the guarded answer to that call |
| DeckProvider.DeckOfCardsClient.DealCards | src/main/java/br/com/card_game_api/adapter/outbound/DeckOfCardsClient.java:75-82 | logs the call and returns the guarded answer to that call |
| DeckProvider.GuardExamples | src/main/java/br/com/card_game_api/adapter/outbound/DeckOfCardsClient.java:38-82 | 0 decks, an empty deck id and 0 cards are each rejected with their message, whatever the provider would say |
| CardDistributor.GetTranslatedCardValue | src/main/java/br/com/card_game_api/service/CardDistributorService.java:67-74 | a face rank in any case becomes its Portuguese name; anything else, numerals included, is kept as it is |
| CardDistributor.CardText | src/main/java/br/com/card_game_api/service/CardDistributorService.java:55-56 | a card reads "<value> de <suit>" when its suit is known; an unknown suit raises "Naipe inválido: " + suit |
| CardDistributor.BuildHandString | src/main/java/br/com/card_game_api/service/CardDistributorService.java:53-58 | an empty hand reads "" |
| CardDistributor.HandFailsOnCard | src/main/java/br/com/card_game_api/service/CardDistributorService.java:56 | a hand can be shown iff each card can; otherwise the exception is that of the first card with an unknown suit |
| CardDistributor.HandStringOfOneCard | src/main/java/br/com/card_game_api/service/CardDistributorService.java:53-58 | a one-card hand reads as that card |
| CardDistributor.HandStringAppend | src/main/java/br/com/card_game_api/service/CardDistributorService.java:53-58 | two hands end to end read as the first, ", ", then the second |
| CardDistributor.JoinAppend | src/main/java/br/com/card_game_api/service/CardDistributorService.java:57 | joining two non-empty lists is joining each with the separator between |
| CardDistributor.FaceCardText | src/main/java/br/com/card_game_api/service/CardDistributorService.java:55-56 | a face card reads "<Portuguese rank> de <Portuguese suit>", e.g. "Ás de Copas" |
| CardDistributor.NumeralCardText | src/main/java/br/com/card_game_api/service/CardDistributorService.java:67-73 | a numeral keeps its digits and only the suit is translated, e.g. "8 de Espadas" |
| CardDistributor.TwoCardHand | src/main/java/br/com/card_game_api/service/CardDistributorService.java:53-58 | a two-card hand is the two texts joined by ", " |
| CardDistributor.PlayerNamesDistinct | src/main/java/br/com/card_game_api/service/CardDistributorService.java:42 | different loop indices give different "Jogador i" labels |
| CardDistributor.MakePlayer | src/main/java/br/com/card_game_api/service/CardDistributorService.java:40-42 | a player is made iff the hand scores and can be shown, with that label, score and text; a scoring error comes before a suit error |
| CardDistributor.DealStepMakesPlayer | src/main/java/br/com/card_game_api/service/CardDistributorService.java:39-42 | one pass succeeds iff the draw succeeds and the player can be made, and the player is labelled by its 1-based position |
| CardDistributor.Deal | src/main/java/br/com/card_game_api/service/CardDistributorService.java:37-44 | no draws give no players; `DealPlayers`, `DealError` and `DealCount` state the rest: one player per successful pass, in order, or the first failure |
| CardDistributor.DealPlayers | src/main/java/br/com/card_game_api/service/CardDistributorService.java:38-43 | the deal succeeds iff every pass does; the k-th player is the one the k-th pass makes |
| CardDistributor.DealError | src/main/java/br/com/card_game_api/service/CardDistributorService.java:38-43 | a failed deal carries the exception of its first failing pass |
| CardDistributor.DealFailureSticks | src/main/java/br/com/card_game_api/service/CardDistributorService.java:38-43 | after a pass throws, later draws change nothing |
| CardDistributor.DealPrefix | src/main/java/br/com/card_game_api/service/CardDistributorService.java:38-43 | a successful deal extends the deal of each prefix of its draws |
| CardDistributor.DealSnoc | src/main/java/br/com/card_game_api/service/CardDistributorService.java:38-43 | one more pass appends its player, or ends the whole deal with its exception |
| CardDistributor.DealLabels | src/main/java/br/com/card_game_api/service/CardDistributorService.java:42 | the dealt players are labelled "Jogador 1", "Jogador 2", … in order |
| CardDistributor.DealCount | src/main/java/br/com/card_game_api/service/CardDistributorService.java:37-44 | a successful deal has exactly `numPlayers` players, and none when `numPlayers <= 0` |
| CardDistributor.EmptyDrawExample | src/test/java/br/com/card_game_api/service/CardDistributorServiceTest.java:56-71 | an empty draw gives score 0 and hand "" |
| CardDistributor.NewPlayer | src/main/java/br/com/card_game_api/service/CardDistributorService.java:39-42 | the loop body creates a fresh player with no game exactly as one pass of `Deal` prescribes, or returns that pass's exception |
| CardDistributor.CardDistributorService.DistributeCards | src/main/java/br/com/card_game_api/service/CardDistributorService.java:36-45 | the players are `Deal` of the answers to the draws made; every draw is `(deckId, cardsPerHand)`; one draw per player when it succeeds; it stops at the first failing draw; players are fresh and have no game |
| CardDistributor.CardDistributorService.DealNext | src/main/java/br/com/card_game_api/service/CardDistributorService.java:39-42 | one pass draws once more, and the deal so far grows by its player or fails with its exception |
| GameResult.HighestScore | src/main/java/br/com/card_game_api/service/GameResultService.java:23-26 | no players give 0; otherwise at least the first player's score (`HighestScoreIsMax` proves it is the maximum) |
| GameResult.WinnerNames | src/main/java/br/com/card_game_api/service/GameResultService.java:28-31 | the filter keeps at most every player; `WinnerNamesMembers` and `WinnerNamesAppend` give exactly which names, in input order |
| GameResult.DetermineWinner | src/main/java/br/com/card_game_api/service/GameResultService.java:22-32 | no players give ""; `SomebodyWins`, `WinnerIffTopScore` and `UniqueWinner` state who wins |
| GameResult.HighestScoreIsMax | src/main/java/br/com/card_game_api/service/GameResultService.java:23-26 | `max().orElse(0)`: 0 for no players, otherwise a score that some player has and no player exceeds |
| GameResult.WinnerNamesAppend | src/main/java/br/com/card_game_api/service/GameResultService.java:28-31 | the filter keeps input order |
| GameResult.WinnerNamesMembers | src/main/java/br/com/card_game_api/service/GameResultService.java:28-31 | a name is kept iff some player with that name has the target score |
| GameResult.WinnerNamesNone | src/main/java/br/com/card_game_api/service/GameResultService.java:28-31 | when nobody has the target score nobody is kept |
| GameResult.SomebodyWins | src/main/java/br/com/card_game_api/service/GameResultService.java:22-32 | no players give ""; otherwise at least one winner |
| GameResult.WinnerIffTopScore | src/main/java/br/com/card_game_api/service/GameResultService.java:28-31 | with distinct names, a player is a winner iff its score is the highest |
| GameResult.OnlyOneKept | src/main/java/br/com/card_game_api/service/GameResultService.java:28-31 | when only one player has the target score, only its name is kept |
| GameResult.UniqueWinner | src/main/java/br/com/card_game_api/service/GameResultService.java:22-32 | a player who alone has the highest score is the whole result |
| GameResult.SinglePlayerWins | src/test/java/br/com/card_game_api/service/GameResultServiceTest.java:64-75 | a single player always wins |
| GameResult.UniqueMaximumExample | src/test/java/br/com/card_game_api/service/GameResultServiceTest.java:20-33 | scores 15, 20, 10: the second player alone wins |
| GameResult.TieExample | src/test/java/br/com/card_game_api/service/GameResultServiceTest.java:36-49 | scores 20, 20, 10: "first, second" in input order |
| Repositories.Lookup | src/main/java/br/com/card_game_api/repository/GameHistoryRepository.java:12 | `findById` finds a game iff one has that id, and what it finds has that id |
| Repositories.StoreThenLookup | src/main/java/br/com/card_game_api/repository/GameHistoryRepository.java:12 | saving keeps ids in order, makes the new game findable by its id and changes no other lookup |
| Repositories.RowsOfAssigned | src/main/java/br/com/card_game_api/service/GamePersistenceService.java:65-67 | players who all point at one game are saved as that game's rows |
| Repositories.GameHistoryRepository.Save | src/main/java/br/com/card_game_api/repository/GameHistoryRepository.java:12 | the game gets the next id, is appended, and is found under that id |
| Repositories.PlayerRepository.SaveAll | src/main/java/br/com/card_game_api/repository/PlayerRepository.java:11 | one batch of rows, the players as they are now, is appended |
| GamePersistence.NewRecord | src/main/java/br/com/card_game_api/service/GamePersistenceService.java:44-51 | the new record has no id yet and its highest score is 0 for no players, otherwise at least the first player's; `NewRecordFields` states every field |
| GamePersistence.NewRecordFields | src/main/java/br/com/card_game_api/service/GamePersistenceService.java:39-51 | the record has the given counts, deck id, winner and time, and the players' highest score (0 for none) |
| GamePersistence.AssignGameHistory | src/main/java/br/com/card_game_api/service/GamePersistenceService.java:66 | afterwards every player points at the game |
| GamePersistence.GamePersistenceService.SaveGameHistory | src/main/java/br/com/card_game_api/service/GamePersistenceService.java:38-57 | returns the record as saved, with the next id and findable by it; every player points at it; the players are saved once, after it |
| GamePersistence.GamePersistenceService.SavePlayers | src/main/java/br/com/card_game_api/service/GamePersistenceService.java:65-68 | every player points at the game; then one batch of their rows is saved |
| GamePersistence.GamePersistenceService.GetGameHistoryById | src/main/java/br/com/card_game_api/service/GamePersistenceService.java:77-80 | the stored game with that id iff there is one; otherwise `GameNotFoundException` "Jogo com ID <id> não encontrado." |
| GamePersistence.GamePersistenceService.GetAllGameHistories | src/main/java/br/com/card_game_api/service/GamePersistenceService.java:87-89 | every stored game, in order of saving |
| CardGame.GameOutcome | src/main/java/br/com/card_game_api/service/CardGameService.java:48-59 | a validator exception is the outcome; a recorded game had valid counts and gets the next id; `RecordedGame` and `FailedGame` state the rest |
| CardGame.InvalidCountsRejected | src/main/java/br/com/card_game_api/service/CardGameService.java:49 | counts below 1 end the game with the validator's exception, whatever the provider would say |
| CardGame.RecordedGame | src/main/java/br/com/card_game_api/service/CardGameService.java:48-59 | a recorded game has valid counts, the created deck, `numPlayers` players labelled in order, their winner and best score, the time and the next id |
| CardGame.OutcomeWithDeck | src/main/java/br/com/card_game_api/service/CardGameService.java:52-58 | once the deck exists, the deal decides the outcome |
| CardGame.FailedGame | src/main/java/br/com/card_game_api/service/CardGameService.java:52-54 | a deck that cannot be created, or a deal that fails, is the game's exception |
| CardGame.CardGameService.PlayGame | src/main/java/br/com/card_game_api/service/CardGameService.java:48-59 | returns `GameOutcome`; invalid counts never reach the provider; one deck request of `calculateDecks` size; no draw when `createDeck` throws; after a deck is created, at most `numPlayers` draws, each of `(deckId, cardsPerHand)`; a completed game made exactly `numPlayers` such draws; a failed game saves nothing; a completed game is saved with its players in one batch |
| CardGame.CardGameService.DistributeCards | src/main/java/br/com/card_game_api/service/CardGameService.java:69-84 | the same postconditions as `CardDistributorService.distributeCards`: the players are `Deal` of the answers to the draws made; every draw is `(deckId, cardsPerHand)`; one draw per player when it succeeds, at most that many otherwise; on an exception the deal of the draws made fails and the deal before the last draw succeeded |
| CardGame.CardGameService.DealNext | src/main/java/br/com/card_game_api/service/CardGameService.java:72-80 | one pass draws once more; the deal of the draws so far grows by its player, or fails, and then the whole deal fails with its exception |
| CardGame.CardGameService.SaveGameHistory | src/main/java/br/com/card_game_api/service/CardGameService.java:156-175 | the same saved record, player links and batch as `GamePersistenceService.saveGameHistory` |
| CardGame.CardGameService.SavePlayers | src/main/java/br/com/card_game_api/service/CardGameService.java:183-187 | every player points at the game; then one batch of their rows is saved |
| CardGame.CardGameService.GetGameHistoryById | src/main/java/br/com/card_game_api/service/CardGameService.java:195-198 | the stored game with that id iff there is one; otherwise `IllegalArgumentException` "Jogo não encontrado com ID: <id>" |
| CardGame.CardGameService.GetAllGameHistories | src/main/java/br/com/card_game_api/service/CardGameService.java:205-207 | every stored game, in order of saving |

## Left out

- HTTP, URL building, logging and the wrapping of provider failures in `DeckCreationException` inside `DeckOfCardsClient`. Each answer from the provider is an input to the model, either a value or a `DeckCreation` error. The model admits more answers than the client gives: the client turns an empty card list into a `DeckCreationException` (`DeckOfCardsClient.java:94-96`), but `draw` may answer with an empty list. That is why `CardDistributor.EmptyDrawExample` can hold.
- The web layer (`GameController`, `CustomExceptionHandler`), ModelMapper, the DTO classes and the entity getters and setters. They are plain data carriers. So are `Card` and the `Player` database id.
- `null` arguments and `null` answers. The model has no null.
- `@Transactional` atomicity. It is a framework guarantee. The model states which stores each call changes.
- `LocalDateTime.now()`. The clock is the `Timestamp` parameter `now`.
- Ids are modelled as `int`. The game repository gives new games the ids 1, 2, 3, … in order. JPA's update of an entity that already has an id is not modelled: the services only save new games.
- `Integer.parseInt` on non-ASCII Unicode digits. Java accepts those digits; the model accepts only `0`–`9`.
- DeckCalculator.CalculateDecks: `Math.ceil` of a `double` quotient is modelled as an exact integer ceiling. For any `int` numerator the `double` quotient rounds to the same ceiling.
- CardDistributor.CardDistributorService.DistributeCards: the loop counter `i` is not checked for overflow when `numPlayers` is 2^31 - 1. The model stops at `numPlayers` players.
- CardGame.CardGameService.DistributeCards: the same unchecked `i++` of `CardGameService.java:72` is left out in the same way.
- The private `buildHandString`, `getTranslatedCardValue`, `calculateScore` and `determineWinner` of `CardGameService` (`CardGameService.java:92-143`) are word for word the services' functions. They are modelled once, as `CardDistributor.BuildHandString`, `CardDistributor.GetTranslatedCardValue`, `ScoreCalculator.CalculateScore` and `GameResult.DetermineWinner`.
- The tests that call `getNumberOfPlayers` and mock a `CardDistributorService` for `CardGameService` do not match the code. No row cites them.
