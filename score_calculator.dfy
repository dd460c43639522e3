/** The score of a hand (service/ScoreCalculatorService.java). */
module ScoreCalculator {
  import opened Results
  import opened JavaInt
  import opened Domain
  import opened CardValueTable

  /** `xs.stream().mapToInt(f).sum()`: the first element `f` throws on
      decides the exception, otherwise the results are added as `int`s. */
  function MappedSum<A>(xs: seq<A>, f: A -> Result<Int32>): Result<Int32> {
    var values :- Traverse(xs, f);
    Ok(StreamSum(values))
  }

  /** `calculateScore`: each card's score, in order, added up as `int`s by
      `IntStream.sum()`. The first card that cannot be scored makes the whole
      call throw. */
  function CalculateScore(cards: seq<CardDTO>): (r: Result<Int32>)
    ensures cards == [] ==> r == Ok(0)
  {
    MappedSum(cards, GetScoreFromCardDTO)
  }

  /** A hand can be scored exactly when each of its cards can; otherwise
      the exception is that of one of its cards, the first that fails. */
  lemma ScoreFailsOnCard(cards: seq<CardDTO>)
    ensures CalculateScore(cards).Ok? <==> forall i :: 0 <= i < |cards| ==> GetScoreFromCardDTO(cards[i]).Ok?
    ensures CalculateScore(cards).Err? ==>
      exists i :: 0 <= i < |cards| && GetScoreFromCardDTO(cards[i]) == Err(CalculateScore(cards).error) &&
                  forall j :: 0 <= j < i ==> GetScoreFromCardDTO(cards[j]).Ok?
  {
  }

  /** The card scores of a hand whose cards all score, in order. */
  function CardScores(cards: seq<CardDTO>): (s: seq<int>)
    requires forall i :: 0 <= i < |cards| ==> GetScoreFromCardDTO(cards[i]).Ok?
    ensures |s| == |cards|
    ensures forall i :: 0 <= i < |cards| ==> s[i] == GetScoreFromCardDTO(cards[i]).value
  {
    Traverse(cards, GetScoreFromCardDTO).value
  }

  /** The score is the exact sum of the card scores, truncated to an `int`. */
  lemma ScoreIsWrappedSum(cards: seq<CardDTO>)
    requires CalculateScore(cards).Ok?
    ensures CalculateScore(cards).value == Wrap(Sum(CardScores(cards)))
  {
    StreamSumIsWrappedSum(CardScores(cards));
  }

  /** Mapping two lists laid end to end and summing: an exception in the
      first list wins, then one in the second; otherwise the sum of the whole
      is the `int` sum of the parts' sums. */
  lemma MappedSumAppend<A>(a: seq<A>, b: seq<A>, f: A -> Result<Int32>)
    ensures MappedSum(a, f).Err? ==> MappedSum(a + b, f) == MappedSum(a, f)
    ensures MappedSum(a, f).Ok? && MappedSum(b, f).Err? ==> MappedSum(a + b, f) == MappedSum(b, f)
    ensures MappedSum(a, f).Ok? && MappedSum(b, f).Ok? ==>
      MappedSum(a + b, f) == Ok(Wrap(MappedSum(a, f).value + MappedSum(b, f).value))
  {
    TraverseAppend(a, b, f);
    if Traverse(a, f).Err? {
      assert Traverse(a + b, f) == Err(Traverse(a, f).error);
    } else if Traverse(b, f).Err? {
      assert Traverse(a + b, f) == Err(Traverse(b, f).error);
    } else {
      var sa := Traverse(a, f).value;
      var sb := Traverse(b, f).value;
      assert Traverse(a + b, f) == Ok(sa + sb);
      StreamSumAppend(sa, sb);
    }
  }

  /** Additivity: the score of two hands laid end to end is the `int` sum of
      their scores, and an invalid card in either makes the whole fail (the
      first hand's exception wins). */
  lemma CalculateScoreAppend(a: seq<CardDTO>, b: seq<CardDTO>)
    ensures CalculateScore(a).Err? ==> CalculateScore(a + b) == CalculateScore(a)
    ensures CalculateScore(a).Ok? && CalculateScore(b).Err? ==> CalculateScore(a + b) == CalculateScore(b)
    ensures CalculateScore(a).Ok? && CalculateScore(b).Ok? ==>
      CalculateScore(a + b) == Ok(Wrap(CalculateScore(a).value + CalculateScore(b).value))
  {
    MappedSumAppend(a, b, GetScoreFromCardDTO);
  }

  /** The score does not depend on the order in which two parts of a hand
      come. */
  lemma CalculateScoreCommutes(a: seq<CardDTO>, b: seq<CardDTO>)
    requires CalculateScore(a).Ok? && CalculateScore(b).Ok?
    ensures CalculateScore(a + b) == CalculateScore(b + a)
  {
    CalculateScoreAppend(a, b);
    CalculateScoreAppend(b, a);
  }

  /** A one-card hand scores that card. */
  lemma SingleCard(c: CardDTO)
    ensures CalculateScore([c]) == GetScoreFromCardDTO(c)
  {
    if GetScoreFromCardDTO(c).Ok? {
      var v := GetScoreFromCardDTO(c).value;
      var t := Traverse([c], GetScoreFromCardDTO);
      assert [c][0] == c;
      assert t.value == [v];
      assert [v][..0] == [];
      assert StreamSum([v]) == Wrap(0 + v);
    }
  }

  /** Hands of real cards (scores 1 to 13) never wrap around: their score is
      the exact sum, at most 13 points per card. */
  lemma {:induction false} NoWrapForRealCards(cards: seq<CardDTO>)
    requires |cards| <= 100_000_000
    requires forall i :: 0 <= i < |cards| ==>
      GetScoreFromCardDTO(cards[i]).Ok? && 1 <= GetScoreFromCardDTO(cards[i]).value <= 13
    ensures CalculateScore(cards).Ok?
    ensures CalculateScore(cards).value == Sum(CardScores(cards)) <= 13 * |cards|
  {
    var s := CardScores(cards);
    SumBounded(s);
    ScoreIsWrappedSum(cards);
  }

  lemma {:induction false} SumBounded(s: seq<int>)
    requires forall i :: 0 <= i < |s| ==> 1 <= s[i] <= 13
    ensures |s| <= Sum(s) <= 13 * |s|
  {
    if s != [] {
      SumBounded(s[..|s| - 1]);
    }
  }

  /** A list on which `f` returns known values is summed from those values. */
  lemma MappedSumOf<A>(xs: seq<A>, f: A -> Result<Int32>, values: seq<Int32>)
    requires |values| == |xs|
    requires forall i :: 0 <= i < |xs| ==> f(xs[i]) == Ok(values[i])
    ensures MappedSum(xs, f) == Ok(StreamSum(values))
  {
    assert Traverse(xs, f).value == values;
  }

  /** A hand of the four faces and a ten scores 1 + 13 + 12 + 11 + 10. */
  lemma FaceHandExample()
    ensures CalculateScore(FaceHand) == Ok(47)
  {
    FaceHandCardScores();
    MappedSumOf(FaceHand, GetScoreFromCardDTO, [1, 13, 12, 11, 10]);
    StreamSumOfFive(1, 13, 12, 11, 10);
  }

  /** The four faces and a ten, each of another suit. */
  const FaceHand: seq<CardDTO> := [CardDTO("ACE", "S"), CardDTO("KING", "H"), CardDTO("QUEEN", "C"),
                                   CardDTO("JACK", "D"), CardDTO("10", "H")]

  /** Each card of `FaceHand` scores its rank. */
  lemma FaceHandCardScores()
    ensures forall i :: 0 <= i < |FaceHand| ==> GetScoreFromCardDTO(FaceHand[i]) == Ok([1, 13, 12, 11, 10][i])
  {
    forall i | 0 <= i < |FaceHand|
      ensures GetScoreFromCardDTO(FaceHand[i]) == Ok([1, 13, 12, 11, 10][i])
    {
      if i < 4 {
        FaceHandFaces(i);
      } else {
        NumericCardScore(10, "H");
        assert Decimal(10) == "10";
      }
    }
  }

  /** The first four cards of `FaceHand` are faces. */
  lemma FaceHandFaces(i: int)
    requires 0 <= i < 4
    ensures GetScoreFromCardDTO(FaceHand[i]) == Ok([1, 13, 12, 11, 10][i])
  {
    var v := [ACE, KING, QUEEN, JACK][i];
    FaceSymbolScore(v, FaceHand[i].suit);
    assert FaceHand[i] == CardDTO(v.CardSymbol(), FaceHand[i].suit);
  }

  /** A hand of numerals scores the sum of their values: 2 + 5 + 9. */
  lemma NumeralHandExample()
    ensures CalculateScore([CardDTO("2", "S"), CardDTO("5", "D"), CardDTO("9", "H")]) == Ok(16)
  {
    var hand := [CardDTO("2", "S"), CardDTO("5", "D"), CardDTO("9", "H")];
    var scores: seq<Int32> := [2, 5, 9];
    forall i | 0 <= i < |hand|
      ensures GetScoreFromCardDTO(hand[i]) == Ok(scores[i])
    {
      NumericCardScore(scores[i], hand[i].suit);
      assert Decimal(scores[i]) == [DigitChar(scores[i])];
    }
    MappedSumOf(hand, GetScoreFromCardDTO, scores);
    StreamSumOfThree(2, 5, 9);
  }

  /** Small card scores add up without wrapping. */
  lemma StreamSumOfThree(a: int, b: int, c: int)
    requires 0 <= a <= 13 && 0 <= b <= 13 && 0 <= c <= 13
    ensures StreamSum([a, b, c]) == a + b + c
  {
    assert [a][..0] == [];
    assert StreamSum([a]) == a;
    assert [a, b][..1] == [a];
    assert StreamSum([a, b]) == a + b;
    assert [a, b, c][..2] == [a, b];
  }

  lemma StreamSumOfFive(a: int, b: int, c: int, d: int, e: int)
    requires 0 <= a <= 13 && 0 <= b <= 13 && 0 <= c <= 13 && 0 <= d <= 13 && 0 <= e <= 13
    ensures StreamSum([a, b, c, d, e]) == a + b + c + d + e
  {
    assert [a, b, c, d, e][..4] == [a, b, c, d];
    assert [a, b, c, d][..3] == [a, b, c];
    StreamSumOfThree(a, b, c);
    assert StreamSum([a, b, c, d]) == a + b + c + d;
  }
}
