/** The scoring table for face cards and the score of a single card
    (domain/CardValue.java). */
module CardValueTable {
  import opened Results
  import opened JavaInt
  import opened JavaText
  import opened Domain

  /** The face ranks, each with its symbol and its fixed score. */
  datatype CardValue = ACE | KING | QUEEN | JACK {
    function CardSymbol(): string {
      match this
      case ACE => "ACE"
      case KING => "KING"
      case QUEEN => "QUEEN"
      case JACK => "JACK"
    }

    function Score(): int {
      match this
      case ACE => 1
      case KING => 13
      case QUEEN => 12
      case JACK => 11
    }
  }

  /** `CardValue.values()`, in declaration order. */
  const Values: seq<CardValue> := [ACE, KING, QUEEN, JACK]

  function Symbol(v: CardValue): string {
    v.CardSymbol()
  }

  /** `CardValue.getScoreFromCardDTO`: the face table is searched first,
      ignoring case; any other value is read with `Integer.parseInt`, and a
      value that is neither is rejected with the value in the message. */
  function GetScoreFromCardDTO(card: CardDTO): (r: Result<Int32>)
    ensures forall v: CardValue :: EqualsIgnoreCase(v.CardSymbol(), card.value) ==> r == Ok(v.Score())
    ensures (forall v: CardValue :: !EqualsIgnoreCase(v.CardSymbol(), card.value)) ==>
      r == match ParseInt(card.value)
           case Some(n) => Ok(n)
           case None => Err(IllegalArgument("Valor inválido para a carta: " + card.value))
  {
    forall v: CardValue
      ensures FindByName(Values, Symbol, card.value) == Some(v) <==> EqualsIgnoreCase(v.CardSymbol(), card.value)
    {
      assert v == Values[match v case ACE => 0 case KING => 1 case QUEEN => 2 case JACK => 3];
      FindByNameExact(Values, Symbol, card.value, v);
    }
    match FindByName(Values, Symbol, card.value)
    case Some(v) => Ok(v.Score())
    case None =>
      match ParseInt(card.value)
      case Some(n) => Ok(n)
      case None => Err(IllegalArgument("Valor inválido para a carta: " + card.value))
  }

  /** Every face score is a rank between 1 and 13, and no two faces share a
      score or a symbol. */
  lemma FaceScores()
    ensures forall v: CardValue :: 1 <= v.Score() <= 13 && IsEnumName(v.CardSymbol())
    ensures forall v: CardValue, w: CardValue :: v != w ==> v.Score() != w.Score() && v.CardSymbol() != w.CardSymbol()
  {
  }

  /** A face symbol scores its fixed value in any mix of cases, e.g. "Ace". */
  lemma {:induction false} FaceScoreIgnoresCase(v: CardValue, s: string, suit: string)
    requires Fold(s) == v.CardSymbol()
    ensures GetScoreFromCardDTO(CardDTO(s, suit)) == Ok(v.Score())
  {
  }

  /** The decimal spelling of any `int` scores that `int`: no such spelling
      is a face symbol, so the parse decides. */
  lemma {:induction false} NumericCardScore(n: Int32, suit: string)
    ensures GetScoreFromCardDTO(CardDTO(IntToString(n), suit)) == Ok(n)
  {
    var s := IntToString(n);
    ParseIntToString(n);
    assert |s| > 0 && (s[0] == '-' || IsDigit(s[0])) by {
      if n >= 0 { assert IsDigit(Decimal(n)[0]); }
    }
    forall v: CardValue ensures !EqualsIgnoreCase(v.CardSymbol(), s) {
      FirstCharMismatch(v.CardSymbol(), s);
    }
  }

  /** Each face symbol, spelled as the deck provider spells it, scores its
      fixed value. */
  lemma FaceSymbolScore(v: CardValue, suit: string)
    ensures GetScoreFromCardDTO(CardDTO(v.CardSymbol(), suit)) == Ok(v.Score())
  {
    FoldEnumName(v.CardSymbol());
  }

  /** Face symbols match ignoring case: "ace" and "Ace" score 1. */
  lemma FaceExamples()
    ensures GetScoreFromCardDTO(CardDTO("ace", "HEARTS")) == Ok(1)
    ensures GetScoreFromCardDTO(CardDTO("Ace", "HEARTS")) == Ok(1)
  {
    assert Fold("ace") == "ACE";
    FaceScoreIgnoresCase(ACE, "ace", "HEARTS");
    assert Fold("Ace") == "ACE";
    FaceScoreIgnoresCase(ACE, "Ace", "HEARTS");
  }

  /** "10" scores 10. */
  lemma NumeralExample()
    ensures GetScoreFromCardDTO(CardDTO("10", "HEARTS")) == Ok(10)
  {
    NumericCardScore(10, "HEARTS");
    assert Decimal(10) == "10";
  }

  /** "ACES" is neither a face symbol nor a number and is rejected. */
  lemma InvalidValueExample()
    ensures GetScoreFromCardDTO(CardDTO("ACES", "HEARTS")) ==
      Err(IllegalArgument("Valor inválido para a carta: ACES"))
  {
    var s := "ACES";
    assert |Fold(s)| == 4 && Fold(s)[0] == 'A' && Fold(s)[1] == 'C';
    assert forall v: CardValue :: !EqualsIgnoreCase(v.CardSymbol(), s);
    ParseIntNeedsSignOrDigit(s);
    var r := GetScoreFromCardDTO(CardDTO(s, "HEARTS"));
    assert r == Err(IllegalArgument("Valor inválido para a carta: " + s));
    assert "Valor inválido para a carta: " + s == "Valor inválido para a carta: ACES";
  }
}
