/** The display names of the face ranks (domain/TranslatedCardValue.java). */
module TranslatedValueTable {
  import opened Results
  import opened JavaText

  datatype TranslatedCardValue = ACE | KING | QUEEN | JACK {
    /** `name()`: the constant's identifier. */
    function Name(): string {
      match this
      case ACE => "ACE"
      case KING => "KING"
      case QUEEN => "QUEEN"
      case JACK => "JACK"
    }

    function TranslatedValue(): string {
      match this
      case ACE => "Ás"
      case KING => "Rei"
      case QUEEN => "Rainha"
      case JACK => "Valete"
    }
  }

  /** `TranslatedCardValue.values()`, in declaration order. */
  const Values: seq<TranslatedCardValue> := [ACE, KING, QUEEN, JACK]

  function NameOf(v: TranslatedCardValue): string {
    v.Name()
  }

  /** `TranslatedCardValue.fromString`: the constant whose name equals
      `value` ignoring case; anything else, numerals included, is
      rejected with the value in the message. */
  function FromString(value: string): (r: Result<TranslatedCardValue>)
    ensures forall v: TranslatedCardValue :: r == Ok(v) <==> EqualsIgnoreCase(v.Name(), value)
    ensures r.Err? ==> r.error == IllegalArgument("Valor de carta inválido: " + value)
  {
    forall v: TranslatedCardValue
      ensures FindByName(Values, NameOf, value) == Some(v) <==> EqualsIgnoreCase(v.Name(), value)
    {
      assert v == Values[match v case ACE => 0 case KING => 1 case QUEEN => 2 case JACK => 3];
      FindByNameExact(Values, NameOf, value, v);
    }
    match FindByName(Values, NameOf, value)
    case Some(v) => Ok(v)
    case None => Err(IllegalArgument("Valor de carta inválido: " + value))
  }

  /** The lookup only sees the input folded to upper case: "ace", "Ace"
      and "ACE" all find ACE. */
  lemma {:induction false} FromStringIgnoresCase(v: TranslatedCardValue, s: string)
    requires Fold(s) == v.Name()
    ensures FromString(s) == Ok(v)
  {
  }

  /** The four display names are pairwise distinct. */
  lemma TranslationsDistinct()
    ensures forall v: TranslatedCardValue, w: TranslatedCardValue ::
      v != w ==> v.TranslatedValue() != w.TranslatedValue()
  {
  }

  /** Round trip: each constant is found again from its own name. */
  lemma FromStringName(v: TranslatedCardValue)
    ensures FromString(v.Name()) == Ok(v)
  {
    FoldEnumName(v.Name());
    FromStringIgnoresCase(v, v.Name());
  }

  /** A numeral is not a face rank: a value starting with a digit, such as
      "10", is rejected. */
  lemma NumeralRejected(s: string)
    requires |s| > 0 && '0' <= s[0] <= '9'
    ensures FromString(s) == Err(IllegalArgument("Valor de carta inválido: " + s))
  {
    assert Fold(s)[0] == s[0];
  }
}
