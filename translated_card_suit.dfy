/** The display names of the suits (domain/TranslatedCardSuit.java). */
module TranslatedSuitTable {
  import opened Results
  import opened JavaText

  datatype TranslatedCardSuit = HEARTS | SPADES | DIAMONDS | CLUBS {
    /** `name()`: the constant's identifier. */
    function Name(): string {
      match this
      case HEARTS => "HEARTS"
      case SPADES => "SPADES"
      case DIAMONDS => "DIAMONDS"
      case CLUBS => "CLUBS"
    }

    function TranslatedSuit(): string {
      match this
      case HEARTS => "Copas"
      case SPADES => "Espadas"
      case DIAMONDS => "Ouros"
      case CLUBS => "Paus"
    }
  }

  /** `TranslatedCardSuit.values()`, in declaration order. */
  const Values: seq<TranslatedCardSuit> := [HEARTS, SPADES, DIAMONDS, CLUBS]

  function NameOf(s: TranslatedCardSuit): string {
    s.Name()
  }

  /** `TranslatedCardSuit.fromString`: the constant whose name equals `suit`
      ignoring case; any other string is rejected with the suit in the
      message. */
  function FromString(suit: string): (r: Result<TranslatedCardSuit>)
    ensures forall t: TranslatedCardSuit :: r == Ok(t) <==> EqualsIgnoreCase(t.Name(), suit)
    ensures r.Err? ==> r.error == IllegalArgument("Naipe inválido: " + suit)
  {
    forall t: TranslatedCardSuit
      ensures FindByName(Values, NameOf, suit) == Some(t) <==> EqualsIgnoreCase(t.Name(), suit)
    {
      assert t == Values[match t case HEARTS => 0 case SPADES => 1 case DIAMONDS => 2 case CLUBS => 3];
      FindByNameExact(Values, NameOf, suit, t);
    }
    match FindByName(Values, NameOf, suit)
    case Some(t) => Ok(t)
    case None => Err(IllegalArgument("Naipe inválido: " + suit))
  }

  /** The lookup only sees the input folded to upper case. */
  lemma {:induction false} FromStringIgnoresCase(t: TranslatedCardSuit, s: string)
    requires Fold(s) == t.Name()
    ensures FromString(s) == Ok(t)
  {
  }

  /** The translation is injective: no two suits share a display name. */
  lemma TranslationInjective()
    ensures forall t: TranslatedCardSuit, u: TranslatedCardSuit ::
      t.TranslatedSuit() == u.TranslatedSuit() ==> t == u
  {
  }

  /** Every constant's name is an enum name. */
  lemma NameIsEnumName(t: TranslatedCardSuit)
    ensures IsEnumName(t.Name())
  {
  }

  /** Round trip: each constant is found again from its own name. */
  lemma FromStringName(t: TranslatedCardSuit)
    ensures FromString(t.Name()) == Ok(t)
  {
    NameIsEnumName(t);
    FoldEnumName(t.Name());
    FromStringIgnoresCase(t, t.Name());
  }

  /** A one-letter suit code such as "H" is rejected. */
  lemma SuitCodeRejected()
    ensures FromString("H") == Err(IllegalArgument("Naipe inválido: H"))
  {
    var s := "H";
    assert forall t: TranslatedCardSuit :: !EqualsIgnoreCase(t.Name(), s) by {
      forall t: TranslatedCardSuit ensures !EqualsIgnoreCase(t.Name(), s) {
        assert |Fold(s)| == 1;
      }
    }
    assert "Naipe inválido: " + s == "Naipe inválido: H";
  }
}
