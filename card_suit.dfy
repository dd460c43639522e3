/** The second suit table of the domain (domain/CardSuit.java), a copy of
    the translated suit table under another name. */
module CardSuitTable {
  import opened Results
  import opened JavaText
  import TranslatedSuitTable

  datatype CardSuit = HEARTS | SPADES | DIAMONDS | CLUBS {
    /** `name()`: the constant's identifier. */
    function Name(): string {
      match this
      case HEARTS => "HEARTS"
      case SPADES => "SPADES"
      case DIAMONDS => "DIAMONDS"
      case CLUBS => "CLUBS"
    }

    function TranslatedSuit(): string {
      match this
      case HEARTS => "Copas"
      case SPADES => "Espadas"
      case DIAMONDS => "Ouros"
      case CLUBS => "Paus"
    }
  }

  /** `CardSuit.values()`, in declaration order. */
  const Values: seq<CardSuit> := [HEARTS, SPADES, DIAMONDS, CLUBS]

  function NameOf(s: CardSuit): string {
    s.Name()
  }

  /** `CardSuit.fromString`: the constant whose name equals `suit` ignoring
      case; any other string is rejected with the suit in the message. */
  function FromString(suit: string): (r: Result<CardSuit>)
    ensures forall c: CardSuit :: r == Ok(c) <==> EqualsIgnoreCase(c.Name(), suit)
    ensures r.Err? ==> r.error == IllegalArgument("Naipe inválido: " + suit)
  {
    forall c: CardSuit
      ensures FindByName(Values, NameOf, suit) == Some(c) <==> EqualsIgnoreCase(c.Name(), suit)
    {
      assert c == Values[match c case HEARTS => 0 case SPADES => 1 case DIAMONDS => 2 case CLUBS => 3];
      FindByNameExact(Values, NameOf, suit, c);
    }
    match FindByName(Values, NameOf, suit)
    case Some(c) => Ok(c)
    case None => Err(IllegalArgument("Naipe inválido: " + suit))
  }

  /** The lookup only sees the input folded to upper case. */
  lemma {:induction false} FromStringIgnoresCase(c: CardSuit, s: string)
    requires Fold(s) == c.Name()
    ensures FromString(s) == Ok(c)
  {
  }

  /** The constant of the other table with the same name. */
  function Counterpart(c: CardSuit): (t: TranslatedSuitTable.TranslatedCardSuit)
    ensures t.Name() == c.Name() && t.TranslatedSuit() == c.TranslatedSuit()
  {
    match c
    case HEARTS => TranslatedSuitTable.HEARTS
    case SPADES => TranslatedSuitTable.SPADES
    case DIAMONDS => TranslatedSuitTable.DIAMONDS
    case CLUBS => TranslatedSuitTable.CLUBS
  }

  /** The two suit tables agree on every input: both find a suit with the
      same translation, or both reject it with the same exception. */
  lemma {:induction false} AgreesWithTranslatedCardSuit(s: string)
    ensures FromString(s).Ok? <==> TranslatedSuitTable.FromString(s).Ok?
    ensures FromString(s).Ok? ==>
      FromString(s).value.TranslatedSuit() == TranslatedSuitTable.FromString(s).value.TranslatedSuit()
    ensures FromString(s).Err? ==> FromString(s).error == TranslatedSuitTable.FromString(s).error
  {
    var r, t := FromString(s), TranslatedSuitTable.FromString(s);
    if r.Ok? {
      assert t == Ok(Counterpart(r.value));
    }
    if t.Ok? {
      var c := match t.value
        case HEARTS => HEARTS
        case SPADES => SPADES
        case DIAMONDS => DIAMONDS
        case CLUBS => CLUBS;
      assert Counterpart(c) == t.value;
      assert t == Ok(t.value);
      assert r == Ok(c);
    }
  }
}
