/** Java's 32-bit `int`: its range, two's-complement wrap-around,
    `IntStream.sum()`, `Integer.toString` and `Integer.parseInt`. */
module JavaInt {
  import opened Results

  predicate InRange(x: int) {
    -0x8000_0000 <= x <= 0x7FFF_FFFF
  }

  /** A value of Java type `int`. */
  type Int32 = x: int | InRange(x)

  const Modulus: int := 0x1_0000_0000

  /** How far `x` lies outside the `int` range. */
  function Excess(x: int): nat {
    if x > 0x7FFF_FFFF then x - 0x7FFF_FFFF else if x < -0x8000_0000 then -0x8000_0000 - x else 0
  }

  /** What an `int` operation keeps of an exact result: `x` moved into the
      `int` range by whole multiples of 2^32. */
  function Wrap(x: int): (r: Int32)
    ensures InRange(x) ==> r == x
    decreases Excess(x)
  {
    if x > 0x7FFF_FFFF then Wrap(x - Modulus)
    else if x < -0x8000_0000 then Wrap(x + Modulus)
    else x
  }

  /** The wrapped value is congruent to `x` modulo 2^32. */
  lemma {:induction false} WrapCongruent(x: int)
    ensures (Wrap(x) - x) % Modulus == 0
    decreases Excess(x)
  {
    if x > 0x7FFF_FFFF {
      WrapCongruent(x - Modulus);
    } else if x < -0x8000_0000 {
      WrapCongruent(x + Modulus);
    }
  }

  /** An `int` congruent to `x` modulo 2^32 is the wrapped value of `x`. */
  lemma {:induction false} WrapUnique(x: int, r: int)
    requires InRange(r) && (r - x) % Modulus == 0
    ensures Wrap(x) == r
    decreases Excess(x)
  {
    if x > 0x7FFF_FFFF {
      assert (r - (x - Modulus)) % Modulus == 0 by {
        assert r - (x - Modulus) == (r - x) + Modulus;
      }
      WrapUnique(x - Modulus, r);
    } else if x < -0x8000_0000 {
      assert (r - (x + Modulus)) % Modulus == 0 by {
        assert r - (x + Modulus) == (r - x) - Modulus;
      }
      WrapUnique(x + Modulus, r);
    }
  }

  /** Wrapping an intermediate result does not change the wrapped total. */
  lemma WrapAdd(x: int, y: int)
    ensures Wrap(Wrap(x) + y) == Wrap(x + y)
  {
    var w := Wrap(x);
    var s := Wrap(x + y);
    WrapCongruent(x);
    WrapCongruent(x + y);
    assert (s - (w + y)) % Modulus == 0 by {
      assert s - (w + y) == (s - (x + y)) - (w - x);
    }
    WrapUnique(w + y, s);
  }

  /** The exact sum of a list of integers. */
  function Sum(xs: seq<int>): int {
    if xs == [] then 0 else Sum(xs[..|xs| - 1]) + xs[|xs| - 1]
  }

  lemma {:induction false} SumAppend(xs: seq<int>, ys: seq<int>)
    ensures Sum(xs + ys) == Sum(xs) + Sum(ys)
  {
    if ys == [] {
      assert xs + ys == xs;
    } else {
      assert (xs + ys)[..|xs + ys| - 1] == xs + ys[..|ys| - 1];
      SumAppend(xs, ys[..|ys| - 1]);
    }
  }

  /** `IntStream.sum()`: the `int` additions `((0 + x0) + x1) + ...` from left
      to right, each one wrapping. */
  function StreamSum(xs: seq<int>): Int32 {
    if xs == [] then 0 else Wrap(StreamSum(xs[..|xs| - 1]) + xs[|xs| - 1])
  }

  /** Wrapping at every step is the same as wrapping the exact sum once. */
  lemma {:induction false} StreamSumIsWrappedSum(xs: seq<int>)
    ensures StreamSum(xs) == Wrap(Sum(xs))
  {
    if xs != [] {
      var init, last := xs[..|xs| - 1], xs[|xs| - 1];
      StreamSumIsWrappedSum(init);
      WrapAdd(Sum(init), last);
    }
  }

  /** Summing two lists one after the other with `int` additions is the
      `int` sum of the two partial sums. */
  lemma StreamSumAppend(xs: seq<int>, ys: seq<int>)
    ensures StreamSum(xs + ys) == Wrap(StreamSum(xs) + StreamSum(ys))
  {
    StreamSumIsWrappedSum(xs + ys);
    StreamSumIsWrappedSum(xs);
    StreamSumIsWrappedSum(ys);
    SumAppend(xs, ys);
    WrapAdd(Sum(xs), Sum(ys));
    WrapAdd(Sum(ys), Wrap(Sum(xs)));
  }

  predicate IsDigit(c: char) {
    '0' <= c <= '9'
  }

  predicate AllDigits(s: string) {
    forall i :: 0 <= i < |s| ==> IsDigit(s[i])
  }

  function DigitValue(c: char): (d: nat)
    requires IsDigit(c)
    ensures d < 10
  {
    c as int - '0' as int
  }

  function DigitChar(d: nat): (c: char)
    requires d < 10
    ensures IsDigit(c) && DigitValue(c) == d
  {
    ('0' as int + d) as char
  }

  /** The number a string of decimal digits denotes, most significant first. */
  function DigitsValue(s: string): nat
    requires AllDigits(s)
  {
    if s == [] then 0 else DigitsValue(s[..|s| - 1]) * 10 + DigitValue(s[|s| - 1])
  }

  lemma DigitsSnoc(digits: string, c: char)
    requires AllDigits(digits) && IsDigit(c)
    ensures AllDigits(digits + [c]) && DigitsValue(digits + [c]) == DigitsValue(digits) * 10 + DigitValue(c)
  {
    assert (digits + [c])[..|digits|] == digits;
  }

  /** The shortest decimal spelling of a natural number. */
  function Decimal(n: nat): (s: string)
    ensures |s| > 0 && AllDigits(s)
  {
    if n < 10 then [DigitChar(n)] else Decimal(n / 10) + [DigitChar(n % 10)]
  }

  lemma {:induction false} DecimalValue(n: nat)
    ensures DigitsValue(Decimal(n)) == n
  {
    if n >= 10 {
      DecimalValue(n / 10);
      var s := Decimal(n);
      assert s[..|s| - 1] == Decimal(n / 10);
    }
  }

  /** `Integer.toString(n)` and `Long.toString(n)`, as string concatenation
      uses them: a minus sign for negatives, then the decimal digits. */
  function IntToString(n: int): string {
    if n < 0 then "-" + Decimal(-n) else Decimal(n)
  }

  /** `Integer.parseInt(s)` with radix 10: an optional `+` or `-`, then at
      least one digit, and the value must fit in an `int`; `None` stands for
      the `NumberFormatException`. */
  function ParseInt(s: string): (r: Option<Int32>)
    ensures r.Some? ==> |s| > 0
  {
    if |s| == 0 then None
    else
      var negative := s[0] == '-';
      var digits := if s[0] == '-' || s[0] == '+' then s[1..] else s;
      if |digits| == 0 || !AllDigits(digits) then None
      else
        var magnitude: int := DigitsValue(digits);
        var v: int := if negative then -magnitude else magnitude;
        if InRange(v) then Some(v) else None
  }

  /** Every `int` survives printing and parsing back. */
  lemma ParseIntToString(n: Int32)
    ensures ParseInt(IntToString(n)) == Some(n)
  {
    ParseIntOfDecimal(n);
  }

  /** Any integer printed in decimal parses back exactly when it fits in an
      `int`: "2147483648" and "-2147483649" raise `NumberFormatException`. */
  lemma ParseIntOfDecimal(n: int)
    ensures ParseInt(IntToString(n)) == if InRange(n) then Some(n) else None
  {
    var s := IntToString(n);
    if n < 0 {
      DecimalValue(-n);
      assert s[0] == '-' && s[1..] == Decimal(-n);
    } else {
      DecimalValue(n);
      assert s[0] != '-' && s[0] != '+' by {
        assert IsDigit(Decimal(n)[0]);
      }
    }
  }

  /** The value of a spelling: its digits, negated after a minus sign. */
  function Signed(sign: string, digits: string): int
    requires AllDigits(digits)
  {
    var magnitude: int := DigitsValue(digits);
    if sign == "-" then -magnitude else magnitude
  }

  /** What `Integer.parseInt` accepts: an optional `+` or `-`, then one or
      more digits; the spelling parses to its value when that fits in an
      `int`, and raises `NumberFormatException` otherwise. */
  lemma ParseIntSpelling(sign: string, digits: string)
    requires sign == "" || sign == "+" || sign == "-"
    requires |digits| > 0 && AllDigits(digits)
    ensures ParseInt(sign + digits) ==
      if InRange(Signed(sign, digits)) then Some(Signed(sign, digits)) else None
  {
    var s := sign + digits;
    if sign == "" {
      assert s == digits;
      assert s[0] != '-' && s[0] != '+' by {
        assert IsDigit(digits[0]);
      }
    } else {
      assert s[1..] == digits;
    }
  }

  /** Conversely, whatever parses is such a spelling, and its value is the
      result. */
  lemma ParseIntParsed(s: string, n: int)
    requires ParseInt(s) == Some(n)
    ensures exists sign, digits ::
      (sign == "" || sign == "+" || sign == "-") && |digits| > 0 && AllDigits(digits) &&
      s == sign + digits && Signed(sign, digits) == n
  {
    var sign := if s[0] == '-' || s[0] == '+' then s[..1] else "";
    var digits := s[|sign|..];
    assert s == sign + digits;
    assert Signed(sign, digits) == n;
  }

  /** A leading `+` changes nothing. */
  lemma ParseIntPlusSign(n: nat)
    ensures ParseInt("+" + IntToString(n)) == ParseInt(IntToString(n))
  {
    ParseIntSpelling("+", Decimal(n));
    ParseIntSpelling("", Decimal(n));
    assert "" + Decimal(n) == Decimal(n);
  }

  lemma {:induction false} LeadingZeroValue(digits: string)
    requires AllDigits(digits)
    ensures AllDigits("0" + digits) && DigitsValue("0" + digits) == DigitsValue(digits)
  {
    if digits != [] {
      var t := "0" + digits;
      assert t[..|t| - 1] == "0" + digits[..|digits| - 1];
      LeadingZeroValue(digits[..|digits| - 1]);
    }
  }

  /** Leading zeros change nothing, after a sign or without one. */
  lemma ParseIntLeadingZero(sign: string, digits: string)
    requires sign == "" || sign == "+" || sign == "-"
    requires |digits| > 0 && AllDigits(digits)
    ensures ParseInt(sign + ("0" + digits)) == ParseInt(sign + digits)
  {
    LeadingZeroValue(digits);
    ParseIntSpelling(sign, "0" + digits);
    ParseIntSpelling(sign, digits);
  }

  /** A string that starts with neither a sign nor a digit never parses. */
  lemma ParseIntNeedsSignOrDigit(s: string)
    requires |s| > 0 && s[0] != '-' && s[0] != '+' && !IsDigit(s[0])
    ensures ParseInt(s) == None
  {
  }

  /** `Integer.parseInt` on a plus sign, leading zeros and a bare sign. */
  lemma ParseIntSignExamples()
    ensures ParseInt("+7") == Some(7)
    ensures ParseInt("007") == Some(7)
    ensures ParseInt("-") == None && ParseInt("+") == None
  {
    assert DigitsValue("7") == 7;
    ParseIntSpelling("+", "7");
    assert "+" + "7" == "+7";
    ParseIntLeadingZero("", "7");
    ParseIntLeadingZero("", "07");
    ParseIntSpelling("", "7");
    assert "" + ("0" + "07") == "007" && "" + "07" == "07" && "" + ("0" + "7") == "07" && "" + "7" == "7";
  }

  /** The largest `int` parses; one more does not. */
  lemma ParseIntMaxExamples()
    ensures ParseInt("2147483647") == Some(2147483647)
    ensures ParseInt("2147483648") == None
  {
    assert DigitsValue("2") == 2;
    DigitsSnoc("2", '1');
    assert "2" + ['1'] == "21";
    assert DigitsValue("21") == 21;
    DigitsSnoc("21", '4');
    assert "21" + ['4'] == "214";
    assert DigitsValue("214") == 214;
    DigitsSnoc("214", '7');
    assert "214" + ['7'] == "2147";
    assert DigitsValue("2147") == 2147;
    DigitsSnoc("2147", '4');
    assert "2147" + ['4'] == "21474";
    assert DigitsValue("21474") == 21474;
    DigitsSnoc("21474", '8');
    assert "21474" + ['8'] == "214748";
    assert DigitsValue("214748") == 214748;
    DigitsSnoc("214748", '3');
    assert "214748" + ['3'] == "2147483";
    assert DigitsValue("2147483") == 2147483;
    DigitsSnoc("2147483", '6');
    assert "2147483" + ['6'] == "21474836";
    assert DigitsValue("21474836") == 21474836;
    DigitsSnoc("21474836", '4');
    assert "21474836" + ['4'] == "214748364";
    assert DigitsValue("214748364") == 214748364;
    DigitsSnoc("214748364", '7');
    assert "214748364" + ['7'] == "2147483647";
    assert DigitsValue("2147483647") == 2147483647;
    DigitsSnoc("214748364", '8');
    assert "214748364" + ['8'] == "2147483648";
    assert DigitsValue("2147483648") == 2147483648;
    ParseIntSpelling("", "2147483647");
    ParseIntSpelling("", "2147483648");
    assert "" + "2147483647" == "2147483647" && "" + "2147483648" == "2147483648";
  }

  /** The smallest `int` parses; one less does not. */
  lemma ParseIntMinExamples()
    ensures ParseInt("-2147483648") == Some(-2147483648)
    ensures ParseInt("-2147483649") == None
  {
    assert DigitsValue("2") == 2;
    DigitsSnoc("2", '1');
    assert "2" + ['1'] == "21";
    assert DigitsValue("21") == 21;
    DigitsSnoc("21", '4');
    assert "21" + ['4'] == "214";
    assert DigitsValue("214") == 214;
    DigitsSnoc("214", '7');
    assert "214" + ['7'] == "2147";
    assert DigitsValue("2147") == 2147;
    DigitsSnoc("2147", '4');
    assert "2147" + ['4'] == "21474";
    assert DigitsValue("21474") == 21474;
    DigitsSnoc("21474", '8');
    assert "21474" + ['8'] == "214748";
    assert DigitsValue("214748") == 214748;
    DigitsSnoc("214748", '3');
    assert "214748" + ['3'] == "2147483";
    assert DigitsValue("2147483") == 2147483;
    DigitsSnoc("2147483", '6');
    assert "2147483" + ['6'] == "21474836";
    assert DigitsValue("21474836") == 21474836;
    DigitsSnoc("21474836", '4');
    assert "21474836" + ['4'] == "214748364";
    assert DigitsValue("214748364") == 214748364;
    DigitsSnoc("214748364", '8');
    assert "214748364" + ['8'] == "2147483648";
    assert DigitsValue("2147483648") == 2147483648;
    DigitsSnoc("214748364", '9');
    assert "214748364" + ['9'] == "2147483649";
    assert DigitsValue("2147483649") == 2147483649;
    ParseIntSpelling("-", "2147483648");
    ParseIntSpelling("-", "2147483649");
    assert "-" + "2147483648" == "-2147483648" && "-" + "2147483649" == "-2147483649";
  }
}
