/** `from_str` of decimals: exact values and exact errors. */
module DecimalParsing {
  // Errors come in the order the code finds them.

  import opened Decimals
  import opened DecimalArithmetic
  import opened DecimalText

  function TrimStart(s: string): (r: string)
    ensures |r| <= |s| && r == s[|s| - |r|..] && (r != "" ==> r[0] != '0')
  {
    if s != "" && s[0] == '0' then TrimStart(s[1..]) else s
  }

  function TrimEnd(s: string): (r: string)
    ensures |r| <= |s| && r == s[..|r|] && (r != "" ==> r[|r| - 1] != '0')
  {
    if s != "" && s[|s| - 1] == '0' then TrimEnd(s[..|s| - 1]) else s
  }

  lemma {:induction false} TrimStartNumber(s: string)
    requires Digits(s)
    ensures Digits(TrimStart(s)) && Number(TrimStart(s)) == Number(s)
    ensures TrimStart(s) == "" ==> Number(s) == 0
  {
    if s != "" && s[0] == '0' {
      TrimStartNumber(s[1..]);
      LeadingZero(s[1..]);
      assert s == "0" + s[1..];
    }
  }

  lemma {:induction false} LeadingZero(s: string)
    requires Digits(s)
    ensures Number("0" + s) == Number(s)
  {
    var z := "0" + s;
    if s == "" {
      assert z[..|z| - 1] == "";
    } else {
      LeadingZero(s[..|s| - 1]);
      assert z[..|z| - 1] == "0" + s[..|s| - 1];
    }
  }

  lemma {:induction false} TrimEndNumber(s: string)
    requires Digits(s)
    ensures Digits(TrimEnd(s)) && Number(s) == Number(TrimEnd(s)) * Ten(|s| - |TrimEnd(s)|)
  {
    if s != "" && s[|s| - 1] == '0' {
      var r := s[..|s| - 1];
      TrimEndNumber(r);
      var k := |r| - |TrimEnd(r)|;
      FactorTen(Number(TrimEnd(r)), Ten(k));
      assert Ten(k + 1) == 10 * Ten(k);
    }
  }

  /** A digit string without leading zeros is at least as long a number. */
  lemma {:induction false} LongNumber(s: string)
    requires Digits(s) && s != "" && s[0] != '0'
    ensures Number(s) >= Ten(|s| - 1)
  {
    if |s| > 1 {
      LongNumber(s[..|s| - 1]);
    } else {
      assert s[..0] == "";
      assert Ten(0) == 1;
    }
  }

  lemma {:induction false} ShortNumber(s: string)
    requires Digits(s)
    ensures Number(s) < Ten(|s|)
  {
    if s != "" { ShortNumber(s[..|s| - 1]); }
  }

  lemma LastDigit(s: string)
    requires Digits(s) && s != "" && s[|s| - 1] != '0'
    ensures Number(s) % 10 != 0
  {
    var d := DigitValue(s[|s| - 1]);
    TenPlus(Number(s[..|s| - 1]), d);
  }

  lemma TenPlus(m: int, d: int)
    requires 0 < d < 10
    ensures (10 * m + d) % 10 != 0
  {
  }

  /** The significant digits: no leading and no trailing zeros. */
  function Significant(l: Literal): string {
    TrimEnd(TrimStart(l.whole + l.fraction))
  }

  lemma DigitsConcat(a: string, b: string)
    requires Digits(a) && Digits(b)
    ensures Digits(a + b)
  {
  }

  // ----- the reference answer for a text -----

  /** More than 18 significant digits are refused before the number of places is looked at. */
  ghost function Evaluate(l: Literal): Result<Decimal>
    requires WellFormed(l)
  {
    if |Significant(l)| > 18 then Err(Precision) else Exactly(LiteralValue(l))
  }

  ghost function Parse(text: string): Result<Decimal> {
    if |text| > MAX_INPUT then Err(InputLimit)
    else
      var s := Scan(text);
      match s
      case TooLarge => Err(InputLimit)
      case Malformed => Err(Syntax)
      case Parsed(l) => ScanSound(text); Evaluate(l)
  }

  /** The places left after trimming. */
  function Places(l: Literal): int
    requires WellFormed(l)
  {
    |l.fraction| - ExponentValue(l) - (|TrimStart(l.whole + l.fraction)| - |Significant(l)|)
  }

  /** The trimmed coefficient and its places have the literal's value. */
  lemma TrimmedValue(l: Literal)
    requires WellFormed(l)
    ensures Digits(Significant(l))
    ensures LiteralValue(l) == Value(Signed(l.sign, Number(Significant(l))), Places(l))
  {
    hide Value, Number, TrimStart, TrimEnd, ExponentValue;
    DigitsConcat(l.whole, l.fraction);
    TrimStartNumber(l.whole + l.fraction);
    TrimTail(TrimStart(l.whole + l.fraction), l.sign, |l.fraction| - ExponentValue(l));
  }

  /** Zeros cut off at the end are places given up. */
  lemma TrimTail(lead: string, sign: string, places: int)
    requires Digits(lead)
    ensures Digits(TrimEnd(lead))
    ensures Value(Signed(sign, Number(lead)), places)
         == Value(Signed(sign, Number(TrimEnd(lead))), places - (|lead| - |TrimEnd(lead)|))
  {
    hide *;
    TrimEndNumber(lead);
    ShiftValue(sign, Number(TrimEnd(lead)), |lead| - |TrimEnd(lead)|, places);
  }

  lemma ShiftValue(sign: string, n: int, k: nat, places: int)
    ensures Value(Signed(sign, n * Ten(k)), places) == Value(Signed(sign, n), places - k)
  {
    hide Value, Ten;
    NegatedProduct(n, Ten(k));
    MorePlaces(Signed(sign, n), places - k, k);
  }

  lemma NegatedProduct(a: int, b: int)
    ensures (-a) * b == -(a * b)
  {
  }

  /** A literal with more than 18 significant digits is not representable. */
  lemma TooManyDigits(l: Literal)
    requires WellFormed(l) && |Significant(l)| > 18
    ensures !Representable(LiteralValue(l))
  {
    hide Exactly, Value, Number, Significant, Places, Representable, LiteralValue;
    TrimmedValue(l);
    SignificantEnds(l);
    LongCoefficient(Significant(l));
    NegatedMod(Number(Significant(l)));
    var c, s := Signed(l.sign, Number(Significant(l))), Places(l);
    if s > MAX_SCALE { ExactlyScale(c, s); } else { ExactlyPrecision(c, s); }
    NotOk(Value(c, s));
  }

  lemma SignificantEnds(l: Literal)
    requires Significant(l) != ""
    ensures Significant(l)[0] != '0' && Significant(l)[|Significant(l)| - 1] != '0'
  {
    var lead := TrimStart(l.whole + l.fraction);
    assert TrimEnd(lead)[0] == lead[0];
  }

  lemma LongCoefficient(s: string)
    requires Digits(s) && |s| > 18 && s[0] != '0' && s[|s| - 1] != '0'
    ensures Number(s) > MAX_COEFFICIENT && Number(s) % 10 != 0
  {
    hide Number;
    LongNumber(s);
    TenGrows(18, |s| - 1);
    TenEighteen();
    LastDigit(s);
  }

  lemma NegatedMod(n: int)
    requires n % 10 != 0
    ensures (-n) % 10 != 0
  {
  }

  lemma NotOk(x: real)
    requires Exactly(x).Err?
    ensures !Representable(x)
  {
    forall d: Decimal ensures ValueOf(d) != x {
      ExactlyOk(d);
    }
  }

  /** A text within the limits is accepted exactly when it is a literal whose exact value is
      representable, and then it parses to that value. */
  lemma ParseExactly(text: string, d: Decimal)
    ensures Parse(text) == Ok(d) <==>
            |text| <= MAX_INPUT && exists l :: WellFormed(l) && Render(l) == text
                                               && ExponentSize(l) <= 128 && LiteralValue(l) == ValueOf(d)
  {
    hide Exactly, LiteralValue, ValueOf, Scan, Render, ExponentSize;
    if Parse(text) == Ok(d) {
      ScanSound(text);
      OkValue(LiteralValue(Scan(text).literal), d);
    }
    if |text| <= MAX_INPUT {
      if l :| WellFormed(l) && Render(l) == text && ExponentSize(l) <= 128 && LiteralValue(l) == ValueOf(d) {
        ScanComplete(l, "");
        ExactlyOk(d);
        if |Significant(l)| > 18 { TooManyDigits(l); OkRepresentable(d); }
      }
    }
  }

  lemma OkRepresentable(d: Decimal)
    ensures Representable(ValueOf(d))
  {
  }

  /** When a text is refused, the error says why. */
  lemma ParseErrors(text: string)
    ensures Parse(text) == Err(InputLimit) <==>
            |text| > MAX_INPUT
            || exists l: Literal, k: nat :: k <= |text| && WellFormed(l) && ExponentSize(l) > 128 && Render(l) == text[..k]
    ensures Parse(text) == Err(Syntax) <==>
            Parse(text) != Err(InputLimit) && !exists l :: WellFormed(l) && Render(l) == text
  {
    hide Exactly, Scan, Render, ExponentSize, LiteralValue;
    TooLargeExactly(text);
    if Scan(text).Parsed? { ScanSound(text); }
    ExactlyErrors(text);
    if l :| WellFormed(l) && Render(l) == text {
      ScanComplete(l, "");
      assert Render(l) + "" == Render(l);
    }
  }

  lemma ExactlyErrors(text: string)
    requires Scan(text).Parsed? ==> WellFormed(Scan(text).literal)
    ensures |text| <= MAX_INPUT && Scan(text).Parsed? ==> Parse(text) != Err(InputLimit) && Parse(text) != Err(Syntax)
  {
    hide Scan;
    if Scan(text).Parsed? {
      ReasonsOnly(LiteralValue(Scan(text).literal));
    }
  }

  lemma ReasonsOnly(x: real)
    ensures Exactly(x).Err? ==> Exactly(x).error in {NonTerminating, Scale, Precision}
  {
  }
}
