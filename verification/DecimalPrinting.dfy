/** The parsing loops, the printed form, and the bijection between decimals and canonical texts. */
module DecimalPrinting {
  import opened Decimals
  import opened DecimalArithmetic
  import opened DecimalText
  import opened DecimalParsing

  /** Collects ASCII digits from a position. */
  method TakeDigits(text: string, start: nat) returns (digits: string, at: nat)
    requires start <= |text|
    ensures digits == Run(text[start..]) && at == start + |digits| <= |text|
  {
    hide Run;
    digits, at := "", start;
    assert "" + Run(text[start..]) == Run(text[start..]);
    while at < |text| && Digit(text[at])
      invariant start <= at <= |text| && at == start + |digits|
      invariant digits + Run(text[at..]) == Run(text[start..])
    {
      RunSplit(text, at);
      assert digits + ([text[at]] + Run(text[at + 1..])) == (digits + [text[at]]) + Run(text[at + 1..]);
      digits := digits + [text[at]];
      at := at + 1;
    }
    RunSplit(text, at);
    assert digits + "" == digits;
  }

  lemma RunSplit(text: string, at: nat)
    requires at <= |text|
    ensures at < |text| && Digit(text[at]) ==> Run(text[at..]) == [text[at]] + Run(text[at + 1..])
    ensures !(at < |text| && Digit(text[at])) ==> Run(text[at..]) == ""
  {
    if at < |text| { assert text[at..][1..] == text[at + 1..]; }
  }

  /** Reads the exponent digits, stopping as soon as the value passes 128. */
  method TakeExponent(text: string, start: nat) returns (exponent: i32, at: nat, ok: bool)
    requires start <= |text|
    ensures ok <==> Number(Run(text[start..])) <= 128
    ensures ok ==> exponent as int == Number(Run(text[start..])) && at == start + |Run(text[start..])| <= |text|
  {
    hide Number, Run;
    exponent, at := 0, start;
    ghost var run := Run(text[start..]);
    NumberEmpty();
    assert run[..0] == "";
    while at < |text| && Digit(text[at])
      invariant start <= at <= start + |run| <= |text|
      invariant exponent as int == Number(run[..at - start]) <= 128
    {
      var k := at - start;
      assert k < |run| by { InRun(text, start, at); }
      assert run[k] == text[at];
      NumberStep(run, k);
      NumberGrows(run, k + 1);
      exponent := exponent * 10 + (text[at] as int - '0' as int) as i32;
      if exponent > 128 {
        return exponent, at, false;
      }
      at := at + 1;
    }
    RunEnd(text, start, at);
    assert run[..at - start] == run;
    ok := true;
  }

  lemma NumberEmpty()
    ensures Number("") == 0
  {
  }

  lemma NumberStep(s: string, k: nat)
    requires Digits(s) && k < |s|
    ensures Number(s[..k + 1]) == 10 * Number(s[..k]) + DigitValue(s[k])
  {
    assert s[..k + 1][..k] == s[..k];
  }

  lemma InRun(text: string, start: nat, at: nat)
    requires start <= at < |text| && Digit(text[at]) && at <= start + |Run(text[start..])|
    ensures at < start + |Run(text[start..])|
  {
    hide Run;
    assert text[start..][at - start] == text[at];
  }

  /** Inside the run every character is a digit. */
  lemma RunEnd(text: string, start: nat, at: nat)
    requires start <= |text| && start <= at
    ensures at < start + |Run(text[start..])| ==> at < |text| && Digit(text[at])
  {
    hide Run;
    var run, k := Run(text[start..]), at - start;
    assert k < |run| ==> run[k] == text[start..][k];
  }

  /** Trims, converts and normalises the digits of a scanned literal. */
  method Convert(ghost l: Literal, negative: bool, digits: string, fraction: nat, exponent: i32) returns (r: Result<Decimal>)
    requires WellFormed(l) && digits == l.whole + l.fraction && |digits| <= 128 && fraction == |l.fraction|
    requires negative <==> l.sign == "-"
    requires exponent as int == ExponentValue(l) && ExponentSize(l) <= 128
    ensures r == Evaluate(l)
  {
    hide Exactly, Number, TrimStart, TrimEnd, Value, LiteralValue, ExponentValue, ExponentSize, Signed;
    var lead := TrimStart(digits);
    DigitsConcat(l.whole, l.fraction);
    TrimStartNumber(digits);
    if lead == "" {
      ZeroLiteral(l);
      return Ok(ZERO);
    }
    var trimmed := TrimEnd(lead);
    ExponentBound(l);
    var scale: i32 := fraction as i32 - exponent - (|lead| - |trimmed|) as i32;
    if |trimmed| > 18 {
      return Err(Precision);
    }
    TrimmedValue(l);
    CoefficientFits(trimmed);
    var coefficient: i128 := Number(trimmed) as i128;
    SignedIs(l.sign, coefficient as int);
    r := Normalized(if negative then -coefficient else coefficient, scale);
  }

  lemma ExponentBound(l: Literal)
    requires WellFormed(l) && ExponentSize(l) <= 128
    ensures -128 <= ExponentValue(l) <= 128
  {
  }

  lemma SignedIs(sign: string, n: int)
    ensures Signed(sign, n) == if sign == "-" then -n else n
  {
  }

  lemma CoefficientFits(s: string)
    requires Digits(s) && |s| <= 18
    ensures Number(s) <= MAX_COEFFICIENT
  {
    ShortNumber(s);
    TenGrows(|s|, 18);
    TenEighteen();
  }

  lemma ZeroLiteral(l: Literal)
    requires WellFormed(l) && TrimStart(l.whole + l.fraction) == ""
    ensures Evaluate(l) == Ok(ZERO)
  {
    hide Exactly;
    DigitsConcat(l.whole, l.fraction);
    TrimStartNumber(l.whole + l.fraction);
    ZeroValue(|l.fraction| - ExponentValue(l));
    ExactlyOk(ZERO);
  }

  /** `from_str`: exactly the reference parse. */
  method FromStr(text: string) returns (r: Result<Decimal>)
    ensures r == Parse(text)
  {
    hide Run, Evaluate, Scan, ScanExponent, Parse;
    if |text| > MAX_INPUT {
      TooLong(text);
      return Err(InputLimit);
    }
    var negative := text != "" && text[0] == '-';
    var at := 0;
    if negative || (text != "" && text[0] == '+') {
      at := 1;
    }
    ghost var sign := SignOf(text);
    assert at == |sign| && (negative <==> sign == "-");
    var whole;
    whole, at := TakeDigits(text, at);
    if whole == "" {
      NoWhole(text);
      return Err(Syntax);
    }
    assert text[|sign|..][|whole|..] == text[at..];
    var fraction := "";
    if at < |text| && text[at] == '.' {
      assert text[at..][1..] == text[at + 1..];
      fraction, at := TakeDigits(text, at + 1);
      if fraction == "" {
        NoFraction(text, whole);
        return Err(Syntax);
      }
    }
    assert Scan(text) == ScanExponent(sign, whole, fraction, text[at..]) by {
      ScanStages(text, whole, fraction, at);
    }
    r := FinishParse(text, sign, negative, whole, fraction, at);
  }

  lemma TooLong(text: string)
    requires |text| > MAX_INPUT
    ensures Parse(text) == Err(InputLimit)
  {
  }

  lemma NoWhole(text: string)
    requires |text| <= MAX_INPUT && Run(text[|SignOf(text)|..]) == ""
    ensures Parse(text) == Err(Syntax)
  {
  }

  lemma NoFraction(text: string, whole: string)
    requires |text| <= MAX_INPUT && whole == Run(text[|SignOf(text)|..]) != ""
    requires
      var b := |SignOf(text)| + |whole|;
      b < |text| && text[b] == '.' && Run(text[b + 1..]) == ""
    ensures Parse(text) == Err(Syntax)
  {
    hide Run, ScanFraction, Evaluate;
    var b := |SignOf(text)| + |whole|;
    assert text[|SignOf(text)|..][|whole|..] == text[b..];
    PointOnly(SignOf(text), whole, text, b);
  }

  lemma PointOnly(sign: string, whole: string, text: string, b: nat)
    requires b < |text| && text[b] == '.' && Run(text[b + 1..]) == ""
    ensures ScanFraction(sign, whole, text[b..]) == Malformed
  {
    hide Run, ScanExponent;
    assert text[b..][1..] == text[b + 1..];
  }

  lemma ScanStages(text: string, whole: string, fraction: string, at: nat)
    requires at <= |text| && whole == Run(text[|SignOf(text)|..]) != ""
    requires
      var b := |SignOf(text)| + |whole|;
      if b < |text| && text[b] == '.' then fraction == Run(text[b + 1..]) != "" && at == b + 1 + |fraction|
      else fraction == "" && at == b
    ensures Scan(text) == ScanExponent(SignOf(text), whole, fraction, text[at..])
  {
    hide Run, ScanExponent;
    var rest := text[|SignOf(text)|..];
    var b := |SignOf(text)| + |whole|;
    assert rest[|whole|..] == text[b..];
    if b < |text| && text[b] == '.' {
      assert text[b..][1..] == text[b + 1..];
      assert text[b..][1 + |fraction|..] == text[at..];
    }
  }

  /** Sign and digits after an exponent mark at `start`; `failed` reports the error to return. */
  method TakeExponentPart(text: string, start: nat)
    returns (exponent: i32, at: nat, failed: Result<()>, ghost e: Exponent)
    requires start < |text| && (text[start] == 'e' || text[start] == 'E')
    ensures
      var esign := SignOf(text[start..][1..]);
      var digits := Run(text[start..][1 + |esign|..]);
      && (failed == Err(InputLimit) <==> Number(digits) > 128)
      && (failed == Err(Syntax) <==> Number(digits) <= 128 && digits == "")
      && (failed.Ok? <==> Number(digits) <= 128 && digits != "")
      && (failed.Ok? ==>
            && e == Exponent(text[start], esign, digits)
            && at == start + 1 + |esign| + |digits| <= |text|
            && exponent as int == Signed(esign, Number(digits)))
  {
    hide Run, Number;
    at := start + 1;
    assert text[start..][1..] == text[at..];
    ghost var esign := SignOf(text[at..]);
    var negative := at < |text| && text[at] == '-';
    if negative || (at < |text| && text[at] == '+') {
      at := at + 1;
    }
    assert at == start + 1 + |esign|;
    assert text[start..][1 + |esign|..] == text[at..];
    ghost var digits := Run(text[at..]);
    e := Exponent(text[start], esign, digits);
    var from := at;
    var ok;
    exponent, at, ok := TakeExponent(text, from);
    if !ok {
      return 0, at, Err(InputLimit), e;
    }
    if from == at {
      return 0, at, Err(Syntax), e;
    }
    if negative {
      exponent := -exponent;
    }
    failed := Ok(());
  }

  /** The optional exponent, the end-of-text check and the conversion. */
  method FinishParse(text: string, ghost sign: string, negative: bool, whole: string, fraction: string, start: nat)
    returns (r: Result<Decimal>)
    requires start <= |text| <= MAX_INPUT && Sign(sign) && (negative <==> sign == "-")
    requires whole != "" && Digits(whole) && Digits(fraction) && |whole| + |fraction| <= |text|
    requires Scan(text) == ScanExponent(sign, whole, fraction, text[start..])
    ensures r == Parse(text)
  {
    hide Run, Evaluate, Number, Scan;
    var at := start;
    var exponent: i32 := 0;
    ghost var e := NoExponent;
    if at < |text| && (text[at] == 'e' || text[at] == 'E') {
      var failed;
      exponent, at, failed, e := TakeExponentPart(text, start);
      if failed.Err? {
        return Err(failed.error);
      }
      assert text[start..][1 + |e.sign| + |e.digits|..] == text[at..];
    }
    if at != |text| {
      return Err(Syntax);
    }
    ghost var l := Literal(sign, whole, fraction, e);
    assert Scan(text) == Parsed(l);
    ScanSound(text);
    r := Convert(l, negative, whole + fraction, |fraction|, exponent);
  }

  // ----- printing -----

  function DigitChar(d: nat): (c: char)
    requires d < 10
    ensures Digit(c) && DigitValue(c) == d
  {
    ('0' as int + d) as char
  }

  /** The decimal digits of a natural number, as `to_string` writes them. */
  function Spell(n: nat): (s: string)
    ensures s != "" && Digits(s) && Number(s) == n
  {
    if n < 10 then
      var s := [DigitChar(n)];
      assert s[..0] == "" && Number("") == 0;
      s
    else
      var s := Spell(n / 10) + [DigitChar(n % 10)];
      assert s[..|s| - 1] == Spell(n / 10);
      s
  }

  function Zeros(n: nat): (s: string)
    ensures |s| == n && Digits(s) && forall i | 0 <= i < n :: s[i] == '0'
  {
    if n == 0 then "" else Zeros(n - 1) + "0"
  }

  /** The canonical text. */
  function Print(d: Decimal): string {
    var digits := Spell(Abs(d.coefficient));
    (if d.coefficient < 0 then "-" else "")
    + if d.scale == 0 then digits
      else if |digits| <= d.scale then "0." + (Zeros(d.scale - |digits|) + digits)
      else digits[..|digits| - d.scale] + ("." + digits[|digits| - d.scale..])
  }

  /** `Display::fmt`, writing piece after piece. */
  method Display(d: Decimal) returns (out: string)
    ensures out == Print(d)
  {
    hide Spell, Number;
    out := "";
    if d.coefficient < 0 {
      out := out + "-";
    }
    ghost var sign := out;
    var digits := Spell(Abs(d.coefficient));
    if d.scale == 0 {
      return out + digits;
    }
    if |digits| <= d.scale {
      out := out + "0.";
      for i := |digits| to d.scale
        invariant out == sign + "0." + Zeros(i - |digits|)
      {
        out := out + "0";
      }
      out := out + digits;
      assert out == sign + ("0." + (Zeros(d.scale - |digits|) + digits));
    } else {
      var split := |digits| - d.scale;
      out := out + digits[..split] + "." + digits[split..];
      assert out == sign + (digits[..split] + ("." + digits[split..]));
    }
  }

  /** The literal a decimal prints as. */
  function Printed(d: Decimal): Literal {
    var digits := Spell(Abs(d.coefficient));
    var sign := if d.coefficient < 0 then "-" else "";
    if d.scale == 0 then Literal(sign, digits, "", NoExponent)
    else if |digits| <= d.scale then Literal(sign, "0", Zeros(d.scale - |digits|) + digits, NoExponent)
    else Literal(sign, digits[..|digits| - d.scale], digits[|digits| - d.scale..], NoExponent)
  }

  lemma {:induction false} ZerosNumber(n: nat, s: string)
    requires Digits(s)
    ensures Digits(Zeros(n) + s) && Number(Zeros(n) + s) == Number(s)
  {
    if n == 0 {
      assert Zeros(0) + s == s;
    } else {
      var t := "0" + s;
      assert Digits(t);
      LeadingZero(s);
      ZerosNumber(n - 1, t);
      assert Zeros(n) + s == Zeros(n - 1) + t;
    }
  }

  lemma PrintedRenders(d: Decimal)
    ensures WellFormed(Printed(d)) && Render(Printed(d)) == Print(d) && ExponentSize(Printed(d)) == 0
    ensures |Printed(d).fraction| == d.scale
  {
    hide Spell, Zeros, Number;
    var l := Printed(d);
    assert Point(l.fraction) + "" == Point(l.fraction);
    assert l.whole + "" == l.whole;
  }

  lemma PrintedNumber(d: Decimal)
    ensures Digits(Printed(d).whole + Printed(d).fraction)
    ensures Number(Printed(d).whole + Printed(d).fraction) == Abs(d.coefficient)
  {
    hide Spell, Number;
    var l, digits := Printed(d), Spell(Abs(d.coefficient));
    if d.scale == 0 {
      assert l.whole + l.fraction == digits;
    } else if |digits| <= d.scale {
      var k := d.scale - |digits|;
      assert Zeros(k + 1) == Zeros(k) + "0";
      ZerosNumber(k + 1, digits);
      ZerosSwap(k);
      assert "0" + (Zeros(k) + digits) == ("0" + Zeros(k)) + digits;
    } else {
      assert l.whole + l.fraction == digits;
    }
  }

  lemma {:induction false} ZerosSwap(k: nat)
    ensures "0" + Zeros(k) == Zeros(k + 1)
  {
    if k > 0 {
      ZerosSwap(k - 1);
      assert "0" + Zeros(k) == ("0" + Zeros(k - 1)) + "0";
    }
  }

  lemma PrintedValue(d: Decimal)
    ensures WellFormed(Printed(d)) && LiteralValue(Printed(d)) == ValueOf(d)
  {
    hide Value, Number, Print, Render;
    PrintedRenders(d);
    PrintedNumber(d);
    SignedIs(Printed(d).sign, Abs(d.coefficient));
  }

  /** Length never limits a printed text. */
  lemma PrintShort(d: Decimal)
    ensures |Print(d)| <= MAX_INPUT
  {
    hide Number;
    TenEighteen();
    SpellShort(Abs(d.coefficient), 18);
  }

  lemma {:induction false} SpellShort(n: nat, k: nat)
    requires n < Ten(k) && k > 0
    ensures |Spell(n)| <= k
  {
    if n >= 10 {
      SpellShort(n / 10, k - 1);
    }
  }

  /** Parsing what was printed gives the decimal back. */
  lemma RoundTrip(d: Decimal)
    ensures Parse(Print(d)) == Ok(d)
  {
    hide Parse, Print, Printed, LiteralValue, ValueOf, Render, ExponentSize, WellFormed;
    PrintShort(d);
    PrintedRenders(d);
    PrintedValue(d);
    ParseExactly(Print(d), d);
  }

  // ----- canonical deserialisation -----

  /** Accepts a text only if printing the parsed value gives it back. */
  method Deserialize(text: string) returns (r: Result<Decimal>)
    ensures r == Canonical(text)
  {
    hide Parse, Print;
    var parsed := FromStr(text);
    if parsed.Err? {
      return parsed;
    }
    var printed := Display(parsed.value);
    if printed != text {
      return Err(NonCanonical);
    }
    return parsed;
  }

  ghost function Canonical(text: string): Result<Decimal> {
    var parsed := Parse(text);
    if parsed.Err? then parsed else if Print(parsed.value) != text then Err(NonCanonical) else parsed
  }

  /** Canonical texts and decimals are in bijection: a text is accepted exactly when it is the
      printed form of the decimal it yields, and different decimals print differently. */
  lemma CanonicalBijection(text: string, d: Decimal, e: Decimal)
    ensures Canonical(text) == Ok(d) <==> text == Print(d)
    ensures Print(d) == Print(e) <==> d == e
  {
    hide Parse, Print;
    RoundTrip(d);
    RoundTrip(e);
  }

  // ----- which texts are canonical -----

  /** No plus sign and no sign on zero, no superfluous leading zero, a point only before digits of
      which the last is not zero, at most 18 places and a coefficient of at most 18 digits. */
  predicate Canonically(sign: string, whole: string, fraction: string) {
    && (sign == "" || (sign == "-" && !(whole == "0" && fraction == "")))
    && whole != "" && Digits(whole) && (whole == "0" || whole[0] != '0')
    && Digits(fraction) && |fraction| <= 18 && (fraction != "" ==> fraction[|fraction| - 1] != '0')
    && Number(whole + fraction) <= 999_999_999_999_999_999
  }

  function Joined(sign: string, whole: string, fraction: string): string {
    sign + whole + if fraction == "" then "" else "." + fraction
  }

  /** A digit string without superfluous zeros in front is what its number is spelled as. */
  lemma {:induction false} SpellUnique(s: string)
    requires Digits(s) && s != "" && (s == "0" || s[0] != '0')
    ensures Spell(Number(s)) == s
  {
    var front, last := s[..|s| - 1], s[|s| - 1];
    assert s == front + [last];
    LastDigitOf(Number(front), DigitValue(last));
    assert DigitChar(DigitValue(last)) == last;
    if front == "" {
      assert Number(front) == 0;
    } else {
      SpellUnique(front);
      LongNumber(front);
    }
  }

  lemma LastDigitOf(m: nat, d: nat)
    requires d < 10
    ensures (10 * m + d) / 10 == m && (10 * m + d) % 10 == d
  {
  }

  lemma {:induction false} SpellLeads(n: nat)
    ensures n == 0 ==> Spell(n) == "0"
    ensures n > 0 ==> Spell(n)[0] != '0'
  {
    if n >= 10 { SpellLeads(n / 10); }
  }

  lemma {:induction false} SpellLast(n: nat)
    requires n % 10 != 0
    ensures Spell(n)[|Spell(n)| - 1] != '0'
  {
    assert DigitValue('0') == 0;
  }

  lemma {:induction false} TrimStartZeros(s: string)
    ensures s == Zeros(|s| - |TrimStart(s)|) + TrimStart(s)
  {
    if s != "" && s[0] == '0' {
      var k := |s| - 1 - |TrimStart(s[1..])|;
      TrimStartZeros(s[1..]);
      ZerosSwap(k);
      assert s == "0" + s[1..];
    }
  }

  /** What is printed is canonical. */
  lemma PrintedCanonically(d: Decimal)
    ensures
      var l := Printed(d);
      Canonically(l.sign, l.whole, l.fraction) && Joined(l.sign, l.whole, l.fraction) == Print(d)
  {
    PrintedNumber(d);
    PrintedDigits(d);
    PrintedJoined(d);
    hide Spell, Number, Print, Joined;
    var l := Printed(d);
    assert d.coefficient < 0 ==> Abs(d.coefficient) != 0;
    if l.whole == "0" && l.fraction == "" { ZeroNumber(); }
  }

  lemma ZeroNumber()
    ensures Digits("0" + "") && Number("0" + "") == 0
  {
    assert "0" + "" == "0" && "0"[..0] == "" && Number("") == 0;
  }

  lemma PrintedJoined(d: Decimal)
    ensures Joined(Printed(d).sign, Printed(d).whole, Printed(d).fraction) == Print(d)
  {
    hide Spell, Zeros, Number;
    var l := Printed(d);
    assert l.whole + "" == l.whole;
    assert (l.sign + l.whole) + ("." + l.fraction) == l.sign + (l.whole + ("." + l.fraction));
    assert ("0" + ("." + l.fraction)) == "0." + l.fraction;
  }

  /** The shape of the printed digits on either side of the point. */
  lemma PrintedDigits(d: Decimal)
    ensures
      var l := Printed(d);
      && l.whole != "" && Digits(l.whole) && (l.whole == "0" || l.whole[0] != '0')
      && Digits(l.fraction) && |l.fraction| == d.scale && (l.fraction != "" ==> l.fraction[|l.fraction| - 1] != '0')
  {
    var n := Abs(d.coefficient);
    SpellLeads(n);
    if d.scale > 0 {
      AbsMod(d.coefficient);
      SpellLast(n);
    }
    hide Spell, Number;
    var digits := Spell(n);
    if d.scale > 0 && |digits| > d.scale {
      TailLast(digits, |digits| - d.scale);
    } else if d.scale > 0 {
      assert (Zeros(d.scale - |digits|) + digits)[d.scale - 1] == digits[|digits| - 1];
    }
  }

  lemma TailLast(s: string, k: nat)
    requires k < |s| && Digits(s)
    ensures Digits(s[..k]) && Digits(s[k..]) && s[k..][|s[k..]| - 1] == s[|s| - 1]
  {
  }

  lemma AbsMod(c: int)
    requires c % 10 != 0
    ensures Abs(c) % 10 != 0
  {
  }

  /** A canonical text is the printed form of the decimal it spells. */
  lemma CanonicallyPrinted(sign: string, whole: string, fraction: string)
    requires Canonically(sign, whole, fraction)
    ensures Digits(whole + fraction)
    ensures
      var d := Scaled(Signed(sign, Number(whole + fraction)), |fraction|);
      Normal(d) && Print(d) == Joined(sign, whole, fraction)
  {
    CanonicallyNormal(sign, whole, fraction);
    CanonicallySpelled(sign, whole, fraction);
    CanonicalSign(sign, whole, fraction);
    hide *;
    var n := Number(whole + fraction);
    SignedIs(sign, n);
    NegatedAbs(n);
    PrintOf(Scaled(Signed(sign, n), |fraction|), sign, whole, fraction, Spell(n));
  }

  lemma NegatedAbs(n: int)
    requires n >= 0
    ensures Abs(n) == n == Abs(-n)
  {
  }

  lemma CanonicalSign(sign: string, whole: string, fraction: string)
    requires Canonically(sign, whole, fraction)
    ensures (sign == "" || sign == "-") && whole != ""
  {
  }

  /** The printed text, from how the coefficient is spelled. */
  lemma PrintOf(d: Decimal, sign: string, whole: string, fraction: string, digits: string)
    requires digits == Spell(Abs(d.coefficient)) && |fraction| == d.scale && whole != ""
    requires sign == if d.coefficient < 0 then "-" else ""
    requires whole != "0" || fraction == "" ==> digits == whole + fraction
    requires whole == "0" && fraction != "" ==> |digits| <= |fraction| && Zeros(|fraction| - |digits|) + digits == fraction
    ensures Print(d) == Joined(sign, whole, fraction)
  {
    hide *;
    PrintCases(d, digits);
    JoinedCases(sign, whole, fraction);
    if fraction == "" {
      assert digits == whole;
    } else if whole == "0" {
      assert "0." + fraction == "0" + ("." + fraction);
    } else {
      assert digits[..|whole|] == whole && digits[|whole|..] == fraction;
    }
  }

  lemma PrintCases(d: Decimal, digits: string)
    requires digits == Spell(Abs(d.coefficient))
    ensures
      var sign := if d.coefficient < 0 then "-" else "";
      && (d.scale == 0 ==> Print(d) == sign + digits)
      && (d.scale > 0 && |digits| <= d.scale ==> Print(d) == sign + ("0." + (Zeros(d.scale - |digits|) + digits)))
      && (0 < d.scale < |digits| ==> Print(d) == sign + (digits[..|digits| - d.scale] + ("." + digits[|digits| - d.scale..])))
  {
    hide Spell, Zeros, Number;
  }

  lemma JoinedCases(sign: string, whole: string, fraction: string)
    ensures fraction == "" ==> Joined(sign, whole, fraction) == sign + whole
    ensures fraction != "" ==> Joined(sign, whole, fraction) == sign + (whole + ("." + fraction))
  {
    assert (sign + whole) + ("." + fraction) == sign + (whole + ("." + fraction));
    assert (sign + whole) + "" == sign + whole;
  }

  lemma CanonicallyNormal(sign: string, whole: string, fraction: string)
    requires Canonically(sign, whole, fraction)
    ensures Digits(whole + fraction)
    ensures Normal(Scaled(Signed(sign, Number(whole + fraction)), |fraction|))
    ensures sign == "-" ==> Number(whole + fraction) > 0
  {
    var all := whole + fraction;
    DigitsConcat(whole, fraction);
    if fraction != "" {
      assert all[|all| - 1] == fraction[|fraction| - 1];
      LastDigit(all);
      NegatedMod(Number(all));
    } else if whole != "0" {
      assert all == whole;
      LongNumber(all);
    } else {
      ZeroNumber();
    }
    hide Number;
  }

  /** How the number of a canonical text is spelled. */
  lemma CanonicallySpelled(sign: string, whole: string, fraction: string)
    requires Canonically(sign, whole, fraction) && Digits(whole + fraction)
    ensures
      var digits := Spell(Number(whole + fraction));
      && (whole != "0" || fraction == "" ==> digits == whole + fraction)
      && (whole == "0" && fraction != "" ==>
            |digits| <= |fraction| && Zeros(|fraction| - |digits|) + digits == fraction)
  {
    hide Spell, Number, Zeros;
    if whole == "0" && fraction != "" {
      SmallDigits(fraction);
    } else {
      var all := whole + fraction;
      assert all[0] == whole[0] && (fraction == "" ==> all == whole);
      SpellUnique(all);
    }
  }

  /** Digits behind `0.`: the number is spelled by what follows the zeros. */
  lemma SmallDigits(fraction: string)
    requires Digits(fraction) && fraction != "" && fraction[|fraction| - 1] != '0'
    ensures Digits("0" + fraction)
    ensures
      var digits := Spell(Number("0" + fraction));
      |digits| <= |fraction| && Zeros(|fraction| - |digits|) + digits == fraction
  {
    hide *;
    LeadingZero(fraction);
    TrimStartNumber(fraction);
    TrimStartZeros(fraction);
    SomeDigit(fraction);
    SpellUnique(TrimStart(fraction));
    DigitsConcat("0", fraction);
    ZeroNumber();
  }

  lemma SomeDigit(fraction: string)
    requires Digits(fraction) && fraction != "" && fraction[|fraction| - 1] != '0'
    ensures TrimStart(fraction) != "" && Digits("0")
  {
    TrimStartNumber(fraction);
    LastDigit(fraction);
    hide TrimStart, Number;
  }

  /** The canonical texts, exactly. So `Deserialize` accepts these and no others. */
  lemma CanonicalExactly(text: string)
    ensures Canonical(text).Ok? <==>
            exists sign, whole, fraction :: Canonically(sign, whole, fraction) && text == Joined(sign, whole, fraction)
  {
    hide Parse, Print, Canonically, Joined, Spell, Printed;
    if Canonical(text).Ok? {
      var d := Canonical(text).value;
      PrintedCanonically(d);
    }
    if sign, whole, fraction :| Canonically(sign, whole, fraction) && text == Joined(sign, whole, fraction) {
      CanonicallyPrinted(sign, whole, fraction);
      var d: Decimal := Scaled(Signed(sign, Number(whole + fraction)), |fraction|);
      CanonicalBijection(text, d, d);
    }
  }
}
