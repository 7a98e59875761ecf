/** Decimal text: its grammar, values and canonical form. */
module DecimalText {
  // Text is a sequence of bytes, one character per byte.

  import opened Decimals
  import opened DecimalArithmetic

  const MAX_INPUT: nat := 128

  predicate Digit(c: char) { '0' <= c <= '9' }

  predicate Digits(s: string) { forall i | 0 <= i < |s| :: Digit(s[i]) }

  function DigitValue(c: char): nat
    requires Digit(c)
  {
    c as int - '0' as int
  }

  /** The number a digit string spells. */
  function Number(s: string): nat
    requires Digits(s)
  {
    if s == "" then 0 else 10 * Number(s[..|s| - 1]) + DigitValue(s[|s| - 1])
  }

  // ----- the grammar -----

  datatype Exponent = NoExponent | Exponent(mark: char, sign: string, digits: string)

  datatype Literal = Literal(sign: string, whole: string, fraction: string, exponent: Exponent)

  predicate Sign(s: string) { s == "" || s == "-" || s == "+" }

  predicate WellFormed(l: Literal) {
    && Sign(l.sign)
    && l.whole != "" && Digits(l.whole) && Digits(l.fraction)
    && (l.exponent.Exponent? ==>
          (l.exponent.mark == 'e' || l.exponent.mark == 'E') && Sign(l.exponent.sign)
          && l.exponent.digits != "" && Digits(l.exponent.digits))
  }

  function Point(fraction: string): string {
    if fraction == "" then "" else "." + fraction
  }

  function ExponentText(e: Exponent): string {
    match e
    case NoExponent => ""
    case Exponent(mark, sign, digits) => [mark] + sign + digits
  }

  function Render(l: Literal): string {
    l.sign + (l.whole + (Point(l.fraction) + ExponentText(l.exponent)))
  }

  function ExponentSize(l: Literal): nat
    requires WellFormed(l)
  {
    if l.exponent.Exponent? then Number(l.exponent.digits) else 0
  }

  function ExponentValue(l: Literal): int
    requires WellFormed(l)
  {
    var size: int := ExponentSize(l);
    if l.exponent.Exponent? && l.exponent.sign == "-" then -size else size
  }

  function Signed(sign: string, n: int): int {
    if sign == "-" then -n else n
  }

  /** The signed coefficient a literal spells, before any trimming. */
  function Spelled(l: Literal): int
    requires WellFormed(l)
  {
    Signed(l.sign, Number(l.whole + l.fraction))
  }

  /** The exact number a literal denotes. */
  ghost function LiteralValue(l: Literal): real
    requires WellFormed(l)
  {
    Value(Spelled(l), |l.fraction| - ExponentValue(l))
  }

  // ----- scanning -----

  /** The longest digit prefix. */
  function Run(s: string): (r: string)
    ensures |r| <= |s| && r == s[..|r|] && Digits(r)
    ensures |r| < |s| ==> !Digit(s[|r|])
  {
    if s != "" && Digit(s[0]) then [s[0]] + Run(s[1..]) else ""
  }

  function SignOf(s: string): (r: string)
    ensures Sign(r) && |r| <= |s| && r == s[..|r|]
  {
    if s != "" && (s[0] == '-' || s[0] == '+') then [s[0]] else ""
  }

  datatype Scanned = Malformed | TooLarge | Parsed(literal: Literal)

  function Scan(text: string): Scanned {
    var sign := SignOf(text);
    ScanWhole(sign, text[|sign|..])
  }

  function ScanWhole(sign: string, s: string): Scanned {
    var whole := Run(s);
    if whole == "" then Malformed else ScanFraction(sign, whole, s[|whole|..])
  }

  function ScanFraction(sign: string, whole: string, s: string): Scanned {
    if s != "" && s[0] == '.' then
      var fraction := Run(s[1..]);
      if fraction == "" then Malformed else ScanExponent(sign, whole, fraction, s[1 + |fraction|..])
    else ScanExponent(sign, whole, "", s)
  }

  function ScanExponent(sign: string, whole: string, fraction: string, s: string): Scanned {
    if s != "" && (s[0] == 'e' || s[0] == 'E') then
      var esign := SignOf(s[1..]);
      var digits := Run(s[1 + |esign|..]);
      if Number(digits) > 128 then TooLarge
      else if digits == "" then Malformed
      else Finish(Literal(sign, whole, fraction, Exponent(s[0], esign, digits)), s[1 + |esign| + |digits|..])
    else Finish(Literal(sign, whole, fraction, NoExponent), s)
  }

  function Finish(l: Literal, s: string): Scanned {
    if s == "" then Parsed(l) else Malformed
  }

  /** A scanned literal is well formed and renders back to the text. */
  lemma ScanSound(text: string)
    requires Scan(text).Parsed?
    ensures
      var l := Scan(text).literal;
      WellFormed(l) && Render(l) == text && ExponentSize(l) <= 128
  {
    hide ScanFraction, Run, WellFormed, ExponentSize, Point, ExponentText;
    var sign := SignOf(text);
    var rest := text[|sign|..];
    assert text == sign + rest;
    var whole := Run(rest);
    assert rest == whole + rest[|whole|..];
    FractionSound(sign, whole, rest[|whole|..]);
  }

  lemma FractionSound(sign: string, whole: string, s: string)
    requires ScanFraction(sign, whole, s).Parsed?
    requires Sign(sign) && whole != "" && Digits(whole)
    ensures
      var l := ScanFraction(sign, whole, s).literal;
      && WellFormed(l) && ExponentSize(l) <= 128 && Point(l.fraction) + ExponentText(l.exponent) == s
      && l.sign == sign && l.whole == whole
  {
    hide ScanExponent, Run, ExponentText, ExponentSize, WellFormed;
    if s != "" && s[0] == '.' {
      var fraction := Run(s[1..]);
      assert s == Point(fraction) + s[1 + |fraction|..];
      ExponentSound(sign, whole, fraction, s[1 + |fraction|..]);
    } else {
      assert s == Point("") + s;
      ExponentSound(sign, whole, "", s);
    }
  }

  lemma ExponentSound(sign: string, whole: string, fraction: string, s: string)
    requires ScanExponent(sign, whole, fraction, s).Parsed?
    requires Sign(sign) && whole != "" && Digits(whole) && Digits(fraction)
    ensures
      var l := ScanExponent(sign, whole, fraction, s).literal;
      && WellFormed(l) && ExponentSize(l) <= 128 && ExponentText(l.exponent) == s
      && l.sign == sign && l.whole == whole && l.fraction == fraction
  {
    if s != "" && (s[0] == 'e' || s[0] == 'E') {
      var esign := SignOf(s[1..]);
      var tail := s[1 + |esign|..];
      var digits := Run(tail);
      assert s == [s[0]] + esign + tail;
      assert tail == digits + s[1 + |esign| + |digits|..];
    }
  }

  lemma {:induction false} RunStops(d: string, rest: string)
    requires Digits(d) && (rest == "" || !Digit(rest[0]))
    ensures Run(d + rest) == d
  {
    var s := d + rest;
    if d == "" {
      assert s == rest;
    } else {
      assert s[1..] == d[1..] + rest;
      RunStops(d[1..], rest);
      assert d == [d[0]] + d[1..];
    }
  }

  lemma {:induction false} RunExtends(d: string, rest: string)
    requires Digits(d)
    ensures |Run(d + rest)| >= |d| && Run(d + rest)[..|d|] == d
  {
    var s := d + rest;
    if d != "" {
      assert s[1..] == d[1..] + rest;
      RunExtends(d[1..], rest);
      assert Run(s) == [d[0]] + Run(s[1..]);
      assert d == [d[0]] + d[1..];
    }
  }

  lemma {:induction false} NumberGrows(s: string, k: nat)
    requires Digits(s) && k <= |s|
    ensures Number(s[..k]) <= Number(s)
    decreases |s| - k
  {
    if k < |s| {
      assert s[..k + 1][..k] == s[..k];
      NumberGrows(s, k + 1);
    } else {
      assert s[..k] == s;
    }
  }

  lemma SignStops(sign: string, rest: string)
    requires Sign(sign) && rest != "" && Digit(rest[0])
    ensures SignOf(sign + rest) == sign && (sign + rest)[|sign|..] == rest
  {
    if sign == "" { assert sign + rest == rest; }
  }

  /** Scanning follows the grammar: a text that starts with a literal whose exponent is too
      large is too large, and a text that is a literal scans to it. */
  lemma ScanComplete(l: Literal, rest: string)
    requires WellFormed(l)
    ensures ExponentSize(l) > 128 ==> Scan(Render(l) + rest) == TooLarge
    ensures ExponentSize(l) <= 128 ==> Scan(Render(l)) == Parsed(l)
  {
    if ExponentSize(l) > 128 { LiteralScans(l, rest); }
    LiteralScans(l, "");
    assert Render(l) + "" == Render(l);
  }

  lemma LiteralScans(l: Literal, rest: string)
    requires WellFormed(l) && (rest == "" || ExponentSize(l) > 128)
    ensures Scan(Render(l) + rest) == if ExponentSize(l) > 128 then TooLarge else Parsed(l)
  {
    hide ScanFraction, Run, ExponentSize, Point, ExponentText;
    var after := Point(l.fraction) + (ExponentText(l.exponent) + rest);
    assert Render(l) + rest == l.sign + (l.whole + after);
    assert (l.whole + after)[0] == l.whole[0];
    SignStops(l.sign, l.whole + after);
    FractionScans(l, rest);
    RunStops(l.whole, after);
    assert (l.whole + after)[|l.whole|..] == after;
  }

  lemma FractionScans(l: Literal, rest: string)
    requires WellFormed(l) && (rest == "" || ExponentSize(l) > 128)
    ensures
      var after := Point(l.fraction) + (ExponentText(l.exponent) + rest);
      && (after == "" || !Digit(after[0]))
      && ScanFraction(l.sign, l.whole, after) == if ExponentSize(l) > 128 then TooLarge else Parsed(l)
  {
    hide ScanExponent, Run, ExponentSize, ExponentText;
    var e := ExponentText(l.exponent) + rest;
    var after := Point(l.fraction) + e;
    ExponentScans(l, rest);
    if l.fraction != "" {
      assert after[1..] == l.fraction + e;
      RunStops(l.fraction, e);
      assert after[1 + |l.fraction|..] == e;
    } else {
      assert after == e;
    }
  }

  lemma ExponentScans(l: Literal, rest: string)
    requires WellFormed(l) && (rest == "" || ExponentSize(l) > 128)
    ensures
      var e := ExponentText(l.exponent) + rest;
      && (e == "" || (!Digit(e[0]) && e[0] != '.'))
      && ScanExponent(l.sign, l.whole, l.fraction, e) == if ExponentSize(l) > 128 then TooLarge else Parsed(l)
  {
    hide Run, SignOf, Number;
    var x := l.exponent;
    if x.Exponent? {
      var e := ExponentText(x) + rest;
      var tail := x.digits + rest;
      assert e[1..] == x.sign + tail;
      assert tail[0] == x.digits[0];
      SignStops(x.sign, tail);
      assert e[1 + |x.sign|..] == tail;
      if rest == "" {
        RunStops(x.digits, rest);
        assert e[1 + |x.sign| + |x.digits|..] == "";
      } else {
        RunExtends(x.digits, rest);
        NumberGrows(Run(tail), |x.digits|);
      }
    }
  }

  /** Exactly when scanning stops at a too large exponent. */
  lemma TooLargeExactly(text: string)
    ensures Scan(text) == TooLarge <==>
            exists l: Literal, k: nat :: k <= |text| && WellFormed(l) && ExponentSize(l) > 128 && Render(l) == text[..k]
  {
    if l: Literal, k: nat :| k <= |text| && WellFormed(l) && ExponentSize(l) > 128 && Render(l) == text[..k] {
      ScanComplete(l, text[k..]);
      assert text[..k] + text[k..] == text;
    }
    if Scan(text) == TooLarge {
      var l, k := LargePrefix(text);
    }
  }

  lemma LargePrefix(text: string) returns (l: Literal, k: nat)
    requires Scan(text) == TooLarge
    ensures k <= |text| && WellFormed(l) && ExponentSize(l) > 128 && Render(l) == text[..k]
  {
    hide ScanFraction, Run, WellFormed, ExponentSize, Point, ExponentText, Digits;
    var sign := SignOf(text);
    var rest := text[|sign|..];
    assert text == sign + rest;
    var whole := Run(rest);
    var left;
    assert rest == whole + rest[|whole|..];
    l, left := LargeFraction(sign, whole, rest[|whole|..]);
    k := |Render(l)|;
    assert text == Render(l) + left;
  }

  lemma LargeFraction(sign: string, whole: string, s: string) returns (l: Literal, left: string)
    requires ScanFraction(sign, whole, s) == TooLarge && Sign(sign) && whole != "" && Digits(whole)
    ensures WellFormed(l) && ExponentSize(l) > 128 && l.sign == sign && l.whole == whole
    ensures s == Point(l.fraction) + (ExponentText(l.exponent) + left)
  {
    hide ScanExponent, Run, WellFormed, ExponentSize, ExponentText;
    if s != "" && s[0] == '.' {
      var fraction := Run(s[1..]);
      assert s == Point(fraction) + s[1 + |fraction|..];
      l, left := LargeExponent(sign, whole, fraction, s[1 + |fraction|..]);
    } else {
      assert s == Point("") + s;
      l, left := LargeExponent(sign, whole, "", s);
    }
  }

  lemma LargeExponent(sign: string, whole: string, fraction: string, s: string) returns (l: Literal, left: string)
    requires ScanExponent(sign, whole, fraction, s) == TooLarge
    requires Sign(sign) && whole != "" && Digits(whole) && Digits(fraction)
    ensures WellFormed(l) && ExponentSize(l) > 128 && l.sign == sign && l.whole == whole && l.fraction == fraction
    ensures s == ExponentText(l.exponent) + left
  {
    hide Run;
    assert Number("") == 0;
    var esign := SignOf(s[1..]);
    var tail := s[1 + |esign|..];
    var digits := Run(tail);
    l := Literal(sign, whole, fraction, Exponent(s[0], esign, digits));
    left := tail[|digits|..];
    assert s == [s[0]] + esign + tail && tail == digits + left;
    assert [s[0]] + esign + (digits + left) == ([s[0]] + esign + digits) + left;
  }
}
