/** Decimal arithmetic on machine integers. */
module DecimalArithmetic {
  // Every operation of `crates/weave-contract/src/decimal.rs` returns exactly the reference
  // answer, and no intermediate leaves its type.

  import opened Decimals

  newtype i128 = x: int | -0x8000_0000_0000_0000_0000_0000_0000_0000 <= x < 0x8000_0000_0000_0000_0000_0000_0000_0000
  newtype i32 = x: int | -0x8000_0000 <= x < 0x8000_0000

  const MAX: i128 := 999_999_999_999_999_999

  /** The largest magnitude an intermediate product or sum may have. */
  const WIDE: int := 2_000_000_000_000_000_000_000_000_000_000_000_000

  function Magnitude(x: i128): i128
    requires x as int != -0x8000_0000_0000_0000_0000_0000_0000_0000
  {
    if x < 0 then -x else x
  }

  /** Brings a pair to normal form, or says why it has none. */
  method Normalized(c: i128, s: i32) returns (r: Result<Decimal>)
    requires -WIDE <= c as int <= WIDE && -1000 <= s as int <= 1000
    ensures r == Exactly(Value(c as int, s as int))
  {
    ghost var x := Value(c as int, s as int);
    var coefficient, scale := c, s;
    if coefficient == 0 {
      ZeroValue(s as int);
      ExactlyOk(ZERO);
      return Ok(ZERO);
    }
    while scale > 0 && coefficient % 10 == 0
      invariant coefficient != 0 && -WIDE <= coefficient as int <= WIDE
      invariant -1000 <= scale as int <= 1000
      invariant Value(coefficient as int, scale as int) == x
      decreases scale as int
    {
      MorePlaces((coefficient / 10) as int, scale as int - 1, 1);
      coefficient := coefficient / 10;
      scale := scale - 1;
    }
    if scale > 18 {
      ExactlyScale(coefficient as int, scale as int);
      return Err(Scale);
    }
    while scale < 0
      invariant coefficient != 0 && -WIDE <= coefficient as int <= WIDE
      invariant -1000 <= scale as int <= 18
      invariant scale > 0 ==> coefficient % 10 != 0
      invariant Value(coefficient as int, scale as int) == x
      decreases -(scale as int)
    {
      if Magnitude(coefficient) > MAX / 10 {
        ExactlyPrecision(coefficient as int, scale as int);
        return Err(Precision);
      }
      MorePlaces(coefficient as int, scale as int, 1);
      coefficient := coefficient * 10;
      scale := scale + 1;
    }
    if Magnitude(coefficient) > MAX {
      ExactlyPrecision(coefficient as int, scale as int);
      return Err(Precision);
    }
    var d: Decimal := Scaled(coefficient as int, scale as int);
    ExactlyOk(d);
    return Ok(d);
  }

  lemma ZeroValue(s: int)
    ensures Value(0, s) == 0.0 && ValueOf(ZERO) == 0.0
  {
  }

  /** `10_i128.pow(k)` for the exponents the code uses. */
  function TenPow(k: nat): (r: i128)
    requires k <= 18
    ensures r as int == Ten(k)
  {
    TenSmall(k);
    Ten(k) as i128
  }

  lemma {:induction false} TenGrows(a: nat, b: nat)
    requires a <= b
    ensures Ten(a) <= Ten(b)
    decreases b
  {
    if a < b { TenGrows(a, b - 1); }
  }

  lemma TenEighteen()
    ensures Ten(18) == 1_000_000_000_000_000_000
  {
    assert Ten(3) == 1000;
    TenAdd(3, 3);
    TenAdd(6, 6);
    TenAdd(12, 6);
  }

  lemma TenSmall(k: nat)
    requires k <= 18
    ensures Ten(k) <= 1_000_000_000_000_000_000
  {
    TenGrows(k, 18);
    TenEighteen();
  }

  lemma ProductBound(a: int, b: int, m: int, n: int)
    requires -m <= a <= m && -n <= b <= n
    ensures -(m * n) <= a * b <= m * n
  {
    var p, q := if a < 0 then -a else a, if b < 0 then -b else b;
    MulMonotone(p, m, q);
    MulMonotone(q, n, m);
    SignedProduct(a, b);
  }

  lemma SignedProduct(a: int, b: int)
    ensures (-a) * b == -(a * b) && a * (-b) == -(a * b) && (-a) * (-b) == a * b
  {
  }

  lemma MulMonotone(a: int, b: int, c: int)
    requires a <= b && c >= 0
    ensures a * c <= b * c
  {
  }

  /** The sum of two scaled coefficients at a common number of places. */
  lemma SumValue(a: int, b: int, s: int)
    ensures Value(a + b, s) == Value(a, s) + Value(b, s)
  {
    assert (a + b) as real == a as real + b as real;
  }

  method CheckedAdd(a: Decimal, b: Decimal) returns (r: Result<Decimal>)
    ensures r == Exactly(ValueOf(a) + ValueOf(b))
  {
    hide Exactly, Value, Ten;
    var scale := if a.scale >= b.scale then a.scale else b.scale;
    TenSmall(scale - a.scale);
    TenSmall(scale - b.scale);
    ProductBound(a.coefficient, Ten(scale - a.scale), MAX_COEFFICIENT, 1_000_000_000_000_000_000);
    ProductBound(b.coefficient, Ten(scale - b.scale), MAX_COEFFICIENT, 1_000_000_000_000_000_000);
    var left: i128 := (a.coefficient as i128) * TenPow(scale - a.scale);
    var right: i128 := (b.coefficient as i128) * TenPow(scale - b.scale);
    MorePlaces(a.coefficient, a.scale, scale - a.scale);
    MorePlaces(b.coefficient, b.scale, scale - b.scale);
    SumValue(left as int, right as int, scale);
    assert Value((left + right) as int, scale) == ValueOf(a) + ValueOf(b);
    r := Normalized(left + right, scale as i32);
  }

  lemma NegatedValue(c: int, s: int)
    ensures Value(-c, s) == -Value(c, s)
  {
  }

  method CheckedSub(a: Decimal, b: Decimal) returns (r: Result<Decimal>)
    ensures r == Exactly(ValueOf(a) - ValueOf(b))
  {
    NegatedValue(b.coefficient, b.scale);
    r := CheckedAdd(a, Scaled(-b.coefficient, b.scale));
  }

  lemma ProductValue(a: int, s: int, b: int, t: int)
    ensures Value(a * b, s + t) == Value(a, s) * Value(b, t)
  {
    hide Pow;
    PowAdd(-s, -t);
    RealProduct(a, b);
    Shuffle(a as real, Pow(-s), b as real, Pow(-t));
    assert -(s + t) == -s + -t;
  }

  lemma Shuffle(a: real, b: real, c: real, d: real)
    ensures (a * c) * (b * d) == (a * b) * (c * d)
  {
    Regroup(a * c, b, d);
    Regroup(a * b, c, d);
    assert (a * c) * b == (a * b) * c;
  }

  method CheckedMul(a: Decimal, b: Decimal) returns (r: Result<Decimal>)
    ensures r == Exactly(ValueOf(a) * ValueOf(b))
  {
    hide Exactly, Value, Ten;
    ProductBound(a.coefficient, b.coefficient, MAX_COEFFICIENT, MAX_COEFFICIENT);
    ProductValue(a.coefficient, a.scale, b.coefficient, b.scale);
    var product: i128 := (a.coefficient as i128) * (b.coefficient as i128);
    var scale: i32 := a.scale as i32 + b.scale as i32;
    assert product as int == a.coefficient * b.coefficient && scale as int == a.scale + b.scale;
    assert Value(product as int, scale as int) == ValueOf(a) * ValueOf(b);
    r := Normalized(product, scale);
  }
}
