/** Exact bounded decimals: what every operation must return. */
module Decimals {
  // Stated over the reals, with the uniqueness and minimality facts that decide each error.

  const MAX_COEFFICIENT: int := 999_999_999_999_999_999
  const MAX_SCALE: int := 18

  datatype DecimalError = Syntax | InputLimit | Precision | Scale | DivisionByZero | NonTerminating | NonCanonical

  datatype Result<+T> = Ok(value: T) | Err(error: DecimalError)

  /** A coefficient and a number of decimal places. */
  datatype Scaled = Scaled(coefficient: int, scale: int)

  predicate Normal(d: Scaled) {
    && -MAX_COEFFICIENT <= d.coefficient <= MAX_COEFFICIENT
    && 0 <= d.scale <= MAX_SCALE
    && (d.coefficient == 0 ==> d.scale == 0)
    && (d.scale > 0 ==> d.coefficient % 10 != 0)
  }

  /** The private invariant of the Rust struct. */
  type Decimal = d: Scaled | Normal(d) witness Scaled(0, 0)

  const ZERO: Decimal := Scaled(0, 0)

  function Abs(x: int): nat {
    if x < 0 then -x else x
  }

  // ----- powers of ten -----

  function Ten(k: nat): (r: nat)
    ensures r >= 1
  {
    if k == 0 then 1 else 10 * Ten(k - 1)
  }

  ghost function Pow(k: int): real
    decreases Abs(k)
  {
    if k == 0 then 1.0 else if k > 0 then 10.0 * Pow(k - 1) else Pow(k + 1) / 10.0
  }

  lemma PowStep(k: int)
    ensures Pow(k) == 10.0 * Pow(k - 1)
  {
  }

  lemma PowZero()
    ensures Pow(0) == 1.0
  {
  }

  lemma {:induction false} PowPositive(k: int)
    ensures Pow(k) > 0.0
    decreases Abs(k)
  {
    if k > 0 { PowPositive(k - 1); } else if k < 0 { PowPositive(k + 1); }
  }

  lemma TenTimesReal(x: real, y: real, z: real)
    requires z == 10.0 * y
    ensures x * z == 10.0 * (x * y)
  {
  }

  lemma {:induction false} PowAdd(a: int, b: int)
    ensures Pow(a + b) == Pow(a) * Pow(b)
    decreases Abs(b)
  {
    hide Pow;
    if b == 0 {
      PowZero();
    } else if b > 0 {
      var c, d := b - 1, a + b;
      PowAdd(a, c);
      PowStep(d);
      PowStep(b);
      assert d - 1 == a + c;
      TenTimesReal(Pow(a), Pow(c), Pow(b));
    } else {
      var c, d := b + 1, a + b + 1;
      PowAdd(a, c);
      PowStep(d);
      PowStep(c);
      assert d == a + c && d - 1 == a + b && c - 1 == b;
      assert Pow(a + c) == Pow(d) && Pow(d - 1) == Pow(a + b) && Pow(c - 1) == Pow(b);
      TenTimesReal(Pow(a), Pow(b), Pow(c));
    }
  }

  lemma {:induction false} PowIsTen(k: nat)
    ensures Pow(k) == Ten(k) as real
  {
    if k > 0 { PowIsTen(k - 1); }
  }

  lemma {:induction false} TenAdd(a: nat, b: nat)
    ensures Ten(a + b) == Ten(a) * Ten(b)
  {
    if a > 0 {
      TenAdd(a - 1, b);
      assert 10 * (Ten(a - 1) * Ten(b)) == (10 * Ten(a - 1)) * Ten(b);
    }
  }

  // ----- values -----

  /** The rational number coefficient / 10^scale. */
  ghost function Value(c: int, s: int): real {
    c as real * Pow(-s)
  }

  ghost function ValueOf(d: Scaled): real {
    Value(d.coefficient, d.scale)
  }

  lemma Regroup(a: real, b: real, c: real)
    ensures a * (b * c) == (a * b) * c
  {
  }

  lemma RealProduct(a: int, b: int)
    ensures (a * b) as real == a as real * b as real
  {
  }

  lemma Cancel(x: real, y: real, p: real)
    requires p > 0.0
    ensures x * p == y * p <==> x == y
  {
    if x * p == y * p {
      assert (x - y) * p == 0.0;
    }
  }

  /** A value can be written with more places. */
  lemma MorePlaces(c: int, s: int, k: nat)
    ensures Value(c, s) == Value(c * Ten(k), s + k)
  {
    PowAdd(k, -s - k);
    PowIsTen(k);
    Regroup(c as real, Ten(k) as real, Pow(-s - k));
    RealProduct(c, Ten(k));
  }

  lemma SamePlaces(c: int, e: int, s: int)
    ensures Value(c, s) == Value(e, s) <==> c == e
  {
    PowPositive(-s);
    Cancel(c as real, e as real, Pow(-s));
  }

  /** Shifting the point: a value at `s` places has this coefficient at `t >= s` places. */
  lemma SameValue(c: int, s: int, e: int, t: int)
    requires s <= t
    ensures Value(c, s) == Value(e, t) <==> e == c * Ten(t - s)
  {
    MorePlaces(c, s, t - s);
    SamePlaces(c * Ten(t - s), e, t);
  }

  /** `x` has a finite decimal expansion. */
  ghost predicate Terminating(x: real) {
    exists c: int, s: int :: Value(c, s) == x
  }

  /** `x` has an expansion with at most 18 places. */
  ghost predicate FewPlaces(x: real) {
    exists c: int, s: int :: s <= MAX_SCALE && Value(c, s) == x
  }

  ghost predicate Representable(x: real) {
    exists d: Decimal :: ValueOf(d) == x
  }

  /** The reference answer of every arithmetic operation: the one normal decimal equal to the
      exact result, or the reason there is none. */
  ghost function Exactly(x: real): Result<Decimal> {
    if !Terminating(x) then Err(NonTerminating)
    else if !FewPlaces(x) then Err(Scale)
    else if !Representable(x) then Err(Precision)
    else var d: Decimal :| ValueOf(d) == x; Ok(d)
  }

  lemma MultipleOfTen(c: int, k: nat)
    requires k > 0
    ensures (c * Ten(k)) % 10 == 0
  {
    FactorTen(c, Ten(k - 1));
    TenDivides(c * Ten(k - 1));
  }

  lemma FactorTen(a: int, b: int)
    ensures a * (10 * b) == 10 * (a * b)
  {
  }

  lemma TenDivides(m: int)
    ensures (10 * m) % 10 == 0
  {
  }

  /** Equal normal decimals are identical: the normal form is unique. */
  lemma NormalUnique(d: Decimal, e: Decimal)
    requires ValueOf(d) == ValueOf(e)
    ensures d == e
  {
    var (a, b) := if d.scale <= e.scale then (d, e) else (e, d);
    SameValue(a.coefficient, a.scale, b.coefficient, b.scale);
    if a.scale < b.scale {
      MultipleOfTen(a.coefficient, b.scale - a.scale);
    }
  }

  lemma ExactlyOk(d: Decimal)
    ensures Exactly(ValueOf(d)) == Ok(d)
  {
    var x := ValueOf(d);
    assert Value(d.coefficient, d.scale) == x;
    var e: Decimal := Exactly(x).value;
    NormalUnique(d, e);
  }

  lemma OkValue(x: real, d: Decimal)
    requires Exactly(x) == Ok(d)
    ensures ValueOf(d) == x
  {
  }

  /** A coefficient not divisible by ten has the fewest places of all equal pairs. */
  lemma FewestPlaces(c: int, s: int, e: int, t: int)
    requires c % 10 != 0 && Value(c, s) == Value(e, t)
    ensures t >= s
  {
    if t < s {
      SameValue(e, t, c, s);
      MultipleOfTen(e, s - t);
    }
  }

  lemma ExactlyScale(c: int, s: int)
    requires c % 10 != 0 && s > MAX_SCALE
    ensures Exactly(Value(c, s)) == Err(Scale)
  {
    var x := Value(c, s);
    assert Terminating(x);
    forall e: int, t: int | Value(e, t) == x ensures t > MAX_SCALE {
      FewestPlaces(c, s, e, t);
    }
  }

  /** A coefficient that cannot be shortened and is already too long is too precise. */
  lemma ExactlyPrecision(c: int, s: int)
    requires s <= MAX_SCALE && (c % 10 != 0 || s <= 0)
    requires Abs(c) > MAX_COEFFICIENT || (s < 0 && Abs(c) > MAX_COEFFICIENT / 10)
    ensures Exactly(Value(c, s)) == Err(Precision)
  {
    var x := Value(c, s);
    assert Terminating(x) && FewPlaces(x);
    forall d: Decimal ensures ValueOf(d) != x {
      if ValueOf(d) == x {
        if s > 0 { FewestPlaces(c, s, d.coefficient, d.scale); }
        SameValue(c, s, d.coefficient, d.scale);
        Longer(c, d.scale - s);
        if s < 0 { TenTimes(c, d.scale - s); }
      }
    }
  }

  lemma Longer(c: int, k: nat)
    ensures Abs(c * Ten(k)) >= Abs(c)
  {
    assert Abs(c * Ten(k)) == Abs(c) * Ten(k);
    assert Abs(c) * Ten(k) == Abs(c) + Abs(c) * (Ten(k) - 1);
  }

  lemma TenTimes(c: int, k: nat)
    requires k > 0
    ensures Abs(c * Ten(k)) >= 10 * Abs(c)
  {
    FactorTen(c, Ten(k - 1));
    assert (10 * c) * Ten(k - 1) == 10 * (c * Ten(k - 1));
    Longer(10 * c, k - 1);
  }
}
