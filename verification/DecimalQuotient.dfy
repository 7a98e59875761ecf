/** Exact division: `gcd`, `quotient`, `checked_div` and `checked_mul_ratio`. */
module DecimalQuotient {
  import opened Decimals
  import opened Divisibility
  import opened DecimalArithmetic

  method Gcd(a0: i128, b0: i128) returns (g: i128)
    requires a0 > 0 && b0 >= 0
    ensures IsGcd(g as int, a0 as int, b0 as int)
  {
    var a, b := a0, b0;
    CommonRefl(a0 as int, b0 as int);
    while b != 0
      invariant a > 0 && b >= 0
      invariant SameCommon(a as int, b as int, a0 as int, b0 as int)
      decreases b as int
    {
      CommonStep(a as int, b as int, a0 as int, b0 as int);
      a, b := b, a % b;
    }
    g := a;
    CommonDone(a as int, a0 as int, b0 as int);
  }

  ghost predicate Common(m: int, a: int, b: int) {
    Divides(m, a) && Divides(m, b)
  }

  ghost predicate SameCommon(a: int, b: int, c: int, d: int) {
    forall m :: Common(m, a, b) <==> Common(m, c, d)
  }

  lemma CommonRefl(a: int, b: int)
    ensures SameCommon(a, b, a, b)
  {
  }

  lemma CommonStep(a: int, b: int, c: int, d: int)
    requires b > 0 && SameCommon(a, b, c, d)
    ensures SameCommon(b, a % b, c, d)
  {
    var r := a % b;
    forall m ensures Common(m, b, r) <==> Common(m, c, d) {
      EuclidStep(m, a, b);
      assert Common(m, a, b) <==> Common(m, c, d);
    }
  }

  lemma CommonDone(g: int, a: int, b: int)
    requires g > 0 && SameCommon(g, 0, a, b)
    ensures IsGcd(g, a, b)
  {
    DividesSelf(g);
    assert Common(g, g, 0) <==> Common(g, a, b);
    forall m | Divides(m, a) && Divides(m, b) ensures Divides(m, g) {
      assert Common(m, g, 0) <==> Common(m, a, b);
    }
  }

  // ----- the value of a fraction, stated without division -----

  /** `x` times the denominator is the numerator at `s` places. */
  ghost predicate Fraction(x: real, n: int, den: int, s: int) {
    x * den as real == Value(n, s)
  }

  ghost function Ratio(p: int, q: int, s: int): real
    requires q != 0
  {
    p as real / q as real * Pow(-s)
  }

  lemma FractionStart(n: int, den: int, s: int)
    requires den != 0
    ensures Fraction(Ratio(n, den, s), n, den, s)
  {
    var q := n as real / den as real;
    Regroup(den as real, q, Pow(-s));
    assert den as real * q == n as real;
    assert q * Pow(-s) * den as real == den as real * (q * Pow(-s));
  }

  lemma FractionFlip(x: real, n: int, den: int, s: int)
    requires Fraction(x, n, den, s)
    ensures Fraction(x, -n, -den, s)
  {
    NegatedValue(n, s);
    assert (-den) as real == -(den as real);
    assert x * -(den as real) == -(x * den as real);
  }

  lemma ValueTimes(g: int, n: int, s: int)
    ensures Value(g * n, s) == g as real * Value(n, s)
  {
    RealProduct(g, n);
    Regroup(g as real, n as real, Pow(-s));
  }

  lemma FractionReduce(x: real, g: int, n: int, den: int, s: int)
    requires g > 0 && Fraction(x, g * n, g * den, s)
    ensures Fraction(x, n, den, s)
  {
    ValueTimes(g, n, s);
    RealProduct(g, den);
    Regroup(x, g as real, den as real);
    Regroup(g as real, x, den as real);
    assert x * g as real == g as real * x;
    Cancel(x * den as real, Value(n, s), g as real);
  }

  lemma FractionScale(x: real, k: int, n: int, den: int, s: int)
    requires Fraction(x, n, den, s)
    ensures Fraction(x, n * k, den * k, s)
  {
    ValueTimes(k, n, s);
    RealProduct(den, k);
    Regroup(x, den as real, k as real);
  }

  /** Over a power of ten, the fraction is just more places. */
  lemma FractionTen(x: real, n: int, p: nat, s: int)
    requires Fraction(x, n, Ten(p), s)
    ensures x == Value(n, s + p)
  {
    MorePlaces(n, s, p);
    assert n * Ten(p) == Ten(p) * n && Ten(p) * 1 == Ten(p);
    assert Fraction(x, Ten(p) * n, Ten(p) * 1, s + p);
    FractionReduce(x, Ten(p), n, 1, s + p);
  }

  /** A reduced fraction whose denominator keeps a factor prime to ten has no finite expansion. */
  lemma NoExpansion(x: real, n: int, den: int, s: int, m: int)
    requires Fraction(x, n, den, s) && Coprime(n, den) && Divides(m, den)
    requires m > 1 && m % 2 != 0 && m % 5 != 0
    ensures !Terminating(x)
  {
    forall c: int, t: int ensures Value(c, t) != x {
      if Value(c, t) == x {
        ExpansionDivides(x, n, den, s, m, c, t);
      }
    }
  }

  lemma ExpansionDivides(x: real, n: int, den: int, s: int, m: int, c: int, t: int)
    requires Fraction(x, n, den, s) && Divides(m, den) && Value(c, t) == x
    requires m % 2 != 0 && m % 5 != 0
    ensures Divides(m, n)
  {
    ValueTimes(den, c, t);
    assert x * den as real == den as real * x;
    assert Value(den * c, t) == Value(n, s);
    DividesMultiple(m, den, c);
    if t <= s {
      SameValue(den * c, t, n, s);
      DividesMultiple(m, den * c, Ten(s - t));
    } else {
      SameValue(n, s, den * c, t);
      FreeOfTen(m, n, t - s);
    }
  }

  // ----- the final coefficient -----

  /** 2^i 5^j. */
  function TwoFive(i: nat, j: nat): int { Two(i) * Five(j) }

  /** n 2^i 5^j. */
  function Raised(n: int, i: nat, j: nat): int { n * Two(i) * Five(j) }

  /** Spreading a reduced numerator over the larger of two powers keeps it free of trailing zeros. */
  lemma NoTrailingZero(n: int, twos: nat, fives: nat, p: nat)
    requires n % 10 != 0 && Coprime(n, TwoFive(twos, fives))
    requires p == if twos >= fives then twos else fives
    ensures Raised(n, p - twos, p - fives) % 10 != 0
  {
    if twos > fives {
      OddNumerator(n, twos, Five(fives));
      OddByFives(n, p - fives);
      assert n * Two(0) == n;
      OddNotTen(n * Five(p - fives));
    } else if fives > twos {
      FiveFreeNumerator(n, fives, Two(twos));
      FiveFreeByTwos(n, p - twos);
      assert Five(0) == 1;
      FiveFreeNotTen(n * Two(p - twos));
    } else {
      assert Two(0) == 1 && Five(0) == 1;
    }
  }

  lemma OddNotTen(x: int)
    requires x % 2 != 0
    ensures x % 10 != 0
  {
    assert x == 2 * (5 * (x / 10)) + x % 10;
  }

  lemma FiveFreeNotTen(x: int)
    requires x % 5 != 0
    ensures x % 10 != 0
  {
    assert x == 5 * (2 * (x / 10)) + x % 10;
  }

  lemma OddNumerator(n: int, twos: nat, rest: int)
    requires twos > 0 && Coprime(n, Two(twos) * rest)
    ensures n % 2 != 0
  {
    if n % 2 == 0 {
      assert Times(2, n / 2, n);
      Assoc(2, Two(twos - 1), rest);
      assert Times(2, Two(twos - 1) * rest, Two(twos) * rest);
      assert Divides(2, n) && Divides(2, Two(twos) * rest);
    }
  }

  lemma FiveFreeNumerator(n: int, fives: nat, rest: int)
    requires fives > 0 && Coprime(n, rest * Five(fives))
    ensures n % 5 != 0
  {
    if n % 5 == 0 {
      assert Times(5, n / 5, n);
      Assoc(5, Five(fives - 1), rest);
      assert rest * Five(fives) == Five(fives) * rest;
      assert Times(5, Five(fives - 1) * rest, rest * Five(fives));
      assert Divides(5, n) && Divides(5, rest * Five(fives));
    }
  }

  /** With denominator 2^twos 5^fives, the value is this coefficient at `s + p` places. */
  lemma FinalValue(x: real, n: int, twos: nat, fives: nat, p: nat, s: int)
    requires Fraction(x, n, TwoFive(twos, fives), s)
    requires p == if twos >= fives then twos else fives
    ensures x == Value(Raised(n, p - twos, p - fives), s + p)
  {
    var k := Two(p - twos) * Five(p - fives);
    FractionScale(x, k, n, Two(twos) * Five(fives), s);
    TwoAdd(twos, p - twos);
    FiveAdd(fives, p - fives);
    TwoFiveTen(p);
    Pairs(Two(twos), Five(fives), Two(p - twos), Five(p - fives));
    Assoc(n, Two(p - twos), Five(p - fives));
    FractionTen(x, n * k, p, s);
  }

  lemma Pairs(a: int, b: int, c: int, d: int)
    ensures (a * b) * (c * d) == (a * c) * (b * d)
  {
    Assoc(a * b, c, d);
    Assoc(a * c, b, d);
    assert (a * b) * c == (a * c) * b;
  }

  // ----- the loops of `quotient` -----

  const DIVIDEND_LIMIT: int := 1_000_000_000_000_000_000_000_000_000_000_000_000

  /** Strips trailing zeros of the numerator, lowering the number of places. */
  method StripTens(n0: i128, s0: i32, ghost x: real, ghost den: int) returns (n: i128, s: i32)
    requires n0 != 0 && -DIVIDEND_LIMIT <= n0 as int <= DIVIDEND_LIMIT && -100 <= s0 as int <= 100
    requires Fraction(x, n0 as int, den, s0 as int) && Coprime(n0 as int, den)
    ensures n != 0 && n % 10 != 0 && -DIVIDEND_LIMIT <= n as int <= DIVIDEND_LIMIT
    ensures -136 <= s as int <= 100
    ensures Fraction(x, n as int, den, s as int) && Coprime(n as int, den)
  {
    hide Fraction, Coprime;
    n, s := n0, s0;
    ghost var k: nat := 0;
    while n % 10 == 0
      invariant n != 0 && -DIVIDEND_LIMIT <= n as int <= DIVIDEND_LIMIT
      invariant s as int == s0 as int - k && Abs(n as int) * Ten(k) <= DIVIDEND_LIMIT
      invariant k <= 36
      invariant Fraction(x, n as int, den, s as int) && Coprime(n as int, den)
      decreases Abs(n as int)
    {
      var m := n / 10;
      assert n as int == m as int * 10;
      CoprimeFactor(m as int, 10, den);
      FractionShift(x, m as int, den, s as int);
      StripBound(m as int, k);
      n, s := m, s - 1;
      k := k + 1;
    }
  }

  lemma StripBound(m: int, k: nat)
    requires m != 0 && Abs(m * 10) * Ten(k) <= DIVIDEND_LIMIT
    ensures Abs(m) * Ten(k + 1) <= DIVIDEND_LIMIT && k + 1 <= 36
  {
    assert Abs(m * 10) == 10 * Abs(m);
    Assoc(10, Abs(m), Ten(k));
    Assoc(Abs(m), 10, Ten(k));
    MulMonotone(1, Abs(m), Ten(k + 1));
    if k + 1 > 36 {
      TenGrows(37, k + 1);
      TenAdd(18, 19);
      assert Ten(19) == 10 * Ten(18);
      TenEighteen();
    }
  }

  lemma FractionShift(x: real, m: int, den: int, s: int)
    requires Fraction(x, m * 10, den, s)
    ensures Fraction(x, m, den, s - 1)
  {
    MorePlaces(m, s - 1, 1);
    assert Ten(1) == 10;
  }

  /** Takes all factors of two, then of five, out of the denominator. */
  method StripTwosAndFives(d0: i128) returns (d: i128, twos: i32, fives: i32)
    requires 0 < d0 as int <= MAX_COEFFICIENT
    ensures 0 < d && d % 2 != 0 && d % 5 != 0 && 0 <= twos as int <= 60 && 0 <= fives as int <= 60
    ensures d0 as int == TwoFive(twos as nat, fives as nat) * d as int
  {
    d, twos, fives := d0, 0, 0;
    while d % 2 == 0
      invariant 0 < d as int <= MAX_COEFFICIENT && 0 <= twos as int <= 60
      invariant d0 as int == Two(twos as nat) * d as int
      decreases d as int
    {
      var h := d / 2;
      assert d as int == 2 * h as int;
      TwoOut(d0 as int, twos as nat, h as int);
      d := h;
      twos := twos + 1;
    }
    ghost var odd := d as int;
    assert Five(0) == 1;
    while d % 5 == 0
      invariant 0 < d as int <= MAX_COEFFICIENT && d % 2 != 0 && 0 <= fives as int <= 60
      invariant odd == Five(fives as nat) * d as int
      decreases d as int
    {
      var h := d / 5;
      assert d as int == 5 * h as int;
      FiveOut(odd, fives as nat, h as int);
      OddFifth(d as int, h as int);
      d := h;
      fives := fives + 1;
    }
    Assoc(Two(twos as nat), Five(fives as nat), d as int);
  }

  lemma OddFifth(d: int, h: int)
    requires d == 5 * h && d % 2 != 0
    ensures h % 2 != 0
  {
    assert d == 2 * (2 * h) + h;
  }

  lemma {:induction false} TwoGrows(a: nat, b: nat)
    requires a <= b
    ensures Two(a) <= Two(b) && Five(a) <= Five(b)
    decreases b
  {
    if a < b { TwoGrows(a, b - 1); }
  }

  lemma SixtyTwos()
    ensures Two(60) > MAX_COEFFICIENT && Five(60) > MAX_COEFFICIENT
  {
    assert Two(5) == 32;
    TwoAdd(5, 5);
    TwoAdd(10, 10);
    TwoAdd(20, 10);
    TwoAdd(30, 30);
    assert Two(60) == 1_152_921_504_606_846_976;
    FiveAboveTwo(60);
  }

  lemma {:induction false} FiveAboveTwo(k: nat)
    ensures Five(k) >= Two(k)
  {
    if k > 0 { FiveAboveTwo(k - 1); }
  }

  lemma TwoOut(d0: int, twos: nat, h: int)
    requires 0 < d0 <= MAX_COEFFICIENT && h > 0 && d0 == Two(twos) * (2 * h)
    ensures d0 == Two(twos + 1) * h && twos + 1 <= 60
  {
    Assoc(Two(twos), 2, h);
    assert Two(twos) * 2 == Two(twos + 1);
    ProductSize(Two(twos + 1), h);
    SixtyTwos();
    if twos + 1 > 60 { TwoGrows(60, twos + 1); }
  }

  lemma FiveOut(d0: int, fives: nat, h: int)
    requires 0 < d0 <= MAX_COEFFICIENT && h > 0 && d0 == Five(fives) * (5 * h)
    ensures d0 == Five(fives + 1) * h && fives + 1 <= 60
  {
    Assoc(Five(fives), 5, h);
    assert Five(fives) * 5 == Five(fives + 1);
    ProductSize(Five(fives + 1), h);
    SixtyTwos();
    if fives + 1 > 60 { TwoGrows(60, fives + 1); }
  }

  /** Multiplies the numerator up by powers of two and five, stopping once it is too long. */
  method Raise(n0: i128, twos: i32, fives: i32) returns (n: i128, fits: bool)
    requires n0 != 0 && 0 <= twos as int <= 60 && 0 <= fives as int <= 60
    requires -DIVIDEND_LIMIT <= n0 as int <= DIVIDEND_LIMIT
    ensures fits ==> n as int == Raised(n0 as int, twos as nat, fives as nat)
                     && -DIVIDEND_LIMIT <= n as int <= DIVIDEND_LIMIT
    ensures !fits ==> Abs(Raised(n0 as int, twos as nat, fives as nat)) > MAX_COEFFICIENT
  {
    n := n0;
    var i: i32 := 0;
    while i < twos
      invariant 0 <= i <= twos && n != 0 && -DIVIDEND_LIMIT <= n as int <= DIVIDEND_LIMIT
      invariant n as int == n0 as int * Two(i as nat)
    {
      if Magnitude(n) > MAX / 2 {
        TooLongTwos(n0 as int, i as nat, twos as nat, fives as nat);
        return n, false;
      }
      Assoc(n0 as int, 2, Two(i as nat));
      n := n * 2;
      i := i + 1;
    }
    ghost var raised := n as int;
    assert Five(0) == 1;
    i := 0;
    while i < fives
      invariant 0 <= i <= fives && n != 0 && -DIVIDEND_LIMIT <= n as int <= DIVIDEND_LIMIT
      invariant n as int == raised * Five(i as nat)
    {
      if Magnitude(n) > MAX / 5 {
        TooLongFives(raised, i as nat, fives as nat);
        return n, false;
      }
      Assoc(raised, 5, Five(i as nat));
      n := n * 5;
      i := i + 1;
    }
    fits := true;
  }

  lemma Grows(a: int, b: int)
    requires b >= 1
    ensures Abs(a * b) >= Abs(a)
  {
    SignedProduct(a, b);
    MulMonotone(1, b, Abs(a));
    assert a >= 0 ==> Abs(a) == a;
    assert a < 0 ==> Abs(a) == -a && Abs(a) * b == -(a * b);
  }

  lemma TooLongTwos(n0: int, i: nat, twos: nat, fives: nat)
    requires i < twos && Abs(n0 * Two(i)) > MAX_COEFFICIENT / 2
    ensures Abs(n0 * Two(twos) * Five(fives)) > MAX_COEFFICIENT
  {
    TwoAdd(i + 1, twos - i - 1);
    Assoc(n0, Two(i + 1), Two(twos - i - 1));
    Assoc(n0, 2, Two(i));
    assert n0 * Two(i + 1) == 2 * (n0 * Two(i));
    Grows(n0 * Two(i + 1), Two(twos - i - 1));
    Grows(n0 * Two(twos), Five(fives));
  }

  lemma TooLongFives(n0: int, i: nat, fives: nat)
    requires i < fives && Abs(n0 * Five(i)) > MAX_COEFFICIENT / 5
    ensures Abs(n0 * Five(fives)) > MAX_COEFFICIENT
  {
    FiveAdd(i + 1, fives - i - 1);
    Assoc(n0, Five(i + 1), Five(fives - i - 1));
    Assoc(n0, 5, Five(i));
    assert n0 * Five(i + 1) == 5 * (n0 * Five(i));
    Grows(n0 * Five(i + 1), Five(fives - i - 1));
  }

  // ----- the quotient -----

  /** numerator / (denominator * 10^scale), exactly. */
  method Quotient(p: i128, q: i128, scale: i32) returns (r: Result<Decimal>)
    requires -DIVIDEND_LIMIT <= p as int <= DIVIDEND_LIMIT && -MAX_COEFFICIENT <= q as int <= MAX_COEFFICIENT
    requires -100 <= scale as int <= 100
    ensures q == 0 ==> r == Err(DivisionByZero)
    ensures q != 0 ==> r == Exactly(Ratio(p as int, q as int, scale as int))
  {
    hide Fraction, Exactly, Coprime, Pow, Value, Ten, IsGcd, Ratio, TwoFive, Raised, Divides, Times;
    if q == 0 {
      return Err(DivisionByZero);
    }
    ghost var x := Ratio(p as int, q as int, scale as int);
    FractionStart(p as int, q as int, scale as int);
    if p == 0 {
      ZeroFraction(x, q as int, scale as int);
      ExactlyOk(ZERO);
      return Ok(ZERO);
    }
    var g := Gcd(Magnitude(p), Magnitude(q));
    var n, d := Reduce(p, q, g, scale, x);
    var m, s := StripTens(n, scale, x, d as int);
    var rest, twos, fives := StripTwosAndFives(d);
    if rest != 1 {
      ProductDivides(rest as int, TwoFive(twos as nat, fives as nat), d as int);
      NoExpansion(x, m as int, d as int, s as int, rest as int);
      NotTerminatingError(x);
      return Err(NonTerminating);
    }
    UnitProduct(TwoFive(twos as nat, fives as nat), rest as int);
    var places := if twos >= fives then twos else fives;
    NoTrailingZero(m as int, twos as nat, fives as nat, places as nat);
    FinalValue(x, m as int, twos as nat, fives as nat, places as nat, s as int);
    ghost var c := Raised(m as int, places as nat - twos as nat, places as nat - fives as nat);
    var total := s + places;
    if total > 18 {
      ExactlyScale(c, total as int);
      return Err(Scale);
    }
    var raised, fits := Raise(m, places - twos, places - fives);
    if !fits {
      ExactlyPrecision(c, total as int);
      return Err(Precision);
    }
    r := Normalized(raised, total);
  }

  lemma ProductDivides(m: int, k: int, a: int)
    requires a == k * m
    ensures Divides(m, a)
  {
    assert Times(m, k, a);
  }

  lemma UnitProduct(k: int, m: int)
    requires m == 1
    ensures k * m == k
  {
  }

  lemma NotTerminatingError(x: real)
    requires !Terminating(x)
    ensures Exactly(x) == Err(NonTerminating)
  {
  }

  lemma ZeroFraction(x: real, q: int, s: int)
    requires q != 0 && Fraction(x, 0, q, s)
    ensures x == ValueOf(ZERO)
  {
    ZeroValue(s);
    NonzeroFactor(x, q as real);
  }

  lemma NonzeroFactor(x: real, q: real)
    requires q != 0.0 && x * q == 0.0
    ensures x == 0.0
  {
  }

  /** Divides both numbers by their gcd and moves the sign to the numerator. */
  method Reduce(p: i128, q: i128, g: i128, ghost scale: i32, ghost x: real) returns (n: i128, d: i128)
    requires p != 0 && q != 0 && -DIVIDEND_LIMIT <= p as int <= DIVIDEND_LIMIT
    requires -MAX_COEFFICIENT <= q as int <= MAX_COEFFICIENT
    requires IsGcd(g as int, Abs(p as int), Abs(q as int)) && Fraction(x, p as int, q as int, scale as int)
    ensures n != 0 && -DIVIDEND_LIMIT <= n as int <= DIVIDEND_LIMIT && 0 < d as int <= MAX_COEFFICIENT
    ensures Coprime(n as int, d as int) && Fraction(x, n as int, d as int, scale as int)
  {
    hide Fraction, Coprime, IsGcd;
    GcdPositive(g as int, Abs(p as int), Abs(q as int));
    ghost var a, b := Abs(p as int) / g as int, Abs(q as int) / g as int;
    GcdParts(g as int, Abs(p as int), Abs(q as int));
    SignedQuotient(p as int, g as int, a);
    n := p / g;
    d := Magnitude(q) / g;
    if q < 0 {
      n := -n;
      FractionFlip(x, p as int, q as int, scale as int);
    }
    assert d as int == b && (n as int == a || n as int == -a);
    ReducedFraction(p as int, q as int, g as int, n as int, b, scale as int, x);
  }

  lemma ReducedFraction(p: int, q: int, g: int, n: int, d: int, scale: int, x: real)
    requires p != 0 && q != 0 && IsGcd(g, Abs(p), Abs(q)) && Fraction(x, p, q, scale)
    requires Abs(p) == g * Abs(n) && Abs(q) == g * d && d > 0
    requires p == (if q < 0 then g * -n else g * n)
    ensures Coprime(n, d) && Fraction(x, n, d, scale)
  {
    hide Coprime, Fraction, IsGcd;
    ReducedCoprime(g, Abs(n), d);
    CoprimeSign(Abs(n), d, n);
    GcdPositive(g, Abs(p), Abs(q));
    SignedProduct(g, n);
    if q < 0 { FractionFlip(x, p, q, scale); }
    assert Fraction(x, g * n, g * d, scale);
    FractionReduce(x, g, n, d, scale);
  }

  lemma GcdPositive(g: int, a: int, b: int)
    requires IsGcd(g, a, b)
    ensures g > 0
  {
  }

  lemma GcdParts(g: int, a: int, b: int)
    requires IsGcd(g, a, b) && a > 0 && b > 0
    ensures g > 0 && a == g * (a / g) && b == g * (b / g) && 0 < a / g <= a && 0 < b / g <= b
  {
    ExactQuotient(g, a);
    ExactQuotient(g, b);
  }

  lemma ExactQuotient(g: int, a: int)
    requires g > 0 && a > 0 && Divides(g, a)
    ensures a == g * (a / g) && 0 < a / g <= a
  {
    var k :| Times(g, k, a);
    ProductSize(g, k);
    DivisionUnique(a, g, k);
    MulMonotone(1, g, k);
  }

  lemma DivisionUnique(a: int, g: int, k: int)
    requires g > 0 && a == g * k
    ensures a / g == k
  {
    var q, r := a / g, a % g;
    assert a == g * q + r && 0 <= r < g;
    Spread(g, k, q);
    ProductSize(g, k - q);
    ProductSize(g, q - k);
    assert g * (k - q) == r;
    assert g * (q - k) == -r;
  }

  lemma SignedQuotient(p: int, g: int, a: int)
    requires g > 0 && Abs(p) == g * a
    ensures p / g == (if p < 0 then -a else a) && p == g * (p / g)
  {
    SignedProduct(g, a);
    DivisionUnique(p, g, if p < 0 then -a else a);
  }

  lemma CoprimeSign(a: int, b: int, n: int)
    requires Coprime(a, b) && (n == a || n == -a)
    ensures Coprime(n, b)
  {
    forall m | m > 0 && Divides(m, n) && Divides(m, b) ensures m == 1 {
      DividesMultiple(m, n, -1);
    }
  }

  // ----- the public operations -----

  /** Exact division; the only errors are the ones the exact quotient forces. */
  method CheckedDiv(a: Decimal, b: Decimal) returns (r: Result<Decimal>)
    ensures b == ZERO ==> r == Err(DivisionByZero)
    ensures b != ZERO ==> ValueOf(b) != 0.0 && r == Exactly(ValueOf(a) / ValueOf(b))
  {
    hide Exactly, Ratio, Value;
    r := Quotient(a.coefficient as i128, b.coefficient as i128, a.scale as i32 - b.scale as i32);
    if b.coefficient != 0 {
      QuotientValue(a.coefficient, a.scale, b.coefficient, b.scale);
    }
  }

  lemma QuotientValue(a: int, s: int, b: int, t: int)
    requires b != 0
    ensures Value(b, t) != 0.0
    ensures Ratio(a, b, s - t) == Value(a, s) / Value(b, t)
  {
    hide Ratio, Pow;
    var x, p := Ratio(a, b, s - t), Pow(-t);
    FractionStart(a, b, s - t);
    PowPositive(-t);
    PowAdd(-(s - t), -t);
    assert -(s - t) + -t == -s;
    Regroup(x, b as real, p);
    Regroup(a as real, Pow(-(s - t)), p);
    NonzeroProduct(b as real, p);
    DivideBack(x, Value(b, t), Value(a, s));
  }

  lemma NonzeroProduct(a: real, b: real)
    requires a != 0.0 && b != 0.0
    ensures a * b != 0.0
  {
  }

  lemma DivideBack(x: real, y: real, z: real)
    requires y != 0.0 && x * y == z
    ensures x == z / y
  {
  }

  /** Exact rational scaling: multiply by a ratio, cancelling before any precision check. */
  method CheckedMulRatio(a: Decimal, numerator: Decimal, denominator: Decimal) returns (r: Result<Decimal>)
    ensures denominator == ZERO ==> r == Err(DivisionByZero)
    ensures denominator != ZERO ==> ValueOf(denominator) != 0.0
    ensures denominator != ZERO ==> r == Exactly(ValueOf(a) * ValueOf(numerator) / ValueOf(denominator))
  {
    hide Exactly, Ratio, Value;
    ProductBound(a.coefficient, numerator.coefficient, MAX_COEFFICIENT, MAX_COEFFICIENT);
    var product: i128 := (a.coefficient as i128) * (numerator.coefficient as i128);
    var scale: i32 := a.scale as i32 + numerator.scale as i32 - denominator.scale as i32;
    assert product as int == a.coefficient * numerator.coefficient;
    assert scale as int == a.scale + numerator.scale - denominator.scale;
    r := Quotient(product, denominator.coefficient as i128, scale);
    ProductValue(a.coefficient, a.scale, numerator.coefficient, numerator.scale);
    if denominator.coefficient != 0 {
      var n, s := a.coefficient * numerator.coefficient, a.scale + numerator.scale;
      QuotientValue(n, s, denominator.coefficient, denominator.scale);
      assert Value(n, s) == ValueOf(a) * ValueOf(numerator);
      assert Ratio(n, denominator.coefficient, scale as int) == Value(n, s) / ValueOf(denominator);
    }
  }

  // ----- when division terminates, and what it undoes -----

  lemma {:induction false} TwoFivePart(den: int) returns (i: nat, j: nat, m: int)
    requires den > 0
    ensures den == TwoFive(i, j) * m && m > 0 && m % 2 != 0 && m % 5 != 0
    decreases den
  {
    if den % 2 == 0 {
      i, j, m := TwoFivePart(den / 2);
      Assoc(2, TwoFive(i, j), m);
      Assoc(2, Two(i), Five(j));
      i := i + 1;
    } else if den % 5 == 0 {
      i, j, m := TwoFivePart(den / 5);
      Assoc(5, TwoFive(i, j), m);
      Assoc(5, Five(j), Two(i));
      assert Two(i) * Five(j + 1) == 5 * (Two(i) * Five(j));
      j := j + 1;
    } else {
      i, j, m := 0, 0, den;
      assert TwoFive(0, 0) == 1;
    }
  }

  /** A reduced fraction has a finite decimal expansion exactly when its denominator has no
      prime factor other than two and five. */
  lemma TerminatingExactly(x: real, n: int, den: int, s: int)
    requires den > 0 && Fraction(x, n, den, s) && Coprime(n, den)
    ensures Terminating(x) <==> exists i: nat, j: nat :: den == TwoFive(i, j)
  {
    hide Fraction, Coprime, TwoFive, Terminating;
    var i, j, m := TwoFivePart(den);
    if m == 1 {
      UnitProduct(TwoFive(i, j), m);
      PowersTerminate(x, n, i, j, s);
    } else {
      ProductDivides(m, TwoFive(i, j), den);
      NoExpansion(x, n, den, s, m);
      if i': nat, j': nat :| den == TwoFive(i', j') {
        PowersTerminate(x, n, i', j', s);
      }
    }
  }

  lemma PowersTerminate(x: real, n: int, i: nat, j: nat, s: int)
    requires Fraction(x, n, TwoFive(i, j), s)
    ensures Terminating(x)
  {
    hide Fraction, TwoFive, Raised, Value;
    var p := if i >= j then i else j;
    FinalValue(x, n, i, j, p, s);
    assert Value(Raised(n, p - i, p - j), s + p) == x;
  }

  /** Multiplying a quotient back gives the dividend. */
  lemma DivisionInverts(a: Decimal, b: Decimal, q: Decimal)
    requires ValueOf(b) != 0.0 && Exactly(ValueOf(a) / ValueOf(b)) == Ok(q)
    ensures Exactly(ValueOf(q) * ValueOf(b)) == Ok(a)
  {
    hide Value, Exactly;
    OkValue(ValueOf(a) / ValueOf(b), q);
    MultiplyBack(ValueOf(q), ValueOf(a), ValueOf(b));
    assert ValueOf(q) * ValueOf(b) == ValueOf(a);
    ExactlyOk(a);
  }

  lemma MultiplyBack(q: real, x: real, y: real)
    requires y != 0.0 && q == x / y
    ensures q * y == x
  {
  }
}
