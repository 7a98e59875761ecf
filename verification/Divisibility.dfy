/** The number theory behind exact decimal division. */
module Divisibility {
  import opened Decimals

  predicate Times(m: int, k: int, a: int) {
    a == m * k
  }

  ghost predicate Divides(m: int, a: int) {
    exists k :: Times(m, k, a)
  }

  ghost predicate Coprime(a: int, b: int) {
    forall m | m > 0 && Divides(m, a) && Divides(m, b) :: m == 1
  }

  /** `g` is a common divisor that every common divisor divides. */
  ghost predicate IsGcd(g: int, a: int, b: int) {
    g > 0 && Divides(g, a) && Divides(g, b) && forall m | Divides(m, a) && Divides(m, b) :: Divides(m, g)
  }

  lemma Assoc(a: int, b: int, c: int)
    ensures a * (b * c) == (a * b) * c == (a * c) * b
  {
  }

  lemma DividesMultiple(m: int, a: int, k: int)
    requires Divides(m, a)
    ensures Divides(m, a * k)
  {
    var j :| Times(m, j, a);
    Assoc(m, j, k);
    assert Times(m, j * k, a * k);
  }

  lemma DividesSum(m: int, a: int, b: int)
    requires Divides(m, a) && Divides(m, b)
    ensures Divides(m, a + b) && Divides(m, a - b)
  {
    var j :| Times(m, j, a);
    var k :| Times(m, k, b);
    Spread(m, j, k);
    assert Times(m, j + k, a + b) && Times(m, j - k, a - b);
  }

  lemma Spread(m: int, j: int, k: int)
    ensures m * (j + k) == m * j + m * k && m * (j - k) == m * j - m * k
  {
  }

  lemma DividesSelf(m: int)
    ensures Divides(m, m) && Divides(m, 0)
  {
    assert Times(m, 1, m) && Times(m, 0, 0);
  }

  /** One step of Euclid's algorithm keeps the common divisors. */
  lemma EuclidStep(m: int, a: int, b: int)
    requires b > 0
    ensures Divides(m, a) && Divides(m, b) <==> Divides(m, b) && Divides(m, a % b)
  {
    assert a == (a / b) * b + a % b;
    if Divides(m, b) {
      DividesMultiple(m, b, a / b);
      assert b * (a / b) == (a / b) * b;
      if Divides(m, a) {
        DividesSum(m, a, b * (a / b));
      }
      if Divides(m, a % b) {
        DividesSum(m, a % b, b * (a / b));
      }
    }
  }

  lemma UnitFactor(g: int, m: int, k: int)
    requires g > 0 && m > 0 && g == (g * m) * k
    ensures m == 1
  {
    Assoc(g, m, k);
    assert g * (m * k) == g * 1;
    Cancels(g, m * k, 1);
    ProductSize(m, k);
  }

  lemma ProductSize(m: int, k: int)
    requires m > 0
    ensures k >= 1 ==> m * k >= m
    ensures k <= 0 ==> m * k <= 0
  {
  }

  lemma Cancels(g: int, a: int, b: int)
    requires g > 0 && g * a == g * b
    ensures a == b
  {
  }

  /** Dividing both numbers by their greatest common divisor leaves coprime numbers. */
  lemma ReducedCoprime(g: int, a: int, b: int)
    requires IsGcd(g, g * a, g * b)
    ensures Coprime(a, b)
  {
    forall m | m > 0 && Divides(m, a) && Divides(m, b) ensures m == 1 {
      var j :| Times(m, j, a);
      var k :| Times(m, k, b);
      Assoc(g, m, j);
      Assoc(g, m, k);
      assert Times(g * m, j, g * a) && Times(g * m, k, g * b);
      assert Divides(g * m, g);
      var i :| Times(g * m, i, g);
      UnitFactor(g, m, i);
    }
  }

  lemma CoprimeFactor(a: int, k: int, b: int)
    requires Coprime(a * k, b)
    ensures Coprime(a, b)
  {
    forall m | m > 0 && Divides(m, a) && Divides(m, b) ensures m == 1 {
      DividesMultiple(m, a, k);
    }
  }

  // ----- the primes two and five -----

  /** An even product with an odd factor is even in the other one. */
  lemma OddProduct(m: int, k: int, p: int)
    requires m % 2 != 0 && Times(m, k, 2 * p)
    ensures Times(m, k / 2, p)
  {
    var a := m / 2;
    assert m == 2 * a + 1;
    assert m * k == 2 * (a * k) + k;
    Assoc(m, 2, k / 2);
  }

  lemma FiveProduct(m: int, k: int, p: int)
    requires m % 5 != 0 && Times(m, k, 5 * p)
    ensures Times(m, k / 5, p)
  {
    var b := k / 5;
    FiveRemainder(m / 5, m % 5, b, k % 5, p);
    assert k == 5 * b;
    Assoc(m, 5, b);
  }

  /** Only a multiple of five makes the product with a number free of five a multiple of five. */
  lemma FiveRemainder(a: int, i: int, b: int, j: int, p: int)
    requires 0 < i < 5 && 0 <= j < 5 && (5 * a + i) * (5 * b + j) == 5 * p
    ensures j == 0
  {
    Expand(a, i, b, j);
    FiveLeft(5 * (a * b) + a * j + b * i, i * j, p);
    SmallProduct(i, j, 5 * (a * b) + a * j + b * i);
  }

  lemma FiveLeft(rest: int, e: int, p: int)
    requires 5 * rest + e == 5 * p
    ensures (5 * rest + e) % 5 == 0
  {
  }

  lemma Expand(a: int, i: int, b: int, j: int)
    ensures (5 * a + i) * (5 * b + j) == 5 * (5 * (a * b) + a * j + b * i) + i * j
  {
    calc {
      (5 * a + i) * (5 * b + j);
      (5 * a) * (5 * b + j) + i * (5 * b + j);
      { assert (5 * a) * (5 * b + j) == 25 * (a * b) + 5 * (a * j); }
      25 * (a * b) + 5 * (a * j) + i * (5 * b + j);
      { assert i * (5 * b + j) == 5 * (b * i) + i * j; }
      25 * (a * b) + 5 * (a * j) + 5 * (b * i) + i * j;
    }
  }

  lemma SmallProduct(i: int, j: int, rest: int)
    requires 0 < i < 5 && 0 <= j < 5 && (5 * rest + i * j) % 5 == 0
    ensures j == 0
  {
    if i == 1 { assert i * j == j; }
    else if i == 2 { assert i * j == 2 * j; }
    else if i == 3 { assert i * j == 3 * j; }
    else { assert i * j == 4 * j; }
  }

  /** A number free of two and five that divides a shifted number divides it unshifted. */
  lemma {:induction false} FreeOfTen(m: int, x: int, n: nat)
    requires m % 2 != 0 && m % 5 != 0 && Divides(m, x * Ten(n))
    ensures Divides(m, x)
  {
    if n > 0 {
      var y := x * Ten(n - 1);
      FactorTen(x, Ten(n - 1));
      var k :| Times(m, k, 10 * y);
      HalfAndFifth(m, k, y);
      FreeOfTen(m, x, n - 1);
    }
  }

  lemma HalfAndFifth(m: int, k: int, y: int)
    requires m % 2 != 0 && m % 5 != 0 && Times(m, k, 10 * y)
    ensures Divides(m, y)
  {
    hide Times;
    assert 2 * (5 * y) == 10 * y;
    OddProduct(m, k, 5 * y);
    FiveProduct(m, k / 2, y);
  }

  // ----- powers of two and five -----

  function Two(k: nat): (r: nat)
    ensures r >= 1
  {
    if k == 0 then 1 else 2 * Two(k - 1)
  }

  function Five(k: nat): (r: nat)
    ensures r >= 1
  {
    if k == 0 then 1 else 5 * Five(k - 1)
  }

  lemma {:induction false} TwoFiveTen(k: nat)
    ensures Two(k) * Five(k) == Ten(k)
  {
    if k > 0 {
      TwoFiveTen(k - 1);
      TwoTimesFive(Two(k - 1), Five(k - 1));
    }
  }

  lemma TwoTimesFive(a: int, b: int)
    ensures (2 * a) * (5 * b) == 10 * (a * b)
  {
  }

  lemma {:induction false} TwoAdd(a: nat, b: nat)
    ensures Two(a + b) == Two(a) * Two(b)
  {
    if a > 0 {
      TwoAdd(a - 1, b);
      Assoc(2, Two(a - 1), Two(b));
    }
  }

  lemma {:induction false} FiveAdd(a: nat, b: nat)
    ensures Five(a + b) == Five(a) * Five(b)
  {
    if a > 0 {
      FiveAdd(a - 1, b);
      Assoc(5, Five(a - 1), Five(b));
    }
  }

  lemma OddTimesFive(x: int)
    requires x % 2 != 0
    ensures (5 * x) % 2 != 0
  {
  }

  lemma {:induction false} OddByFives(n: int, k: nat)
    requires n % 2 != 0
    ensures (n * Five(k)) % 2 != 0
  {
    if k > 0 {
      OddByFives(n, k - 1);
      Assoc(n, 5, Five(k - 1));
      OddTimesFive(n * Five(k - 1));
      Assoc(5, n, Five(k - 1));
    }
  }

  lemma TwoTimesFiveFree(x: int)
    requires x % 5 != 0
    ensures (2 * x) % 5 != 0
  {
  }

  lemma {:induction false} FiveFreeByTwos(n: int, k: nat)
    requires n % 5 != 0
    ensures (n * Two(k)) % 5 != 0
  {
    if k > 0 {
      FiveFreeByTwos(n, k - 1);
      Assoc(n, 2, Two(k - 1));
      TwoTimesFiveFree(n * Two(k - 1));
      Assoc(2, n, Two(k - 1));
    }
  }
}
