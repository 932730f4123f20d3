/** Exact non-negative rationals kept in lowest terms, with both components bounded by the
    largest NUMERIC(78,0). */
module Rationals {
  import opened Outcomes

  /** 10 to the n. */
  function Pow10(n: nat): nat {
    if n == 0 then 1 else 10 * Pow10(n - 1)
  }

  const NUMERIC_DIGITS: nat := 78
  const TEN_78: int := Pow10(NUMERIC_DIGITS)
  const NUMERIC_MAX: int := TEN_78 - 1

  datatype Rational = Rational(numerator: int, denominator: int)

  /** The bound exceeds every 64-bit quantity. */
  lemma {:induction false} NumericIsWide()
    ensures 9_223_372_036_854_775_807 <= NUMERIC_MAX
  {
    assert Pow10(4) == 10_000;
    assert Pow10(8) == 100_000_000;
    assert Pow10(12) == 1_000_000_000_000;
    assert Pow10(16) == 10_000_000_000_000_000;
    assert Pow10(20) == 100_000_000_000_000_000_000;
    Pow10Grows(20, NUMERIC_DIGITS);
  }

  lemma {:induction false} Pow10Grows(m: nat, n: nat)
    requires m <= n
    ensures Pow10(m) <= Pow10(n)
  {
    if m < n { Pow10Grows(m, n - 1); }
  }

  // ----- the greatest common divisor -----

  function Gcd(a: nat, b: nat): nat
    decreases b
  {
    if b == 0 then a else Gcd(b, a % b)
  }

  method GreatestCommonDivisor(a: nat, b: nat) returns (divisor: nat)
    ensures divisor == Gcd(a, b)
  {
    var x, y := a, b;
    while y != 0
      invariant Gcd(x, y) == Gcd(a, b)
      decreases y
    {
      x, y := y, x % y;
    }
    divisor := x;
  }

  // ----- products of integers -----

  lemma {:induction false} MulSign(k: int, e: int)
    requires 0 < k
    ensures e > 0 ==> k <= k * e
    ensures e < 0 ==> k * e <= -k
  {
  }

  lemma {:induction false} MulAssociates(a: int, b: int, c: int)
    ensures a * (b * c) == (a * b) * c
  {
  }

  lemma {:induction false} MulRegroups(a: int, b: int, c: int, d: int)
    ensures (a * b) * (c * d) == (a * c) * (b * d)
  {
    MulAssociates(a, b, c * d);
    MulAssociates(b, c, d);
    MulAssociates(c, b, d);
    MulAssociates(a, c, b * d);
  }

  /** A common factor of a linear combination. */
  lemma {:induction false} FactorOut(g: int, m: int, x: int, n: int, y: int)
    ensures (g * m) * x + (g * n) * y == g * (m * x + n * y)
  {
    MulAssociates(g, m, x);
    MulAssociates(g, n, y);
  }

  lemma {:induction false} MulMod(k: int, q: int)
    requires 0 < k
    ensures (k * q) % k == 0 && (k * q) / k == q
  {
    var x := k * q;
    assert k * (q - x / k) == k * q - k * (x / k);
    MulSign(k, q - x / k);
  }

  lemma {:induction false} CancelFactor(k: int, x: int, y: int)
    requires 0 < k && k * x == k * y
    ensures x == y
  {
    assert k * (x - y) == k * x - k * y;
    MulSign(k, x - y);
  }

  /** The coefficients of Bezout's identity. */
  lemma {:induction false} Bezout(a: nat, b: nat) returns (x: int, y: int)
    ensures a * x + b * y == Gcd(a, b)
    decreases b
  {
    if b == 0 {
      x, y := 1, 0;
    } else {
      var u, v := Bezout(b, a % b);
      x, y := v, u - (a / b) * v;
      BezoutStep(b, a / b, a % b, u, v);
    }
  }

  lemma {:induction false} BezoutStep(b: int, q: int, r: int, u: int, v: int)
    ensures (b * q + r) * v + b * (u - q * v) == b * u + r * v
  {
    MulAssociates(b, q, v);
    assert b * (u - q * v) == b * u - b * (q * v);
    assert (b * q + r) * v == (b * q) * v + r * v;
  }

  predicate Divides(g: int, x: int) {
    0 < g && x == g * (x / g)
  }

  lemma {:induction false} GcdDivides(a: nat, b: nat)
    requires 0 < a + b
    ensures Divides(Gcd(a, b), a) && Divides(Gcd(a, b), b)
    decreases b
  {
    if b == 0 {
      DividesSelf(a);
    } else {
      EuclideanStep(a, b);
      GcdDivides(b, a % b);
      DividesBoth(Gcd(b, a % b), b, a % b, a / b);
    }
  }

  lemma {:induction false} DividesSelf(a: int)
    requires 0 < a
    ensures Divides(a, a) && Divides(a, 0)
  {
    MulMod(a, 1);
    MulMod(a, 0);
  }

  lemma {:induction false} EuclideanStep(a: nat, b: nat)
    requires 0 < b
    ensures a == b * (a / b) + a % b && 0 <= a % b < b
  {
  }

  lemma {:induction false} DividesBoth(g: int, b: int, r: int, q: int)
    requires Divides(g, b) && Divides(g, r)
    ensures Divides(g, b * q + r)
  {
    FactorOut(g, b / g, q, r / g, 1);
    MulMod(g, (b / g) * q + r / g);
  }

  predicate Coprime(a: int, b: int) {
    0 <= a && 0 < b && Gcd(a, b) == 1
  }

  lemma {:induction false} CoprimeByBezout(a: nat, b: nat, x: int, y: int)
    requires 0 < b && a * x + b * y == 1
    ensures Coprime(a, b)
  {
    var g := Gcd(a, b);
    GcdDivides(a, b);
    FactorOut(g, a / g, x, b / g, y);
    MulSign(g, (a / g) * x + (b / g) * y);
  }

  /** Dividing by the greatest common divisor leaves nothing in common. */
  lemma {:induction false} QuotientsCoprime(a: nat, b: nat)
    requires 0 < b
    ensures var g := Gcd(a, b);
            0 < g && a == g * (a / g) && b == g * (b / g) && Coprime(a / g, b / g)
  {
    var g := Gcd(a, b);
    GcdDivides(a, b);
    var x, y := Bezout(a, b);
    var m, n := a / g, b / g;
    FactorOut(g, m, x, n, y);
    CancelFactor(g, m * x + n * y, 1);
    MulSign(g, m);
    MulSign(g, n);
    CoprimeByBezout(m, n, x, y);
  }

  // ----- lowest terms -----

  predicate Reduced(r: Rational) {
    Coprime(r.numerator, r.denominator)
  }

  /** r stands for the fraction n / d. */
  predicate Equals(r: Rational, n: int, d: int) {
    r.numerator * d == n * r.denominator
  }

  predicate Fits(r: Rational) {
    0 <= r.numerator <= NUMERIC_MAX && 0 <= r.denominator <= NUMERIC_MAX
  }

  lemma {:induction false} DenominatorDivides(r: Rational, s: Rational) returns (k: int)
    requires Reduced(r) && 0 < s.denominator && r.numerator * s.denominator == s.numerator * r.denominator
    ensures s.denominator == r.denominator * k && s.numerator == r.numerator * k
  {
    var (n, d) := (r.numerator, r.denominator);
    var (p, q) := (s.numerator, s.denominator);
    var x, y := Bezout(n, d);
    k := p * x + q * y;
    FactorOut(d, p, x, q, y);
    MulAssociates(q, n, x);
    MulAssociates(q, d, y);
    assert q == q * (n * x + d * y) == q * (n * x) + q * (d * y);
    MulAssociates(n, d, k);
    MulAssociates(d, n, k);
    CancelFactor(d, p, n * k);
  }

  /** A fraction has one form in lowest terms. */
  lemma {:induction false} ReducedIsUnique(r: Rational, s: Rational)
    requires Reduced(r) && Reduced(s) && r.numerator * s.denominator == s.numerator * r.denominator
    ensures r == s
  {
    var k := DenominatorDivides(r, s);
    var l := DenominatorDivides(s, r);
    var d := r.denominator;
    MulAssociates(d, k, l);
    CancelFactor(d, 1, k * l);
    MulSign(d, k);
    MulSign(k, l);
  }

  // ----- the three operations; None is the RangeError of the bounds check -----

  function Fraction(n: int, d: int): Option<Rational>
    requires 0 <= n && 0 < d
  {
    var divisor := Gcd(n, d);
    if divisor == 0 then None
    else
      var r := Rational(n / divisor, d / divisor);
      if Fits(r) then Some(r) else None
  }

  function Multiply(a: Rational, b: Rational): Option<Rational>
    requires 0 <= a.numerator && 0 < a.denominator && 0 <= b.numerator && 0 < b.denominator
  {
    var left := Gcd(a.numerator, b.denominator);
    var right := Gcd(b.numerator, a.denominator);
    QuotientsCoprime(a.numerator, b.denominator);
    QuotientsCoprime(b.numerator, a.denominator);
    ProductsNonNegative(a.numerator / left, b.numerator / right, a.denominator / right, b.denominator / left);
    Fraction((a.numerator / left) * (b.numerator / right), (a.denominator / right) * (b.denominator / left))
  }

  function Add(a: Rational, b: Rational): Option<Rational>
    requires 0 <= a.numerator && 0 < a.denominator && 0 <= b.numerator && 0 < b.denominator
  {
    var divisor := Gcd(a.denominator, b.denominator);
    QuotientsCoprime(a.denominator, b.denominator);
    MulSign(divisor, a.denominator / divisor);
    ProductsNonNegative(a.numerator, b.denominator / divisor, a.denominator / divisor, b.denominator);
    ProductsNonNegative(b.numerator, a.denominator / divisor, 1, 1);
    Fraction(a.numerator * (b.denominator / divisor) + b.numerator * (a.denominator / divisor),
             (a.denominator / divisor) * b.denominator)
  }

  lemma {:induction false} ProductsNonNegative(m: int, n: int, p: int, q: int)
    requires 0 <= m && 0 <= n && 0 < p && 0 < q
    ensures 0 <= m * n && 0 < p * q
  {
  }

  /** Fraction is the form in lowest terms, and is refused exactly when that form is too wide. */
  lemma {:induction false} FractionIsReduced(n: int, d: int, r: Rational)
    requires 0 <= n && 0 < d && Reduced(r) && Equals(r, n, d)
    ensures Fraction(n, d) == if Fits(r) then Some(r) else None
  {
    QuotientsCoprime(n, d);
    var g := Gcd(n, d);
    var s := Rational(n / g, d / g);
    MulAssociates(n / g, g, d / g);
    SameFraction(r, s, n, d);
    ReducedIsUnique(r, s);
  }

  lemma {:induction false} SameFraction(r: Rational, s: Rational, n: int, d: int)
    requires 0 < d && Equals(r, n, d) && Equals(s, n, d)
    ensures r.numerator * s.denominator == s.numerator * r.denominator
  {
    MulAssociates(d, r.numerator, s.denominator);
    MulAssociates(n, r.denominator, s.denominator);
    MulAssociates(n, s.denominator, r.denominator);
    MulAssociates(d, s.numerator, r.denominator);
    CancelFactor(d, r.numerator * s.denominator, s.numerator * r.denominator);
  }

  /** Lowest terms always exist. */
  lemma {:induction false} LowestTerms(n: int, d: int) returns (r: Rational)
    requires 0 <= n && 0 < d
    ensures Reduced(r) && Equals(r, n, d)
  {
    QuotientsCoprime(n, d);
    var g := Gcd(n, d);
    r := Rational(n / g, d / g);
    MulAssociates(n / g, g, d / g);
  }

  /** Scaling both parts changes nothing. */
  lemma {:induction false} FractionScales(n: int, d: int, k: int)
    requires 0 <= n && 0 < d && 0 < k
    ensures 0 <= k * n && 0 < k * d && Fraction(k * n, k * d) == Fraction(n, d)
  {
    ProductsNonNegative(k, n, k, d);
    var r := LowestTerms(n, d);
    MulAssociates(r.numerator, k, d);
    MulAssociates(k, r.numerator, d);
    MulAssociates(k, n, r.denominator);
    FractionIsReduced(n, d, r);
    FractionIsReduced(k * n, k * d, r);
  }

  /** Cancelling across before multiplying is plain multiplication in lowest terms. */
  lemma {:induction false} MultiplyIsPlain(a: Rational, b: Rational)
    requires 0 <= a.numerator && 0 < a.denominator && 0 <= b.numerator && 0 < b.denominator
    ensures 0 <= a.numerator * b.numerator && 0 < a.denominator * b.denominator
    ensures Multiply(a, b) == Fraction(a.numerator * b.numerator, a.denominator * b.denominator)
  {
    var left, right := Gcd(a.numerator, b.denominator), Gcd(b.numerator, a.denominator);
    QuotientsCoprime(a.numerator, b.denominator);
    QuotientsCoprime(b.numerator, a.denominator);
    var (n1, d2) := (a.numerator / left, b.denominator / left);
    var (n2, d1) := (b.numerator / right, a.denominator / right);
    ProductsNonNegative(n1, n2, d1, d2);
    ProductsNonNegative(left, right, left, right);
    MulRegroups(left, n1, right, n2);
    MulRegroups(right, d1, left, d2);
    FractionScales(n1 * n2, d1 * d2, left * right);
  }

  /** Adding over the least common denominator is plain addition in lowest terms. */
  lemma {:induction false} AddIsPlain(a: Rational, b: Rational)
    requires 0 <= a.numerator && 0 < a.denominator && 0 <= b.numerator && 0 < b.denominator
    ensures 0 <= a.numerator * b.denominator + b.numerator * a.denominator && 0 < a.denominator * b.denominator
    ensures Add(a, b) == Fraction(a.numerator * b.denominator + b.numerator * a.denominator,
                                  a.denominator * b.denominator)
  {
    var g := Gcd(a.denominator, b.denominator);
    QuotientsCoprime(a.denominator, b.denominator);
    var (m, n) := (a.denominator / g, b.denominator / g);
    MulSign(g, m);
    ProductsNonNegative(a.numerator, n, m, b.denominator);
    ProductsNonNegative(b.numerator, m, 1, 1);
    var sum := a.numerator * n + b.numerator * m;
    MulAssociates(a.numerator, g, n);
    MulAssociates(b.numerator, g, m);
    FactorOut(g, a.numerator, n, b.numerator, m);
    MulAssociates(g, m, b.denominator);
    FractionScales(sum, m * b.denominator, g);
  }

  // ----- over the real numbers -----

  function Value(r: Rational): real
    requires r.denominator != 0
  {
    r.numerator as real / r.denominator as real
  }

  lemma {:induction false} CastProduct(a: int, b: int)
    ensures (a * b) as real == a as real * b as real
    decreases if a < 0 then -a else a
  {
    if a > 0 {
      CastProduct(a - 1, b);
      assert a * b == (a - 1) * b + b;
      assert a as real * b as real == (a - 1) as real * b as real + b as real;
    } else if a < 0 {
      CastProduct(a + 1, b);
      assert a * b == (a + 1) * b - b;
      assert a as real * b as real == (a + 1) as real * b as real - b as real;
    }
  }

  lemma {:induction false} QuotientUnique(x: real, n: real, d: real)
    requires d != 0.0 && x * d == n
    ensures n / d == x
  {
  }

  lemma {:induction false} SameRatio(n: int, d: int, p: int, q: int)
    requires 0 < d && 0 < q && n * q == p * d
    ensures n as real / d as real == p as real / q as real
  {
    CastProduct(n, q);
    CastProduct(p, d);
    RealRatio(n as real, d as real, p as real, q as real);
  }

  lemma {:induction false} RealRatio(n: real, d: real, p: real, q: real)
    requires 0.0 < d && 0.0 < q && n * q == p * d
    ensures n / d == p / q
  {
    var x := p / q;
    assert x * q == p;
    assert (x * d) * q == (x * q) * d == n * q;
    assert x * d == n;
    QuotientUnique(x, n, d);
  }

  /** A fraction that is accepted is in lowest terms, within bounds, and has the same value. */
  lemma {:induction false} FractionValue(n: int, d: int)
    requires 0 <= n && 0 < d && Fraction(n, d).Some?
    ensures var r := Fraction(n, d).value;
            Reduced(r) && Fits(r) && 0 < r.denominator && Value(r) == n as real / d as real
  {
    var r := LowestTerms(n, d);
    FractionIsReduced(n, d, r);
    SameRatio(r.numerator, r.denominator, n, d);
  }

  predicate Valid(r: Rational) {
    Fits(r) && 0 < r.denominator
  }

  lemma {:induction false} ProductValue(n: int, d: int, p: int, q: int)
    requires 0 < d && 0 < q
    ensures 0 < d * q && (n * p) as real / (d * q) as real == (n as real / d as real) * (p as real / q as real)
  {
    ProductsNonNegative(1, 1, d, q);
    CastProduct(n, p);
    CastProduct(d, q);
    ProductOfRatios(n as real, d as real, p as real, q as real);
  }

  lemma {:induction false} MultiplyValue(a: Rational, b: Rational)
    requires Valid(a) && Valid(b) && Multiply(a, b).Some?
    ensures var r := Multiply(a, b).value;
            Valid(r) && Reduced(r) && Value(r) == Value(a) * Value(b)
  {
    var n, d := MultiplyAsFraction(a, b);
    FractionValue(n, d);
  }

  lemma {:induction false} MultiplyAsFraction(a: Rational, b: Rational) returns (n: int, d: int)
    requires Valid(a) && Valid(b)
    ensures 0 <= n && 0 < d && Multiply(a, b) == Fraction(n, d)
    ensures n as real / d as real == Value(a) * Value(b)
  {
    MultiplyIsPlain(a, b);
    n, d := a.numerator * b.numerator, a.denominator * b.denominator;
    ProductValue(a.numerator, a.denominator, b.numerator, b.denominator);
  }

  lemma {:induction false} ProductOfRatios(n: real, d: real, p: real, q: real)
    requires 0.0 < d && 0.0 < q
    ensures 0.0 < d * q && (n * p) / (d * q) == (n / d) * (p / q)
  {
    var x, y := n / d, p / q;
    assert x * d == n && y * q == p;
    assert (x * y) * (d * q) == (x * d) * (y * q) == n * p;
    QuotientUnique(x * y, n * p, d * q);
  }

  lemma {:induction false} SumValue(n: int, d: int, p: int, q: int)
    requires 0 < d && 0 < q
    ensures 0 < d * q && (n * q + p * d) as real / (d * q) as real == n as real / d as real + p as real / q as real
  {
    ProductsNonNegative(1, 1, d, q);
    CastProduct(n, q);
    CastProduct(p, d);
    CastProduct(d, q);
    SumOfRatios(n as real, d as real, p as real, q as real);
  }

  lemma {:induction false} AddValue(a: Rational, b: Rational)
    requires Valid(a) && Valid(b) && Add(a, b).Some?
    ensures var r := Add(a, b).value;
            Valid(r) && Reduced(r) && Value(r) == Value(a) + Value(b)
  {
    AddIsPlain(a, b);
    FractionValue(a.numerator * b.denominator + b.numerator * a.denominator, a.denominator * b.denominator);
    SumValue(a.numerator, a.denominator, b.numerator, b.denominator);
  }

  lemma {:induction false} SumOfRatios(n: real, d: real, p: real, q: real)
    requires 0.0 < d && 0.0 < q
    ensures 0.0 < d * q && (n * q + p * d) / (d * q) == n / d + p / q
  {
    var x, y := n / d, p / q;
    assert x * d == n && y * q == p;
    assert (x + y) * (d * q) == x * (d * q) + y * (d * q);
    assert x * (d * q) == (x * d) * q;
    assert y * (d * q) == (y * q) * d;
    QuotientUnique(x + y, n * q + p * d, d * q);
  }

  // ----- what can be represented -----

  /** x is a fraction whose lowest terms fit the bounds. */
  ghost predicate Representable(x: real) {
    exists r :: Reduced(r) && Fits(r) && Value(r) == x
  }

  lemma {:induction false} SameValue(n: int, d: int, p: int, q: int)
    requires 0 < d && 0 < q && n as real / d as real == p as real / q as real
    ensures n * q == p * d
  {
    CastProduct(n, q);
    CastProduct(p, d);
    var x := n as real / d as real;
    QuotientTimes(n as real, d as real);
    QuotientTimes(p as real, q as real);
    assert n as real * q as real == (d as real * x) * q as real == p as real * d as real;
  }

  lemma {:induction false} FractionExactly(n: int, d: int)
    requires 0 <= n && 0 < d
    ensures Fraction(n, d).Some? <==> Representable(n as real / d as real)
  {
    if Fraction(n, d).Some? { FractionValue(n, d); }
    if Representable(n as real / d as real) {
      var r :| Reduced(r) && Fits(r) && Value(r) == n as real / d as real;
      SameValue(r.numerator, r.denominator, n, d);
      FractionIsReduced(n, d, r);
    }
  }

  /** Multiplication fails exactly when the true product cannot be represented. */
  lemma {:induction false} MultiplyExactly(a: Rational, b: Rational)
    requires Valid(a) && Valid(b)
    ensures Multiply(a, b).Some? <==> Representable(Value(a) * Value(b))
  {
    var n, d := MultiplyAsFraction(a, b);
    FractionExactly(n, d);
  }

  /** And so does addition. */
  lemma {:induction false} AddExactly(a: Rational, b: Rational)
    requires Valid(a) && Valid(b)
    ensures Add(a, b).Some? <==> Representable(Value(a) + Value(b))
  {
    AddIsPlain(a, b);
    FractionExactly(a.numerator * b.denominator + b.numerator * a.denominator, a.denominator * b.denominator);
    SumValue(a.numerator, a.denominator, b.numerator, b.denominator);
  }

  /** r is the outcome of an operation whose true result is z. */
  ghost predicate OutcomeOf(r: Option<Rational>, z: real) {
    && (r.Some? <==> Representable(z))
    && (r.Some? ==> Valid(r.value) && Reduced(r.value) && Value(r.value) == z)
  }

  lemma {:induction false} MultiplyOutcome(a: Rational, b: Rational, z: real)
    requires Valid(a) && Valid(b) && z == Value(a) * Value(b)
    ensures OutcomeOf(Multiply(a, b), z)
  {
    MultiplyExactly(a, b);
    if Multiply(a, b).Some? { MultiplyValue(a, b); }
  }

  lemma {:induction false} AddOutcome(a: Rational, b: Rational, z: real)
    requires Valid(a) && Valid(b) && z == Value(a) + Value(b)
    ensures OutcomeOf(Add(a, b), z)
  {
    AddExactly(a, b);
    if Add(a, b).Some? { AddValue(a, b); }
  }

  // ----- the width of the intermediate results -----

  lemma {:induction false} ProductBound(x: int, y: int)
    requires 0 <= x <= NUMERIC_MAX && 0 <= y <= NUMERIC_MAX
    ensures 0 <= x * y < TEN_78 * TEN_78
  {
    assert x * y <= NUMERIC_MAX * y <= NUMERIC_MAX * NUMERIC_MAX;
  }

  lemma {:induction false} QuotientBound(g: int, x: int)
    requires 0 < g && 0 <= x
    ensures 0 <= x / g <= x
  {
    EuclideanStep(x, g);
    MulSign(g, x / g);
    assert (g - 1) * (x / g) == g * (x / g) - x / g;
    if 0 <= x / g && 0 < g - 1 { ProductsNonNegative(g - 1, x / g, 1, 1); }
  }

  /** Before reduction a product of two bounded rationals has at most 156 digits in each part,
      and the numerator of a sum at most 157. */
  lemma {:induction false} IntermediateBounds(a: Rational, b: Rational)
    requires Valid(a) && Valid(b)
    ensures var (left, right) := (Gcd(a.numerator, b.denominator), Gcd(b.numerator, a.denominator));
            && 0 < left && 0 < right
            && (a.numerator / left) * (b.numerator / right) < TEN_78 * TEN_78
            && (a.denominator / right) * (b.denominator / left) < TEN_78 * TEN_78
    ensures var g := Gcd(a.denominator, b.denominator);
            && 0 < g
            && a.numerator * (b.denominator / g) + b.numerator * (a.denominator / g) < 2 * (TEN_78 * TEN_78)
            && (a.denominator / g) * b.denominator < TEN_78 * TEN_78
  {
    var (left, right) := (Gcd(a.numerator, b.denominator), Gcd(b.numerator, a.denominator));
    var g := Gcd(a.denominator, b.denominator);
    QuotientsCoprime(a.numerator, b.denominator);
    QuotientsCoprime(b.numerator, a.denominator);
    QuotientsCoprime(a.denominator, b.denominator);
    QuotientBound(left, a.numerator);
    QuotientBound(left, b.denominator);
    QuotientBound(right, b.numerator);
    QuotientBound(right, a.denominator);
    QuotientBound(g, a.denominator);
    QuotientBound(g, b.denominator);
    ProductBound(a.numerator / left, b.numerator / right);
    ProductBound(a.denominator / right, b.denominator / left);
    ProductBound(a.numerator, b.denominator / g);
    ProductBound(b.numerator, a.denominator / g);
    ProductBound(a.denominator / g, b.denominator);
  }

  // ----- rounding up -----

  function Ceiling(r: Rational): int
    requires 0 < r.denominator
  {
    r.numerator / r.denominator + if r.numerator % r.denominator == 0 then 0 else 1
  }

  /** The least integer that is not below the value. */
  lemma {:induction false} CeilingIsLeast(r: Rational)
    requires 0 <= r.numerator && 0 < r.denominator
    ensures (Ceiling(r) - 1) as real < Value(r) <= Ceiling(r) as real
  {
    var (n, d, c) := (r.numerator, r.denominator, Ceiling(r));
    EuclideanStep(n, d);
    assert d * (c - 1) == d * c - d;
    assert d * c == d * (n / d) + (if n % d == 0 then 0 else d);
    CastProduct(d, c);
    CastProduct(d, c - 1);
    QuotientTimes(n as real, d as real);
    Between((c - 1) as real, Value(r), c as real, d as real);
  }

  lemma {:induction false} QuotientTimes(n: real, d: real)
    requires d != 0.0
    ensures d * (n / d) == n
  {
  }

  lemma {:induction false} RealSign(d: real, e: real)
    requires 0.0 < d
    ensures 0.0 < d * e ==> 0.0 < e
    ensures 0.0 <= d * e ==> 0.0 <= e
  {
  }

  lemma {:induction false} Between(low: real, x: real, high: real, d: real)
    requires 0.0 < d && d * low < d * x <= d * high
    ensures low < x <= high
  {
    assert d * (x - low) == d * x - d * low && d * (high - x) == d * high - d * x;
    RealSign(d, x - low);
    RealSign(d, high - x);
  }
}
