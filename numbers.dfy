/** The exact numeric types of Python's standard library that `add_one`
    accepts besides `int`, `bool` and `complex`: `fractions.Fraction` and
    (finite) `decimal.Decimal`, together with what each does when a Python
    `int` is added to it. */
module Numbers {

  /** A positive integer: the only kind of denominator a Fraction has. */
  type Pos = n: int | n > 0 witness 1

  /** `10 ** n` */
  function Pow10(n: nat): Pos
  {
    if n == 0 then 1 else 10 * Pow10(n - 1)
  }

  // ------------------------------------------------------------------
  // Divisibility, as needed to say that a fraction is reduced.

  predicate Divides(m: int, x: int)
    requires m > 0
  {
    x % m == 0
  }

  /** `math.gcd(a, b) == 1`: no integer greater than one divides both. */
  ghost predicate Coprime(a: int, b: int)
  {
    forall m: int :: 1 < m && Divides(m, a) ==> !Divides(m, b)
  }

  /** The remainder of `a * m + r` by `m` is `r` when `0 <= r < m`. */
  lemma ModUnique(y: int, m: int, a: int, r: int)
    requires m > 0 && 0 <= r < m && y == a * m + r
    ensures y % m == r
  {
    var t := a - y / m;
    assert t * m == y % m - r;
    assert t >= 1 ==> t * m >= m;
    assert t <= -1 ==> t * m <= -m;
  }

  /** Adding a multiple of `m` does not change the remainder by `m`. */
  lemma ModShift(x: int, q: int, m: int)
    requires m > 0
    ensures (x + q * m) % m == x % m
  {
    assert x == (x / m) * m + x % m;
    assert x + q * m == (x / m + q) * m + x % m;
    ModUnique(x + q * m, m, x / m + q, x % m);
  }

  /** `a + q*b` and `a` have the same common divisors with `b`. */
  lemma CoprimeShift(a: int, q: int, b: int)
    requires b > 0
    ensures Coprime(a + q * b, b) <==> Coprime(a, b)
  {
    forall m: int | 1 < m && Divides(m, b)
      ensures Divides(m, a + q * b) <==> Divides(m, a)
    {
      assert b == (b / m) * m;
      assert q * b == (q * (b / m)) * m;
      ModShift(a, q * (b / m), m);
    }
  }

  // ------------------------------------------------------------------
  // fractions.Fraction

  /** A `fractions.Fraction`: a numerator over a positive denominator.
      Unreduced pairs such as `Fraction(2, 4)` are in the type but stand
      for no Python value (Python always reduces, see `LowestTerms`), so
      structural equality is Python's `==` only on reduced fractions. */
  datatype Fraction = Fraction(num: int, den: Pos)

  /** Every Fraction Python builds is reduced: gcd(num, den) == 1. */
  ghost predicate LowestTerms(f: Fraction)
  {
    Coprime(f.num, f.den)
  }

  /** The rational number a Fraction stands for. */
  function FractionValue(f: Fraction): real
  {
    f.num as real / f.den as real
  }

  /** `f + k` for a Python int `k`. The int is read as `k/1`; since
      gcd(den, 1) == 1 the sum is built as `(num + k*den) / den` without a
      further reduction. The result stands for the exact sum and keeps the
      denominator. */
  function FractionAddInt(f: Fraction, k: int): (g: Fraction)
    ensures FractionValue(g) == FractionValue(f) + k as real
    ensures g.den == f.den
  {
    var g := Fraction(f.num + k * f.den, f.den);
    assert (k * f.den) as real / f.den as real == k as real;
    g
  }

  /** Skipping the reduction is sound: the sum is in lowest terms exactly
      when the Fraction it started from is. */
  lemma AddIntKeepsLowestTerms(f: Fraction, k: int)
    ensures LowestTerms(FractionAddInt(f, k)) <==> LowestTerms(f)
  {
    CoprimeShift(f.num, k, f.den);
  }

  // ------------------------------------------------------------------
  // decimal.Decimal (finite values)

  /** A finite `decimal.Decimal`: `coefficient * 10 ** exponent`. The sign
      is carried by the coefficient. */
  datatype Decimal = Decimal(coefficient: int, exponent: int)

  /** The rational number a Decimal stands for. */
  function DecimalValue(d: Decimal): real
  {
    if d.exponent >= 0 then (d.coefficient * Pow10(d.exponent)) as real
    else d.coefficient as real / Pow10(-d.exponent) as real
  }

  /** `d + k` for a Python int `k`. The int becomes `Decimal(k)` (exponent
      0) and both operands are brought to the smaller of the two exponents
      before their coefficients are added, so a Decimal with digits after
      the point keeps exactly those digits (`Decimal("1.50") + 1` is
      `Decimal("2.50")`). This is the exact sum, before the decimal
      context would round it or check its exponent range. */
  function DecimalAddInt(d: Decimal, k: int): (r: Decimal)
    ensures DecimalValue(r) == DecimalValue(d) + k as real
    ensures r.exponent == if d.exponent < 0 then d.exponent else 0
  {
    if d.exponent >= 0 then
      Decimal(d.coefficient * Pow10(d.exponent) + k, 0)
    else
      var p := Pow10(-d.exponent);
      assert (k * p) as real / p as real == k as real;
      Decimal(d.coefficient + k * p, d.exponent)
  }
}
