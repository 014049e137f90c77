/** Integer and fractional parts of exponents, the rational part of a radical form, and the widths of its parts. */
module RadicalParts {
  import opened IntegerRoots
  import opened Divisibility
  import opened CoprimeBases
  import opened Rationals
  import opened RadicalTerms

  // ---- Integer and fractional parts of exponents ----

  /** Division that rounds towards zero. */
  function Truncated(a: int, b: nat): int
    requires b > 0
  {
    if a >= 0 then a / b else -((-a) / b)
  }

  /** The integer part as the code computes it: the truncated quotient, corrected if it exceeds the number. */
  function IntegerPart(e: Rat): (n: int)
    requires e.den > 0
    ensures n * e.den <= e.num < (n + 1) * e.den
  {
    var t := Truncated(e.num, e.den);
    FloorFacts(e.num, e.den, t);
    if e.num < t * e.den then t - 1 else t
  }

  lemma FloorFacts(a: int, b: nat, t: int)
    requires b > 0 && t == Truncated(a, b)
    ensures if a < t * b then (t - 1) * b <= a < t * b else t * b <= a < (t + 1) * b
  {
    if a >= 0 {
      DivBounds(a, b);
    } else {
      var q := (-a) / b;
      DivBounds(-a, b);
      assert t * b == -(q * b) && (t - 1) * b == -((q + 1) * b);
      assert (t + 1) * b == t * b + b;
    }
  }

  function FractionalPart(e: Rat): (f: Rat)
    requires e.den > 0
    ensures f.den > 0
  {
    Add(e, Rat(-IntegerPart(e), 1))
  }

  lemma FractionFacts(d: nat, e: Rat)
    requires Clears(d, e) && d > 0
    ensures var f := FractionalPart(e);
            && 0 <= f.num < f.den && Clears(d, f)
            && Scaled(d, f) == Scaled(d, e) - IntegerPart(e) * d
  {
    var n := IntegerPart(e);
    FractionIs(e, n);
    IntegerScaled(d, n);
    ScaledAdd(d, e, Rat(-n, 1));
  }

  lemma IntegerScaled(d: nat, n: int)
    requires d > 0
    ensures Clears(d, Rat(-n, 1)) && Scaled(d, Rat(-n, 1)) == -(n * d)
  {
    Multiple(1, d);
    assert d / 1 == d;
  }

  lemma FractionIs(e: Rat, n: int)
    requires e.den > 0 && n * e.den <= e.num < (n + 1) * e.den
    ensures 0 <= Add(e, Rat(-n, 1)).num < Add(e, Rat(-n, 1)).den
  {
    var m := e.num * 1 + -n * e.den;
    assert -n * e.den == -(n * e.den) && (n + 1) * e.den == n * e.den + e.den;
    LowestBelow(m, e.den);
    assert e.den * 1 == e.den;
  }

  lemma LowestBelow(m: nat, den: nat)
    requires m < den
    ensures 0 <= Lowest(m, den).num < Lowest(m, den).den && Lowest(m, den).num <= m && Lowest(m, den).den <= den
  {
    LowestExact(m, den);
    var g, r := Gcd(den, Abs(m)), Lowest(m, den);
    MulOrder(r.num, r.den, g);
    MulOrder(r.num, 0, g);
    MulMono(1, g, r.den);
    MulMono(1, g, Abs(r.num));
  }

  lemma MulOrder(a: int, b: int, g: nat)
    requires g > 0
    ensures a < b <==> a * g < b * g
  {
    assert (b - a) * g == b * g - a * g && (a - b) * g == a * g - b * g;
    if a < b { MulMono(1, b - a, g); } else { MulMono(0, a - b, g); }
  }

  // ---- The rational part ----

  ghost function RealOf(r: Rat): real
    requires r.den > 0
  {
    r.num as real / r.den as real
  }

  ghost predicate PositiveRat(r: Rat) {
    r.num > 0 && r.den > 0
  }

  lemma RealOfLowest(num: nat, den: nat)
    requires num > 0 && den > 0
    ensures PositiveRat(Lowest(num, den)) && RealOf(Lowest(num, den)) == num as real / den as real
    ensures Lowest(num, den).num <= num && Lowest(num, den).den <= den
  {
    LowestExact(num, den);
    var g, r := Gcd(den, Abs(num)), Lowest(num, den);
    MulOrder(0, r.num, g);
    MulMono(1, g, r.num);
    MulMono(1, g, r.den);
    SameRatio(r.num, r.den, g, num, den);
  }

  lemma SameRatio(a: nat, b: nat, g: nat, num: nat, den: nat)
    requires b > 0 && g > 0 && a * g == num && b * g == den && den > 0
    ensures a as real / b as real == num as real / den as real
  {
    RealOfProduct(a, g);
    RealOfProduct(b, g);
    var x := a as real / b as real;
    assert x * b as real == a as real;
    assert x * (b as real * g as real) == (x * b as real) * g as real;
  }

  /** rational_part *= p for p > 0. */
  function TimesInt(r: Rat, p: nat): (q: Rat)
    requires PositiveRat(r) && p > 0
    ensures q.den > 0
  {
    Lowest(r.num * p, r.den)
  }

  /** rational_part /= p. */
  function OverInt(r: Rat, p: nat): (q: Rat)
    requires PositiveRat(r) && p > 0
    ensures q.den > 0
  {
    MulMono(1, r.den, p);
    Lowest(r.num, r.den * p)
  }

  lemma TimesIntReal(r: Rat, p: nat)
    requires PositiveRat(r) && p > 0
    ensures PositiveRat(TimesInt(r, p)) && RealOf(TimesInt(r, p)) == Mul(RealOf(r), p as real)
    ensures TimesInt(r, p).num <= r.num * p && TimesInt(r, p).den <= r.den
  {
    hide Lowest;
    MulMono(1, r.num, p);
    RealOfLowest(r.num * p, r.den);
    RealOfProduct(r.num, p);
    ScaledQuotient(r.num as real, r.den as real, p as real);
  }

  lemma ScaledQuotient(a: real, b: real, c: real)
    requires b != 0.0
    ensures Mul(a, c) / b == Mul(a / b, c)
  {
    var q := a / b;
    assert q * b == a;
    assert (q * c) * b == a * c;
  }

  lemma OverIntReal(r: Rat, p: nat)
    requires PositiveRat(r) && p > 0
    ensures PositiveRat(OverInt(r, p)) && Mul(RealOf(OverInt(r, p)), p as real) == RealOf(r)
    ensures OverInt(r, p).num <= r.num && OverInt(r, p).den <= r.den * p
  {
    MulMono(1, r.den, p);
    RealOfLowest(r.num, r.den * p);
    RealOfProduct(r.den, p);
    var x := r.num as real / (r.den as real * p as real);
    assert x * (r.den as real * p as real) == r.num as real;
    assert (x * p as real) * r.den as real == r.num as real;
  }

  lemma RealOfPositive(r: Rat)
    requires PositiveRat(r)
    ensures RealOf(r) > 0.0
  {
  }

  /** b to its integer part goes into the rational part. */
  function Absorb(r: Rat, b: nat, n: int): (q: Rat)
    requires PositiveRat(r) && b > 0
    ensures q.den > 0
  {
    if n > 0 then TimesInt(r, Pow(b, n)) else if n < 0 then OverInt(r, Pow(b, -n)) else r
  }

  lemma AbsorbValue(d: nat, r: Rat, b: nat, n: int)
    requires PositiveRat(r) && b > 0
    ensures PositiveRat(Absorb(r, b, n)) && RealOf(r) > 0.0 && RealOf(Absorb(r, b, n)) > 0.0
    ensures Power(RealOf(Absorb(r, b, n)), d) == Mul(Power(RealOf(r), d), Power(b as real, n * d))
  {
    hide Mul, Power, RealOf, TimesInt, OverInt, Pow;
    RealOfPositive(r);
    if n > 0 {
      TimesIntReal(r, Pow(b, n));
      RealOfPositive(TimesInt(r, Pow(b, n)));
      PowerOfProduct(RealOf(r), Pow(b, n) as real, d);
      PowerOfPow(b, n, d);
    } else if n < 0 {
      var q := OverInt(r, Pow(b, -n));
      OverIntReal(r, Pow(b, -n));
      RealOfPositive(q);
      PowerOfProduct(RealOf(q), Pow(b, -n) as real, d);
      PowerOfPow(b, -n, d);
      PowerSum(b as real, -n * d, n * d);
      Opposite(n, d);
      PowerZero(b as real);
      MulAssoc(Power(RealOf(q), d), Power(b as real, -n * d), Power(b as real, n * d));
      MulOne(Power(RealOf(q), d));
    } else {
      assert n * d == 0;
      PowerZero(b as real);
      MulOne(Power(RealOf(r), d));
    }
  }

  lemma Opposite(n: int, d: int)
    ensures -n * d + n * d == 0
  {
  }

  // ---- Bits ----

  /** Index of the highest set bit. */
  function Msb(n: nat): nat {
    if n < 2 then 0 else 1 + Msb(n / 2)
  }

  lemma {:induction false} MsbBounds(n: nat)
    requires n > 0
    ensures Pow(2, Msb(n)) <= n < Pow(2, Msb(n) + 1)
  {
    if n >= 2 {
      MsbBounds(n / 2);
    } else {
      assert Pow(2, 0) == 1 && Pow(2, 1) == 2;
    }
  }

  ghost predicate WithinBits(n: nat, bits: nat) {
    n == 1 || n < Pow(2, bits)
  }

  lemma {:induction false} PowSum(b: nat, m: nat, n: nat)
    ensures Pow(b, m + n) == Pow(b, m) * Pow(b, n)
    decreases n
  {
    if n > 0 {
      PowSum(b, m, n - 1);
      PowStep(b, m + n - 1);
      PowStep(b, n - 1);
      Regroup(Pow(b, m), b, Pow(b, n - 1));
      assert Pow(b, m) * (b * Pow(b, n - 1)) == b * (Pow(b, m) * Pow(b, n - 1));
    } else {
      assert Pow(b, 0) == 1;
    }
  }

  lemma {:induction false} PowOfPow(b: nat, k: nat, n: nat)
    ensures Pow(Pow(b, k), n) == Pow(b, k * n)
    decreases n
  {
    if n > 0 {
      PowOfPow(b, k, n - 1);
      assert k * n == k + k * (n - 1);
      PowSum(b, k, k * (n - 1));
    } else {
      assert k * 0 == 0;
    }
  }

  /** The code's upper bound on the width of b^n. */
  function Bits(b: nat, n: nat): nat {
    n * (Msb(b) + 1)
  }

  lemma PowWithinBits(b: nat, n: nat)
    requires b > 0 && n > 0
    ensures Pow(b, n) < Pow(2, Bits(b, n))
  {
    MsbBounds(b);
    PowGrows(b, Pow(2, Msb(b) + 1), n);
    PowOfPow(2, Msb(b) + 1, n);
    assert (Msb(b) + 1) * n == Bits(b, n);
  }

  lemma ProductWithinBits(a: nat, x: nat, p: nat, y: nat)
    requires a > 0 && WithinBits(a, x) && p < Pow(2, y)
    ensures WithinBits(a * p, x + y)
  {
    PowSum(2, x, y);
    OneIsBelow(1, x);
    PowMono(1, 2, x);
    if a == 1 {
      MulMono(1, Pow(2, x), Pow(2, y));
    } else {
      MulMono(a, Pow(2, x), p);
      MulMono(p + 1, Pow(2, y), Pow(2, x));
      assert Pow(2, x) * p < Pow(2, x) * (p + 1) by { assert Pow(2, x) * (p + 1) == Pow(2, x) * p + Pow(2, x); }
      assert Pow(2, x) * (p + 1) <= Pow(2, x) * Pow(2, y);
    }
  }

  lemma WithinFewer(a: nat, b: nat, x: nat, y: nat)
    requires 0 < a <= b && WithinBits(b, x) && x <= y
    ensures WithinBits(a, y)
  {
    PowSum(2, x, y - x);
    OneIsBelow(1, y - x);
    PowMono(1, 2, y - x);
    MulMono(1, Pow(2, y - x), Pow(2, x));
  }

  function Lcm(a: nat, b: nat): nat
    requires a > 0 && b > 0
  {
    a / Gcd(a, b) * b
  }

  lemma LcmFacts(a: nat, b: nat, d: nat)
    requires a > 0 && b > 0 && Divides(a, d) && Divides(b, d) && d > 0
    ensures Lcm(a, b) > 0 && Divides(a, Lcm(a, b)) && Divides(b, Lcm(a, b)) && Divides(Lcm(a, b), d)
  {
    var g := Gcd(a, b);
    GcdDivides(a, b);
    Quotient(g, a);
    Quotient(g, b);
    var x, y := a / g, b / g;
    LowestCoprimeParts(a, b);
    MulMono(1, x, b);
    Multiple(b, x);
    CrossProducts(x, y, g, a, b);
    Multiple(a, y);
    Quotient(a, d);
    var q := d / a;
    SharedFactor(x, g, a, q, d);
    DividesCancel(y, x * q, g, d);
    CoprimeSymmetric(x, y);
    CoprimeDivides(y, x, q);
    Quotient(y, q);
    SharedFactor(q / y, y, q, a, d);
    assert d == (q / y) * (y * a) by { MulAssocInt(q / y, y, a); }
    Multiple(y * a, q / y);
  }

  lemma MulAssocInt(a: int, b: int, c: int)
    ensures a * (b * c) == (a * b) * c
  {
  }

  lemma CrossProducts(x: nat, y: nat, g: nat, a: nat, b: nat)
    requires x * g == a && y * g == b
    ensures x * b == y * a
  {
    MulAssocInt(x, y, g);
    MulAssocInt(y, x, g);
    assert x * y == y * x;
  }

  /** d = a q with a = x g is (x q) g. */
  lemma SharedFactor(x: nat, g: nat, a: nat, q: nat, d: nat)
    requires x * g == a && q * a == d
    ensures d == (x * q) * g
  {
    assert q * (x * g) == (x * q) * g;
  }

  lemma LowestCoprimeParts(a: nat, b: nat)
    requires a > 0 && b > 0
    ensures Gcd(a, b) > 0 && a / Gcd(a, b) > 0 && b / Gcd(a, b) > 0 && Coprime(a / Gcd(a, b), b / Gcd(a, b))
  {
    LowestCoprime(b, a);
    LowestExact(b, a);
    GcdDivides(a, b);
    QuotientPositive(b, Gcd(a, b));
  }

  lemma DividesCancel(y: nat, n: nat, g: nat, d: nat)
    requires y > 0 && g > 0 && d == n * g && Divides(y * g, d) && y * g > 0
    ensures Divides(y, n)
  {
    Quotient(y * g, d);
    var k := d / (y * g);
    assert (k * y) * g == n * g by { assert k * (y * g) == (k * y) * g; }
    CancelRight(k * y, n, g);
    Multiple(y, k);
  }
}
