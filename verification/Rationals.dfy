/** Rational numbers in lowest terms, and real powers with integer exponents. */
module Rationals {
  import opened IntegerRoots
  import opened Divisibility

  datatype Rat = Rat(num: int, den: nat)

  function Abs(n: int): nat {
    if n < 0 then -n else n
  }

  ghost predicate Normal(r: Rat) {
    r.den > 0 && Coprime(r.den, Abs(r.num))
  }

  /** num / den in lowest terms. */
  function Lowest(num: int, den: nat): (r: Rat)
    requires den > 0
    ensures r.den > 0
  {
    var g := Gcd(den, Abs(num));
    LowestExact(num, den);
    Rat(num / g, den / g)
  }

  lemma LowestExact(num: int, den: nat)
    requires den > 0
    ensures var g := Gcd(den, Abs(num));
            && g > 0 && Divides(g, num) && (num / g) * g == num && (den / g) * g == den && den / g > 0
  {
    var g := Gcd(den, Abs(num));
    GcdDivides(den, Abs(num));
    Quotient(g, den);
    if num < 0 { DividesTimes(g, -num, -1); }
    Quotient(g, num);
  }

  lemma LowestCoprime(num: int, den: nat)
    requires den > 0
    ensures Normal(Lowest(num, den))
  {
    LowestExact(num, den);
    var g, r := Gcd(den, Abs(num)), Lowest(num, den);
    var h := Gcd(r.den, Abs(r.num));
    GcdDivides(r.den, Abs(r.num));
    AbsTimes(r.num, g);
    TimesDivides(h, r.den, g);
    TimesDivides(h, Abs(r.num), g);
    CommonDivisor(den, Abs(num), h * g);
    DivisorBound(h * g, g);
    if h > 1 { MulMono(2, h, g); }
  }

  lemma AbsTimes(n: int, g: nat)
    ensures Abs(n) * g == Abs(n * g)
  {
    if n < 0 { MulMono(1, -n, g); assert n * g == -((-n) * g); } else { MulMono(0, n, g); }
  }

  lemma TimesDivides(h: nat, a: nat, g: nat)
    requires Divides(h, a) && g > 0
    ensures Divides(h * g, a * g)
  {
    Quotient(h, a);
    MulMono(1, h, g);
    assert a * g == (a / h) * (h * g);
    Multiple(h * g, a / h);
  }

  function Add(a: Rat, b: Rat): (r: Rat)
    requires a.den > 0 && b.den > 0
    ensures r.den > 0
  {
    MulMono(1, a.den, b.den);
    Lowest(a.num * b.den + b.num * a.den, a.den * b.den)
  }

  function Times(k: int, a: Rat): (r: Rat)
    requires a.den > 0
    ensures r.den > 0
  {
    Lowest(k * a.num, a.den)
  }

  // ---- Scaled by a common multiple of the denominators ----

  predicate Clears(d: nat, r: Rat) {
    r.den > 0 && Divides(r.den, d)
  }

  /** The integer d * r. */
  function Scaled(d: nat, r: Rat): int
    requires Clears(d, r)
  {
    r.num * (d / r.den)
  }

  lemma ScaledIs(d: nat, r: Rat)
    requires Clears(d, r)
    ensures Scaled(d, r) * r.den == d * r.num
  {
    Quotient(r.den, d);
    assert r.num * (d / r.den) * r.den == r.num * ((d / r.den) * r.den);
  }

  lemma DividesAbs(q: nat, d: nat, n: int)
    requires Divides(q, d * n)
    ensures Divides(q, Abs(n) * d)
  {
    if n < 0 {
      DividesTimes(q, d * n, -1);
      assert d * n * -1 == Abs(n) * d;
    } else {
      assert d * n == Abs(n) * d;
    }
  }

  lemma CancelRight(a: int, b: int, c: nat)
    requires c > 0 && a * c == b * c
    ensures a == b
  {
    assert (a - b) * c == 0 && (b - a) * c == 0;
    if a > b { MulMono(1, a - b, c); }
    if b > a { MulMono(1, b - a, c); }
  }

  /** If s is d * num / den, it is also the scaled lowest form, which d clears. */
  lemma ScaledLowest(d: nat, num: int, den: nat, s: int)
    requires den > 0 && s * den == d * num
    ensures Clears(d, Lowest(num, den)) && Scaled(d, Lowest(num, den)) == s
  {
    LowestExact(num, den);
    LowestCoprime(num, den);
    var g, r := Gcd(den, Abs(num)), Lowest(num, den);
    Regrouped(s, r.den, g, d, r.num, den, num);
    CancelRight(s * r.den, d * r.num, g);
    Multiple(r.den, s);
    DividesAbs(r.den, d, r.num);
    CoprimeDivides(r.den, Abs(r.num), d);
    ScaledIs(d, r);
    CancelRight(Scaled(d, r), s, r.den);
  }

  lemma Regrouped(s: int, rden: int, g: int, d: int, rnum: int, den: int, num: int)
    requires rden * g == den && rnum * g == num && s * den == d * num
    ensures (s * rden) * g == (d * rnum) * g
  {
    assert (s * rden) * g == s * (rden * g);
    assert (d * rnum) * g == d * (rnum * g);
  }

  lemma ScaledAdd(d: nat, a: Rat, b: Rat)
    requires Clears(d, a) && Clears(d, b)
    ensures Clears(d, Add(a, b)) && Scaled(d, Add(a, b)) == Scaled(d, a) + Scaled(d, b)
  {
    ScaledIs(d, a);
    ScaledIs(d, b);
    MulMono(1, a.den, b.den);
    var x, y := Scaled(d, a), Scaled(d, b);
    assert (x + y) * (a.den * b.den) == d * (a.num * b.den + b.num * a.den) by {
      assert x * (a.den * b.den) == (x * a.den) * b.den == d * a.num * b.den;
      assert y * (a.den * b.den) == (y * b.den) * a.den == d * b.num * a.den;
    }
    ScaledLowest(d, a.num * b.den + b.num * a.den, a.den * b.den, x + y);
  }

  lemma ScaledTimes(d: nat, k: int, a: Rat)
    requires Clears(d, a)
    ensures Clears(d, Times(k, a)) && Scaled(d, Times(k, a)) == k * Scaled(d, a)
  {
    ScaledIs(d, a);
    assert (k * Scaled(d, a)) * a.den == d * (k * a.num) by {
      assert (k * Scaled(d, a)) * a.den == k * (Scaled(d, a) * a.den);
    }
    ScaledLowest(d, k * a.num, a.den, k * Scaled(d, a));
  }

  // ---- Real powers ----

  function Mul(a: real, b: real): (r: real)
    ensures a > 0.0 && b > 0.0 ==> r > 0.0
  {
    a * b
  }

  lemma MulSwap(a: real, b: real, c: real)
    ensures Mul(b, Mul(a, c)) == Mul(a, Mul(b, c)) && Mul(a, b) == Mul(b, a)
  {
    assert b * (a * c) == a * (b * c);
  }

  lemma MulAssoc(a: real, b: real, c: real)
    ensures Mul(Mul(a, b), c) == Mul(a, Mul(b, c))
  {
    assert (a * b) * c == a * (b * c);
  }

  lemma MulPair(a: real, x: real, b: real, y: real)
    ensures Mul(Mul(a, x), Mul(b, y)) == Mul(Mul(a, b), Mul(x, y))
  {
    hide Mul;
    MulAssoc(a, x, Mul(b, y));
    MulSwap(b, x, y);
    MulAssoc(a, b, Mul(x, y));
  }

  lemma MulCancel(b: real, x: real, y: real)
    requires b > 0.0 && Mul(b, x) == Mul(b, y)
    ensures x == y
  {
    assert b * (x - y) == 0.0;
  }

  lemma MulOne(a: real)
    ensures Mul(a, 1.0) == a == Mul(1.0, a)
  {
  }

  function NatPower(b: real, n: nat): (r: real)
    requires b > 0.0
    ensures r > 0.0
  {
    if n == 0 then 1.0 else Mul(b, NatPower(b, n - 1))
  }

  /** b to an integer power. */
  function Power(b: real, n: int): (r: real)
    requires b > 0.0
    ensures r > 0.0
  {
    if n >= 0 then NatPower(b, n) else 1.0 / NatPower(b, -n)
  }

  lemma PowerStep(b: real, n: int)
    requires b > 0.0
    ensures Power(b, n + 1) == Mul(b, Power(b, n))
  {
    if n < 0 {
      var x := NatPower(b, -n - 1);
      assert NatPower(b, -n) == Mul(b, x);
      Reciprocal(b, x);
    }
  }

  lemma Reciprocal(b: real, x: real)
    requires b > 0.0 && x > 0.0
    ensures 1.0 / x == Mul(b, 1.0 / Mul(b, x))
  {
    var y := 1.0 / (b * x);
    assert y * (b * x) == 1.0;
    assert (b * y) * x == 1.0;
  }

  lemma PowerZero(b: real)
    requires b > 0.0
    ensures Power(b, 0) == 1.0
  {
  }

  lemma {:induction false} PowerSum(b: real, m: int, n: int)
    requires b > 0.0
    ensures Power(b, m + n) == Mul(Power(b, m), Power(b, n))
    decreases Abs(n)
  {
    hide Power, Mul;
    if n > 0 {
      PowerSum(b, m, n - 1);
      PowerStep(b, m + n - 1);
      PowerStep(b, n - 1);
      MulSwap(b, Power(b, m), Power(b, n - 1));
    } else if n < 0 {
      PowerSum(b, m, n + 1);
      PowerStep(b, m + n);
      PowerStep(b, n);
      MulSwap(b, Power(b, m), Power(b, n));
      MulCancel(b, Power(b, m + n), Mul(Power(b, m), Power(b, n)));
    } else {
      PowerZero(b);
      MulOne(Power(b, m));
    }
  }

  lemma {:induction false} PowerOfProduct(b: real, c: real, n: int)
    requires b > 0.0 && c > 0.0
    ensures Power(Mul(b, c), n) == Mul(Power(b, n), Power(c, n))
    decreases Abs(n)
  {
    hide Power, Mul;
    var bc := Mul(b, c);
    if n > 0 {
      PowerOfProduct(b, c, n - 1);
      PowerStep(b, n - 1);
      PowerStep(c, n - 1);
      PowerStep(bc, n - 1);
      MulPair(b, Power(b, n - 1), c, Power(c, n - 1));
    } else if n < 0 {
      PowerOfProduct(b, c, n + 1);
      PowerStep(b, n);
      PowerStep(c, n);
      PowerStep(bc, n);
      MulPair(b, Power(b, n), c, Power(c, n));
      MulCancel(bc, Power(bc, n), Mul(Power(b, n), Power(c, n)));
    } else {
      PowerZero(b);
      PowerZero(c);
      PowerZero(bc);
      MulOne(1.0);
    }
  }

  lemma {:induction false} PowerOne(n: int)
    ensures Power(1.0, n) == 1.0
    decreases Abs(n)
  {
    hide Power, Mul;
    PowerZero(1.0);
    if n > 0 {
      PowerOne(n - 1);
      PowerStep(1.0, n - 1);
      MulOne(1.0);
    } else if n < 0 {
      PowerOne(n + 1);
      PowerStep(1.0, n);
      MulOne(Power(1.0, n));
    }
  }

  lemma RealOfProduct(a: nat, b: nat)
    ensures (a * b) as real == Mul(a as real, b as real)
  {
  }

  /** A power of an integer power. */
  lemma {:induction false} PowerOfPow(b: nat, k: nat, n: int)
    requires b > 0
    ensures Power(Pow(b, k) as real, n) == Power(b as real, k * n)
  {
    hide Power, Mul;
    if k == 0 {
      PowerOne(n);
      PowerZero(b as real);
      assert 0 * n == 0;
    } else {
      PowerOfPow(b, k - 1, n);
      RealOfProduct(b, Pow(b, k - 1));
      PowerOfProduct(b as real, Pow(b, k - 1) as real, n);
      assert k * n == n + (k - 1) * n;
      PowerSum(b as real, n, (k - 1) * n);
    }
  }
}
