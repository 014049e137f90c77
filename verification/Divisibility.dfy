/** Divisors, greatest common divisors and coprime numbers. */
module Divisibility {
  import opened IntegerRoots

  predicate Divides(d: nat, n: int) {
    d > 0 && n % d == 0
  }

  lemma Multiple(d: nat, q: int)
    requires d > 0
    ensures (q * d) % d == 0 && (q * d) / d == q
  {
    var r, m := (q * d) / d, (q * d) % d;
    assert r * d + m == q * d && 0 <= m < d;
    assert (q - r) * d == m && (r - q) * d == -m;
    if q > r { MulMono(1, q - r, d); }
    if q < r { MulMono(1, r - q, d); }
  }

  lemma Quotient(d: nat, n: int)
    requires Divides(d, n)
    ensures (n / d) * d == n
  {
  }

  lemma DividesTimes(d: nat, n: int, m: int)
    requires Divides(d, n)
    ensures Divides(d, n * m) && Divides(d, m * n)
  {
    Quotient(d, n);
    assert n * m == (n / d * m) * d && m * n == n * m;
    Multiple(d, n / d * m);
  }

  lemma DividesSum(d: nat, n: int, m: int)
    requires Divides(d, n) && Divides(d, m)
    ensures Divides(d, n + m) && Divides(d, n - m)
  {
    Quotient(d, n);
    Quotient(d, m);
    assert n + m == (n / d + m / d) * d && n - m == (n / d - m / d) * d;
    Multiple(d, n / d + m / d);
    Multiple(d, n / d - m / d);
  }

  lemma DividesTransitive(a: nat, b: nat, c: int)
    requires Divides(a, b) && Divides(b, c)
    ensures Divides(a, c)
  {
    Quotient(b, c);
    DividesTimes(a, b, c / b);
  }

  lemma DivisorBound(d: nat, n: nat)
    requires Divides(d, n) && n > 0
    ensures d <= n
  {
    Quotient(d, n);
    if n / d >= 1 { MulMono(1, n / d, d); }
  }

  function Gcd(a: nat, b: nat): (g: nat)
    ensures a > 0 || b > 0 ==> g > 0
    decreases b
  {
    if b == 0 then a else Gcd(b, a % b)
  }

  lemma {:induction false} GcdDivides(a: nat, b: nat)
    requires a > 0 || b > 0
    ensures Divides(Gcd(a, b), a) && Divides(Gcd(a, b), b)
    decreases b
  {
    if b > 0 {
      GcdDivides(b, a % b);
      var g := Gcd(b, a % b);
      DividesTimes(g, b, a / b);
      DividesSum(g, a / b * b, a % b);
      assert a == a / b * b + a % b;
    }
  }

  /** The greatest common divisor is an integer combination of the two numbers. */
  lemma {:induction false} Bezout(a: nat, b: nat) returns (x: int, y: int)
    ensures a * x + b * y == Gcd(a, b)
    decreases b
  {
    if b == 0 {
      x, y := 1, 0;
    } else {
      var u, v := Bezout(b, a % b);
      x, y := v, u - a / b * v;
      BezoutStep(a, b, a / b, a % b, u, v);
    }
  }

  lemma BezoutStep(a: int, b: int, q: int, r: int, u: int, v: int)
    requires a == q * b + r
    ensures a * v + b * (u - q * v) == b * u + r * v
  {
    assert a * v == q * b * v + r * v;
    assert b * (u - q * v) == b * u - q * b * v;
  }

  lemma CommonDivisor(a: nat, b: nat, d: nat)
    requires Divides(d, a) && Divides(d, b)
    ensures Divides(d, Gcd(a, b))
  {
    var x, y := Bezout(a, b);
    DividesTimes(d, a, x);
    DividesTimes(d, b, y);
    DividesSum(d, a * x, b * y);
  }

  predicate Coprime(a: nat, b: nat) {
    Gcd(a, b) == 1
  }

  lemma CoprimeSymmetric(a: nat, b: nat)
    requires Coprime(a, b) && a > 0 && b > 0
    ensures Coprime(b, a)
  {
    GcdDivides(b, a);
    CommonDivisor(a, b, Gcd(b, a));
    DivisorBound(Gcd(b, a), 1);
  }

  /** A number without a common divisor above 1 with a is coprime to it. */
  lemma NoCommonDivisor(a: nat, b: nat)
    requires a > 0 && forall d: nat :: d > 1 && Divides(d, a) ==> !Divides(d, b)
    ensures Coprime(a, b)
  {
    GcdDivides(a, b);
  }

  lemma CoprimeFactors(q: nat, a: nat, b: nat)
    requires Coprime(q, a) && Coprime(q, b) && q > 0
    ensures Coprime(q, a * b)
  {
    var x, y := Bezout(q, a);
    var u, v := Bezout(q, b);
    var g := Gcd(q, a * b);
    GcdDivides(q, a * b);
    ProductOfOnes(q, a, b, x, y, u, v);
    DividesTimes(g, q, q * x * u + x * b * v + a * y * u);
    DividesTimes(g, a * b, y * v);
    DividesSum(g, q * (q * x * u + x * b * v + a * y * u), a * b * (y * v));
    DivisorBound(g, 1);
  }

  lemma ProductOfOnes(q: int, a: int, b: int, x: int, y: int, u: int, v: int)
    requires q * x + a * y == 1 && q * u + b * v == 1
    ensures q * (q * x * u + x * b * v + a * y * u) + a * b * (y * v) == 1
  {
    assert (q * x + a * y) * (q * u + b * v) == 1;
    assert (q * x + a * y) * (q * u + b * v) == (q * x) * (q * u) + (q * x) * (b * v) + (a * y) * (q * u) + (a * y) * (b * v);
    assert (q * x) * (q * u) == q * (q * x * u);
    assert (q * x) * (b * v) == q * (x * b * v);
    assert (a * y) * (q * u) == q * (a * y * u);
    assert (a * y) * (b * v) == a * b * (y * v);
  }

  /** A number coprime to one factor of a product that it divides divides the other. */
  lemma CoprimeDivides(q: nat, m: nat, n: nat)
    requires Coprime(q, m) && q > 0 && Divides(q, m * n)
    ensures Divides(q, n)
  {
    hide Divides;
    var x, y := Bezout(q, m);
    BezoutTimes(q, m, n, x, y);
    DividesTimes(q, m * n, y);
    Multiple(q, x * n);
    DividesSum(q, (x * n) * q, (m * n) * y);
  }

  lemma BezoutTimes(q: nat, m: nat, n: nat, x: int, y: int)
    requires q * x + m * y == 1
    ensures (x * n) * q + (m * n) * y == n
  {
    assert (q * x + m * y) * n == n;
    assert (q * x + m * y) * n == (x * n) * q + (m * n) * y;
  }

  lemma {:induction false} CoprimePower(q: nat, a: nat, e: nat)
    requires Coprime(q, a) && q > 0
    ensures Coprime(q, Pow(a, e))
  {
    if e == 0 {
      GcdDivides(q, 1);
      DivisorBound(Gcd(q, 1), 1);
    } else {
      CoprimePower(q, a, e - 1);
      CoprimeFactors(q, a, Pow(a, e - 1));
    }
  }

  /** Divisors of coprime numbers are coprime. */
  lemma CoprimeDivisors(a: nat, b: nat, d: nat, e: nat)
    requires Coprime(a, b) && Divides(d, a) && Divides(e, b)
    ensures Coprime(d, e)
  {
    GcdDivides(d, e);
    var g := Gcd(d, e);
    DividesTransitive(g, d, a);
    DividesTransitive(g, e, b);
    CommonDivisor(a, b, g);
    DivisorBound(g, 1);
  }
}
