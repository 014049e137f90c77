/** What equal powers, and powers that divide powers, say about their bases. */
module PowerRoots {
  import opened IntegerRoots
  import opened Divisibility
  import opened RadicalParts
  import opened Rationals
  import opened Primes

  lemma DividesBoth(a: nat, b: nat)
    requires a > 0 && b > 0 && Divides(a, b) && Divides(b, a)
    ensures a == b
  {
    DivisorBound(a, b);
    DivisorBound(b, a);
  }

  lemma {:induction false} PowOfProduct(a: nat, b: nat, k: nat)
    ensures Pow(a * b, k) == Pow(a, k) * Pow(b, k)
  {
    if k > 0 {
      PowOfProduct(a, b, k - 1);
      var x, y := Pow(a, k - 1), Pow(b, k - 1);
      assert (a * b) * (x * y) == (a * x) * (b * y) by {
        MulAssocInt(a * b, x, y);
        MulAssocInt(a * x, b, y);
        assert (a * b) * x == (a * x) * b;
      }
    }
  }

  lemma {:induction false} OnePower(k: nat)
    ensures Pow(1, k) == 1
  {
    if k > 0 { OnePower(k - 1); }
  }

  lemma SamePower(a: nat, b: nat, k: nat)
    requires k > 0 && Pow(a, k) == Pow(b, k)
    ensures a == b
  {
    if a < b { PowGrows(a, b, k); }
    if b < a { PowGrows(b, a, k); }
  }

  lemma CoprimeOfSelf(a: nat)
    requires a > 0 && Coprime(a, a)
    ensures a == 1
  {
    Multiple(a, 1);
    CommonDivisor(a, a, a);
    DivisorBound(a, 1);
  }

  lemma CoprimePowers(a: nat, b: nat, m: nat, n: nat)
    requires a > 0 && b > 0 && Coprime(a, b)
    ensures Coprime(Pow(a, m), Pow(b, n))
  {
    CoprimePower(a, b, n);
    CoprimeSymmetric(a, Pow(b, n));
    CoprimePower(Pow(b, n), a, m);
    CoprimeSymmetric(Pow(b, n), Pow(a, m));
  }

  /** a and b over their greatest common divisor. */
  lemma OverGcd(a: nat, b: nat) returns (g: nat, x: nat, y: nat)
    requires a > 0 && b > 0
    ensures g > 0 && x > 0 && y > 0 && a == x * g && b == y * g && Coprime(x, y) && g == Gcd(a, b)
  {
    g := Gcd(a, b);
    GcdDivides(a, b);
    Quotient(g, a);
    Quotient(g, b);
    LowestCoprimeParts(a, b);
    x, y := a / g, b / g;
  }

  /** If a power divides the same power of another number, so do the bases. */
  lemma PowerDividesPower(a: nat, b: nat, k: nat)
    requires a > 0 && b > 0 && k > 0 && Divides(Pow(a, k), Pow(b, k))
    ensures Divides(a, b)
  {
    var g, x, y := OverGcd(a, b);
    PowOfProduct(x, g, k);
    PowOfProduct(y, g, k);
    DividesCancel(Pow(x, k), Pow(y, k), Pow(g, k), Pow(b, k));
    CoprimePowers(x, y, k, k);
    Multiple(Pow(x, k), 1);
    CoprimeDivisors(Pow(x, k), Pow(y, k), Pow(x, k), Pow(x, k));
    CoprimeOfSelf(Pow(x, k));
    OnePower(k);
    SamePower(x, 1, k);
    Multiple(a, y);
  }

  /** Bezout's identity without negative numbers. */
  lemma Combination(k: nat, l: nat) returns (i: nat, j: nat)
    requires k > 0 && l > 0 && Coprime(k, l)
    ensures i * k == 1 + j * l
  {
    var x, y := Bezout(k, l);
    var m := Abs(x) + Abs(y);
    MulMono(1, l, m);
    MulMono(1, k, m);
    ShiftedCombination(k, l, x, y, m);
    i, j := x + l * m, k * m - y;
  }

  lemma ShiftedCombination(k: int, l: int, x: int, y: int, m: int)
    requires k * x + l * y == 1
    ensures (x + l * m) * k == 1 + (k * m - y) * l
  {
    assert (x + l * m) * k == k * x + l * m * k;
    assert (k * m - y) * l == k * m * l - l * y;
    assert l * m * k == k * m * l by { assert l * m == m * l; }
  }

  /** If r^k = s^l for coprime k and l, then r is an l-th power. */
  lemma SharedRoot(r: nat, k: nat, s: nat, l: nat) returns (t: nat)
    requires r > 0 && s > 0 && k > 0 && l > 0 && Coprime(k, l) && Pow(r, k) == Pow(s, l)
    ensures t > 0 && Pow(t, l) == r
  {
    var i, j := Combination(k, l);
    var a, b := Pow(s, i), Pow(r, j);
    PowOfPow(r, k, i);
    PowOfPow(s, l, i);
    PowOfPow(s, i, l);
    assert k * i == i * k && l * i == i * l;
    PowSum(r, 1, j * l);
    PowOfPow(r, j, l);
    PowStep(r, 0);
    PowOfNone(r);
    assert Pow(a, l) == r * Pow(b, l);
    Multiple(Pow(b, l), r);
    PowerDividesPower(b, a, l);
    Quotient(b, a);
    t := a / b;
    PowOfProduct(t, b, l);
    CancelRight(Pow(t, l), r, Pow(b, l));
    QuotientAboveZero(a, b);
  }

  lemma QuotientAboveZero(a: nat, b: nat)
    requires a > 0 && Divides(b, a)
    ensures a / b > 0
  {
    Quotient(b, a);
  }

  /** Equal powers, with the common factor of the exponents taken out. */
  lemma CommonRoot(r: nat, k: nat, s: nat, l: nat) returns (g: nat, x: nat, y: nat)
    requires r > 0 && s > 0 && k > 0 && l > 0 && Pow(r, k) == Pow(s, l)
    ensures g > 0 && x > 0 && y > 0 && k == x * g && l == y * g && Coprime(x, y) && Pow(r, x) == Pow(s, y)
  {
    g, x, y := OverGcd(k, l);
    PowOfPow(r, x, g);
    PowOfPow(s, y, g);
    SamePower(Pow(r, x), Pow(s, y), g);
  }

  /** A factor of a power that is coprime to the other factor is a power itself. */
  lemma CoprimeFactorIsPower(u: nat, w: nat, t: nat, q: nat)
    requires u > 0 && w > 0 && t > 0 && q > 0 && Coprime(u, w) && u * w == Pow(t, q)
    ensures IsPower(u, q)
  {
    var g, x, y := OverGcd(u, t);
    PowOfProduct(y, g, q);
    GcdDivides(u, t);
    PowerInFactor(u, w, g, Pow(y, q), q);
    FactorInPower(u, w, g, x, y, q);
    DividesBoth(u, Pow(g, q));
  }

  /** g^q divides u w and is coprime to w. */
  lemma PowerInFactor(u: nat, w: nat, g: nat, z: nat, q: nat)
    requires u > 0 && w > 0 && g > 0 && Coprime(u, w) && Divides(g, u) && u * w == z * Pow(g, q)
    ensures Divides(Pow(g, q), u)
  {
    Multiple(w, 1);
    CoprimeDivisors(u, w, g, w);
    CoprimePowers(g, w, q, 1);
    PowStep(w, 0);
    PowOfNone(w);
    Multiple(Pow(g, q), z);
    assert u * w == w * u;
    CoprimeDivides(Pow(g, q), w, u);
  }

  /** u = x g divides (y g)^q, and x is coprime to y. */
  lemma FactorInPower(u: nat, w: nat, g: nat, x: nat, y: nat, q: nat)
    requires u > 0 && w > 0 && g > 0 && x > 0 && y > 0 && q > 0 && u == x * g && Coprime(x, y)
    requires u * w == Pow(y, q) * Pow(g, q)
    ensures Divides(u, Pow(g, q))
  {
    PowStep(g, q - 1);
    var h := Pow(g, q - 1);
    assert (w * x) * g == (Pow(y, q) * h) * g by {
      assert (w * x) * g == u * w by { MulAssocInt(w, x, g); assert w * u == u * w; }
      assert (Pow(y, q) * h) * g == Pow(y, q) * (g * h) by { MulAssocInt(Pow(y, q), h, g); assert h * g == g * h; }
    }
    CancelRight(w * x, Pow(y, q) * h, g);
    Multiple(x, w);
    CoprimePower(x, y, q);
    CoprimeDivides(x, Pow(y, q), h);
    TimesDivides(x, h, g);
    assert h * g == Pow(g, q);
  }

  // ---- Numbers without square factors ----

  /** No prime divides s more than once. */
  ghost predicate SquareFree(s: nat) {
    forall p: nat :: Prime(p) ==> !Divides(p * p, s)
  }

  lemma PrimeIsSquareFree(b: nat)
    requires Prime(b)
    ensures SquareFree(b)
  {
    forall p: nat | Prime(p) ensures !Divides(p * p, b) {
      if Divides(p * p, b) {
        Multiple(p, p);
        DividesTransitive(p, p * p, b);
        DivisorBound(p * p, b);
        MulMono(2, p, p);
      }
    }
  }

  lemma PrimeIsPrimitive(b: nat)
    requires Prime(b)
    ensures Primitive(b)
  {
    forall k: nat | k >= 2 ensures !IsPower(b, k) {
      if IsPower(b, k) {
        var r: nat :| Pow(r, k) == b;
        ProperRoot(b, r, k);
      }
    }
  }

  /** A root of order two or more is a proper divisor. */
  lemma ProperRoot(b: nat, r: nat, k: nat)
    requires b > 1 && k >= 2 && Pow(r, k) == b
    ensures 1 < r < b && Divides(r, b)
  {
    if r <= 1 { ZeroPower(r, k); }
    PowStep(r, k - 1);
    Multiple(r, Pow(r, k - 1));
    assert b == Pow(r, k - 1) * r;
    PowGrows(1, r, k - 1);
    OnePower(k - 1);
    MulMono(2, Pow(r, k - 1), r);
  }

  lemma SquareFreeIsPrimitive(s: nat)
    requires s > 1 && SquareFree(s)
    ensures Primitive(s)
  {
    forall k: nat | k >= 2 ensures !IsPower(s, k) {
      if IsPower(s, k) {
        var r: nat :| Pow(r, k) == s;
        if r <= 1 { ZeroPower(r, k); }
        var p := PrimeDivisor(r, 2);
        Quotient(p, r);
        PowOfProduct(r / p, p, k);
        PowSum(p, 2, k - 2);
        PowStep(p, 1);
        PowStep(p, 0);
        PowOfNone(p);
        var z := Pow(r / p, k) * Pow(p, k - 2);
        assert s == z * (p * p) by { MulAssocInt(Pow(r / p, k), Pow(p, k - 2), p * p); assert Pow(p, k) == Pow(p, k - 2) * (p * p); }
        Multiple(p * p, z);
      }
    }
  }

  /** Two primitive numbers with a power in common are equal. */
  lemma PrimitiveRoot(c: nat, j: nat, s: nat, k: nat)
    requires c > 1 && s > 1 && j > 0 && k > 0 && Primitive(c) && Primitive(s) && Pow(c, j) == Pow(s, k)
    ensures c == s
  {
    var g, x, y := CommonRoot(c, j, s, k);
    var t := SharedRoot(c, x, s, y);
    CoprimeSymmetric(x, y);
    var u := SharedRoot(s, y, c, x);
    assert y >= 2 ==> IsPower(c, y);
    assert x >= 2 ==> IsPower(s, x);
    assert x == 1 && y == 1;
    SamePower(c, s, 1) by { assert Pow(c, x) == Pow(s, y); }
  }

  // ---- Smooth and rough parts ----

  /** No prime divisor is above n. */
  ghost predicate Smooth(a: nat, n: nat) {
    forall p: nat :: Prime(p) && Divides(p, a) ==> p <= n
  }

  lemma SmoothRoughCoprime(a: nat, b: nat, n: nat)
    requires a > 0 && b > 0 && Smooth(a, n) && FreeBelow(b, n + 1)
    ensures Coprime(a, b)
  {
    forall d: nat | d > 1 && Divides(d, a) ensures !Divides(d, b) {
      if Divides(d, b) {
        var p := PrimeDivisor(d, 2);
        DividesTransitive(p, d, a);
        DividesTransitive(p, d, b);
      }
    }
    NoCommonDivisor(a, b);
  }

  /** The part of a number without small prime factors is determined. */
  lemma RoughPartUnique(a: nat, b: nat, c: nat, d: nat, n: nat)
    requires a > 0 && b > 0 && c > 0 && d > 0 && a * b == c * d
    requires Smooth(a, n) && Smooth(c, n) && FreeBelow(b, n + 1) && FreeBelow(d, n + 1)
    ensures b == d
  {
    SmoothRoughCoprime(c, b, n);
    SmoothRoughCoprime(a, d, n);
    CoprimeSymmetric(c, b);
    CoprimeSymmetric(a, d);
    Multiple(b, a);
    Multiple(d, c);
    CoprimeDivides(b, c, d);
    CoprimeDivides(d, a, b);
    DividesBoth(b, d);
  }

  lemma SmoothTimes(a: nat, q: nat, m: nat, n: nat)
    requires a > 0 && q > 0 && Smooth(a, n) && Prime(q) && q <= n
    ensures Smooth(a * Pow(q, m), n)
  {
    forall p: nat | Prime(p) && Divides(p, a * Pow(q, m)) ensures p <= n {
      if p != q {
        PrimeCoprime(p, q);
        CoprimePower(p, q, m);
        assert a * Pow(q, m) == Pow(q, m) * a;
        CoprimeDivides(p, Pow(q, m), a);
      }
    }
  }
}
