/** A number has one simplest radical form: forms that are reduced and have nothing left to take out of the root agree. */
module RadicalUniqueness {
  import opened IntegerRoots
  import opened Divisibility
  import opened CoprimeBases
  import opened Rationals
  import opened RadicalParts
  import opened Primes
  import opened PowerRoots
  import opened RadicalTables
  import opened RadicalForms

  /** No prime divides u d times or more. */
  ghost predicate FreeOf(u: nat, d: nat) {
    forall p: nat :: Prime(p) ==> !Divides(Pow(p, d), u)
  }

  lemma RootFree(r: nat, n: nat, k: nat)
    requires r > 0 && k > 0 && FreeOf(r, n)
    ensures FreeOf(Pow(r, k), n * k)
  {
    hide Pow, Divides, Prime;
    forall p: nat | Prime(p) ensures !Divides(Pow(p, n * k), Pow(r, k)) {
      PrimeIsAboveOne(p);
      if Divides(Pow(p, n * k), Pow(r, k)) { RootDivides(r, n, k, p); }
    }
  }

  lemma PrimeIsAboveOne(p: nat)
    requires Prime(p)
    ensures p > 1
  {
  }

  lemma RootDivides(r: nat, n: nat, k: nat, p: nat)
    requires r > 0 && k > 0 && p > 0 && Divides(Pow(p, n * k), Pow(r, k))
    ensures Divides(Pow(p, n), r)
  {
    hide Divides;
    PowOfPow(p, n, k);
    PowerDividesPower(Pow(p, n), r, k);
  }

  /** Products of a d-th power and a number without d-fold prime factors agree only part by part. */
  lemma SameParts(x: nat, u: nat, y: nat, w: nat, d: nat)
    requires x > 0 && y > 0 && u > 0 && w > 0 && d > 0 && FreeOf(u, d) && FreeOf(w, d) && Pow(x, d) * u == Pow(y, d) * w
    ensures x == y && u == w
  {
    var g, a, b := OverGcd(x, y);
    PowOfProduct(a, g, d);
    PowOfProduct(b, g, d);
    Rearranged(Pow(a, d), Pow(g, d), u);
    Rearranged(Pow(b, d), Pow(g, d), w);
    CancelRight(Pow(a, d) * u, Pow(b, d) * w, Pow(g, d));
    CoprimeSymmetric(a, b);
    NothingOver(a, u, b, w, d);
    NothingOver(b, w, a, u, d);
    OnePower(d);
  }

  lemma Rearranged(a: nat, g: nat, u: nat)
    ensures (a * g) * u == (a * u) * g
  {
  }

  lemma NothingOver(a: nat, u: nat, b: nat, w: nat, d: nat)
    requires a > 0 && b > 0 && u > 0 && w > 0 && d > 0 && Coprime(a, b) && FreeOf(w, d) && Pow(a, d) * u == Pow(b, d) * w
    ensures a == 1
  {
    hide FreeOf, Coprime, Pow;
    CoprimePowers(a, b, d, d);
    Multiple(Pow(a, d), u);
    assert Pow(a, d) * u == u * Pow(a, d);
    CoprimeDivides(Pow(a, d), Pow(b, d), w);
    if a > 1 { PrimeTaken(a, w, d); }
  }

  /** A d-th power in w is one of a prime. */
  lemma PrimeTaken(a: nat, w: nat, d: nat)
    requires a > 1 && w > 0 && Divides(Pow(a, d), w)
    ensures !FreeOf(w, d)
  {
    hide Pow;
    var p := PrimeDivisor(a, 2);
    Quotient(p, a);
    PowOfProduct(a / p, p, d);
    Multiple(Pow(p, d), Pow(a / p, d));
    DividesTransitive(Pow(p, d), Pow(a, d), w);
  }

  // ---- From reals to integers ----

  lemma RealPower(b: nat, n: nat)
    requires b > 0
    ensures Power(b as real, n) == Pow(b, n) as real
  {
    PowerOfPow(b, n, 1);
    PowerStep(Pow(b, n) as real, 0);
    PowerZero(Pow(b, n) as real);
    MulOne(Pow(b, n) as real);
  }

  /** The value of a form times its denominator to the d-th power. */
  lemma OverDenominator(d: nat, f: RadicalForm)
    requires PositiveRat(f.rational) && f.radicand > 0 && Divides(f.rootOrder, d)
    ensures Mul(FormValue(d, f), Pow(f.rational.den, d) as real) == (Pow(f.rational.num, d) * Pow(f.radicand, d / f.rootOrder)) as real
  {
    hide Mul, Power, RealOf, Pow;
    var a, b, k := f.rational.num, f.rational.den, d / f.rootOrder;
    RealOfPositive(f.rational);
    TimesDenominator(f.rational);
    PowerOfProduct(RealOf(f.rational), b as real, d);
    RealPower(a, d);
    RealPower(b, d);
    RealPower(f.radicand, k);
    RealOfProduct(Pow(a, d), Pow(f.radicand, k));
    var x, y, z := Power(RealOf(f.rational), d), Power(f.radicand as real, k), Power(b as real, d);
    MulAssoc(x, y, z);
    MulSwap(y, z, 1.0);
    MulAssoc(x, z, y);
  }

  lemma TimesDenominator(r: Rat)
    requires PositiveRat(r)
    ensures Mul(RealOf(r), r.den as real) == r.num as real
  {
  }

  lemma SameIntegers(d: nat, f: RadicalForm, g: RadicalForm)
    requires PositiveRat(f.rational) && f.radicand > 0 && Divides(f.rootOrder, d)
    requires PositiveRat(g.rational) && g.radicand > 0 && Divides(g.rootOrder, d)
    requires FormValue(d, f) == FormValue(d, g)
    ensures Pow(f.rational.num * g.rational.den, d) * Pow(f.radicand, d / f.rootOrder)
            == Pow(g.rational.num * f.rational.den, d) * Pow(g.radicand, d / g.rootOrder)
  {
    hide Mul, Power, RealOf, FormValue, Pow;
    OverDenominator(d, f);
    OverDenominator(d, g);
    var a, b, u := Pow(f.rational.num, d), Pow(f.rational.den, d), Pow(f.radicand, d / f.rootOrder);
    var p, q, w := Pow(g.rational.num, d), Pow(g.rational.den, d), Pow(g.radicand, d / g.rootOrder);
    PowOfProduct(f.rational.num, g.rational.den, d);
    PowOfProduct(g.rational.num, f.rational.den, d);
    CrossMultiplied(FormValue(d, f), a * u, b, p * w, q);
    Rearranged(a, q, u);
    Rearranged(p, b, w);
  }

  lemma CrossMultiplied(v: real, x: nat, b: nat, y: nat, q: nat)
    requires Mul(v, b as real) == x as real && Mul(v, q as real) == y as real
    ensures x * q == y * b
  {
    RealOfProduct(x, q);
    RealOfProduct(y, b);
    MulAssoc(v, b as real, q as real);
    MulAssoc(v, q as real, b as real);
    MulSwap(b as real, q as real, 1.0);
  }

  // ---- The parts of a form ----

  /** Rationals in lowest terms that are equal are the same. */
  lemma SameRational(a: Rat, b: Rat)
    requires PositiveRat(a) && PositiveRat(b) && Normal(a) && Normal(b) && a.num * b.den == b.num * a.den
    ensures a == b
  {
    CoprimeSymmetric(a.den, a.num);
    CoprimeSymmetric(b.den, b.num);
    Multiple(a.num, b.den);
    assert b.den * a.num == a.num * b.den && b.num * a.den == a.den * b.num;
    CoprimeDivides(a.num, a.den, b.num);
    Multiple(b.num, a.den);
    CoprimeDivides(b.num, b.den, a.num);
    DividesBoth(a.num, b.num);
    assert b.den * a.num == a.den * a.num;
    CancelRight(b.den, a.den, a.num);
  }

  /** If neither of two roots can do with a smaller order, equal roots have equal orders and radicands. */
  lemma SameRoots(r: nat, n: nat, s: nat, m: nat, d: nat)
    requires r > 0 && s > 0 && d > 0 && Divides(n, d) && Divides(m, d) && Pow(r, d / n) == Pow(s, d / m)
    requires forall k: nat :: k >= 2 && Divides(k, n) ==> !IsPower(r, k)
    requires forall k: nat :: k >= 2 && Divides(k, m) ==> !IsPower(s, k)
    ensures r == s && n == m
  {
    Quotient(n, d);
    Quotient(m, d);
    QuotientAboveZero(d, n);
    QuotientAboveZero(d, m);
    var g, x, y := CommonRoot(r, d / n, s, d / m);
    assert (n * x) * g == (m * y) * g by { MulAssocInt(n, x, g); MulAssocInt(m, y, g); assert (d / n) * n == n * (d / n) && (d / m) * m == m * (d / m); }
    CancelRight(n * x, m * y, g);
    OrderDivides(n, x, m, y);
    CoprimeSymmetric(x, y);
    OrderDivides(m, y, n, x);
    var t := SharedRoot(r, x, s, y);
    var v := SharedRoot(s, y, r, x);
    assert y >= 2 ==> IsPower(r, y);
    assert x >= 2 ==> IsPower(s, x);
    assert x == 1 && y == 1;
    SamePower(r, s, 1);
  }

  lemma OrderDivides(n: nat, x: nat, m: nat, y: nat)
    requires x > 0 && y > 0 && n * x == m * y && Coprime(x, y)
    ensures Divides(y, n)
  {
    CoprimeSymmetric(x, y);
    Multiple(y, m);
    assert n * x == x * n;
    CoprimeDivides(y, x, n);
  }

  /** Forms of one value that are reduced, with nothing left to take out of the root, are the same. */
  lemma SameForm(d: nat, f: RadicalForm, g: RadicalForm)
    requires d > 0 && PositiveRat(f.rational) && f.radicand > 0 && Divides(f.rootOrder, d) && Normal(f.rational)
    requires PositiveRat(g.rational) && g.radicand > 0 && Divides(g.rootOrder, d) && Normal(g.rational)
    requires Reduced(f) && PowerFree(f) && Reduced(g) && PowerFree(g)
    requires FormValue(d, f) == FormValue(d, g)
    ensures f == g
  {
    hide FormValue, Mul, Power, Pow, IsPower, Prime, Normal;
    SameIntegers(d, f, g);
    PartFree(d, f);
    PartFree(d, g);
    MulMono(1, f.rational.num, g.rational.den);
    MulMono(1, g.rational.num, f.rational.den);
    SameParts(f.rational.num * g.rational.den, Pow(f.radicand, d / f.rootOrder),
              g.rational.num * f.rational.den, Pow(g.radicand, d / g.rootOrder), d);
    SameRational(f.rational, g.rational);
    SameRoots(f.radicand, f.rootOrder, g.radicand, g.rootOrder, d);
  }

  lemma PartFree(d: nat, f: RadicalForm)
    requires d > 0 && f.radicand > 0 && Divides(f.rootOrder, d) && PowerFree(f)
    ensures FreeOf(Pow(f.radicand, d / f.rootOrder), d)
  {
    Quotient(f.rootOrder, d);
    QuotientAboveZero(d, f.rootOrder);
    assert FreeOf(f.radicand, f.rootOrder);
    RootFree(f.radicand, f.rootOrder, d / f.rootOrder);
    assert f.rootOrder * (d / f.rootOrder) == d;
  }

  // ---- When a form is the simplest one ----

  /** n has at most one prime factor above the bound. */
  ghost predicate OneLargePrime(n: nat, trial: nat) {
    forall p: nat, q: nat :: Prime(p) && Prime(q) && p > trial && q > trial && Divides(p, n) && Divides(q, n) ==> p == q
  }

  lemma {:induction false} LevelByPrimes(x: nat, trial: nat) returns (a: nat, s: nat, k: nat)
    requires x > 0 && OneLargePrime(x, trial)
    ensures LevelParts(x, a, s, k, trial) && (s == 1 || (Prime(s) && s > trial && k > 0))
    decreases x
  {
    if x == 1 {
      a, s, k := 1, 1, 0;
      NothingToSplit(trial);
    } else {
      var p := PrimeDivisor(x, 2);
      Quotient(p, x);
      QuotientAboveZero(x, p);
      MulMono(2, p, x / p);
      DivisorsOfQuotient(x, p, trial);
      var b, t, j := LevelByPrimes(x / p, trial);
      if p <= trial {
        a, s, k := b * p, t, j;
        SmallerPart(x / p, b, t, j, p, trial);
      } else {
        if t != 1 { SharesPrime(x / p, b, t, j, trial); SharedThrough(x, p, t); }
        a, s, k := b, p, if t == 1 then 1 else j + 1;
        LargerPart(x / p, b, t, j, p, trial);
      }
    }
  }

  lemma NothingToSplit(trial: nat)
    ensures LevelParts(1, 1, 1, 0, trial)
  {
    OneIsSmooth(trial);
    forall p: nat | Prime(p) ensures !Divides(p * p, 1) {
      MulMono(2, p, p);
      if Divides(p * p, 1) { DivisorBound(p * p, 1); }
    }
    forall q: nat | 1 < q < trial + 1 ensures !Divides(q, 1) {
      if Divides(q, 1) { DivisorBound(q, 1); }
    }
    PowOfNone(1);
  }

  lemma DivisorsOfQuotient(x: nat, p: nat, trial: nat)
    requires x > 0 && Divides(p, x) && OneLargePrime(x, trial)
    ensures OneLargePrime(x / p, trial)
  {
    hide Prime;
    Quotient(p, x);
    Multiple(x / p, p);
    assert x == p * (x / p);
    QuotientAboveZero(x, p);
    forall q: nat | Divides(q, x / p) ensures Divides(q, x) { DividesTransitive(q, x / p, x); }
  }

  lemma SmallerPart(y: nat, b: nat, t: nat, j: nat, p: nat, trial: nat)
    requires LevelParts(y, b, t, j, trial) && Prime(p) && p <= trial
    ensures LevelParts(y * p, b * p, t, j, trial)
  {
    hide Smooth, FreeBelow, SquareFree, Prime;
    PrimeAboveOne(p);
    SmoothTimes(b, p, 1, trial);
    PowStep(p, 0);
    PowOfNone(p);
    MulMono(1, b, p);
    assert b * Pow(t, j) * p == b * p * Pow(t, j);
  }

  lemma SharesPrime(y: nat, b: nat, t: nat, j: nat, trial: nat)
    requires LevelParts(y, b, t, j, trial) && j > 0
    ensures Divides(t, y)
  {
    PowStep(t, j - 1);
    Multiple(t, b * Pow(t, j - 1));
    assert y == b * Pow(t, j - 1) * t by { assert b * (t * Pow(t, j - 1)) == b * Pow(t, j - 1) * t; }
  }

  lemma SharedThrough(x: nat, p: nat, t: nat)
    requires x > 0 && Divides(p, x) && Divides(t, x / p)
    ensures Divides(t, x)
  {
    Quotient(p, x);
    Multiple(x / p, p);
    assert x == p * (x / p);
    QuotientAboveZero(x, p);
    DividesTransitive(t, x / p, x);
  }

  lemma LargerPart(y: nat, b: nat, t: nat, j: nat, p: nat, trial: nat)
    requires LevelParts(y, b, t, j, trial) && Prime(p) && p > trial && (t == 1 || (t == p && j > 0))
    ensures LevelParts(y * p, b, p, if t == 1 then 1 else j + 1, trial)
  {
    PrimeIsSquareFree(p);
    forall q: nat | 1 < q < trial + 1 ensures !Divides(q, p) {}
    hide Smooth, FreeBelow, SquareFree, Prime;
    if t == 1 {
      OnePower(j);
      PowStep(p, 0);
      PowOfNone(p);
    } else {
      PowStep(p, j);
      assert b * Pow(p, j) * p == b * (p * Pow(p, j));
    }
  }

  /**
   If no numerator or denominator has two different prime factors above the trial bound, the base is level, so that
   the form returned is the only reduced one with nothing left to take out of the root.
   */
  lemma LevelIfLonePrimes(base: seq<nat>, numbers: seq<nat>, trial: nat)
    requires DivideSome(base, numbers) && forall k :: 0 <= k < |numbers| ==> OneLargePrime(numbers[k], trial)
    ensures forall k :: 0 <= k < |base| && base[k] > 0 ==> Level(base[k], trial)
  {
    hide OneLargePrime, LevelParts;
    forall k | 0 <= k < |base| && base[k] > 0 ensures Level(base[k], trial) {
      assert DividesOne(base[k], numbers);
      var i :| 0 <= i < |numbers| && numbers[i] > 0 && Divides(base[k], numbers[i]);
      LonePrimeOfDivisor(base[k], numbers[i], trial);
      var a, s, j := LevelByPrimes(base[k], trial);
      assert LevelParts(base[k], a, s, j, trial);
    }
  }

  lemma LonePrimeOfDivisor(x: nat, n: nat, trial: nat)
    requires Divides(x, n) && OneLargePrime(n, trial)
    ensures OneLargePrime(x, trial)
  {
    hide Prime;
    forall q: nat | Divides(q, x) ensures Divides(q, n) { DividesTransitive(q, x, n); }
  }

  // ---- A perfect power that is not level ----

  lemma TwoIsPrime()
    ensures Prime(2)
  {
    forall q: nat | q > 1 && Divides(q, 2) ensures q == 2 { DivisorBound(q, 2); }
  }

  lemma SmallSquares()
    ensures Pow(2, 2) == 4 && Pow(12, 2) == 144 && forall x: nat :: Pow(x, 1) == x
  {
    assert forall x: nat :: Pow(x, 0) == 1;
    assert Pow(2, 1) == 2 && Pow(12, 1) == 12;
  }

  /** No power of order two or more is 3 or 12. */
  lemma NoPowerThere(n: nat, r: nat, k: nat)
    requires (n == 3 || n == 12) && k >= 2
    ensures Pow(r, k) != n
  {
    if r < 2 {
      ZeroPower(r, k);
    } else if r >= 4 {
      PowMono(4, r, k);
      FourPower(k);
    } else {
      SmallPowers(r, k);
    }
  }

  lemma {:induction false} FourPower(k: nat)
    requires k >= 2
    ensures Pow(4, k) >= 16
  {
    if k == 2 { assert Pow(4, 1) == 4 && Pow(4, 0) == 1; } else { FourPower(k - 1); }
  }

  /** Powers of 2 and 3 are 4, 8, or 16 and more; 9, or 27 and more. */
  lemma {:induction false} SmallPowers(r: nat, k: nat)
    requires (r == 2 || r == 3) && k >= 2
    ensures k == 2 ==> Pow(r, k) == r * r
    ensures k == 3 ==> Pow(r, k) == r * r * r
    ensures k >= 4 ==> Pow(r, k) >= 16
  {
    PowStep(r, k - 1);
    if k == 2 {
      assert Pow(r, 1) == r * Pow(r, 0) && Pow(r, 0) == 1;
    } else {
      SmallPowers(r, k - 1);
    }
  }

  lemma TwelveIsPrimitive()
    ensures Primitive(12)
  {
    forall k: nat | k >= 2 ensures !IsPower(12, k) {
      forall r: nat ensures Pow(r, k) != 12 { NoPowerThere(12, r, k); }
    }
  }

  lemma TwelveHasSquare()
    ensures !SquareFree(12)
  {
    TwoIsPrime();
    assert 12 % (2 * 2) == 0;
  }

  lemma NotLevel()
    ensures IsPower(144, 2) && !Level(144, 1)
  {
    SmallSquares();
    if Level(144, 1) {
      var a: nat, s: nat, k: nat :| LevelParts(144, a, s, k, 1);
      if a > 1 { var p := PrimeDivisor(a, 2); }
      assert a == 1;
      if s == 1 { OnePower(k); }
      if k == 0 { PowOfNone(s); }
      SquareFreeIsPrimitive(s);
      TwelveIsPrimitive();
      TwelveHasSquare();
      PrimitiveRoot(12, 2, s, k);
    }
  }

  /**
   144 is a perfect power, but with its prime factors to different powers it is not level: with the trial bound 1, its
   fourth root has two reduced forms, the root of 12 and twice the root of 3.
   */
  lemma PerfectPowerWithTwoForms()
    ensures IsPower(144, 2) && !Level(144, 1)
    ensures var f, g := RadicalForm(Rat(1, 1), 12, 2), RadicalForm(Rat(2, 1), 3, 2);
            && Reduced(f) && Reduced(g) && Simplest(f, 1, 4) && Simplest(g, 1, 4) && PowerFree(g) && !PowerFree(f)
            && Divides(2, 2) && FormValue(2, f) == FormValue(2, g)
  {
    NotLevel();
    TwoForms(RadicalForm(Rat(1, 1), 12, 2));
    TwoForms(RadicalForm(Rat(2, 1), 3, 2));
    ThreeIsPowerFree();
    SmallSquares();
    TwoIsPrime();
    assert 12 % 4 == 0;
    SameValue();
  }

  lemma TwoForms(f: RadicalForm)
    requires f == RadicalForm(Rat(1, 1), 12, 2) || f == RadicalForm(Rat(2, 1), 3, 2)
    ensures Reduced(f) && Simplest(f, 1, 4)
  {
    forall k: nat | k >= 2 && Divides(k, 2) ensures !IsPower(f.radicand, k) {
      forall r: nat ensures Pow(r, k) != f.radicand { NoPowerThere(f.radicand, r, k); }
    }
    hide Reduced, Prime;
    SmallPowers(2, 4);
    assert forall p: nat :: Prime(p) ==> p > 1 by { PrimesAboveOne(); }
  }

  lemma PrimesAboveOne()
    ensures forall p: nat :: Prime(p) ==> p > 1
  {
  }

  lemma ThreeIsPowerFree()
    ensures PowerFree(RadicalForm(Rat(2, 1), 3, 2))
  {
    forall p: nat | Prime(p) ensures !Divides(Pow(p, 2), 3) {
      PrimeAboveOne(p);
      PowStep(p, 1);
      PowStep(p, 0);
      PowOfNone(p);
      MulMono(2, p, p);
      if Divides(p * p, 3) { DivisorBound(p * p, 3); }
    }
  }

  lemma SameValue()
    ensures Divides(2, 2) && FormValue(2, RadicalForm(Rat(1, 1), 12, 2)) == FormValue(2, RadicalForm(Rat(2, 1), 3, 2))
  {
    OverDenominator(2, RadicalForm(Rat(1, 1), 12, 2));
    OverDenominator(2, RadicalForm(Rat(2, 1), 3, 2));
    SmallSquares();
    OnePower(2);
    assert 2 / 2 == 1;
    MulOne(FormValue(2, RadicalForm(Rat(1, 1), 12, 2)));
    MulOne(FormValue(2, RadicalForm(Rat(2, 1), 3, 2)));
  }
}
