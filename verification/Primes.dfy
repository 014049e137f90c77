/** Primes, numbers without small divisors, perfect powers, and what equal powers have in common. */
module Primes {
  import opened IntegerRoots
  import opened Divisibility
  import opened RadicalParts

  // ---- Factors ----

  /** p has no divisor but 1 and itself. */
  ghost predicate Prime(p: nat) {
    p > 1 && forall q: nat :: q > 1 && Divides(q, p) ==> q == p
  }

  /** Nothing from 2 to n divides c, except c itself. */
  ghost predicate TrialFree(c: nat, n: nat) {
    forall q: nat :: 1 < q <= n && Divides(q, c) ==> q == c
  }

  /** Nothing from 2 to d - 1 divides c. */
  ghost predicate FreeBelow(c: nat, d: nat) {
    forall q: nat :: 1 < q < d ==> !Divides(q, c)
  }

  lemma SmallestDivisorIsPrime(c: nat, d: nat)
    requires c > 0 && d > 1 && Divides(d, c) && FreeBelow(c, d)
    ensures Prime(d)
  {
    forall q: nat | q > 1 && Divides(q, d) ensures q == d {
      DividesTransitive(q, d, c);
      DivisorBound(q, d);
    }
  }

  /** If c is below d * d, it is 1 or a prime. */
  lemma SquareAbove(c: nat, d: nat, n: nat)
    requires c > 0 && d > 0 && c < d * d && FreeBelow(c, d)
    ensures TrialFree(c, n)
  {
    forall q: nat | 1 < q <= n && Divides(q, c) ensures q == c {
      assert q >= d;
      Quotient(q, c);
      DivisorBound(q, c);
      if q != c {
        CoFactor(q, c);
        MulMono(d, q, d);
        MulMono(d, c / q, q);
      }
    }
  }

  /** The cofactor of a proper divisor is a proper divisor. */
  lemma CoFactor(q: nat, c: nat)
    requires c > 0 && q > 1 && Divides(q, c) && q != c
    ensures c / q > 1 && Divides(c / q, c)
  {
    Quotient(q, c);
    DivisorBound(q, c);
    if c / q <= 1 { MulMono(c / q, 1, q); }
    assert c == q * (c / q);
    Multiple(c / q, q);
  }

  lemma FreeAboveTrial(c: nat, d: nat, n: nat)
    requires FreeBelow(c, d) && n < d
    ensures TrialFree(c, n)
  {
  }

  lemma FreeToTrial(c: nat, d: nat, n: nat)
    requires FreeBelow(c, d) && n < d
    ensures FreeBelow(c, n + 1)
  {
  }

  lemma FreeDivisor(c: nat, d: nat, r: nat)
    requires FreeBelow(c, d) && Divides(r, c)
    ensures FreeBelow(r, d)
  {
    forall q: nat | 1 < q < d ensures !Divides(q, r) {
      if Divides(q, r) { DividesTransitive(q, r, c); }
    }
  }

  // ---- Perfect powers ----

  ghost predicate IsPower(c: nat, k: nat) {
    exists r: nat :: Pow(r, k) == c
  }

  /** Not a k-th power for any k. */
  ghost predicate Primitive(c: nat) {
    forall k: nat :: k >= 2 ==> !IsPower(c, k)
  }

  lemma PowerOfPower(r: nat, j: nat, k: nat)
    ensures Pow(Pow(r, j), k) == Pow(Pow(r, k), j)
  {
    PowOfPow(r, j, k);
    PowOfPow(r, k, j);
    assert j * k == k * j;
  }

  /** What is a power of a root is one of the number itself. */
  lemma PowersOfRoot(c: nat, r: nat, k: nat)
    requires Pow(r, k) == c
    ensures forall j: nat :: IsPower(r, j) ==> IsPower(c, j)
  {
    forall j: nat | IsPower(r, j) ensures IsPower(c, j) {
      var x: nat :| Pow(x, j) == r;
      PowerOfPower(x, j, k);
    }
  }

  lemma {:induction false} ZeroPower(r: nat, k: nat)
    requires r <= 1 && k > 0
    ensures Pow(r, k) <= 1
  {
    if r == 1 && k > 1 { ZeroPower(r, k - 1); }
    if r == 1 { assert Pow(r, k) == Pow(r, k - 1); }
  }

  lemma {:induction false} PrimeDivisor(j: nat, d: nat) returns (q: nat)
    requires j >= 2 && 2 <= d <= j && FreeBelow(j, d)
    ensures Prime(q) && Divides(q, j)
    decreases j - d
  {
    if Divides(d, j) {
      SmallestDivisorIsPrime(j, d);
      q := d;
    } else {
      assert d != j by { assert Divides(j, j); }
      q := PrimeDivisor(j, d + 1);
    }
  }

  /** Only prime orders need trying. */
  lemma PrimeOrdersSuffice(c: nat)
    requires forall q: nat :: Prime(q) ==> !IsPower(c, q)
    ensures Primitive(c)
  {
    hide Prime;
    forall k: nat | k >= 2 ensures !IsPower(c, k) {
      if IsPower(c, k) {
        var q := PrimeDivisor(k, 2);
        var r: nat :| Pow(r, k) == c;
        Quotient(q, k);
        PowOfPow(r, k / q, q);
      }
    }
  }

  /** A prime and a number that it does not divide are coprime. */
  lemma PrimeCoprime(p: nat, n: nat)
    requires Prime(p) && n > 0 && !Divides(p, n)
    ensures Coprime(p, n)
  {
    NoCommonDivisor(p, n);
  }
}
