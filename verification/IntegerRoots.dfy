/** Integer powers and the integer k-th root by Newton's iteration from an untrusted seed. */
module IntegerRoots {
  function Pow(b: nat, e: nat): (r: nat)
    ensures b > 0 ==> r > 0
  {
    if e == 0 then 1 else b * Pow(b, e - 1)
  }

  lemma MulMono(a: nat, b: nat, c: nat)
    requires a <= b
    ensures a * c <= b * c && c * a <= c * b
  {
  }

  lemma {:induction false} PowMono(a: nat, b: nat, e: nat)
    requires a <= b
    ensures Pow(a, e) <= Pow(b, e)
  {
    if e > 0 {
      PowMono(a, b, e - 1);
      MulMono(a, b, Pow(a, e - 1));
      MulMono(Pow(a, e - 1), Pow(b, e - 1), b);
    }
  }

  lemma {:induction false} PowGrows(a: nat, b: nat, e: nat)
    requires a < b && e > 0
    ensures Pow(a, e) < Pow(b, e)
  {
    PowMono(a, b, e - 1);
    MulMono(Pow(a, e - 1), Pow(b, e - 1), a);
    assert a * Pow(b, e - 1) < b * Pow(b, e - 1);
  }

  lemma PowStep(b: nat, e: nat)
    ensures Pow(b, e + 1) == b * Pow(b, e)
  {
  }

  lemma PowOfNone(b: nat)
    ensures Pow(b, 0) == 1
  {
  }

  /** r^k + (k - 1) x^k is at least k r x^(k - 1): the inequality of the means. */
  lemma {:induction false} MeansInequality(r: nat, x: nat, k: nat)
    requires k > 0
    ensures Pow(r, k) + (k - 1) * Pow(x, k) >= k * r * Pow(x, k - 1)
  {
    if k == 1 {
      PowStep(r, 0);
      PowOfNone(r);
      PowOfNone(x);
    } else {
      var j := k - 1;
      MeansInequality(r, x, j);
      PowStep(r, j);
      PowStep(x, j);
      PowStep(x, j - 1);
      MeansStep(r, x, Pow(r, j), Pow(x, j - 1), j, Pow(x, j), Pow(r, k), Pow(x, k));
    }
  }

  lemma MeansStep(r: nat, x: nat, p: nat, q: nat, j: nat, y: nat, rk: nat, xk: nat)
    requires j > 0 && y == x * q && rk == r * p && xk == x * y
    requires p + (j - 1) * y >= j * r * q
    ensures rk + j * xk >= (j + 1) * r * y
  {
    var d := x - r;
    SquareScaled(j * q, d);
    Expand(j, q, x, r);
    MulMono(j * r * q, p + (j - 1) * y, r);
    Distribute(r, p, j - 1, y);
    Collect(j, r, y);
  }

  lemma SquareScaled(a: nat, d: int)
    ensures a * (d * d) >= 0
  {
    if d >= 0 { MulMono(0, d, d); } else { assert d * d == (-d) * (-d); }
  }

  lemma Expand(j: int, q: int, x: int, r: int)
    ensures j * q * ((x - r) * (x - r)) == j * (x * (x * q)) - 2 * (j * r * (x * q)) + r * (j * r * q)
  {
    assert (x - r) * (x - r) == x * x - 2 * (r * x) + r * r;
    assert j * q * (x * x) == j * (x * (x * q));
    assert j * q * (r * x) == j * r * (x * q);
    assert j * q * (r * r) == r * (j * r * q);
  }

  lemma Distribute(r: int, p: int, a: int, b: int)
    ensures r * (p + a * b) == r * p + a * (r * b)
  {
    assert r * (a * b) == a * (r * b);
  }

  lemma Collect(j: int, r: int, y: int)
    ensures (j + 1) * r * y == 2 * (j * r * y) - (j - 1) * (r * y)
  {
    assert (j + 1) * r * y == j * r * y + r * y;
    assert (j - 1) * (r * y) == j * (r * y) - r * y;
    assert j * r * y == j * (r * y);
  }

  /** x is the integer k-th root of n. */
  ghost predicate IsRoot(n: nat, k: nat, x: nat) {
    Pow(x, k) <= n < Pow(x + 1, k)
  }

  lemma RootUnique(n: nat, k: nat, x: nat, y: nat)
    requires k > 0 && IsRoot(n, k, x) && IsRoot(n, k, y)
    ensures x == y
  {
    if x < y { PowMono(x + 1, y, k); }
    if y < x { PowMono(y + 1, x, k); }
  }

  function NewtonStep(n: nat, k: nat, x: nat): int
    requires k > 0 && x > 0
  {
    ((k - 1) * x + n / Pow(x, k - 1)) / k
  }

  /** A Newton step from any positive x is not below anything whose k-th power is at most n. */
  lemma NewtonNotBelow(n: nat, k: nat, x: nat, r: nat)
    requires k > 0 && x > 0 && Pow(r, k) <= n
    ensures r <= NewtonStep(n, k, x)
  {
    MeansInequality(r, x, k);
    var p := Pow(x, k - 1);
    assert Pow(x, k) == x * p;
    assert (k * r - (k - 1) * x) * p <= n by { Rearranged(k, r, x, p, n, Pow(r, k)); }
    DivAtLeast(n, p, k * r - (k - 1) * x);
    DivAtLeast((k - 1) * x + n / p, k, r);
  }

  lemma Rearranged(k: int, r: int, x: int, p: int, n: int, rk: int)
    requires rk <= n && rk + (k - 1) * (x * p) >= k * r * p
    ensures (k * r - (k - 1) * x) * p <= n
  {
    assert (k * r - (k - 1) * x) * p == k * r * p - (k - 1) * (x * p);
  }

  lemma DivBounds(n: nat, d: nat)
    requires d > 0
    ensures n / d >= 0 && (n / d) * d <= n < (n / d + 1) * d
  {
    var q, r := n / d, n % d;
    assert n == q * d + r && 0 <= r < d;
    assert (q + 1) * d == q * d + d;
    if q < 0 { MulMono(1, -q, d); }
  }

  lemma DivAtLeast(n: nat, d: nat, q: int)
    requires d > 0 && q * d <= n
    ensures q <= n / d
  {
    DivBounds(n, d);
    if q >= n / d + 1 { MulMono(n / d + 1, q, d); }
  }

  /** When the iteration stops, x is not above the root. */
  lemma NewtonStop(n: nat, k: nat, x: nat)
    requires k > 0 && x > 0 && NewtonStep(n, k, x) >= x
    ensures Pow(x, k) <= n
  {
    hide Pow;
    var p := Pow(x, k - 1);
    PowStep(x, k - 1);
    DivBounds(n, p);
    StopQuotient(n / p, k, x);
    MulMono(x, n / p, p);
  }

  lemma StopQuotient(q: nat, k: nat, x: nat)
    requires k > 0 && ((k - 1) * x + q) / k >= x
    ensures x <= q
  {
    MulMono(0, k - 1, x);
    var s: nat := (k - 1) * x + q;
    DivBounds(s, k);
    StopBound(s, s / k, k, x, q);
  }

  lemma StopBound(s: nat, t: nat, k: nat, x: nat, q: nat)
    requires k > 0 && t * k <= s && x <= t && s == (k - 1) * x + q
    ensures x <= q
  {
    MulMono(x, t, k);
  }

  /** The descent of Newton's iteration. */
  method Descend(n: nat, k: nat, seed: nat) returns (x: nat)
    requires n >= 2 && k >= 2 && seed > 0
    ensures x > 0 && Pow(x, k) <= n
    ensures n < Pow(seed + 1, k) ==> n < Pow(x + 1, k)
  {
    x := seed;
    while true
      invariant x > 0 && (n < Pow(seed + 1, k) ==> n < Pow(x + 1, k))
      decreases x
    {
      var y := ((k - 1) * x + n / Pow(x, k - 1)) / k;
      OneIsBelow(n, k);
      NewtonNotBelow(n, k, x, 1);
      if y >= x {
        NewtonStop(n, k, x);
        break;
      }
      if n < Pow(seed + 1, k) && Pow(y + 1, k) <= n { NewtonNotBelow(n, k, x, y + 1); }
      x := y;
    }
  }

  lemma {:induction false} OneIsBelow(n: nat, k: nat)
    requires n > 0
    ensures Pow(1, k) <= n
  {
    if k > 0 { OneIsBelow(n, k - 1); assert Pow(1, k) == Pow(1, k - 1); }
  }

  /** Steps up while the next integer is still not above the root. */
  method Repair(n: nat, k: nat, low: nat) returns (x: nat)
    requires k > 0 && Pow(low, k) <= n
    ensures IsRoot(n, k, x)
    ensures n < Pow(low + 1, k) ==> x == low
  {
    x := low;
    while Pow(x + 1, k) <= n
      invariant Pow(x, k) <= n && x >= low
      invariant n < Pow(low + 1, k) ==> x == low
      decreases n + 1 - x
    {
      AboveItself(x + 1, k);
      x := x + 1;
    }
  }

  lemma {:induction false} AboveItself(x: nat, k: nat)
    requires k > 0
    ensures Pow(x, k) >= x
  {
    if k > 1 {
      AboveItself(x, k - 1);
      if x > 0 { MulMono(1, x, Pow(x, k - 1)); }
    } else {
      assert Pow(x, 1) == x;
    }
  }

  /** iroot: the seed stands for the floating-point estimate. */
  method Iroot(n: nat, k: nat, seed: nat) returns (x: nat)
    requires k >= 1 && seed > 0
    ensures IsRoot(n, k, x)
  {
    if k == 1 || n < 2 {
      SmallRoot(n, k);
      return n;
    }
    x := Descend(n, k, seed);
    x := Repair(n, k, x);
  }

  lemma {:induction false} SmallRoot(n: nat, k: nat)
    requires k >= 1 && (k == 1 || n < 2)
    ensures IsRoot(n, k, n)
  {
    if k == 1 {
      assert Pow(n, 1) == n && Pow(n + 1, 1) == n + 1;
    } else {
      SmallRoot(n, k - 1);
      assert Pow(n, k) == n * Pow(n, k - 1) && Pow(n + 1, k) == (n + 1) * Pow(n + 1, k - 1);
    }
  }
}
