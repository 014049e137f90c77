/**
 How wide a product of powers can get: the widths of its integers, weighted with the exponents, bound the
 width of everything that is built from them.
 */
module RadicalWidths {
  import opened Sequences
  import opened IntegerRoots
  import opened Divisibility
  import opened CoprimeBases
  import opened Rationals
  import opened RadicalTerms
  import opened RadicalParts

  /** The width of the integer times the exponent, scaled by d. */
  ghost function Load(d: nat, e: Entry): nat
    requires Clears(d, e.1)
  {
    Msb(e.0) * Abs(Scaled(d, e.1))
  }

  ghost function Weight(d: nat, es: seq<Entry>): nat
    requires Cleared(d, es)
  {
    if es == [] then 0 else Load(d, es[0]) + Weight(d, es[1..])
  }

  lemma {:induction false} WeightSnoc(d: nat, es: seq<Entry>, e: Entry)
    requires Cleared(d, es) && e.0 > 0 && Clears(d, e.1)
    ensures Cleared(d, es + [e]) && Weight(d, es + [e]) == Weight(d, es) + Load(d, e)
  {
    hide Load, Clears;
    if es == [] {
      assert es + [e] == [e] && [e][1..] == [];
    } else {
      WeightSnoc(d, es[1..], e);
      assert (es + [e])[1..] == es[1..] + [e];
    }
  }

  lemma {:induction false} WeightPrefix(d: nat, es: seq<Entry>, k: nat)
    requires Cleared(d, es) && k <= |es|
    ensures Cleared(d, es[..k]) && Weight(d, es[..k]) <= Weight(d, es)
  {
    hide Load, Clears;
    if k > 0 {
      WeightPrefix(d, es[1..], k - 1);
      assert es[..k][1..] == es[1..][..k - 1];
    }
  }

  // ---- Widths of products and powers ----

  lemma {:induction false} TwoPowers(m: nat, n: nat)
    requires Pow(2, m) < Pow(2, n)
    ensures m < n
  {
    if n <= m { ExponentGrows(2, n, m); }
  }

  lemma {:induction false} ExponentGrows(b: nat, m: nat, n: nat)
    requires b > 0 && m <= n
    ensures Pow(b, m) <= Pow(b, n)
    decreases n
  {
    if m < n {
      ExponentGrows(b, m, n - 1);
      MulMono(1, b, Pow(b, n - 1));
    }
  }

  lemma MsbOfProduct(a: nat, b: nat)
    requires a > 0 && b > 0
    ensures a * b > 0 && Msb(a) + Msb(b) <= Msb(a * b)
  {
    hide Msb;
    MsbBounds(a);
    MsbBounds(b);
    MulMono(1, a, b);
    MsbBounds(a * b);
    PowSum(2, Msb(a), Msb(b));
    MulMono(Pow(2, Msb(a)), a, Pow(2, Msb(b)));
    MulMono(Pow(2, Msb(b)), b, a);
    TwoPowers(Msb(a) + Msb(b), Msb(a * b) + 1);
  }

  lemma {:induction false} MsbOfPower(b: nat, k: nat)
    requires b > 0
    ensures k * Msb(b) <= Msb(Pow(b, k))
  {
    hide Msb;
    if k > 0 {
      MsbOfPower(b, k - 1);
      MsbOfProduct(b, Pow(b, k - 1));
      assert k * Msb(b) == Msb(b) + (k - 1) * Msb(b);
    }
  }

  lemma MsbOfTwoOrMore(b: nat)
    requires b > 1
    ensures Msb(b) >= 1
  {
  }

  // ---- Weights of tables ----

  lemma AbsSum(a: int, b: int)
    ensures Abs(a + b) <= Abs(a) + Abs(b)
  {
  }

  lemma LoadSum(d: nat, b: nat, e: Rat, f: Rat)
    requires Clears(d, e) && Clears(d, f)
    ensures Clears(d, Add(e, f)) && Load(d, (b, Add(e, f))) <= Load(d, (b, e)) + Load(d, (b, f))
  {
    ScaledAdd(d, e, f);
    hide Scaled, Add, Msb, Abs;
    AbsSum(Scaled(d, e), Scaled(d, f));
    MulMono(Abs(Scaled(d, e) + Scaled(d, f)), Abs(Scaled(d, e)) + Abs(Scaled(d, f)), Msb(b));
    assert Msb(b) * (Abs(Scaled(d, e)) + Abs(Scaled(d, f))) == Msb(b) * Abs(Scaled(d, e)) + Msb(b) * Abs(Scaled(d, f));
  }

  lemma {:induction false} AddEntryWeight(d: nat, es: seq<Entry>, b: nat, e: Rat)
    requires Cleared(d, es) && b > 0 && Clears(d, e) && PositiveEntries(es) && e.den > 0
    ensures Cleared(d, AddEntry(es, b, e)) && Weight(d, AddEntry(es, b, e)) <= Weight(d, es) + Load(d, (b, e))
  {
    hide Load, Add, Clears;
    AddEntryValue(d, es, b, e);
    var r := AddEntry(es, b, e);
    if es == [] || b < es[0].0 {
      assert r[1..] == es;
    } else if es[0].0 == b {
      assert r[1..] == es[1..];
      LoadSum(d, b, es[0].1, e);
    } else {
      AddEntryWeight(d, es[1..], b, e);
      assert r[1..] == AddEntry(es[1..], b, e);
    }
  }

  /** A multiple of an exponent. */
  lemma LoadTimes(d: nat, b: nat, m: nat, e: Rat)
    requires Clears(d, e)
    ensures Clears(d, Times(m, e)) && Load(d, (b, Times(m, e))) == m * Msb(b) * Abs(Scaled(d, e))
  {
    ScaledTimes(d, m, e);
    AbsTimes(Scaled(d, e), m);
    hide Scaled, Times, Msb;
    var a, s := Msb(b), Abs(Scaled(d, e));
    assert m * Scaled(d, e) == Scaled(d, e) * m;
    assert a * (s * m) == m * a * s by { MulAssocInt(a, s, m); MulAssocInt(a, m, s); assert s * m == m * s && a * m == m * a; }
  }

  lemma ProductsWithin(x: nat, y: nat, z: nat, s: nat)
    requires x + y <= z
    ensures x * s + y * s <= z * s
  {
    MulMono(x + y, z, s);
  }

  /** Moving a power of q out of a factor does not add weight. */
  lemma SplitLoad(d: nat, c: nat, q: nat, m: nat, rest: nat, e: Rat)
    requires c > 0 && q > 0 && rest > 0 && c == Pow(q, m) * rest && Clears(d, e)
    ensures Clears(d, Times(m, e)) && Load(d, (q, Times(m, e))) + Load(d, (rest, e)) <= Load(d, (c, e))
  {
    hide Scaled, Times, Msb, Pow, Abs, Clears;
    LoadTimes(d, q, m, e);
    MsbOfPower(q, m);
    MsbOfProduct(Pow(q, m), rest);
    ProductsWithin(m * Msb(q), Msb(rest), Msb(c), Abs(Scaled(d, e)));
  }

  /** A root with the exponent multiplied weighs no more. */
  lemma RootLoad(d: nat, c: nat, r: nat, k: nat, e: Rat)
    requires c > 0 && r > 0 && Pow(r, k) == c && Clears(d, e)
    ensures Clears(d, Times(k, e)) && Load(d, (r, Times(k, e))) <= Load(d, (c, e))
  {
    LoadTimes(d, r, k, e);
    MsbOfPower(r, k);
    hide Scaled, Times, Msb;
    MulMono(k * Msb(r), Msb(c), Abs(Scaled(d, e)));
  }

  // ---- Weights over a coprime base ----

  ghost function ElementsWeight(d: nat, base: seq<nat>, es: seq<Entry>): nat
    requires AboveOne(base) && Cleared(d, es) && d > 0
  {
    if base == [] then 0
    else
      TotalScaled(d, Last(base), es);
      ElementsWeight(d, Init(base), es) + Load(d, (Last(base), TotalExponent(Last(base), es)))
  }

  /** Width of the elements in n, with multiplicity. */
  ghost function ElementsWidth(base: seq<nat>, n: nat): nat
    requires AboveOne(base) && n > 0
  {
    if base == [] then 0 else ElementsWidth(Init(base), n) + Multiplicity(Last(base), n) * Msb(Last(base))
  }

  lemma {:induction false} WidthWithin(base: seq<nat>, n: nat)
    requires AboveOne(base) && n > 0
    ensures ElementsWidth(base, n) <= Msb(PowerProduct(base, n))
  {
    hide Msb, Multiplicity;
    if base != [] {
      WidthWithin(Init(base), n);
      var q := Last(base);
      MsbOfPower(q, Multiplicity(q, n));
      MsbOfProduct(PowerProduct(Init(base), n), Pow(q, Multiplicity(q, n)));
    }
  }

  lemma {:induction false} NoEntriesWeight(d: nat, base: seq<nat>)
    requires AboveOne(base) && d > 0
    ensures ElementsWeight(d, base, []) == 0
  {
    hide Msb;
    if base != [] {
      NoEntriesWeight(d, Init(base));
      TotalScaled(d, Last(base), []);
    }
  }

  lemma TotalLoad(d: nat, q: nat, es: seq<Entry>)
    requires q > 1 && Cleared(d, es) && d > 0 && es != []
    ensures Clears(d, TotalExponent(q, es)) && Clears(d, TotalExponent(q, Init(es)))
    ensures Load(d, (q, TotalExponent(q, es)))
            <= Load(d, (q, TotalExponent(q, Init(es)))) + Multiplicity(q, Last(es).0) * Msb(q) * Abs(Scaled(d, Last(es).1))
  {
    hide Scaled, Multiplicity, Msb, Abs, Load, Add, Times;
    TotalScaled(d, q, es);
    var m, e := Multiplicity(q, Last(es).0), Last(es).1;
    LoadTimes(d, q, m, e);
    LoadSum(d, q, TotalExponent(q, Init(es)), Times(m, e));
  }

  lemma {:induction false} OneEntryWeight(d: nat, base: seq<nat>, es: seq<Entry>)
    requires AboveOne(base) && Cleared(d, es) && d > 0 && es != []
    ensures ElementsWeight(d, base, es)
            <= ElementsWeight(d, base, Init(es)) + ElementsWidth(base, Last(es).0) * Abs(Scaled(d, Last(es).1))
  {
    hide Load, TotalExponent, Scaled, Multiplicity, Msb, Clears;
    var n, s := Last(es).0, Abs(Scaled(d, Last(es).1));
    if base == [] {
    } else {
      var q := Last(base);
      OneEntryWeight(d, Init(base), es);
      TotalLoad(d, q, es);
      var m := Multiplicity(q, n) * Msb(q);
      assert (ElementsWidth(Init(base), n) + m) * s == ElementsWidth(Init(base), n) * s + m * s;
    }
  }

  /** Collecting exponents by the elements of a coprime base does not add weight. */
  lemma {:induction false} ElementsWeigh(d: nat, base: seq<nat>, es: seq<Entry>)
    requires AboveOne(base) && PairwiseCoprime(base) && Cleared(d, es) && d > 0
    requires forall k :: 0 <= k < |es| ==> Generates(base, es[k].0)
    ensures ElementsWeight(d, base, es) <= Weight(d, es)
    decreases |es|
  {
    hide Clears, Scaled, PairwiseCoprime, Msb, ElementsWidth;
    if es == [] {
      NoEntriesWeight(d, base);
    } else {
      var u, e := Init(es), Last(es);
      ElementsWeigh(d, base, u);
      OneEntryWeight(d, base, es);
      var factors :| FactorsOf(base, factors, e.0);
      GeneratedIsPowerProduct(base, factors, e.0);
      WidthWithin(base, e.0);
      MulMono(ElementsWidth(base, e.0), Msb(e.0), Abs(Scaled(d, e.1)));
      WeightSnoc(d, u, e);
      assert u + [e] == es;
    }
  }

  lemma {:induction false} ElementsWeightPrefix(d: nat, base: seq<nat>, es: seq<Entry>, k: nat)
    requires AboveOne(base) && Cleared(d, es) && d > 0 && k <= |base|
    ensures ElementsWeight(d, base[..k], es) <= ElementsWeight(d, base, es)
    decreases |base|
  {
    hide Load, Clears, TotalExponent;
    if k == |base| {
      assert base[..k] == base;
    } else {
      ElementsWeightPrefix(d, Init(base), es, k);
      assert Init(base)[..k] == base[..k];
    }
  }

  // ---- What the bits of a part are bounded by ----

  /** The bound on the width of a power is at most twice its load if the exponent is at most the scaled one. */
  lemma BitsWithin(b: nat, n: nat, s: nat)
    requires b > 1 && n <= s
    ensures Bits(b, n) <= 2 * (Msb(b) * s)
  {
    MsbOfTwoOrMore(b);
    TwiceWithin(n, Msb(b), s);
  }

  lemma TwiceWithin(n: nat, m: nat, s: nat)
    requires n <= s && m >= 1
    ensures n * (m + 1) <= 2 * (m * s)
  {
    MulMono(n, s, m);
    MulMono(1, m, n);
    assert n * (m + 1) == n * m + n;
  }

  /** The integer part of an exponent is no larger than the scaled exponent. */
  lemma IntegerPartWithin(d: nat, e: Rat)
    requires Clears(d, e) && d > 0
    ensures Abs(IntegerPart(e)) <= Abs(Scaled(d, e))
  {
    hide Scaled, FractionalPart, IntegerPart, Clears;
    FractionFacts(d, e);
    FractionBelow(d, FractionalPart(e));
    FloorWithin(IntegerPart(e), d, Scaled(d, e));
  }

  lemma FloorWithin(n: int, d: nat, s: int)
    requires d > 0 && n * d <= s < n * d + d
    ensures Abs(n) <= Abs(s)
  {
    if n >= 0 {
      MulMono(1, d, n);
    } else {
      MulMono(1, d, -n - 1);
      assert (-n - 1) * d == -(n * d) - d;
    }
  }

  /** A fraction, scaled, is between 0 and d. */
  lemma FractionBelow(d: nat, f: Rat)
    requires Clears(d, f) && d > 0 && 0 <= f.num < f.den
    ensures 0 <= Scaled(d, f) < d
  {
    Quotient(f.den, d);
    QuotientPositive(d, f.den);
    var q := d / f.den;
    MulOrder(f.num, f.den, q);
    MulMono(0, f.num, q);
    assert f.den * q == q * f.den;
  }

  /** The fractional part of an exponent weighs at most d times the exponent. */
  lemma FractionLoad(d: nat, b: nat, e: Rat)
    requires Clears(d, e) && d > 0
    ensures Clears(d, FractionalPart(e))
    ensures FractionalPart(e).num != 0 ==> Load(d, (b, FractionalPart(e))) <= d * Load(d, (b, e))
  {
    FractionFacts(d, e);
    FractionBelow(d, FractionalPart(e));
    if Scaled(d, e) == 0 { ZeroHasNoFraction(d, e); }
    hide Scaled, FractionalPart, IntegerPart, Msb;
    var s, f, m := Abs(Scaled(d, e)), Abs(Scaled(d, FractionalPart(e))), Msb(b);
    if FractionalPart(e).num != 0 {
      MulMono(1, s, d);
      MulMono(f, s * d, m);
      assert m * (s * d) == d * (m * s) by { MulAssocInt(m, s, d); assert (m * s) * d == d * (m * s); }
    }
  }

  lemma ZeroHasNoFraction(d: nat, e: Rat)
    requires Clears(d, e) && d > 0 && Scaled(d, e) == 0
    ensures FractionalPart(e).num == 0
  {
    ScaledIs(d, e);
    FractionFacts(d, e);
    var f, n := FractionalPart(e), IntegerPart(e);
    FractionBelow(d, f);
    ScaledIs(d, f);
    assert d * e.num == 0;
    assert e.num == 0;
    assert n == 0;
    assert Scaled(d, f) == 0;
    assert d * f.num == 0;
  }
}
