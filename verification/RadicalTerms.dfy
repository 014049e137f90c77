/**
 Products of powers of integers with rational exponents, and how splitting the
 integers over a coprime base regroups them. Values are compared after raising
 to a power d that clears all denominators.
 */
module RadicalTerms {
  import opened Sequences
  import opened IntegerRoots
  import opened Divisibility
  import opened CoprimeBases
  import opened Rationals

  /** An integer and its exponent. */
  type Entry = (nat, Rat)

  predicate Cleared(d: nat, es: seq<Entry>) {
    forall k :: 0 <= k < |es| ==> es[k].0 > 0 && Clears(d, es[k].1)
  }

  ghost function EntryValue(d: nat, e: Entry): (r: real)
    requires e.0 > 0 && Clears(d, e.1)
    ensures r > 0.0
  {
    Power(e.0 as real, Scaled(d, e.1))
  }

  /** The d-th power of the product of the entries. */
  ghost function ValueOf(d: nat, es: seq<Entry>): (r: real)
    requires Cleared(d, es)
    ensures r > 0.0
  {
    if es == [] then 1.0 else Mul(EntryValue(d, es[0]), ValueOf(d, es[1..]))
  }

  lemma {:induction false} ValueSnoc(d: nat, es: seq<Entry>, e: Entry)
    requires Cleared(d, es) && e.0 > 0 && Clears(d, e.1)
    ensures Cleared(d, es + [e]) && ValueOf(d, es + [e]) == Mul(ValueOf(d, es), EntryValue(d, e))
  {
    hide EntryValue, Mul, Clears;
    var x := EntryValue(d, e);
    if es == [] {
      assert es + [e] == [e] && [e][1..] == [];
      MulOne(x);
    } else {
      ValueSnoc(d, es[1..], e);
      assert (es + [e])[1..] == es[1..] + [e];
      MulAssoc(EntryValue(d, es[0]), ValueOf(d, es[1..]), x);
    }
  }

  // ---- Multiplicities ----

  /** How often q divides n. */
  function Multiplicity(q: nat, n: nat): nat
    requires q > 1 && n > 0
    decreases n
  {
    if n % q == 0 then
      Quotient(q, n);
      Halved(q, n);
      1 + Multiplicity(q, n / q)
    else 0
  }

  lemma Halved(q: nat, n: nat)
    requires q > 1 && n > 0 && Divides(q, n)
    ensures 0 < n / q < n
  {
    Quotient(q, n);
    MulMono(2, q, n / q);
  }

  lemma {:induction false} MultiplicityOfCoprime(q: nat, a: nat, m: nat)
    requires q > 1 && a > 0 && m > 0 && Coprime(q, a) && m * a > 0
    ensures Multiplicity(q, m * a) == Multiplicity(q, m)
    decreases m
  {
    hide Coprime;
    if m % q == 0 {
      TakeOut(q, a, m);
      MultiplicityOfCoprime(q, a, m / q);
    } else if (m * a) % q == 0 {
      MultipleOfCoprime(q, a, m);
    }
  }

  lemma TakeOut(q: nat, a: nat, m: nat)
    requires q > 1 && a > 0 && m > 0 && m % q == 0
    ensures 0 < m / q < m && m / q * a > 0 && (m * a) % q == 0 && m * a / q == m / q * a
  {
    Quotient(q, m);
    Halved(q, m);
    MulMono(1, m / q, a);
    assert m * a == (m / q * a) * q;
    Multiple(q, m / q * a);
  }

  lemma MultipleOfCoprime(q: nat, a: nat, m: nat)
    requires q > 1 && Coprime(q, a) && (m * a) % q == 0
    ensures m % q == 0
  {
    assert m * a == a * m;
    CoprimeDivides(q, a, m);
  }

  lemma MultiplicityOfSelf(q: nat, m: nat)
    requires q > 1 && m > 0
    ensures m * q > 0 && Multiplicity(q, m * q) == Multiplicity(q, m) + 1
  {
    MulMono(1, m, q);
    Multiple(q, m);
  }

  /** The product of the powers of the first elements that divide n. */
  function PowerProduct(base: seq<nat>, n: nat): (r: nat)
    requires n > 0 && forall k :: 0 <= k < |base| ==> base[k] > 1
    ensures r > 0
  {
    if base == [] then 1
    else
      var a, b := PowerProduct(Init(base), n), Pow(Last(base), Multiplicity(Last(base), n));
      MulMono(1, a, b);
      a * b
  }

  ghost predicate AboveOne(base: seq<nat>) {
    forall k :: 0 <= k < |base| ==> base[k] > 1
  }

  /** Multiplying by an element multiplies the product of powers by it. */
  lemma {:induction false} PowerProductTimes(base: seq<nat>, n: nat, j: nat, whole: seq<nat>)
    requires AboveOne(whole) && PairwiseCoprime(whole) && base <= whole && j < |whole| && n > 0
    ensures n * whole[j] > 0
    ensures PowerProduct(base, n * whole[j]) == if j < |base| then PowerProduct(base, n) * whole[j] else PowerProduct(base, n)
    decreases |base|
  {
    var a := whole[j];
    MulMono(1, n, a);
    if base != [] {
      var i, q := |base| - 1, Last(base);
      assert q == whole[i];
      PowerProductTimes(Init(base), n, j, whole);
      var p := PowerProduct(Init(base), n);
      if i == j {
        MultiplicityOfSelf(q, n);
        PowStep(q, Multiplicity(q, n));
        Regroup(p, Pow(q, Multiplicity(q, n)), q);
      } else {
        CoprimeEither(whole, i, j);
        MultiplicityOfCoprime(q, a, n);
        Regroup(p, Pow(q, Multiplicity(q, n)), a);
      }
    }
  }

  lemma Regroup(p: nat, x: nat, q: nat)
    ensures p * (q * x) == p * x * q == p * q * x
  {
    assert p * (q * x) == (p * x) * q;
  }

  lemma CoprimeEither(base: seq<nat>, i: nat, j: nat)
    requires PairwiseCoprime(base) && AboveOne(base) && i < |base| && j < |base| && i != j
    ensures Coprime(base[i], base[j])
  {
    if j < i { CoprimeSymmetric(base[j], base[i]); }
  }

  lemma {:induction false} NoPowers(base: seq<nat>)
    requires AboveOne(base)
    ensures PowerProduct(base, 1) == 1
  {
    if base != [] {
      NoPowers(Init(base));
      assert Multiplicity(Last(base), 1) == 0;
      assert Pow(Last(base), 0) == 1;
    }
  }

  /** A number that a coprime base generates is the product of the base's powers that divide it. */
  lemma {:induction false} GeneratedIsPowerProduct(base: seq<nat>, factors: seq<nat>, n: nat)
    requires AboveOne(base) && PairwiseCoprime(base) && FactorsOf(base, factors, n)
    ensures n > 0 && PowerProduct(base, n) == n
    decreases |factors|
  {
    if factors == [] {
      NoPowers(base);
    } else {
      var u, a := Init(factors), Last(factors);
      assert FactorsOf(base, u, Product(u));
      GeneratedIsPowerProduct(base, u, Product(u));
      var j :| 0 <= j < |base| && base[j] == a;
      PowerProductTimes(base, Product(u), j, base);
    }
  }

  // ---- Exponents of the elements ----

  predicate PositiveEntries(es: seq<Entry>) {
    forall k :: 0 <= k < |es| ==> es[k].0 > 0 && es[k].1.den > 0
  }

  /** The exponent of element q in the product of the entries. */
  function TotalExponent(q: nat, es: seq<Entry>): (e: Rat)
    requires q > 1 && PositiveEntries(es)
    ensures e.den > 0
  {
    if es == [] then Rat(0, 1)
    else Add(TotalExponent(q, Init(es)), Times(Multiplicity(q, Last(es).0), Last(es).1))
  }

  lemma {:induction false} TotalScaled(d: nat, q: nat, es: seq<Entry>)
    requires q > 1 && Cleared(d, es) && d > 0
    ensures Clears(d, TotalExponent(q, es))
    ensures es == [] ==> Scaled(d, TotalExponent(q, es)) == 0
    ensures es != [] ==>
              && Clears(d, TotalExponent(q, Init(es)))
              && Scaled(d, TotalExponent(q, es))
                 == Scaled(d, TotalExponent(q, Init(es))) + Multiplicity(q, Last(es).0) * Scaled(d, Last(es).1)
  {
    if es == [] {
      Multiple(1, d);
    } else {
      TotalScaled(d, q, Init(es));
      ScaledTimes(d, Multiplicity(q, Last(es).0), Last(es).1);
      ScaledAdd(d, TotalExponent(q, Init(es)), Times(Multiplicity(q, Last(es).0), Last(es).1));
    }
  }

  /** The d-th power of the product of the elements, each with its exponent in the entries. */
  ghost function ElementsValue(d: nat, base: seq<nat>, es: seq<Entry>): (r: real)
    requires AboveOne(base) && Cleared(d, es) && d > 0
    ensures r > 0.0
  {
    if base == [] then 1.0
    else
      TotalScaled(d, Last(base), es);
      Mul(ElementsValue(d, Init(base), es), Power(Last(base) as real, Scaled(d, TotalExponent(Last(base), es))))
  }

  lemma {:induction false} NoEntries(d: nat, base: seq<nat>)
    requires AboveOne(base) && d > 0
    ensures ElementsValue(d, base, []) == 1.0
  {
    if base != [] {
      NoEntries(d, Init(base));
      TotalScaled(d, Last(base), []);
      PowerZero(Last(base) as real);
      MulOne(1.0);
    }
  }

  lemma {:induction false} OneEntryMore(d: nat, base: seq<nat>, es: seq<Entry>)
    requires AboveOne(base) && Cleared(d, es) && d > 0 && es != []
    ensures ElementsValue(d, base, es)
            == Mul(ElementsValue(d, base, Init(es)), Power(PowerProduct(base, Last(es).0) as real, Scaled(d, Last(es).1)))
  {
    hide Mul, Power, TotalExponent, Scaled, Multiplicity;
    var n, s := Last(es).0, Scaled(d, Last(es).1);
    if base == [] {
      PowerOne(s);
      MulOne(1.0);
    } else {
      var q := Last(base);
      OneEntryMore(d, Init(base), es);
      TotalScaled(d, q, es);
      var k, e := Multiplicity(q, n), Scaled(d, TotalExponent(q, Init(es)));
      PowerSum(q as real, e, k * s);
      PowerOfPow(q, k, s);
      RealOfProduct(PowerProduct(Init(base), n), Pow(q, k));
      PowerOfProduct(PowerProduct(Init(base), n) as real, Pow(q, k) as real, s);
      MulPair(ElementsValue(d, Init(base), Init(es)), Power(PowerProduct(Init(base), n) as real, s),
              Power(q as real, e), Power(Pow(q, k) as real, s));
    }
  }

  /** Regrouping the entries by the elements of a coprime base keeps their product. */
  lemma {:induction false} ElementsKeepValue(d: nat, base: seq<nat>, es: seq<Entry>)
    requires AboveOne(base) && PairwiseCoprime(base) && Cleared(d, es) && d > 0
    requires forall k :: 0 <= k < |es| ==> Generates(base, es[k].0)
    ensures ElementsValue(d, base, es) == ValueOf(d, es)
    decreases |es|
  {
    hide Mul, Power, Clears, Scaled, PairwiseCoprime;
    if es == [] {
      NoEntries(d, base);
    } else {
      var u, e := Init(es), Last(es);
      ElementsKeepValue(d, base, u);
      OneEntryMore(d, base, es);
      var factors :| FactorsOf(base, factors, e.0);
      GeneratedIsPowerProduct(base, factors, e.0);
      ValueSnoc(d, u, e);
      assert u + [e] == es;
    }
  }

  // ---- A sorted table of exponents ----

  /** exponents[b] += e. */
  function AddEntry(es: seq<Entry>, b: nat, e: Rat): (r: seq<Entry>)
    requires PositiveEntries(es) && b > 0 && e.den > 0
    ensures PositiveEntries(r)
    ensures forall k :: 0 <= k < |r| ==> r[k].0 == b || r[k] in es
  {
    if es == [] || b < es[0].0 then [(b, e)] + es
    else if es[0].0 == b then [(b, Add(es[0].1, e))] + es[1..]
    else
      var rest := AddEntry(es[1..], b, e);
      [es[0]] + rest
  }

  lemma {:induction false} AddEntryValue(d: nat, es: seq<Entry>, b: nat, e: Rat)
    requires Cleared(d, es) && b > 0 && Clears(d, e)
    ensures Cleared(d, AddEntry(es, b, e))
    ensures ValueOf(d, AddEntry(es, b, e)) == Mul(EntryValue(d, (b, e)), ValueOf(d, es))
  {
    hide Mul, Power, Scaled;
    var r := AddEntry(es, b, e);
    if es == [] || b < es[0].0 {
      assert r[1..] == es;
    } else if es[0].0 == b {
      assert r[1..] == es[1..];
      ScaledAdd(d, es[0].1, e);
      PowerSum(b as real, Scaled(d, es[0].1), Scaled(d, e));
      MulSwap(EntryValue(d, es[0]), EntryValue(d, (b, e)), 1.0);
      MulAssoc(EntryValue(d, (b, e)), EntryValue(d, es[0]), ValueOf(d, es[1..]));
    } else {
      AddEntryValue(d, es[1..], b, e);
      assert r[1..] == AddEntry(es[1..], b, e);
      MulSwap(EntryValue(d, (b, e)), EntryValue(d, es[0]), ValueOf(d, es[1..]));
    }
  }
}
