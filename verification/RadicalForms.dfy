/**
 The simplest radical form of a product of rational powers, assembled from the table of exponents within a budget
 of bits.
 */
module RadicalForms {
  import opened Sequences
  import opened IntegerRoots
  import opened Divisibility
  import opened CoprimeBases
  import opened Rationals
  import opened RadicalTerms
  import opened RadicalParts
  import opened RadicalWidths
  import opened Primes
  import opened PowerRoots
  import opened RadicalKeys
  import opened RadicalTables

  /** rational * radicand^(1 / rootOrder). */
  datatype RadicalForm = RadicalForm(rational: Rat, radicand: nat, rootOrder: nat)

  datatype Outcome = Form(form: RadicalForm) | TooLarge | NotPositive

  /** The d-th power of the value of a form whose root order divides d. */
  ghost function FormValue(d: nat, form: RadicalForm): real
    requires PositiveRat(form.rational) && form.radicand > 0 && Divides(form.rootOrder, d)
  {
    RealOfPositive(form.rational);
    Mul(Power(RealOf(form.rational), d), Power(form.radicand as real, d / form.rootOrder))
  }

  /** No root of the radicand would do with a smaller order. */
  ghost predicate Reduced(form: RadicalForm) {
    forall k: nat :: k >= 2 && Divides(k, form.rootOrder) ==> !IsPower(form.radicand, k)
  }

  /** Nothing can be taken out of the root. */
  ghost predicate PowerFree(form: RadicalForm) {
    forall p: nat :: Prime(p) ==> !Divides(Pow(p, form.rootOrder), form.radicand)
  }

  // ---- The bits a table demands ----

  /** Width of key times whole power, summed over the entries that multiply the numerator. */
  function NumeratorBits(es: seq<Entry>): nat
    requires PositiveEntries(es)
  {
    if es == [] then 0
    else
      var n := IntegerPart(Last(es).1);
      NumeratorBits(Init(es)) + if n > 0 then n * (Msb(Last(es).0) + 1) else 0
  }

  /** The same for the denominator. */
  function DenominatorBits(es: seq<Entry>): nat
    requires PositiveEntries(es)
  {
    if es == [] then 0
    else
      var n := IntegerPart(Last(es).1);
      DenominatorBits(Init(es)) + if n < 0 then -n * (Msb(Last(es).0) + 1) else 0
  }

  /** What is left of the entries under the root. */
  function FractionalParts(es: seq<Entry>): (r: seq<Entry>)
    requires PositiveEntries(es)
    ensures PositiveEntries(r)
  {
    if es == [] then []
    else
      var f := FractionalPart(Last(es).1);
      FractionalParts(Init(es)) + if f.num != 0 then [(Last(es).0, f)] else []
  }

  /** The least common multiple of the denominators. */
  function CommonOrder(rts: seq<Entry>): (r: nat)
    requires PositiveEntries(rts)
    ensures r > 0
  {
    if rts == [] then 1
    else
      LcmPositive(CommonOrder(Init(rts)), Last(rts).1.den);
      Lcm(CommonOrder(Init(rts)), Last(rts).1.den)
  }

  lemma LcmPositive(a: nat, b: nat)
    requires a > 0 && b > 0
    ensures Lcm(a, b) > 0
  {
    GcdDivides(a, b);
    DivisorBound(Gcd(a, b), a);
    Quotient(Gcd(a, b), a);
    if a / Gcd(a, b) >= 1 { MulMono(1, a / Gcd(a, b), b); }
  }

  function RadicandBits(rts: seq<Entry>, order: nat): nat
    requires PositiveEntries(rts)
  {
    if rts == [] then 0
    else RadicandBits(Init(rts), order) + Abs(Last(rts).1.num * (order / Last(rts).1.den)) * (Msb(Last(rts).0) + 1)
  }

  /** No element alone and none of the three numbers of the form demands more bits than allowed. */
  ghost predicate WithinBudget(base: seq<nat>, terms: seq<Entry>, table: seq<Entry>, maxBits: nat)
    requires PositiveEntries(terms) && PositiveEntries(table) && AboveOne(base)
  {
    && (forall k :: 0 <= k < |base| ==> WholeFits(base[k], terms, maxBits))
    && NumeratorBits(table) <= maxBits && DenominatorBits(table) <= maxBits
    && RadicandBits(FractionalParts(table), CommonOrder(FractionalParts(table))) <= maxBits
  }

  lemma NoBits()
    ensures NumeratorBits([]) == DenominatorBits([]) == 0 && FractionalParts([]) == [] && CommonOrder([]) == 1
    ensures forall order :: RadicandBits([], order) == 0
  {
  }

  /** What one more entry demands. */
  lemma MoreBits(es: seq<Entry>, k: nat)
    requires PositiveEntries(es) && k < |es|
    ensures PositiveEntries(es[..k]) && PositiveEntries(es[..k + 1])
    ensures var b, n, f := es[k].0, IntegerPart(es[k].1), FractionalPart(es[k].1);
            var more := FractionalParts(es[..k]) + if f.num != 0 then [(b, f)] else [];
            && NumeratorBits(es[..k + 1]) == NumeratorBits(es[..k]) + (if n > 0 then Bits(b, n) else 0)
            && DenominatorBits(es[..k + 1]) == DenominatorBits(es[..k]) + (if n < 0 then Bits(b, -n) else 0)
            && FractionalParts(es[..k + 1]) == more
            && CommonOrder(more) == if f.num != 0 then Lcm(CommonOrder(FractionalParts(es[..k])), f.den) else CommonOrder(FractionalParts(es[..k]))
  {
    hide IntegerPart, FractionalPart, Msb, Lcm;
    var u := es[..k + 1];
    assert Init(u) == es[..k] && Last(u) == es[k];
    var f, rts := FractionalPart(es[k].1), FractionalParts(es[..k]);
    if f.num != 0 { assert Init(rts + [(es[k].0, f)]) == rts; } else { assert rts + [] == rts; }
  }

  lemma {:induction false} BitsGrow(es: seq<Entry>, k: nat)
    requires PositiveEntries(es) && k <= |es|
    ensures PositiveEntries(es[..k]) && NumeratorBits(es[..k]) <= NumeratorBits(es) && DenominatorBits(es[..k]) <= DenominatorBits(es)
    decreases |es| - k
  {
    hide NumeratorBits, DenominatorBits, FractionalParts, CommonOrder, IntegerPart, FractionalPart, Bits;
    if k < |es| {
      BitsGrow(es, k + 1);
      MoreBits(es, k);
    } else {
      assert es[..k] == es;
    }
  }

  lemma MoreRadicandBits(rts: seq<Entry>, order: nat, k: nat)
    requires PositiveEntries(rts) && k < |rts| && RadicandExponent(rts[k], order) >= 0
    ensures PositiveEntries(rts[..k]) && PositiveEntries(rts[..k + 1])
    ensures RadicandBits(rts[..k + 1], order) == RadicandBits(rts[..k], order) + Bits(rts[k].0, RadicandExponent(rts[k], order))
  {
    hide Msb;
    assert Init(rts[..k + 1]) == rts[..k] && Last(rts[..k + 1]) == rts[k];
  }

  lemma {:induction false} RadicandBitsGrow(rts: seq<Entry>, order: nat, k: nat)
    requires PositiveEntries(rts) && k <= |rts|
    ensures PositiveEntries(rts[..k]) && RadicandBits(rts[..k], order) <= RadicandBits(rts, order)
    decreases |rts| - k
  {
    if k < |rts| {
      RadicandBitsGrow(rts, order, k + 1);
      assert Init(rts[..k + 1]) == rts[..k];
    } else {
      assert rts[..k] == rts;
    }
  }

  // ---- Assembly ----

  /** The terms of the radicand found so far, and what keeps them apart from the keys to come. */
  ghost predicate RadicandTerms(rts: seq<Entry>, es: seq<Entry>, k: nat, order: nat, trial: nat, d: nat) {
    && Cleared(d, rts) && KeysApart(rts) && order > 0 && Divides(order, d)
    && (forall i :: 0 <= i < |rts| ==> ProperPart(rts[i], order, trial))
    && (forall j :: k <= j < |es| ==> KeysCoprimeTo(rts, es[j].0))
    && (order == 1 <==> rts == []) && LeastOrder(rts, order)
  }

  /** A fractional exponent whose denominator divides the root order. */
  ghost predicate ProperPart(t: Entry, order: nat, trial: nat) {
    0 < t.1.num < t.1.den && Divides(t.1.den, order) && Tried(t.0, trial) && Normal(t.1)
  }

  /** Every common multiple of the denominators is a multiple of the order. */
  ghost predicate LeastOrder(rts: seq<Entry>, order: nat) {
    forall x: nat :: x > 0 && (forall i :: 0 <= i < |rts| ==> Divides(rts[i].1.den, x)) ==> Divides(order, x)
  }

  /** The rational part and the terms of the radicand; refused if the rational part outgrows the budget. */
  method SplitExponents(es: seq<Entry>, trial: nat, maxBits: nat, ghost d: nat)
      returns (ok: bool, rational: Rat, rts: seq<Entry>, order: nat)
    requires TableOk(es, trial) && Cleared(d, es) && d > 0
    ensures ok ==> PositiveRat(rational) && WithinBits(rational.num, maxBits) && WithinBits(rational.den, maxBits)
    ensures ok ==> RadicandTerms(rts, es, |es|, order, trial, d) && RealOf(rational) > 0.0
    ensures ok ==> ValueOf(d, es) == Mul(Power(RealOf(rational), d), ValueOf(d, rts))
    ensures ok ==> Normal(rational) && Weight(d, rts) <= d * Weight(d, es)
    ensures ok && KeysSquareFree(es) ==> forall i :: 0 <= i < |rts| ==> SquareFree(rts[i].0)
    ensures !ok ==> maxBits < 2 * Weight(d, es)
    ensures PositiveEntries(es) && (ok <==> NumeratorBits(es) <= maxBits && DenominatorBits(es) <= maxBits)
    ensures ok ==> rts == FractionalParts(es) && order == CommonOrder(rts)
  {
    hide Normal, Weight, KeysSquareFree, SquareFree, TableOk, Cleared, ValueOf, RadicandTerms, Mul, Power, RealOf, WithinBits, Absorb, IntegerPart, FractionalPart, Lcm, Bits, Divides, Clears, NumeratorBits,
         DenominatorBits, FractionalParts, CommonOrder;
    ok, rational, rts, order := true, Rat(1, 1), [], 1;
    var numeratorBits: nat, denominatorBits: nat := 0, 0;
    StartParts(d, es, trial);
    StartWeights(d, es);
    TablePositive(es, trial);
    NoBits();
    assert es[..0] == [];
    for k := 0 to |es|
      invariant PositiveRat(rational) && RealOf(rational) > 0.0 && Cleared(d, es[..k])
      invariant PositiveEntries(es[..k]) && numeratorBits == NumeratorBits(es[..k]) && denominatorBits == DenominatorBits(es[..k])
      invariant rts == FractionalParts(es[..k]) && order == CommonOrder(rts)
      invariant numeratorBits <= maxBits && denominatorBits <= maxBits
      invariant WithinBits(rational.num, numeratorBits) && WithinBits(rational.den, denominatorBits)
      invariant RadicandTerms(rts, es, k, order, trial, d)
      invariant Normal(rational) && Cleared(d, rts) && Weight(d, rts) <= d * Weight(d, es[..k])
      invariant numeratorBits <= 2 * Weight(d, es[..k]) && denominatorBits <= 2 * Weight(d, es[..k])
      invariant KeysSquareFree(es) ==> forall i :: 0 <= i < |rts| ==> SquareFree(rts[i].0)
      invariant Cleared(d, rts) && ValueOf(d, es[..k]) == Mul(Power(RealOf(rational), d), ValueOf(d, rts))
    {
      var b, e := es[k].0, es[k].1;
      EntryFacts(d, es, trial, k);
      MoreBits(es, k);
      BitsGrow(es, k + 1);
      PartWeights(d, es, k, rts);
      var n := IntegerPart(e);
      StaysNormal(rational, b, n);
      if n > 0 {
        numeratorBits := numeratorBits + Bits(b, n);
        if numeratorBits > maxBits { return false, rational, rts, order; }
        AbsorbBits(rational, b, n, numeratorBits - Bits(b, n), denominatorBits);
      } else if n < 0 {
        denominatorBits := denominatorBits + Bits(b, -n);
        if denominatorBits > maxBits { return false, rational, rts, order; }
        AbsorbBits(rational, b, n, numeratorBits, denominatorBits - Bits(b, -n));
      } else {
        AbsorbNothing(rational, b);
      }
      var f := FractionalPart(e);
      PartStep(d, es, k, trial, rational, rts, order);
      ghost var before := rts;
      AbsorbValue(d, rational, b, n);
      rational := Absorb(rational, b, n);
      if f.num != 0 {
        PartSquareFree(es, k);
        rts := rts + [(b, f)];
        order := Lcm(order, f.den);
      }
    }
    assert es[..|es|] == es;
    WithinFewer(rational.num, rational.num, numeratorBits, maxBits);
    WithinFewer(rational.den, rational.den, denominatorBits, maxBits);
  }

  lemma TablePositive(es: seq<Entry>, trial: nat)
    requires TableOk(es, trial)
    ensures PositiveEntries(es)
  {
  }

  lemma StartWeights(d: nat, es: seq<Entry>)
    requires Cleared(d, es)
    ensures Normal(Rat(1, 1)) && Cleared(d, es[..0]) && Weight(d, es[..0]) == 0 && Cleared(d, []) && Weight(d, []) == 0
  {
    assert es[..0] == [];
    CoprimeToOne(1);
  }

  lemma StaysNormal(r: Rat, b: nat, n: int)
    requires PositiveRat(r) && Normal(r) && b > 0
    ensures Normal(Absorb(r, b, n))
  {
    hide Pow, Coprime;
    if n > 0 {
      LowestCoprime(r.num * Pow(b, n), r.den);
    } else if n < 0 {
      MulMono(1, r.den, Pow(b, -n));
      LowestCoprime(r.num, r.den * Pow(b, -n));
    }
  }

  lemma PartSquareFree(es: seq<Entry>, k: nat)
    requires k < |es| && es[k].1.den > 0 && FractionalPart(es[k].1).num != 0
    ensures KeysSquareFree(es) ==> SquareFree(es[k].0)
  {
    hide SquareFree, FractionalPart;
    if es[k].1.den == 1 { WholeHasNoFraction(es[k].1); }
  }

  /** What one entry adds to the bits of the rational part and to the weight of the radicand. */
  lemma PartWeights(d: nat, es: seq<Entry>, k: nat, rts: seq<Entry>)
    requires Cleared(d, es) && k < |es| && d > 0 && es[k].0 > 1 && es[k].1.den > 0 && Cleared(d, rts)
    requires Cleared(d, es[..k]) && Weight(d, rts) <= d * Weight(d, es[..k])
    ensures var b, n, f := es[k].0, IntegerPart(es[k].1), FractionalPart(es[k].1);
            && Cleared(d, es[..k + 1]) && Weight(d, es[..k + 1]) <= Weight(d, es)
            && (n > 0 ==> Weight(d, es[..k + 1]) * 2 >= Weight(d, es[..k]) * 2 + Bits(b, n))
            && (n < 0 ==> Weight(d, es[..k + 1]) * 2 >= Weight(d, es[..k]) * 2 + Bits(b, -n))
            && Weight(d, es[..k]) <= Weight(d, es[..k + 1])
            && (f.num != 0 ==> Cleared(d, rts + [(b, f)]) && Weight(d, rts + [(b, f)]) <= d * Weight(d, es[..k + 1]))
            && Weight(d, rts) <= d * Weight(d, es[..k + 1])
  {
    hide Weight, Load, IntegerPart, FractionalPart, Scaled, Clears, Bits;
    var b, e := es[k].0, es[k].1;
    assert Clears(d, e);
    WeightSnoc(d, es[..k], es[k]);
    assert es[..k + 1] == es[..k] + [es[k]];
    WeightPrefix(d, es, k + 1);
    IntegerPartWithin(d, e);
    BitsOfPart(d, b, e);
    FractionLoad(d, b, e);
    var w, v, x := Weight(d, rts), Weight(d, es[..k]), Load(d, es[k]);
    assert d * (v + x) == d * v + d * x;
    MulMono(0, d, x);
    if FractionalPart(e).num != 0 { WeightSnoc(d, rts, (b, FractionalPart(e))); }
  }

  lemma BitsOfPart(d: nat, b: nat, e: Rat)
    requires Clears(d, e) && d > 0 && b > 1
    ensures Bits(b, Abs(IntegerPart(e))) <= 2 * Load(d, (b, e))
  {
    hide IntegerPart, Scaled, Bits;
    IntegerPartWithin(d, e);
    BitsWithin(b, Abs(IntegerPart(e)), Abs(Scaled(d, e)));
  }

  lemma StartParts(d: nat, es: seq<Entry>, trial: nat)
    requires Cleared(d, es) && d > 0
    ensures RealOf(Rat(1, 1)) > 0.0 && WithinBits(1, 0) && RadicandTerms([], es, 0, 1, trial, d)
    ensures Cleared(d, es[..0]) && Cleared(d, []) && ValueOf(d, es[..0]) == Mul(Power(RealOf(Rat(1, 1)), d), ValueOf(d, []))
  {
    Multiple(1, d);
    assert RealOf(Rat(1, 1)) == 1.0;
    PowerOne(d);
    MulOne(1.0);
    assert es[..0] == [];
  }

  lemma EntryFacts(d: nat, es: seq<Entry>, trial: nat, k: nat)
    requires TableOk(es, trial) && Cleared(d, es) && k < |es|
    ensures es[k].0 > 1 && Clears(d, es[k].1) && es[k].1.den > 0
    ensures es[k].1.den == 1 || Tried(es[k].0, trial)
    ensures Cleared(d, es[..k + 1])
  {
  }

  lemma AbsorbBits(r: Rat, b: nat, n: int, x: nat, y: nat)
    requires PositiveRat(r) && b > 0 && n != 0 && WithinBits(r.num, x) && WithinBits(r.den, y)
    ensures PositiveRat(Absorb(r, b, n))
    ensures WithinBits(Absorb(r, b, n).num, if n > 0 then x + Bits(b, n) else x)
    ensures WithinBits(Absorb(r, b, n).den, if n < 0 then y + Bits(b, -n) else y)
  {
    hide WithinBits, Bits, TimesInt, OverInt, Pow, RealOf, Mul;
    if n > 0 {
      PowWithinBits(b, n);
      TimesIntReal(r, Pow(b, n));
      ProductWithinBits(r.num, x, Pow(b, n), Bits(b, n));
      WithinFewer(TimesInt(r, Pow(b, n)).num, r.num * Pow(b, n), x + Bits(b, n), x + Bits(b, n));
      WithinFewer(TimesInt(r, Pow(b, n)).den, r.den, y, y);
    } else {
      PowWithinBits(b, -n);
      OverIntReal(r, Pow(b, -n));
      ProductWithinBits(r.den, y, Pow(b, -n), Bits(b, -n));
      WithinFewer(OverInt(r, Pow(b, -n)).den, r.den * Pow(b, -n), y + Bits(b, -n), y + Bits(b, -n));
      WithinFewer(OverInt(r, Pow(b, -n)).num, r.num, x, x);
    }
  }

  lemma AbsorbNothing(r: Rat, b: nat)
    requires PositiveRat(r) && b > 0
    ensures Absorb(r, b, 0) == r
  {
  }

  /** One entry split into its integer and fractional parts. */
  lemma PartStep(d: nat, es: seq<Entry>, k: nat, trial: nat, r: Rat, rts: seq<Entry>, order: nat)
    requires k < |es| && TableOk(es, trial) && Cleared(d, es) && Cleared(d, es[..k]) && d > 0 && es[k].1.den > 0 && es[k].0 > 1
    requires Clears(d, es[k].1) && (es[k].1.den == 1 || Tried(es[k].0, trial)) && Cleared(d, es[..k + 1])
    requires RadicandTerms(rts, es, k, order, trial, d) && Cleared(d, rts) && PositiveRat(r) && RealOf(r) > 0.0
    requires ValueOf(d, es[..k]) == Mul(Power(RealOf(r), d), ValueOf(d, rts))
    ensures var n, f := IntegerPart(es[k].1), FractionalPart(es[k].1);
            var more := if f.num != 0 then rts + [(es[k].0, f)] else rts;
            && order > 0 && f.den > 0 && RadicandTerms(more, es, k + 1, if f.num != 0 then Lcm(order, f.den) else order, trial, d)
            && Cleared(d, more) && PositiveRat(Absorb(r, es[k].0, n)) && RealOf(Absorb(r, es[k].0, n)) > 0.0
            && ValueOf(d, es[..k + 1]) == Mul(Power(RealOf(Absorb(r, es[k].0, n)), d), ValueOf(d, more))
  {
    hide Mul, Power, ValueOf, RealOf, Absorb, Scaled, FractionalPart, IntegerPart, RadicandTerms, TableOk, Tried;
    var b, e := es[k].0, es[k].1;
    var n, f := IntegerPart(e), FractionalPart(e);
    FractionFacts(d, e);
    AbsorbValue(d, r, b, n);
    ValueSnoc(d, es[..k], es[k]);
    assert es[..k + 1] == es[..k] + [es[k]];
    PowerSum(b as real, n * d, Scaled(d, f));
    var x, y, z, v := Power(RealOf(r), d), Power(b as real, n * d), Power(b as real, Scaled(d, f)), ValueOf(d, rts);
    SplitProduct4(x, v, y, z);
    if f.num != 0 {
      ValueSnoc(d, rts, (b, f));
      AddPart(d, es, k, trial, rts, order, f);
    } else {
      ZeroScaled(d, f);
      PowerZero(b as real);
      MulOne(v);
      NoPart(d, es, k, trial, rts, order);
    }
  }

  lemma SplitProduct4(x: real, v: real, y: real, z: real)
    ensures Mul(Mul(x, v), Mul(y, z)) == Mul(Mul(x, y), Mul(v, z))
  {
    MulPair(x, v, y, z);
  }

  lemma ZeroScaled(d: nat, f: Rat)
    requires Clears(d, f) && f.num == 0
    ensures Scaled(d, f) == 0
  {
  }

  lemma NoPart(d: nat, es: seq<Entry>, k: nat, trial: nat, rts: seq<Entry>, order: nat)
    requires RadicandTerms(rts, es, k, order, trial, d)
    ensures RadicandTerms(rts, es, k + 1, order, trial, d) && order > 0 && Cleared(d, rts)
  {
  }

  /** An integer exponent has no fractional part. */
  lemma WholeHasNoFraction(e: Rat)
    requires e.den == 1
    ensures FractionalPart(e).num == 0
  {
    var n := IntegerPart(e);
    assert n == e.num;
    assert e.num * 1 + -n * 1 == 0;
    LowestExact(0, 1);
  }

  lemma AddPart(d: nat, es: seq<Entry>, k: nat, trial: nat, rts: seq<Entry>, order: nat, f: Rat)
    requires k < |es| && TableOk(es, trial) && Cleared(d, es) && d > 0 && es[k].0 > 1 && RadicandTerms(rts, es, k, order, trial, d)
    requires es[k].1.den == 1 || Tried(es[k].0, trial)
    requires es[k].1.den > 0 && f == FractionalPart(es[k].1) && f.num != 0 && 0 <= f.num < f.den && Clears(d, f)
    ensures order > 0 && RadicandTerms(rts + [(es[k].0, f)], es, k + 1, Lcm(order, f.den), trial, d)
  {
    if es[k].1.den == 1 { WholeHasNoFraction(es[k].1); }
    LcmFacts(order, f.den, d);
    var b, more, lcm := es[k].0, rts + [(es[k].0, f)], Lcm(order, f.den);
    hide Lcm, Tried, Coprime, Divides, FractionalPart;
    PartsStay(rts, order, lcm, trial);
    AboveOneLcm(f.den, lcm);
    AppendKey(rts, es, k, f, trial);
    FractionNormal(es[k].1);
    StillLeast(rts, order, (b, f));
    forall i | 0 <= i < |more| ensures ProperPart(more[i], lcm, trial) {
      if i < |rts| { assert more[i] == rts[i]; }
    }
  }

  lemma FractionNormal(e: Rat)
    requires e.den > 0
    ensures Normal(FractionalPart(e))
  {
    var r := Rat(-IntegerPart(e), 1);
    MulMono(1, e.den, r.den);
    LowestCoprime(e.num * r.den + r.num * e.den, e.den * r.den);
  }

  lemma StillLeast(rts: seq<Entry>, order: nat, t: Entry)
    requires LeastOrder(rts, order) && order > 0 && t.1.den > 0
    ensures LeastOrder(rts + [t], Lcm(order, t.1.den))
  {
    var more := rts + [t];
    hide Lcm, Divides;
    forall x: nat | x > 0 && forall i :: 0 <= i < |more| ==> Divides(more[i].1.den, x) ensures Divides(Lcm(order, t.1.den), x) {
      forall i | 0 <= i < |rts| ensures Divides(rts[i].1.den, x) { assert more[i] == rts[i]; }
      assert more[|rts|] == t;
      LcmFacts(order, t.1.den, x);
    }
  }

  lemma AboveOneLcm(den: nat, lcm: nat)
    requires den > 1 && lcm > 0 && Divides(den, lcm)
    ensures lcm > 1
  {
    DivisorBound(den, lcm);
  }

  lemma PartsStay(rts: seq<Entry>, order: nat, lcm: nat, trial: nat)
    requires forall i :: 0 <= i < |rts| ==> ProperPart(rts[i], order, trial)
    requires Divides(order, lcm)
    ensures forall i :: 0 <= i < |rts| ==> ProperPart(rts[i], lcm, trial)
  {
    hide Tried, Divides;
    forall i | 0 <= i < |rts| ensures ProperPart(rts[i], lcm, trial) {
      assert ProperPart(rts[i], order, trial);
      DividesTransitive(rts[i].1.den, order, lcm);
    }
  }

  lemma AppendKey(rts: seq<Entry>, es: seq<Entry>, k: nat, f: Rat, trial: nat)
    requires k < |es| && KeysApart(rts) && TableOk(es, trial) && forall j :: k <= j < |es| ==> KeysCoprimeTo(rts, es[j].0)
    ensures KeysApart(rts + [(es[k].0, f)])
    ensures forall j :: k + 1 <= j < |es| ==> KeysCoprimeTo(rts + [(es[k].0, f)], es[j].0)
  {
    hide Coprime, KeysTried;
    var b, more := es[k].0, rts + [(es[k].0, f)];
    assert KeysCoprimeTo(rts, b);
    forall i | 0 <= i < |rts| ensures Coprime(more[i].0, b) && Coprime(b, more[i].0) {
      CoprimeSymmetric(rts[i].0, b);
    }
    forall j | k + 1 <= j < |es| ensures KeysCoprimeTo(more, es[j].0) {
      assert KeysCoprimeTo(rts, es[j].0) && Coprime(es[k].0, es[j].0);
    }
  }

  // ---- The radicand ----

  /** The exponent in the radicand. */
  function RadicandExponent(t: Entry, order: nat): int
    requires t.1.den > 0
  {
    t.1.num * (order / t.1.den)
  }

  lemma ExponentFacts(t: Entry, order: nat, trial: nat, d: nat)
    requires ProperPart(t, order, trial) && order > 0 && Divides(order, d) && Clears(d, t.1)
    ensures 0 < RadicandExponent(t, order) < order
    ensures Scaled(d, t.1) == RadicandExponent(t, order) * (d / order)
  {
    hide Tried;
    var q := order / t.1.den;
    Quotient(t.1.den, order);
    QuotientPositive(order, t.1.den);
    MulMono(1, t.1.num, q);
    MulOrder(t.1.num, t.1.den, q);
    assert t.1.den * q == order;
    Quotient(order, d);
    assert d == (d / order * q) * t.1.den by { MulAssocInt(d / order, q, t.1.den); }
    Multiple(t.1.den, d / order * q);
    assert t.1.num * (d / order * q) == (t.1.num * q) * (d / order);
  }

  /** The product of the terms raised to the root order. */
  ghost function RadicandOf(rts: seq<Entry>, order: nat): nat {
    if rts == [] then 1
    else RadicandOf(Init(rts), order) * (if Last(rts).1.den > 0 && RadicandExponent(Last(rts), order) >= 0
                                         then Pow(Last(rts).0, RadicandExponent(Last(rts), order)) else 1)
  }

  lemma RadicandSnoc(rts: seq<Entry>, k: nat, order: nat)
    requires k < |rts| && rts[k].1.den > 0 && RadicandExponent(rts[k], order) >= 0
    ensures RadicandOf(rts[..k + 1], order) == RadicandOf(rts[..k], order) * Pow(rts[k].0, RadicandExponent(rts[k], order))
  {
    assert Init(rts[..k + 1]) == rts[..k] && Last(rts[..k + 1]) == rts[k];
  }

  lemma PartsPositive(rts: seq<Entry>, es: seq<Entry>, order: nat, trial: nat, d: nat)
    requires RadicandTerms(rts, es, |es|, order, trial, d)
    ensures PositiveEntries(rts)
  {
    hide Tried, LeastOrder;
  }

  method Radicand(rts: seq<Entry>, order: nat, maxBits: nat, ghost d: nat, ghost es: seq<Entry>, ghost trial: nat)
      returns (ok: bool, radicand: nat)
    requires RadicandTerms(rts, es, |es|, order, trial, d) && d > 0
    ensures ok ==> radicand > 0 && radicand == RadicandOf(rts, order) && WithinBits(radicand, maxBits)
    ensures ok ==> Cleared(d, rts) && ValueOf(d, rts) == Power(radicand as real, d / order)
    ensures !ok ==> Cleared(d, rts) && maxBits < 2 * Weight(d, rts)
    ensures PositiveEntries(rts) && (ok <==> RadicandBits(rts, order) <= maxBits)
  {
    hide Weight, Cleared, ValueOf, RadicandTerms, Mul, Power, WithinBits, Bits, Divides, Clears, RadicandOf, RadicandExponent, Tried, Pow,
         RadicandBits;
    ok, radicand := true, 1;
    var radicandBits: nat := 0;
    StartRadicand(rts, es, order, trial, d);
    PartsCleared(rts, es, order, trial, d);
    StartWeights(d, rts);
    PartsPositive(rts, es, order, trial, d);
    NoBits();
    assert rts[..0] == [];
    for k := 0 to |rts|
      invariant radicand > 0 && radicand == RadicandOf(rts[..k], order)
      invariant PositiveEntries(rts[..k]) && radicandBits == RadicandBits(rts[..k], order)
      invariant radicandBits <= maxBits && WithinBits(radicand, radicandBits)
      invariant Cleared(d, rts[..k]) && ValueOf(d, rts[..k]) == Power(radicand as real, d / order)
      invariant Cleared(d, rts) && radicandBits <= 2 * Weight(d, rts[..k])
    {
      RadicandWeight(rts, es, order, trial, d, k);
      RadicandStep(rts, es, order, trial, d, k, radicand, radicandBits);
      MoreRadicandBits(rts, order, k);
      RadicandBitsGrow(rts, order, k + 1);
      var m := RadicandExponent(rts[k], order);
      radicandBits := radicandBits + Bits(rts[k].0, m);
      if radicandBits > maxBits { return false, radicand; }
      radicand := radicand * Pow(rts[k].0, m);
    }
    assert rts[..|rts|] == rts;
    WithinFewer(radicand, radicand, radicandBits, maxBits);
  }

  lemma PartsCleared(rts: seq<Entry>, es: seq<Entry>, order: nat, trial: nat, d: nat)
    requires RadicandTerms(rts, es, |es|, order, trial, d)
    ensures Cleared(d, rts)
  {
  }

  lemma RadicandWeight(rts: seq<Entry>, es: seq<Entry>, order: nat, trial: nat, d: nat, k: nat)
    requires RadicandTerms(rts, es, |es|, order, trial, d) && d > 0 && k < |rts| && rts[k].1.den > 0 && order > 0 && Cleared(d, rts[..k])
    ensures Cleared(d, rts) && Cleared(d, rts[..k + 1]) && Weight(d, rts[..k + 1]) <= Weight(d, rts) && RadicandExponent(rts[k], order) > 0
    ensures 2 * Weight(d, rts[..k]) + Bits(rts[k].0, RadicandExponent(rts[k], order)) <= 2 * Weight(d, rts[..k + 1])
  {
    assert ProperPart(rts[k], order, trial) && Clears(d, rts[k].1) && rts[k].0 > 1;
    hide Weight, Bits, Scaled, Tried, RadicandExponent, Clears;
    ExponentFacts(rts[k], order, trial, d);
    WeightSnoc(d, rts[..k], rts[k]);
    assert rts[..k + 1] == rts[..k] + [rts[k]];
    WeightPrefix(d, rts, k + 1);
    var m := RadicandExponent(rts[k], order);
    Quotient(order, d);
    QuotientAboveZero(d, order);
    MulMono(1, d / order, m);
    BitsWithin(rts[k].0, m, Abs(Scaled(d, rts[k].1)));
  }

  lemma StartRadicand(rts: seq<Entry>, es: seq<Entry>, order: nat, trial: nat, d: nat)
    requires RadicandTerms(rts, es, |es|, order, trial, d) && d > 0
    ensures order > 0 && RadicandOf(rts[..0], order) == 1 && WithinBits(1, 0) && Cleared(d, rts[..0])
    ensures ValueOf(d, rts[..0]) == Power(1 as real, d / order)
    ensures forall k :: 0 <= k < |rts| ==> rts[k].1.den > 0 && rts[k].0 > 0
  {
    assert rts[..0] == [];
    PowerOne(d / order);
    forall k | 0 <= k < |rts| ensures rts[k].1.den > 0 && rts[k].0 > 0 { assert ProperPart(rts[k], order, trial); }
  }

  lemma RadicandStep(rts: seq<Entry>, es: seq<Entry>, order: nat, trial: nat, d: nat, k: nat, radicand: nat, bits: nat)
    requires RadicandTerms(rts, es, |es|, order, trial, d) && d > 0 && k < |rts| && rts[k].1.den > 0 && order > 0
    requires radicand > 0 && radicand == RadicandOf(rts[..k], order) && WithinBits(radicand, bits)
    requires Cleared(d, rts[..k]) && ValueOf(d, rts[..k]) == Power(radicand as real, d / order)
    ensures RadicandExponent(rts[k], order) > 0 && rts[k].0 > 1
    ensures var next := radicand * Pow(rts[k].0, RadicandExponent(rts[k], order));
            && next > 0 && next == RadicandOf(rts[..k + 1], order)
            && WithinBits(next, bits + Bits(rts[k].0, RadicandExponent(rts[k], order)))
            && Cleared(d, rts[..k + 1]) && ValueOf(d, rts[..k + 1]) == Power(next as real, d / order)
  {
    assert ProperPart(rts[k], order, trial) && Clears(d, rts[k].1) && rts[k].0 > 1;
    hide Mul, Power, ValueOf, WithinBits, Bits, RadicandOf, Scaled, Tried, RadicandExponent;
    ExponentFacts(rts[k], order, trial, d);
    var b, m := rts[k].0, RadicandExponent(rts[k], order);
    RadicandSnoc(rts, k, order);
    PowWithinBits(b, m);
    ProductWithinBits(radicand, bits, Pow(b, m), Bits(b, m));
    MulMono(1, radicand, Pow(b, m));
    ValueSnoc(d, rts[..k], rts[k]);
    assert rts[..k + 1] == rts[..k] + [rts[k]];
    RealOfProduct(radicand, Pow(b, m));
    PowerOfProduct(radicand as real, Pow(b, m) as real, d / order);
    PowerOfPow(b, m, d / order);
  }

  lemma KeysInit(rts: seq<Entry>)
    requires rts != [] && KeysApart(rts)
    ensures KeysApart(Init(rts))
  {
    hide Coprime;
  }

  lemma PowAtLeast(p: nat, e: nat)
    requires p > 1 && e > 0
    ensures Pow(p, e) > 1
  {
    PowGrows(1, p, e);
    OneIsBelow(1, e);
  }

  /** If r is coprime to p, then p divides r p^m no more than m times. */
  lemma {:induction false} CoprimeRest(r: nat, p: nat, m: nat, order: nat)
    requires r > 0 && Prime(p) && Coprime(p, r) && m < order
    ensures !Divides(Pow(p, order), r * Pow(p, m))
  {
    if Divides(Pow(p, order), r * Pow(p, m)) {
      PowSum(p, m, order - m);
      assert Pow(p, order) == Pow(p, order - m) * Pow(p, m);
      DividesCancel(Pow(p, order - m), r, Pow(p, m), r * Pow(p, m));
      PowStep(p, order - m - 1);
      Multiple(p, Pow(p, order - m - 1));
      DividesTransitive(p, Pow(p, order - m), r);
      CommonDivisor(p, r, p);
      DivisorBound(p, 1);
    }
  }

  /** The radicand is 1 only if nothing is under the root. */
  lemma {:induction false} RadicandAboveOne(rts: seq<Entry>, order: nat, trial: nat, d: nat)
    requires KeysApart(rts) && Cleared(d, rts) && order > 0 && Divides(order, d)
    requires forall i :: 0 <= i < |rts| ==> ProperPart(rts[i], order, trial)
    ensures RadicandOf(rts, order) > 0 && (RadicandOf(rts, order) == 1 <==> rts == [])
    decreases |rts|
  {
    if rts != [] {
      var t := Last(rts);
      assert ProperPart(t, order, trial) && t == rts[|rts| - 1];
      ExponentFacts(t, order, trial, d);
      KeysInit(rts);
      RadicandAboveOne(Init(rts), order, trial, d);
      PowAtLeast(t.0, RadicandExponent(t, order));
      MulMono(1, RadicandOf(Init(rts), order), Pow(t.0, RadicandExponent(t, order)));
    }
  }

  // ---- The order is least ----

  /** The radicand is the power of one key times a number coprime to it. */
  lemma {:induction false} OneKeyApart(rts: seq<Entry>, i: nat, order: nat, trial: nat, d: nat) returns (w: nat)
    requires KeysApart(rts) && Cleared(d, rts) && order > 0 && Divides(order, d) && i < |rts|
    requires forall k :: 0 <= k < |rts| ==> ProperPart(rts[k], order, trial)
    ensures rts[i].1.den > 0 && RadicandExponent(rts[i], order) > 0 && rts[i].0 > 1 && w > 0
    ensures RadicandOf(rts, order) == Pow(rts[i].0, RadicandExponent(rts[i], order)) * w
    ensures Coprime(Pow(rts[i].0, RadicandExponent(rts[i], order)), w)
    decreases |rts|
  {
    hide Tried, Coprime, RadicandExponent, Divides, Pow;
    var u, t := Init(rts), Last(rts);
    assert ProperPart(t, order, trial) && ProperPart(rts[i], order, trial);
    assert forall k :: 0 <= k < |u| ==> u[k] == rts[k];
    ExponentFacts(t, order, trial, d);
    ExponentFacts(rts[i], order, trial, d);
    KeysInit(rts);
    var b, m := rts[i].0, RadicandExponent(rts[i], order);
    if i == |u| {
      w := RadicandOf(u, order);
      OthersCoprime(u, order, trial, d, b);
      CoprimeToPower(w, b, m);
    } else {
      var v := OneKeyApart(u, i, order, trial, d);
      w := v * Pow(t.0, RadicandExponent(t, order));
      AnotherFactor(b, m, v, t.0, RadicandExponent(t, order));
    }
  }

  lemma CoprimeToPower(w: nat, b: nat, m: nat)
    requires w > 0 && b > 0 && Coprime(w, b)
    ensures Coprime(Pow(b, m), w) && w * Pow(b, m) == Pow(b, m) * w
  {
    hide Coprime;
    CoprimeSymmetric(w, b);
    CoprimePowers(b, w, m, 1);
    PowStep(w, 0);
    PowOfNone(w);
  }

  lemma AnotherFactor(b: nat, m: nat, v: nat, c: nat, n: nat)
    requires b > 0 && c > 0 && v > 0 && Coprime(b, c) && Coprime(Pow(b, m), v)
    ensures v * Pow(c, n) > 0 && Coprime(Pow(b, m), v * Pow(c, n)) && Pow(b, m) * v * Pow(c, n) == Pow(b, m) * (v * Pow(c, n))
  {
    hide Coprime, Pow;
    MulAssocInt(Pow(b, m), v, Pow(c, n));
    MulMono(1, v, Pow(c, n));
    CoprimePowers(b, c, m, n);
    CoprimeFactors(Pow(b, m), v, Pow(c, n));
  }

  /** What is coprime to all keys is coprime to the radicand. */
  lemma {:induction false} OthersCoprime(rts: seq<Entry>, order: nat, trial: nat, d: nat, b: nat)
    requires Cleared(d, rts) && order > 0 && Divides(order, d) && b > 0
    requires forall k :: 0 <= k < |rts| ==> ProperPart(rts[k], order, trial) && rts[k].0 > 1 && Coprime(rts[k].0, b)
    ensures RadicandOf(rts, order) > 0 && Coprime(RadicandOf(rts, order), b)
  {
    hide Tried, Coprime, RadicandExponent, Divides;
    if rts == [] {
      CoprimeToOne(b);
    } else {
      var u, t := Init(rts), Last(rts);
      assert t == rts[|rts| - 1] && forall k :: 0 <= k < |u| ==> u[k] == rts[k];
      ExponentFacts(t, order, trial, d);
      OthersCoprime(u, order, trial, d, b);
      var r, z := RadicandOf(u, order), Pow(t.0, RadicandExponent(t, order));
      CoprimePowers(t.0, b, RadicandExponent(t, order), 1);
      PowStep(b, 0);
      PowOfNone(b);
      CoprimeSymmetric(r, b);
      CoprimeSymmetric(z, b);
      CoprimeFactors(b, r, z);
      MulMono(1, r, z);
      CoprimeSymmetric(b, r * z);
    }
  }

  lemma CoprimeToOne(b: nat)
    requires b > 0
    ensures Coprime(1, b)
  {
    GcdDivides(1, b);
    DivisorBound(Gcd(1, b), 1);
  }

  /** A prime factor of the order is in full in the denominator of some exponent. */
  lemma FullDenominator(rts: seq<Entry>, order: nat, q: nat) returns (i: nat)
    requires LeastOrder(rts, order) && order > 0 && Prime(q) && Divides(q, order)
    ensures i < |rts| && !Divides(rts[i].1.den, order / q)
  {
    hide Divides;
    Quotient(q, order);
    QuotientAboveZero(order, q);
    if forall k :: 0 <= k < |rts| ==> Divides(rts[k].1.den, order / q) {
      DivisorBound(order, order / q);
      MulMono(2, q, order / q);
    }
    i :| 0 <= i < |rts| && !Divides(rts[i].1.den, order / q);
  }

  /** That prime does not divide the exponent in the radicand. */
  lemma ExponentKeepsClear(t: Entry, order: nat, q: nat)
    requires order > 0 && t.1.num > 0 && Normal(t.1) && Divides(t.1.den, order)
    requires Prime(q) && Divides(q, order) && !Divides(t.1.den, order / q)
    ensures RadicandExponent(t, order) > 0 && Coprime(RadicandExponent(t, order), q)
  {
    var den, num, e := t.1.den, t.1.num, order / t.1.den;
    Quotient(den, order);
    QuotientAboveZero(order, den);
    if Divides(q, e) {
      Quotient(q, e);
      MulAssocInt(e / q, q, den);
      assert (e / q) * den * q == order by { assert (e / q) * (q * den) == (e / q) * (den * q); MulAssocInt(e / q, den, q); }
      Multiple(q, (e / q) * den);
      Multiple(den, e / q);
      assert false;
    }
    PrimeCoprime(q, e);
    assert order == e * den;
    CoprimeDivides(q, e, den);
    if Divides(q, num) {
      CommonDivisor(den, num, q);
      DivisorBound(q, 1);
    }
    PrimeCoprime(q, num);
    CoprimeFactors(q, num, e);
    MulMono(1, num, e);
    CoprimeSymmetric(q, num * e);
  }

  /** No root of the radicand would do with a smaller order. */
  lemma RadicandReduced(rts: seq<Entry>, order: nat, trial: nat, d: nat, k: nat)
    requires KeysApart(rts) && Cleared(d, rts) && order > 0 && Divides(order, d) && LeastOrder(rts, order)
    requires forall i :: 0 <= i < |rts| ==> ProperPart(rts[i], order, trial)
    requires k >= 2 && Divides(k, order)
    ensures !IsPower(RadicandOf(rts, order), k)
  {
    hide RadicandOf, KeysApart, Cleared, LeastOrder, Coprime, RadicandExponent, Prime, Normal;
    if IsPower(RadicandOf(rts, order), k) {
      var t: nat :| Pow(t, k) == RadicandOf(rts, order);
      var q := PrimeDivisor(k, 2);
      Quotient(q, k);
      DividesTransitive(q, k, order);
      PowOfPow(t, k / q, q);
      var i := FullDenominator(rts, order, q);
      assert ProperPart(rts[i], order, trial);
      var w := OneKeyApart(rts, i, order, trial, d);
      PrimeAboveOne(q);
      ExponentKeepsClear(rts[i], order, q);
      KeyIsPower(rts[i].0, RadicandExponent(rts[i], order), w, Pow(t, k / q), q);
    }
  }

  lemma PrimeAboveOne(q: nat)
    requires Prime(q)
    ensures q >= 2
  {
  }

  lemma NonzeroBase(x: nat, q: nat)
    requires q > 0 && Pow(x, q) > 0
    ensures x > 0
  {
    PowStep(x, q - 1);
  }

  /** If b^m times a number coprime to it is a q-th power, for q coprime to m, then b is one. */
  lemma KeyIsPower(b: nat, m: nat, w: nat, x: nat, q: nat)
    requires b > 1 && m > 0 && w > 0 && q >= 2 && Coprime(m, q) && Coprime(Pow(b, m), w) && Pow(b, m) * w == Pow(x, q)
    ensures IsPower(b, q)
  {
    hide Coprime, Divides;
    MulMono(1, Pow(b, m), w);
    NonzeroBase(x, q);
    CoprimeFactorIsPower(Pow(b, m), w, x, q);
    var g: nat :| Pow(g, q) == Pow(b, m);
    NonzeroBase(g, q);
    var c := SharedRoot(b, m, g, q);
  }

  // ---- Prime powers in the radicand ----

  /** A prime that divides no key more than once divides the radicand less than root-order times. */
  lemma NoPower(rts: seq<Entry>, order: nat, trial: nat, d: nat, p: nat)
    requires KeysApart(rts) && Cleared(d, rts) && order > 0 && Divides(order, d)
    requires forall i :: 0 <= i < |rts| ==> ProperPart(rts[i], order, trial)
    requires Prime(p) && forall i :: 0 <= i < |rts| ==> !Divides(p * p, rts[i].0)
    ensures !Divides(Pow(p, order), RadicandOf(rts, order))
  {
    hide RadicandOf, Cleared, Coprime, RadicandExponent, Divides, ProperPart;
    if i :| 0 <= i < |rts| && Divides(p, rts[i].0) {
      var w := OneKeyApart(rts, i, order, trial, d);
      ExponentFacts(rts[i], order, trial, d) by { assert ProperPart(rts[i], order, trial); ClearedAt(d, rts, i); }
      PrimeInKey(rts[i].0, RadicandExponent(rts[i], order), w, order, p);
    } else {
      forall k | 0 <= k < |rts| ensures rts[k].0 > 1 && Coprime(rts[k].0, p) {
        PrimeCoprime(p, rts[k].0);
        CoprimeSymmetric(p, rts[k].0);
      }
      OthersCoprime(rts, order, trial, d, p);
      PrimeOutside(RadicandOf(rts, order), order, p);
    }
  }

  lemma ClearedAt(d: nat, rts: seq<Entry>, i: nat)
    requires Cleared(d, rts) && i < |rts|
    ensures Clears(d, rts[i].1)
  {
  }

  lemma PrimeInKey(b: nat, m: nat, w: nat, order: nat, p: nat)
    requires Prime(p) && b > 1 && w > 0 && 0 < m < order && Divides(p, b) && !Divides(p * p, b) && Coprime(Pow(b, m), w)
    ensures !Divides(Pow(p, order), Pow(b, m) * w)
  {
    hide Coprime;
    Quotient(p, b);
    var c := b / p;
    QuotientAboveZero(b, p);
    if Divides(p, c) { TimesDivides(p, c, p); }
    PowOfProduct(c, p, m);
    PrimeCoprime(p, c);
    CoprimePower(p, c, m);
    CoprimeRest(Pow(c, m), p, m, order);
    Multiple(p, c * Pow(b, m - 1));
    PowStep(b, m - 1);
    Regroup(c, p, Pow(b, m - 1));
    assert Pow(b, m) == (c * Pow(b, m - 1)) * p;
    Multiple(w, 1);
    CoprimeDivisors(Pow(b, m), w, p, w);
    CoprimePowers(p, w, order, 1);
    PowStep(w, 0);
    PowOfNone(w);
    assert Pow(b, m) * w == w * Pow(b, m);
    if Divides(Pow(p, order), w * Pow(b, m)) { CoprimeDivides(Pow(p, order), w, Pow(b, m)); }
  }

  lemma PrimeOutside(r: nat, order: nat, p: nat)
    requires Prime(p) && r > 0 && order > 0 && Coprime(r, p)
    ensures !Divides(Pow(p, order), r)
  {
    if Divides(Pow(p, order), r) {
      PowStep(p, order - 1);
      Multiple(p, Pow(p, order - 1));
      assert Pow(p, order) == Pow(p, order - 1) * p;
      DividesTransitive(p, Pow(p, order), r);
      Multiple(p, 1);
      CommonDivisor(r, p, p);
      DivisorBound(p, 1);
    }
  }

  /** A prime up to the trial bound divides the radicand less than root-order times. */
  lemma NoSmallPower(rts: seq<Entry>, order: nat, trial: nat, d: nat, p: nat)
    requires KeysApart(rts) && Cleared(d, rts) && order > 0 && Divides(order, d)
    requires forall i :: 0 <= i < |rts| ==> ProperPart(rts[i], order, trial)
    requires Prime(p) && p <= trial
    ensures !Divides(Pow(p, order), RadicandOf(rts, order))
  {
    hide RadicandOf, Cleared;
    forall i | 0 <= i < |rts| ensures !Divides(p * p, rts[i].0) {
      assert ProperPart(rts[i], order, trial);
      SmallPrimeOnce(rts[i].0, trial, p);
    }
    NoPower(rts, order, trial, d, p);
  }

  lemma SmallPrimeOnce(b: nat, trial: nat, p: nat)
    requires b > 1 && TrialFree(b, trial) && Prime(p) && p <= trial
    ensures !Divides(p * p, b)
  {
    if Divides(p * p, b) {
      Multiple(p, p);
      DividesTransitive(p, p * p, b);
      DivisorBound(p * p, b);
      MulMono(2, p, p);
    }
  }

  // ---- The whole ----

  predicate ClearsAll(d: nat, powers: seq<(Rat, Rat)>) {
    d > 0 && forall k :: 0 <= k < |powers| ==> Clears(d, powers[k].1)
  }

  ghost predicate AllPositive(powers: seq<(Rat, Rat)>) {
    forall k :: 0 <= k < |powers| ==> PositiveRat(powers[k].0)
  }

  /** The d-th power of the product of the powers. */
  ghost function PowersValue(d: nat, powers: seq<(Rat, Rat)>): (r: real)
    requires ClearsAll(d, powers) && AllPositive(powers)
    ensures r > 0.0
  {
    if powers == [] then 1.0
    else
      RealOfPositive(Last(powers).0);
      Mul(PowersValue(d, Init(powers)), Power(RealOf(Last(powers).0), Scaled(d, Last(powers).1)))
  }

  /** What the form promises. */
  ghost predicate Simplest(form: RadicalForm, trial: nat, maxBits: nat) {
    && PositiveRat(form.rational) && form.radicand > 0 && form.rootOrder > 0
    && (form.radicand == 1 <==> form.rootOrder == 1)
    && (forall p: nat :: Prime(p) && p <= trial ==> !Divides(Pow(p, form.rootOrder), form.radicand))
    && WithinBits(form.rational.num, maxBits) && WithinBits(form.rational.den, maxBits) && WithinBits(form.radicand, maxBits)
  }

  lemma QuotientPower(num: nat, den: nat, s: int)
    requires num > 0 && den > 0
    ensures num as real / den as real > 0.0
    ensures Power(num as real / den as real, s) == Mul(Power(num as real, s), Power(den as real, -s))
  {
    hide Power;
    var x := num as real / den as real;
    assert Mul(x, den as real) == num as real;
    PowerOfProduct(x, den as real, s);
    PowerSum(den as real, s, -s);
    PowerZero(den as real);
    hide Mul;
    MulAssoc(Power(x, s), Power(den as real, s), Power(den as real, -s));
    MulOne(Power(x, s));
  }

  lemma NegatedScaled(d: nat, e: Rat)
    requires Clears(d, e)
    ensures Clears(d, Rat(-e.num, e.den)) && Scaled(d, Rat(-e.num, e.den)) == -Scaled(d, e)
  {
  }

  /** Numerators and denominators apart have the value of the powers. */
  lemma {:induction false} EntriesValue(d: nat, powers: seq<(Rat, Rat)>)
    requires ClearsAll(d, powers) && AllPositive(powers)
    ensures Cleared(d, Entries(powers)) && ValueOf(d, Entries(powers)) == PowersValue(d, powers)
  {
    hide Mul, Power, ValueOf, Scaled, RealOf;
    if powers == [] {
      NoEntriesValue(d);
    } else {
      var u := Init(powers);
      var (b, e) := Last(powers);
      assert powers[|powers| - 1] == (b, e);
      EntriesValue(d, u);
      var es := Entries(u);
      NegatedScaled(d, e);
      ValueSnoc(d, es, (b.num, e));
      ValueSnoc(d, es + [(b.num, e)], (b.den, Rat(-e.num, e.den)));
      assert Entries(powers) == es + [(b.num, e)] + [(b.den, Rat(-e.num, e.den))];
      QuotientPower(b.num, b.den, Scaled(d, e));
      RealOfIs(b);
      MulAssoc(ValueOf(d, es), Power(b.num as real, Scaled(d, e)), Power(b.den as real, -Scaled(d, e)));
    }
  }

  lemma NoEntriesValue(d: nat)
    ensures Cleared(d, []) && ValueOf(d, []) == 1.0
  {
  }

  lemma RealOfIs(r: Rat)
    requires PositiveRat(r)
    ensures RealOf(r) == r.num as real / r.den as real
  {
  }

  function Numbers(es: seq<Entry>): (r: seq<nat>)
    ensures |r| == |es| && forall k :: 0 <= k < |es| ==> r[k] == es[k].0
  {
    seq(|es|, k requires 0 <= k < |es| => es[k].0)
  }

  /**
   simplest_radical_form; scale is any number that clears the denominators of the exponents, base the coprime base used,
   and table what its elements leave in the exponent table. A form is returned exactly if the budget suffices for that
   table. No root of the radicand would do with a smaller order, and nothing can be taken out of the root if the base is
   level.
   */
  method SimplestRadicalForm(powers: seq<(Rat, Rat)>, trial: nat, maxBits: nat, estimate: (nat, nat) -> nat, ghost scale: nat)
      returns (outcome: Outcome, ghost base: seq<nat>, ghost table: seq<Entry>)
    requires ClearsAll(scale, powers) && forall k :: 0 <= k < |powers| ==> powers[k].0.den > 0
    ensures outcome.NotPositive? <==> !AllPositive(powers)
    ensures AllPositive(powers) ==>
              PairwiseCoprime(base) && GeneratesAll(base, Numbers(Entries(powers))) && DivideSome(base, Numbers(Entries(powers)))
    ensures AllPositive(powers) ==>
              && AboveOne(base) && PositiveEntries(Entries(powers)) && PositiveEntries(table)
              && (outcome.Form? <==> WithinBudget(base, Entries(powers), table, maxBits))
              && ((forall k :: 0 <= k < |base| ==> WholeFits(base[k], Entries(powers), maxBits)) ==>
                    IsTable(table, base, Entries(powers), trial))
    ensures outcome.Form? ==>
              && Simplest(outcome.form, trial, maxBits) && AllPositive(powers) && Divides(outcome.form.rootOrder, scale)
              && PowersValue(scale, powers) == FormValue(scale, outcome.form)
              && Reduced(outcome.form) && Normal(outcome.form.rational)
    ensures outcome.Form? && (forall k :: 0 <= k < |base| ==> Level(base[k], trial)) ==> PowerFree(outcome.form)
    ensures outcome.TooLarge? ==> Cleared(scale, Entries(powers)) && maxBits < 2 * (scale * Weight(scale, Entries(powers)))
  {
    hide Mul, Power, ValueOf, PowersValue, RealOf, Cleared, TableOk, RadicandTerms, ElementsValue, PairwiseCoprime, GeneratesAll, Divides,
         RadicandOf, WithinBits, Clears, Entries, Simplest, Reduced, PowerFree, Normal, Level, KeysSquareFree, SquareFree, Weight,
         ElementsWeight, DivideSome, FormValue, WholeFits, IsTable, NumeratorBits, DenominatorBits, FractionalParts, CommonOrder, RadicandBits;
    base, table := [], [];
    for k := 0 to |powers|
      invariant forall i :: 0 <= i < k ==> powers[i].0.num > 0
    {
      if powers[k].0.num <= 0 { return NotPositive, [], []; }
    }
    var terms := Entries(powers);
    EntriesValue(scale, powers);
    ScalePositive(scale, powers, terms);
    var elements := CoprimeBase(Numbers(terms));
    base := elements;
    BaseKeepsValue(scale, elements, terms);
    var ok, es := CollectExponents(terms, elements, trial, maxBits, estimate, scale);
    if !ok {
      WithinTotal(scale, maxBits, ElementsWeight(scale, elements, terms), Weight(scale, terms), 1);
      return TooLarge, elements, [];
    }
    table := es;
    TablePositive(es, trial);
    var fits, rational, rts, order := SplitExponents(es, trial, maxBits, scale);
    if !fits {
      WithinTotal(scale, maxBits, Weight(scale, es), Weight(scale, terms), 1);
      return TooLarge, elements, es;
    }
    PartsCleared(rts, es, order, trial, scale);
    var small, radicand := Radicand(rts, order, maxBits, scale, es, trial);
    if !small {
      WithinTotal(scale, maxBits, Weight(scale, es), Weight(scale, terms), scale);
      return TooLarge, elements, es;
    }
    RadicandResult(rts, es, order, trial, scale, radicand);
    RadicandSimplest(rts, es, order, trial, scale, rational);
    outcome := Form(RadicalForm(rational, radicand, order));
    FormIsSimplest(rational, radicand, order, trial, maxBits);
    FormValueIs(scale, rational, radicand, order);
  }

  lemma WithinTotal(d: nat, maxBits: nat, w: nat, total: nat, times: nat)
    requires d > 0 && times <= d && w <= total
    ensures 2 * (times * w) <= 2 * (d * total)
  {
    MulMono(times, d, w);
    MulMono(w, total, d);
  }

  lemma FormValueIs(d: nat, rational: Rat, radicand: nat, order: nat)
    requires PositiveRat(rational) && RealOf(rational) > 0.0 && radicand > 0 && Divides(order, d)
    ensures FormValue(d, RadicalForm(rational, radicand, order))
            == Mul(Power(RealOf(rational), d), Power(radicand as real, d / order))
  {
  }

  lemma RadicandSimplest(rts: seq<Entry>, es: seq<Entry>, order: nat, trial: nat, d: nat, rational: Rat)
    requires RadicandTerms(rts, es, |es|, order, trial, d) && d > 0
    ensures Reduced(RadicalForm(rational, RadicandOf(rts, order), order))
    ensures (forall i :: 0 <= i < |rts| ==> SquareFree(rts[i].0)) ==> PowerFree(RadicalForm(rational, RadicandOf(rts, order), order))
  {
    hide RadicandOf, Tried, IsPower, Prime, LeastOrder, ProperPart;
    forall k: nat | k >= 2 && Divides(k, order) ensures !IsPower(RadicandOf(rts, order), k) {
      RadicandReduced(rts, order, trial, d, k);
    }
    if forall i :: 0 <= i < |rts| ==> SquareFree(rts[i].0) {
      forall p: nat | Prime(p) ensures !Divides(Pow(p, order), RadicandOf(rts, order)) {
        NoPower(rts, order, trial, d, p);
      }
    }
  }

  lemma ScalePositive(d: nat, powers: seq<(Rat, Rat)>, terms: seq<Entry>)
    requires ClearsAll(d, powers) && Cleared(d, terms)
    ensures d > 0 && PositiveEntries(terms)
  {
  }

  lemma BaseKeepsValue(d: nat, base: seq<nat>, terms: seq<Entry>)
    requires PairwiseCoprime(base) && GeneratesAll(base, Numbers(terms)) && AboveOne(base) && Cleared(d, terms) && d > 0
    ensures ElementsValue(d, base, terms) == ValueOf(d, terms) && ElementsWeight(d, base, terms) <= Weight(d, terms)
  {
    hide ElementsValue, ValueOf, PairwiseCoprime, ElementsWeight, Weight;
    forall k | 0 <= k < |terms| ensures Generates(base, terms[k].0) {
      assert Numbers(terms)[k] == terms[k].0;
    }
    ElementsKeepValue(d, base, terms);
    ElementsWeigh(d, base, terms);
  }

  lemma RadicandResult(rts: seq<Entry>, es: seq<Entry>, order: nat, trial: nat, d: nat, radicand: nat)
    requires RadicandTerms(rts, es, |es|, order, trial, d) && radicand == RadicandOf(rts, order)
    ensures order > 0 && Divides(order, d) && radicand > 0 && (radicand == 1 <==> order == 1)
    ensures forall p: nat :: Prime(p) && p <= trial ==> !Divides(Pow(p, order), radicand)
  {
    hide RadicandOf, Prime, Tried;
    RadicandAboveOne(rts, order, trial, d);
    forall p: nat | Prime(p) && p <= trial ensures !Divides(Pow(p, order), radicand) {
      NoSmallPower(rts, order, trial, d, p);
    }
  }

  lemma FormIsSimplest(rational: Rat, radicand: nat, order: nat, trial: nat, maxBits: nat)
    requires PositiveRat(rational) && radicand > 0 && order > 0 && (radicand == 1 <==> order == 1)
    requires forall p: nat :: Prime(p) && p <= trial ==> !Divides(Pow(p, order), radicand)
    requires WithinBits(rational.num, maxBits) && WithinBits(rational.den, maxBits) && WithinBits(radicand, maxBits)
    ensures Simplest(RadicalForm(rational, radicand, order), trial, maxBits)
  {
  }
}
