/** Splitting integers into pairwise coprime ones of which they are products of powers. */
module CoprimeBases {
  import opened Sequences
  import opened IntegerRoots
  import opened Divisibility

  function Product(s: seq<nat>): nat {
    if s == [] then 1 else Product(Init(s)) * Last(s)
  }

  ghost predicate Positive(s: seq<nat>) {
    forall k :: 0 <= k < |s| ==> s[k] > 0
  }

  lemma {:induction false} ProductConcat(a: seq<nat>, b: seq<nat>)
    ensures Product(a + b) == Product(a) * Product(b)
  {
    if b == [] {
      assert a + b == a;
    } else {
      ProductConcat(a, Init(b));
      assert Init(a + b) == a + Init(b);
      assert Product(a) * Product(Init(b)) * Last(b) == Product(a) * (Product(Init(b)) * Last(b));
    }
  }

  lemma {:induction false} ProductPositive(s: seq<nat>)
    requires Positive(s)
    ensures Product(s) > 0
  {
    if s != [] { ProductPositive(Init(s)); }
  }

  lemma {:induction false} ProductUpdate(s: seq<nat>, k: nat, q: nat, g: nat)
    requires k < |s| && s[k] == q * g
    ensures Product(s[k := q]) * g == Product(s)
  {
    var t := s[k := q];
    if k == |s| - 1 {
      assert Init(t) == Init(s);
      FactorLast(Product(Init(s)), q, g);
    } else {
      ProductUpdate(Init(s), k, q, g);
      assert Init(t) == Init(s)[k := q];
      FactorLast(Product(Init(t)), Last(s), g);
    }
  }

  lemma FactorLast(a: nat, b: nat, c: nat)
    ensures a * b * c == a * (b * c) == a * c * b
  {
  }

  /** n is a product of powers of elements of base. */
  ghost predicate Generates(base: seq<nat>, n: nat) {
    exists factors: seq<nat> :: FactorsOf(base, factors, n)
  }

  ghost predicate FactorsOf(base: seq<nat>, factors: seq<nat>, n: nat) {
    (forall k :: 0 <= k < |factors| ==> factors[k] in base) && Product(factors) == n
  }

  lemma GeneratesOne(base: seq<nat>)
    ensures Generates(base, 1)
  {
    assert FactorsOf(base, [], 1);
  }

  lemma GeneratesElement(base: seq<nat>, a: nat)
    requires a in base
    ensures Generates(base, a)
  {
    assert Init([a]) == [];
    assert Product([a]) == Product([]) * a;
    assert FactorsOf(base, [a], a);
  }

  lemma GeneratesProduct(base: seq<nat>, m: nat, n: nat)
    requires Generates(base, m) && Generates(base, n)
    ensures Generates(base, m * n)
  {
    var a :| FactorsOf(base, a, m);
    var b :| FactorsOf(base, b, n);
    ProductConcat(a, b);
    assert FactorsOf(base, a + b, m * n);
  }

  /** What a base generates, any base that generates its elements generates. */
  lemma {:induction false} GeneratesThrough(base: seq<nat>, finer: seq<nat>, factors: seq<nat>, n: nat)
    requires FactorsOf(base, factors, n) && forall a :: a in base ==> Generates(finer, a)
    ensures Generates(finer, n)
    decreases |factors|
  {
    if factors == [] {
      GeneratesOne(finer);
    } else {
      assert FactorsOf(base, Init(factors), Product(Init(factors)));
      GeneratesThrough(base, finer, Init(factors), Product(Init(factors)));
      GeneratesProduct(finer, Product(Init(factors)), Last(factors));
    }
  }

  ghost predicate GeneratesAll(base: seq<nat>, numbers: seq<nat>) {
    forall k :: 0 <= k < |numbers| && numbers[k] > 0 ==> Generates(base, numbers[k])
  }

  lemma Finer(base: seq<nat>, finer: seq<nat>, numbers: seq<nat>)
    requires GeneratesAll(base, numbers) && forall a :: a in base ==> Generates(finer, a)
    ensures GeneratesAll(finer, numbers)
  {
    forall k | 0 <= k < |numbers| && numbers[k] > 0 ensures Generates(finer, numbers[k]) {
      var factors :| FactorsOf(base, factors, numbers[k]);
      GeneratesThrough(base, finer, factors, numbers[k]);
    }
  }

  /** Elements i and j divided by g, and g appended. */
  function Split(base: seq<nat>, i: nat, j: nat, g: nat): seq<nat>
    requires i < j < |base| && g > 0
  {
    base[i := base[i] / g][j := base[j] / g] + [g]
  }

  lemma SplitProduct(base: seq<nat>, i: nat, j: nat, g: nat)
    requires Positive(base) && i < j < |base| && Divides(g, base[i]) && Divides(g, base[j]) && g > 1
    ensures Positive(Split(base, i, j, g)) && Product(Split(base, i, j, g)) < Product(base)
  {
    hide Product;
    Quotient(g, base[i]);
    Quotient(g, base[j]);
    QuotientPositive(base[i], g);
    QuotientPositive(base[j], g);
    var once := base[i := base[i] / g];
    var twice := once[j := base[j] / g];
    ProductUpdate(base, i, base[i] / g, g);
    ProductUpdate(once, j, base[j] / g, g);
    ProductSnoc(twice, g);
    ProductPositive(twice + [g]);
    Shrinks(Product(twice), g, Product(once), Product(base));
  }

  lemma ProductSnoc(s: seq<nat>, x: nat)
    ensures Product(s + [x]) == Product(s) * x
  {
    assert Init(s + [x]) == s;
  }

  lemma QuotientPositive(a: nat, g: nat)
    requires a > 0 && Divides(g, a)
    ensures a / g > 0
  {
    Quotient(g, a);
  }

  lemma Shrinks(p: nat, g: nat, q: nat, r: nat)
    requires p * g == q && q * g == r && g > 1 && p * g > 0
    ensures p * g < r
  {
    MulMono(2, g, q);
  }

  lemma SplitGenerates(base: seq<nat>, i: nat, j: nat, g: nat)
    requires Positive(base) && i < j < |base| && Divides(g, base[i]) && Divides(g, base[j]) && g > 1
    ensures forall a :: a in base ==> Generates(Split(base, i, j, g), a)
  {
    hide Generates;
    Quotient(g, base[i]);
    Quotient(g, base[j]);
    var split := Split(base, i, j, g);
    assert split[|base|] == g;
    GeneratesElement(split, g);
    forall a | a in base ensures Generates(split, a) {
      var k :| 0 <= k < |base| && base[k] == a;
      GeneratesElement(split, split[k]);
      if k == i || k == j { GeneratesProduct(split, split[k], g); }
    }
  }

  ghost predicate PairwiseCoprime(base: seq<nat>) {
    forall i, j :: 0 <= i < j < |base| ==> Coprime(base[i], base[j])
  }

  function WithoutOnes(base: seq<nat>): (r: seq<nat>)
    ensures |r| <= |base|
  {
    if base == [] then [] else WithoutOnes(Init(base)) + (if Last(base) == 1 then [] else [Last(base)])
  }

  lemma {:induction false} WithoutOnesMembers(base: seq<nat>)
    ensures forall a :: a in WithoutOnes(base) <==> a in base && a != 1
  {
    if base != [] {
      WithoutOnesMembers(Init(base));
      assert base == Init(base) + [Last(base)];
    }
  }

  lemma {:induction false} WithoutOnesProduct(base: seq<nat>)
    ensures Product(WithoutOnes(base)) == Product(base)
  {
    if base != [] {
      WithoutOnesProduct(Init(base));
      var r := WithoutOnes(Init(base));
      assert r + [] == r;
      if Last(base) != 1 { ProductSnoc(r, Last(base)); }
    }
  }

  lemma {:induction false} WithoutOnesCoprime(base: seq<nat>)
    requires PairwiseCoprime(base)
    ensures PairwiseCoprime(WithoutOnes(base))
  {
    hide Coprime;
    if base != [] {
      var u, r := Init(base), WithoutOnes(Init(base));
      WithoutOnesCoprime(u);
      WithoutOnesMembers(u);
      forall i | 0 <= i < |r| ensures Coprime(r[i], Last(base)) {
        assert r[i] in u;
        var k :| 0 <= k < |u| && u[k] == r[i];
        assert Coprime(base[k], base[|u|]);
      }
    }
  }

  lemma WithoutOnesAbove(base: seq<nat>)
    requires Positive(base)
    ensures forall k :: 0 <= k < |WithoutOnes(base)| ==> WithoutOnes(base)[k] > 1
  {
    var r := WithoutOnes(base);
    WithoutOnesMembers(base);
    forall k | 0 <= k < |r| ensures r[k] > 1 {
      assert r[k] in base;
    }
  }

  /** Every element divides one of the numbers. */
  ghost predicate DivideSome(base: seq<nat>, numbers: seq<nat>) {
    forall k :: 0 <= k < |base| ==> DividesOne(base[k], numbers)
  }

  ghost predicate DividesOne(a: nat, numbers: seq<nat>) {
    exists i :: 0 <= i < |numbers| && numbers[i] > 0 && Divides(a, numbers[i])
  }

  lemma DividesOneOf(a: nat, base: seq<nat>, k: nat, numbers: seq<nat>)
    requires DivideSome(base, numbers) && k < |base| && Divides(a, base[k])
    ensures DividesOne(a, numbers)
  {
    assert DividesOne(base[k], numbers);
    var i :| 0 <= i < |numbers| && numbers[i] > 0 && Divides(base[k], numbers[i]);
    DividesTransitive(a, base[k], numbers[i]);
  }

  lemma DivideThrough(finer: seq<nat>, base: seq<nat>, numbers: seq<nat>)
    requires DivideSome(finer, base) && DivideSome(base, numbers)
    ensures DivideSome(finer, numbers)
  {
    forall k | 0 <= k < |finer| ensures DividesOne(finer[k], numbers) {
      assert DividesOne(finer[k], base);
      var i :| 0 <= i < |base| && base[i] > 0 && Divides(finer[k], base[i]);
      DividesOneOf(finer[k], base, i, numbers);
    }
  }

  lemma DivideThemselves(base: seq<nat>)
    requires Positive(base)
    ensures DivideSome(base, base)
  {
    forall k | 0 <= k < |base| ensures DividesOne(base[k], base) {
      Multiple(base[k], 1);
    }
  }

  lemma SplitDivides(base: seq<nat>, i: nat, j: nat, g: nat)
    requires Positive(base) && i < j < |base| && Divides(g, base[i]) && Divides(g, base[j])
    ensures DivideSome(Split(base, i, j, g), base)
  {
    DivideThemselves(base);
    var split := Split(base, i, j, g);
    forall k | 0 <= k < |split| ensures DividesOne(split[k], base) {
      if k == |base| {
        DividesOneOf(g, base, i, base);
      } else {
        if k == i || k == j {
          Quotient(g, base[k]);
          QuotientPositive(base[k], g);
          Multiple(split[k], g);
          assert base[k] == g * split[k];
        } else {
          Multiple(base[k], 1);
        }
        DividesOneOf(split[k], base, k, base);
      }
    }
  }

  lemma MembersDivide(some: seq<nat>, base: seq<nat>, numbers: seq<nat>)
    requires DivideSome(base, numbers) && forall a :: a in some ==> a in base
    ensures DivideSome(some, numbers)
  {
    forall k | 0 <= k < |some| ensures DividesOne(some[k], numbers) {
      assert some[k] in base;
      var i :| 0 <= i < |base| && base[i] == some[k];
    }
  }

  /** coprime_base. */
  method CoprimeBase(numbers: seq<nat>) returns (base: seq<nat>)
    ensures PairwiseCoprime(base) && GeneratesAll(base, numbers)
    ensures forall k :: 0 <= k < |base| ==> base[k] > 1
    ensures DivideSome(base, numbers)
  {
    hide Product, PairwiseCoprime, GeneratesAll, WithoutOnes, DividesOne;
    base := [];
    for k := 0 to |numbers|
      invariant DivideSome(base, numbers)
      invariant Positive(base) && forall i :: 0 <= i < k && numbers[i] > 1 ==> numbers[i] in base
    {
      if numbers[k] > 1 {
        DividesItself(numbers, k);
        base := base + [numbers[k]];
      }
    }
    StartBase(base, numbers);
    var refined := true;
    while refined
      invariant Positive(base) && GeneratesAll(base, numbers) && DivideSome(base, numbers)
      invariant !refined ==> PairwiseCoprime(base) && forall k :: 0 <= k < |base| ==> base[k] > 1
      decreases Product(base), refined
    {
      ghost var before := base;
      base, refined := Refine(base);
      FinerIs(before, base, numbers);
      DivideThrough(base, before, numbers);
      WithoutOnesAbove(base);
      WithoutOnesProduct(base);
      if !refined { WithoutOnesCoprime(base); }
      DropOnes(base, numbers);
      WithoutOnesMembers(base);
      MembersDivide(WithoutOnes(base), base, numbers);
      base := WithoutOnes(base);
    }
  }

  lemma DividesItself(numbers: seq<nat>, k: nat)
    requires k < |numbers| && numbers[k] > 0
    ensures DividesOne(numbers[k], numbers)
  {
    Multiple(numbers[k], 1);
  }

  lemma StartBase(base: seq<nat>, numbers: seq<nat>)
    requires forall i :: 0 <= i < |numbers| && numbers[i] > 1 ==> numbers[i] in base
    ensures GeneratesAll(base, numbers)
  {
    GeneratesOne(base);
    forall k | 0 <= k < |numbers| && numbers[k] > 1 ensures Generates(base, numbers[k]) {
      GeneratesElement(base, numbers[k]);
    }
  }

  lemma FinerIs(base: seq<nat>, finer: seq<nat>, numbers: seq<nat>)
    requires GeneratesAll(base, numbers) && GeneratesAll(finer, base) && Positive(base)
    ensures GeneratesAll(finer, numbers)
  {
    Finer(base, finer, numbers);
  }

  lemma DropOnes(base: seq<nat>, numbers: seq<nat>)
    requires Positive(base) && GeneratesAll(base, numbers)
    ensures GeneratesAll(WithoutOnes(base), numbers)
  {
    WithoutOnesMembers(base);
    GeneratesOne(WithoutOnes(base));
    forall a | a in base ensures Generates(WithoutOnes(base), a) {
      if a > 1 { GeneratesElement(WithoutOnes(base), a); }
    }
    Finer(base, WithoutOnes(base), numbers);
  }

  /** base is start, with elements split if refined. */
  ghost predicate RefinementOf(base: seq<nat>, start: seq<nat>, refined: bool) {
    && Positive(base) && GeneratesAll(base, start) && DivideSome(base, start)
    && if refined then Product(base) < Product(start) else base == start
  }

  ghost predicate CoprimeRows(base: seq<nat>, n: nat) {
    forall i, j :: 0 <= i < n && i < j < |base| ==> Coprime(base[i], base[j])
  }

  /** One pass over all pairs of a base that grows on the way. */
  method Refine(start: seq<nat>) returns (base: seq<nat>, refined: bool)
    requires Positive(start)
    ensures Positive(base) && GeneratesAll(base, start) && DivideSome(base, start)
    ensures if refined then Product(base) < Product(start) else base == start && PairwiseCoprime(base)
  {
    hide RefinementOf, CoprimeRows, Product, Positive, GeneratesAll, DivideSome, PairwiseCoprime;
    base, refined := start, false;
    RefinementStarts(start);
    var i := 0;
    while i < |base|
      invariant i <= |base| && RefinementOf(base, start, refined)
      invariant !refined ==> CoprimeRows(base, i)
      decreases Product(base), |base| - i
    {
      base, refined := RefineRow(base, start, refined, i);
      i := i + 1;
    }
    RefinementEnds(base, start, refined);
  }

  lemma RefinementStarts(start: seq<nat>)
    requires Positive(start)
    ensures RefinementOf(start, start, false) && CoprimeRows(start, 0)
  {
    StartBase(start, start);
    DivideThemselves(start);
  }

  lemma RefinementEnds(base: seq<nat>, start: seq<nat>, refined: bool)
    requires RefinementOf(base, start, refined) && (!refined ==> CoprimeRows(base, |base|))
    ensures Positive(base) && GeneratesAll(base, start) && DivideSome(base, start)
    ensures if refined then Product(base) < Product(start) else base == start && PairwiseCoprime(base)
  {
    hide Coprime;
  }

  /** Splits element i against all later ones, including those the splits append. */
  method RefineRow(before: seq<nat>, ghost start: seq<nat>, mutated: bool, i: nat) returns (base: seq<nat>, refined: bool)
    requires i < |before| && RefinementOf(before, start, mutated) && (!mutated ==> CoprimeRows(before, i))
    ensures i < |base| && RefinementOf(base, start, refined) && (!refined ==> CoprimeRows(base, i + 1))
    ensures Product(base) < Product(before) || base == before
  {
    hide RefinementOf, CoprimeRows, Product, Split, Positive;
    base, refined := before, mutated;
    var j := i + 1;
    while j < |base|
      invariant i < j <= |base| && RefinementOf(base, start, refined)
      invariant Product(base) < Product(before) || (base == before && refined == mutated)
      invariant !refined ==> forall k :: i < k < j ==> Coprime(base[i], base[k])
      decreases Product(base), |base| - j
    {
      var g := Gcd(base[i], base[j]);
      SplitStep(base, start, refined, i, j, g);
      if g != 1 {
        base := Split(base, i, j, g);
        refined := true;
      }
      j := j + 1;
    }
    RowDone(base, before, start, mutated, refined, i);
  }

  lemma SplitStep(base: seq<nat>, start: seq<nat>, refined: bool, i: nat, j: nat, g: nat)
    requires i < j < |base| && g == Gcd(base[i], base[j]) && RefinementOf(base, start, refined)
    ensures g > 0 && |Split(base, i, j, g)| == |base| + 1
    ensures g != 1 ==> RefinementOf(Split(base, i, j, g), start, true) && Product(Split(base, i, j, g)) < Product(base)
  {
    hide Generates, Product;
    GcdDivides(base[i], base[j]);
    if g != 1 {
      SplitProduct(base, i, j, g);
      SplitGenerates(base, i, j, g);
      SplitDivides(base, i, j, g);
      DivideThrough(Split(base, i, j, g), base, start);
      Finer(base, Split(base, i, j, g), start);
    }
  }

  lemma RowDone(base: seq<nat>, before: seq<nat>, start: seq<nat>, mutated: bool, refined: bool, i: nat)
    requires i < |base| && (!mutated ==> CoprimeRows(before, i)) && RefinementOf(base, start, refined) && RefinementOf(before, start, mutated)
    requires Product(base) < Product(before) || (base == before && refined == mutated)
    requires !refined ==> forall k :: i < k < |base| ==> Coprime(base[i], base[k])
    ensures !refined ==> CoprimeRows(base, i + 1)
  {
    hide Product, Coprime, Positive, GeneratesAll, DivideSome;
    if !refined {
      assert base == start == before && !mutated;
      forall k, j | 0 <= k < i + 1 && k < j < |base| ensures Coprime(base[k], base[j]) {
        if k < i { assert Coprime(before[k], before[j]); }
      }
    }
  }
}
