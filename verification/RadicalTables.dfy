/**
 The table of exponents of primes and cofactors: trial division of the elements of a coprime base, and the roots
 of what trial division leaves.
 */
module RadicalTables {
  import opened Sequences
  import opened IntegerRoots
  import opened Divisibility
  import opened CoprimeBases
  import opened Rationals
  import opened RadicalTerms
  import opened RadicalParts
  import opened RadicalWidths
  import opened Primes
  import opened PowerRoots
  import opened RadicalKeys

  // ---- The keys of the exponent table ----

  ghost predicate KeysCoprimeTo(es: seq<Entry>, n: nat) {
    forall k :: 0 <= k < |es| ==> Coprime(es[k].0, n)
  }

  /** Keys are above 1 and pairwise coprime. */
  ghost predicate KeysApart(es: seq<Entry>) {
    && (forall k :: 0 <= k < |es| ==> es[k].0 > 1)
    && forall i, j :: 0 <= i < |es| && 0 <= j < |es| && i != j ==> Coprime(es[i].0, es[j].0)
  }

  /** No small prime factor but itself, and no power of a smaller number. */
  ghost predicate Tried(c: nat, n: nat) {
    TrialFree(c, n) && Primitive(c)
  }

  /** Keys that can enter the radicand. */
  ghost predicate KeysTried(es: seq<Entry>, n: nat) {
    forall k :: 0 <= k < |es| ==> es[k].1.den == 1 || Tried(es[k].0, n)
  }

  ghost predicate KeysSquareFree(es: seq<Entry>) {
    forall k :: 0 <= k < |es| ==> es[k].1.den == 1 || SquareFree(es[k].0)
  }

  lemma NewSquareFree(es: seq<Entry>, b: nat, e: Rat)
    requires PositiveEntries(es) && b > 1 && e.den > 0 && KeysApart(es) && KeysCoprimeTo(es, b)
    requires KeysSquareFree(es) && (e.den == 1 || SquareFree(b))
    ensures KeysSquareFree(AddEntry(es, b, e))
  {
    hide SquareFree, AddEntry;
    NewKey(es, b, e);
    var r := AddEntry(es, b, e);
    forall k | 0 <= k < |r| ensures r[k].1.den == 1 || SquareFree(r[k].0) {
      if r[k] in es { var l :| 0 <= l < |es| && es[l] == r[k]; }
    }
  }

  /** What is left of x when its prime factors up to the bound are taken out is a power of a number without square factors. */
  ghost predicate Level(x: nat, trial: nat) {
    exists a: nat, s: nat, k: nat :: LevelParts(x, a, s, k, trial)
  }

  ghost predicate LevelParts(x: nat, a: nat, s: nat, k: nat, trial: nat) {
    a > 0 && s > 0 && x == a * Pow(s, k) && Smooth(a, trial) && FreeBelow(s, trial + 1) && SquareFree(s)
  }

  lemma SelfNotCoprime(b: nat)
    requires b > 1
    ensures !Coprime(b, b)
  {
    GcdDivides(b, b);
    DivisorBound(Gcd(b, b), b);
    Multiple(b, 1);
    CommonDivisor(b, b, b);
    DivisorBound(b, Gcd(b, b));
  }

  /** Adding a key that is coprime to all inserts it. */
  lemma KeysApartFrom(head: Entry, es: seq<Entry>)
    requires head.0 > 1 && KeysApart(es) && forall k :: 0 <= k < |es| ==> Coprime(head.0, es[k].0)
    ensures KeysApart([head] + es)
  {
    hide Coprime;
    forall k | 0 <= k < |es| ensures Coprime(es[k].0, head.0) { CoprimeSymmetric(head.0, es[k].0); }
  }

  lemma {:induction false} NewKey(es: seq<Entry>, b: nat, e: Rat)
    requires PositiveEntries(es) && b > 1 && e.den > 0 && KeysApart(es) && KeysCoprimeTo(es, b)
    ensures KeysApart(AddEntry(es, b, e))
    ensures forall k :: 0 <= k < |AddEntry(es, b, e)| ==> AddEntry(es, b, e)[k] == (b, e) || AddEntry(es, b, e)[k] in es
  {
    hide Coprime;
    forall k | 0 <= k < |es| ensures es[k].0 != b && Coprime(b, es[k].0) {
      SelfNotCoprime(b);
      CoprimeSymmetric(es[k].0, b);
    }
    if es == [] || b < es[0].0 {
      KeysApartFrom((b, e), es);
    } else {
      NewKey(es[1..], b, e);
      var rest := AddEntry(es[1..], b, e);
      forall k | 0 <= k < |rest| ensures Coprime(es[0].0, rest[k].0) {
        if rest[k] != (b, e) {
          var l :| 0 <= l < |es[1..]| && es[1..][l] == rest[k];
          assert es[l + 1] == rest[k];
        }
      }
      KeysApartFrom(es[0], rest);
    }
  }

  lemma KeysCoprimeToDivisor(es: seq<Entry>, n: nat, d: nat)
    requires n > 0 && KeysCoprimeTo(es, n) && Divides(d, n) && forall k :: 0 <= k < |es| ==> es[k].0 > 0
    ensures KeysCoprimeTo(es, d)
  {
    forall k | 0 <= k < |es| ensures Coprime(es[k].0, d) {
      Multiple(es[k].0, 1);
      CoprimeDivisors(es[k].0, n, es[k].0, d);
    }
  }

  // ---- Trial division ----

  /** Divides by d while it goes. */
  method DivideOut(n: nat, d: nat) returns (rest: nat, multiplicity: nat)
    requires n > 0 && d > 1
    ensures rest > 0 && !Divides(d, rest) && n == Pow(d, multiplicity) * rest && multiplicity == Multiplicity(d, n)
  {
    rest, multiplicity := n, 0;
    while rest % d == 0
      invariant rest > 0 && n == Pow(d, multiplicity) * rest
      invariant Multiplicity(d, n) == multiplicity + Multiplicity(d, rest)
      decreases rest
    {
      Quotient(d, rest);
      Halved(d, rest);
      PowStep(d, multiplicity);
      Regroup(Pow(d, multiplicity), d, rest / d);
      rest := rest / d;
      multiplicity := multiplicity + 1;
    }
  }

  method ExponentOf(element: nat, terms: seq<Entry>) returns (exponent: Rat)
    requires element > 1 && PositiveEntries(terms)
    ensures exponent == TotalExponent(element, terms)
  {
    exponent := Rat(0, 1);
    for k := 0 to |terms|
      invariant exponent == TotalExponent(element, terms[..k])
    {
      var rest, multiplicity := DivideOut(terms[k].0, element);
      exponent := Add(exponent, Times(multiplicity, terms[k].1));
      assert Init(terms[..k + 1]) == terms[..k];
    }
    assert terms[..|terms|] == terms;
  }

  /** The value of a table times the d-th power of a remaining factor with its exponent. */
  ghost function Pending(d: nat, es: seq<Entry>, c: nat, e: Rat): real
    requires Cleared(d, es) && c > 0 && Clears(d, e)
  {
    Mul(ValueOf(d, es), EntryValue(d, (c, e)))
  }

  /** The weight of a table and a remaining factor with its exponent. */
  ghost function Burden(d: nat, es: seq<Entry>, c: nat, e: Rat): nat
    requires Cleared(d, es) && Clears(d, e)
  {
    Weight(d, es) + Load(d, (c, e))
  }

  /** Keys of out are those of es and divisors of the element. */
  ghost predicate NewKeysDivide(es: seq<Entry>, out: seq<Entry>, element: nat) {
    forall x: nat :: x > 0 && KeysCoprimeTo(es, x) && Coprime(element, x) ==> KeysCoprimeTo(out, x)
  }

  ghost predicate TableOk(es: seq<Entry>, trial: nat) {
    PositiveEntries(es) && KeysApart(es) && KeysTried(es, trial)
  }

  /** Moving a power of q out of the remaining factor into the table. */
  lemma MoveOut(d: nat, es: seq<Entry>, c: nat, q: nat, m: nat, rest: nat, e: Rat)
    requires Cleared(d, es) && q > 0 && rest > 0 && c == Pow(q, m) * rest && c > 0 && Clears(d, e)
    ensures Cleared(d, AddEntry(es, q, Times(m, e))) && Pending(d, AddEntry(es, q, Times(m, e)), rest, e) == Pending(d, es, c, e)
  {
    hide Mul, Power, Scaled, ValueOf, AddEntry, Times;
    var s := Scaled(d, e);
    ScaledTimes(d, m, e);
    AddEntryValue(d, es, q, Times(m, e));
    PowerOfPow(q, m, s);
    RealOfProduct(Pow(q, m), rest);
    PowerOfProduct(Pow(q, m) as real, rest as real, s);
    var a, b, v := Power(q as real, m * s), Power(rest as real, s), ValueOf(d, es);
    assert EntryValue(d, (q, Times(m, e))) == a;
    MulAssoc(a, v, b);
    MulSwap(a, v, b);
  }

  /** A new prime key. */
  lemma TrialKey(es: seq<Entry>, element: nat, c: nat, q: nat, m: nat, rest: nat, e: Rat, trial: nat, start: seq<Entry>)
    requires TableOk(es, trial) && KeysCoprimeTo(es, c) && NewKeysDivide(start, es, element) && Divides(c, element) && element > 0
    requires c > 0 && m > 0 && c == Pow(q, m) * rest && rest > 0 && Prime(q) && !Divides(q, rest) && e.den > 0
    ensures Divides(q, c) && Divides(rest, c) && Divides(rest, element)
    ensures var out := AddEntry(es, q, e);
            TableOk(out, trial) && KeysCoprimeTo(out, rest) && NewKeysDivide(start, out, element)
  {
    PowStep(q, m - 1);
    assert c == (Pow(q, m - 1) * rest) * q by { Regroup(Pow(q, m - 1), q, rest); }
    Multiple(q, Pow(q, m - 1) * rest);
    Multiple(rest, Pow(q, m));
    DividesTransitive(rest, c, element);
    DividesTransitive(q, c, element);
    KeysCoprimeToDivisor(es, c, q);
    KeysCoprimeToDivisor(es, c, rest);
    NewKey(es, q, e);
    NoCommonDivisor(q, rest);
    AddedKey(start, es, element, q, e);
    PrimeTried(q, trial);
    var out := AddEntry(es, q, e);
    hide AddEntry, Coprime, Tried;
    forall k | 0 <= k < |out| ensures Coprime(out[k].0, rest) && (out[k].1.den == 1 || Tried(out[k].0, trial)) {
      if out[k] in es { var l :| 0 <= l < |es| && es[l] == out[k]; }
    }
  }

  lemma PrimeTried(q: nat, n: nat)
    requires Prime(q)
    ensures Tried(q, n)
  {
    PrimeIsPrimitive(q);
  }

  lemma AddedKey(start: seq<Entry>, es: seq<Entry>, element: nat, q: nat, e: Rat)
    requires NewKeysDivide(start, es, element) && Divides(q, element) && element > 0 && PositiveEntries(es) && e.den > 0 && q > 0
    ensures NewKeysDivide(start, AddEntry(es, q, e), element)
  {
    var out := AddEntry(es, q, e);
    hide AddEntry, Coprime;
    forall x: nat | x > 0 && KeysCoprimeTo(start, x) && Coprime(element, x) ensures KeysCoprimeTo(out, x) {
      assert KeysCoprimeTo(es, x);
      Multiple(x, 1);
      CoprimeDivisors(element, x, q, x);
      forall k | 0 <= k < |out| ensures Coprime(out[k].0, x) {
        if out[k].0 != q { var l :| 0 <= l < |es| && es[l] == out[k]; }
      }
    }
  }

  /** What no divisor below d says about the next divisor tried. */
  lemma NextDivisor(c: nat, rest: nat, d: nat)
    requires c > 0 && FreeBelow(c, d) && Divides(rest, c) && !Divides(d, rest) && d >= 2 && (d == 2 || d % 2 == 1)
    ensures FreeBelow(rest, if d == 2 then 3 else d + 2)
  {
    FreeDivisor(c, d, rest);
    if d > 2 && Divides(d + 1, rest) {
      Multiple(2, (d + 1) / 2);
      DividesTransitive(2, d + 1, rest);
    }
  }

  lemma NoChange(c: nat, d: nat, rest: nat)
    requires c > 0 && c == Pow(d, 0) * rest
    ensures rest == c && Divides(rest, c)
  {
    Multiple(c, 1);
  }

  ghost predicate Parted(n: nat, a: nat, b: nat) {
    a > 0 && n == a * b
  }

  /** Where the division of element stands before divisor d is tried. */
  ghost predicate Dividing(element: nat, exponent: Rat, start: seq<Entry>, trial: nat, scale: nat, c: nat, d: nat, es: seq<Entry>, small: nat)
    requires Cleared(scale, start) && Clears(scale, exponent) && element > 0
  {
    && Found(start, es, element, exponent, trial, d) && PrimesBelow(small, d)
    && c > 0 && d >= 2 && (d == 2 || d % 2 == 1) && Divides(c, element) && FreeBelow(c, d)
    && TableOk(es, trial) && KeysCoprimeTo(es, c) && NewKeysDivide(start, es, element) && Cleared(scale, es)
    && Pending(scale, es, c, exponent) == Pending(scale, start, element, exponent)
    && Burden(scale, es, c, exponent) <= Burden(scale, start, element, exponent)
    && Parted(element, small, c) && Smooth(small, trial)
    && (KeysSquareFree(start) ==> KeysSquareFree(es))
  }

  /** Divides element by 2, 3, 5, 7, ... up to the bound or its square root. */
  method TrialDivision(element: nat, exponent: Rat, start: seq<Entry>, trial: nat, ghost scale: nat)
      returns (cofactor: nat, d: nat, es: seq<Entry>, ghost small: nat)
    requires element > 1 && TableOk(start, trial) && KeysCoprimeTo(start, element) && KeysAscending(start)
    requires Cleared(scale, start) && Clears(scale, exponent)
    ensures Found(start, es, element, exponent, trial, d) && PrimesBelow(small, d)
    ensures cofactor > 0 && d > 1 && Divides(cofactor, element) && FreeBelow(cofactor, d) && (d > trial || cofactor < d * d)
    ensures TableOk(es, trial) && KeysCoprimeTo(es, cofactor) && NewKeysDivide(start, es, element) && Cleared(scale, es)
    ensures Pending(scale, es, cofactor, exponent) == Pending(scale, start, element, exponent)
    ensures Burden(scale, es, cofactor, exponent) <= Burden(scale, start, element, exponent)
    ensures Parted(element, small, cofactor) && Smooth(small, trial)
    ensures KeysSquareFree(start) ==> KeysSquareFree(es)
  {
    hide Dividing, Pending, TableOk, KeysCoprimeTo, NewKeysDivide, Cleared, FreeBelow, Divides, Clears, Burden, Smooth, Parted, KeysSquareFree;
    cofactor, d, es, small := element, 2, start, 1;
    StartsDividing(element, exponent, start, trial, scale);
    while d <= trial && d * d <= cofactor
      invariant Dividing(element, exponent, start, trial, scale, cofactor, d, es, small)
      decreases trial + 1 - d
    {
      cofactor, es, small := TryDivisor(element, exponent, start, trial, scale, cofactor, d, es, small);
      d := d + (if d == 2 then 1 else 2);
    }
    DividingIs(element, exponent, start, trial, scale, cofactor, d, es, small);
  }

  lemma StartsDividing(element: nat, exponent: Rat, start: seq<Entry>, trial: nat, scale: nat)
    requires element > 1 && TableOk(start, trial) && KeysCoprimeTo(start, element) && KeysAscending(start)
    requires Cleared(scale, start) && Clears(scale, exponent)
    ensures Dividing(element, exponent, start, trial, scale, element, 2, start, 1)
  {
    hide TableOk, KeysCoprimeTo, NewKeysDivide, FreeBelow, Divides, Smooth, Parted, KeysSquareFree, Burden, Pending, Found, PrimesBelow;
    FoundNothing(start, element, exponent, trial);
    StartDivision(element, start);
    OneIsSmooth(trial);
  }

  lemma DividingIs(element: nat, exponent: Rat, start: seq<Entry>, trial: nat, scale: nat, c: nat, d: nat, es: seq<Entry>, small: nat)
    requires Cleared(scale, start) && Clears(scale, exponent) && element > 0
    requires Dividing(element, exponent, start, trial, scale, c, d, es, small)
    ensures Found(start, es, element, exponent, trial, d) && PrimesBelow(small, d)
    ensures c > 0 && d > 1 && Divides(c, element) && FreeBelow(c, d)
    ensures TableOk(es, trial) && KeysCoprimeTo(es, c) && NewKeysDivide(start, es, element) && Cleared(scale, es)
    ensures Pending(scale, es, c, exponent) == Pending(scale, start, element, exponent)
    ensures Burden(scale, es, c, exponent) <= Burden(scale, start, element, exponent)
    ensures Parted(element, small, c) && Smooth(small, trial)
    ensures KeysSquareFree(start) ==> KeysSquareFree(es)
  {
  }

  /** Moves the powers of d to the table. */
  method TryDivisor(element: nat, exponent: Rat, ghost start: seq<Entry>, ghost trial: nat, ghost scale: nat, cofactor: nat, d: nat,
                    table: seq<Entry>, ghost part: nat)
      returns (rest: nat, es: seq<Entry>, ghost small: nat)
    requires element > 1 && Cleared(scale, start) && Clears(scale, exponent) && d <= trial
    requires Dividing(element, exponent, start, trial, scale, cofactor, d, table, part)
    ensures Dividing(element, exponent, start, trial, scale, rest, if d == 2 then 3 else d + 2, es, small)
  {
    hide Pending, TableOk, KeysCoprimeTo, NewKeysDivide, Cleared, FreeBelow, AddEntry, Times, Pow, Multiplicity, Prime, Divides, Clears,
         Burden, Smooth, Parted, KeysSquareFree, Found, PrimesBelow;
    var multiplicity;
    rest, multiplicity := DivideOut(cofactor, d);
    es, small := table, part;
    EntriesPositive(es, trial, exponent, scale);
    DivisorFound(start, es, element, exponent, trial, d, small, cofactor, multiplicity, rest);
    if multiplicity != 0 {
      TrialStep(es, element, cofactor, d, multiplicity, rest, exponent, trial, start, scale);
      TrialStepKeeps(es, element, cofactor, d, multiplicity, rest, exponent, trial, small, scale);
      small := small * Pow(d, multiplicity);
      es := AddEntry(es, d, Times(multiplicity, exponent));
    } else {
      NoChange(cofactor, d, rest);
    }
    NextDivisor(cofactor, rest, d);
  }

  /** A divisor of the remaining factor is a new key. */
  lemma KeyIsNew(es: seq<Entry>, c: nat, d: nat)
    requires KeysCoprimeTo(es, c) && c > 0 && d > 1 && Divides(d, c) && forall k :: 0 <= k < |es| ==> es[k].0 > 0
    ensures forall k :: 0 <= k < |es| ==> es[k].0 != d
  {
    hide Coprime;
    KeysCoprimeToDivisor(es, c, d);
    SelfNotCoprime(d);
  }

  lemma DivisorFound(start: seq<Entry>, es: seq<Entry>, a: nat, exponent: Rat, trial: nat, d: nat, small: nat, c: nat, m: nat, rest: nat)
    requires a > 0 && exponent.den > 0 && Found(start, es, a, exponent, trial, d) && PositiveEntries(es) && c > 0
    requires Parted(a, small, c) && PrimesBelow(small, d) && FreeBelow(c, d) && d <= trial && d >= 2 && (d == 2 || d % 2 == 1)
    requires m == Multiplicity(d, c) && c == Pow(d, m) * rest && rest > 0 && KeysCoprimeTo(es, c)
    ensures var out, next := if m != 0 then AddEntry(es, d, Times(m, exponent)) else es, if d == 2 then 3 else d + 2;
            Found(start, out, a, exponent, trial, next) && PrimesBelow(if m != 0 then small * Pow(d, m) else small, next)
  {
    hide Found, PrimesBelow, FreeBelow, Pow, KeysCoprimeTo, AddEntry, Times;
    if m != 0 {
      DividesByMultiplicity(d, c);
      KeyIsNew(es, c, d);
    }
    FoundMore(start, es, a, exponent, trial, d, small, c, m, rest);
    if m == 0 { PowOfNone(d); }
  }

  lemma EntriesPositive(es: seq<Entry>, trial: nat, e: Rat, scale: nat)
    requires TableOk(es, trial) && Clears(scale, e)
    ensures PositiveEntries(es) && e.den > 0
  {
  }

  lemma StartDivision(element: nat, start: seq<Entry>)
    requires element > 1
    ensures Divides(element, element) && FreeBelow(element, 2) && NewKeysDivide(start, start, element) && Parted(element, 1, element)
  {
    Multiple(element, 1);
  }

  lemma TrialStep(es: seq<Entry>, element: nat, c: nat, q: nat, m: nat, rest: nat, e: Rat, trial: nat, start: seq<Entry>, scale: nat)
    requires TableOk(es, trial) && KeysCoprimeTo(es, c) && NewKeysDivide(start, es, element) && Divides(c, element) && element > 0
    requires c > 0 && m > 0 && c == Pow(q, m) * rest && rest > 0 && q > 1 && FreeBelow(c, q) && !Divides(q, rest)
    requires Cleared(scale, es) && Clears(scale, e) && e.den > 0 && PositiveEntries(es)
    ensures Divides(rest, c) && Divides(rest, element)
    ensures var out := AddEntry(es, q, Times(m, e));
            && TableOk(out, trial) && KeysCoprimeTo(out, rest) && NewKeysDivide(start, out, element)
            && Cleared(scale, out) && Pending(scale, out, rest, e) == Pending(scale, es, c, e)
  {
    PowStep(q, m - 1);
    Regroup(Pow(q, m - 1), q, rest);
    Multiple(q, Pow(q, m - 1) * rest);
    assert c == (Pow(q, m - 1) * rest) * q;
    SmallestDivisorIsPrime(c, q);
    TrialKey(es, element, c, q, m, rest, Times(m, e), trial, start);
    MoveOut(scale, es, c, q, m, rest, e);
  }

  lemma OneIsSmooth(trial: nat)
    ensures Smooth(1, trial)
  {
    forall p: nat | Divides(p, 1) ensures p <= 1 { DivisorBound(p, 1); }
  }

  /** The same step does not add weight, and its key is a prime up to the bound. */
  lemma TrialStepKeeps(es: seq<Entry>, element: nat, c: nat, q: nat, m: nat, rest: nat, e: Rat, trial: nat, small: nat, scale: nat)
    requires TableOk(es, trial) && KeysCoprimeTo(es, c) && Cleared(scale, es) && Clears(scale, e) && e.den > 0 && PositiveEntries(es)
    requires c > 0 && m > 0 && c == Pow(q, m) * rest && rest > 0 && 1 < q <= trial && FreeBelow(c, q)
    requires Parted(element, small, c) && Smooth(small, trial)
    ensures Cleared(scale, AddEntry(es, q, Times(m, e))) && Burden(scale, AddEntry(es, q, Times(m, e)), rest, e) <= Burden(scale, es, c, e)
    ensures Parted(element, small * Pow(q, m), rest) && Smooth(small * Pow(q, m), trial)
    ensures KeysSquareFree(es) ==> KeysSquareFree(AddEntry(es, q, Times(m, e)))
  {
    PowStep(q, m - 1);
    Regroup(Pow(q, m - 1), q, rest);
    Multiple(q, Pow(q, m - 1) * rest);
    assert c == (Pow(q, m - 1) * rest) * q;
    SmallestDivisorIsPrime(c, q);
    hide Pow, Weight, Load, Times, AddEntry, Prime, Smooth, KeysSquareFree, SquareFree, Divides;
    SplitLoad(scale, c, q, m, rest, e);
    AddEntryWeight(scale, es, q, Times(m, e));
    MulAssocInt(small, Pow(q, m), rest);
    MulMono(1, small, Pow(q, m));
    SmoothTimes(small, q, m, trial);
    KeysCoprimeToDivisor(es, c, q);
    PrimeIsSquareFree(q);
    if KeysSquareFree(es) { NewSquareFree(es, q, Times(m, e)); }
  }

  // ---- Perfect powers ----

  method IsPrime(k: nat) returns (prime: bool)
    requires k >= 2
    ensures prime <==> Prime(k)
  {
    hide Prime, Divides;
    var f := 2;
    while f * f <= k
      invariant f >= 2 && FreeBelow(k, f)
      decreases k + 2 - f
    {
      if k % f == 0 {
        ProperDivisor(k, f);
        return false;
      }
      NotDivided(k, f);
      f := f + 1;
    }
    SquareAbove(k, f, k);
    OnlyItself(k);
    return true;
  }

  lemma ProperDivisor(k: nat, f: nat)
    requires k > 0 && f > 1 && k % f == 0 && f * f <= k
    ensures !Prime(k)
  {
    MulMono(2, f, f);
    assert Divides(f, k);
  }

  lemma NotDivided(k: nat, f: nat)
    requires f > 1 && FreeBelow(k, f) && k % f != 0
    ensures FreeBelow(k, f + 1) && f <= f * f
  {
    MulMono(1, f, f);
  }

  lemma OnlyItself(k: nat)
    requires k > 1 && TrialFree(k, k)
    ensures Prime(k)
  {
    forall q: nat | q > 1 && Divides(q, k) ensures q == k {
      DivisorBound(q, k);
    }
  }

  /** Taking a k-th root multiplies the exponent by k and keeps the value. */
  lemma RootKeepsValue(d: nat, c: nat, r: nat, k: nat, e: Rat)
    requires c > 1 && k >= 2 && Pow(r, k) == c && Clears(d, e)
    ensures 1 < r < c && Divides(r, c) && Clears(d, Times(k, e))
    ensures EntryValue(d, (r, Times(k, e))) == EntryValue(d, (c, e))
  {
    if r <= 1 { OneIsBelow(1, k); ZeroPower(r, k); }
    PowGrows(1, r, k - 1);
    OneIsBelow(1, k - 1);
    PowStep(r, k - 1);
    Multiple(r, Pow(r, k - 1));
    RootBelow(r, Pow(r, k - 1));
    ScaledTimes(d, k, e);
    PowerOfPow(r, k, Scaled(d, e));
  }

  lemma RootBelow(r: nat, p: nat)
    requires r > 1 && p > 1
    ensures r < r * p
  {
    MulMono(2, p, r);
  }

  /** The integer root finds a k-th power. */
  lemma RootIsExact(c: nat, k: nat, r: nat)
    requires k >= 1 && IsRoot(c, k, r) && Pow(r, k) != c
    ensures !IsPower(c, k)
  {
    forall x: nat ensures Pow(x, k) != c {
      if x <= r { PowMono(x, r, k); } else { PowMono(r + 1, x, k); }
      if x < r { PowGrows(x, r, k); }
    }
  }

  /** The order of a root of a number without small divisors is bounded by its width. */
  lemma OrderBounded(c: nat, j: nat, trial: nat, rootBits: nat)
    requires c > 1 && j >= 1 && IsPower(c, j) && FreeBelow(c, trial + 1) && rootBits == if trial < 2 then 1 else Msb(trial)
    ensures rootBits > 0 && j <= Msb(c) / rootBits
  {
    hide Msb;
    MsbPositive(trial);
    var r: nat :| Pow(r, j) == c;
    WideRoot(c, r, j, trial, rootBits);
    PowMono(Pow(2, rootBits), r, j);
    PowOfPow(2, rootBits, j);
    MsbBounds(c);
    if rootBits * j > Msb(c) { ExponentMono(2, Msb(c) + 1, rootBits * j); }
    DivAtLeastBy(Msb(c), rootBits, j);
  }

  lemma WideRoot(c: nat, r: nat, j: nat, trial: nat, rootBits: nat)
    requires c > 1 && j >= 1 && Pow(r, j) == c && FreeBelow(c, trial + 1) && rootBits == if trial < 2 then 1 else Msb(trial)
    ensures Pow(2, rootBits) <= r
  {
    hide Msb;
    if r <= 1 { ZeroPower(r, j); }
    PowStep(r, j - 1);
    Multiple(r, Pow(r, j - 1));
    assert Divides(r, c);
    if trial >= 2 { MsbBounds(trial); } else { PowStep(2, 0); }
  }

  lemma {:induction false} ExponentMono(b: nat, m: nat, n: nat)
    requires b > 0 && m <= n
    ensures Pow(b, m) <= Pow(b, n)
    decreases n
  {
    if m < n {
      ExponentMono(b, m, n - 1);
      MulMono(1, b, Pow(b, n - 1));
    }
  }

  lemma DivAtLeastBy(n: nat, d: nat, q: nat)
    requires d > 0 && d * q <= n
    ensures q <= n / d
  {
    DivBounds(n, d);
    if n / d < q { MulMono(n / d + 1, q, d); }
  }

  /** No prime order below k gives a root. */
  ghost predicate TriedBelow(c: nat, k: nat) {
    forall q: nat :: Prime(q) && q < k ==> !IsPower(c, q)
  }

  lemma TriedAll(c: nat, k: nat, trial: nat, rootBits: nat)
    requires c > 1 && FreeBelow(c, trial + 1) && rootBits == if trial < 2 then 1 else Msb(trial)
    requires TriedBelow(c, k) && rootBits > 0 && k > Msb(c) / rootBits
    ensures Primitive(c)
  {
    hide Msb;
    forall q: nat | Prime(q) ensures !IsPower(c, q) {
      if IsPower(c, q) { OrderBounded(c, q, trial, rootBits); }
    }
    PrimeOrdersSuffice(c);
  }

  lemma TriedMore(before: nat, c: nat, k: nat)
    requires TriedBelow(before, k) && (forall j: nat :: IsPower(c, j) ==> IsPower(before, j)) && (Prime(k) ==> !IsPower(c, k))
    ensures TriedBelow(c, k + 1)
  {
    hide Prime, IsPower;
  }

  /** n is a power of c. */
  ghost predicate RootOf(c: nat, n: nat) {
    exists j: nat :: j > 0 && Pow(c, j) == n
  }

  lemma RootOfItself(c: nat)
    ensures RootOf(c, c)
  {
    PowStep(c, 0);
    PowOfNone(c);
    assert Pow(c, 1) == c;
  }

  lemma RootOfRoot(r: nat, k: nat, c: nat, n: nat)
    requires k > 0 && Pow(r, k) == c && RootOf(c, n)
    ensures RootOf(r, n)
  {
    var j: nat :| j > 0 && Pow(c, j) == n;
    PowOfPow(r, k, j);
    MulMono(1, k, j);
  }

  lemma RootTransitive(a: nat, b: nat, c: nat)
    requires RootOf(a, b) && RootOf(b, c)
    ensures RootOf(a, c)
  {
    var k: nat :| k > 0 && Pow(a, k) == b;
    RootOfRoot(a, k, b, c);
  }

  /** Replaces c by its k-th root while it is a k-th power. */
  method ExtractRoots(start: nat, exponent: Rat, k: nat, estimate: (nat, nat) -> nat, ghost scale: nat) returns (c: nat, e: Rat)
    requires start > 1 && k >= 2 && Clears(scale, exponent) && Normal(exponent)
    ensures e.den > 0 && Rooted(c, e, start, exponent) && Normal(e)
    ensures 1 < c <= start && Divides(c, start) && Clears(scale, e)
    ensures EntryValue(scale, (c, e)) == EntryValue(scale, (start, exponent))
    ensures Load(scale, (c, e)) <= Load(scale, (start, exponent)) && RootOf(c, start)
    ensures !IsPower(c, k) && forall j: nat :: IsPower(c, j) ==> IsPower(start, j)
  {
    hide EntryValue, Clears, Times, Pow, Divides, IsPower, IsRoot, Load, RootOf, Rooted, Normal;
    c, e := start, exponent;
    RootedItself(start, exponent);
    DenPositive(scale, e);
    RootOfItself(c);
    StartDivision(start, []);
    var r := Iroot(c, k, estimate(c, k) + 1);
    while Pow(r, k) == c
      invariant 1 < c <= start && Divides(c, start) && Clears(scale, e)
      invariant EntryValue(scale, (c, e)) == EntryValue(scale, (start, exponent))
      invariant Load(scale, (c, e)) <= Load(scale, (start, exponent)) && RootOf(c, start)
      invariant e.den > 0 && Rooted(c, e, start, exponent) && Normal(e)
      invariant IsRoot(c, k, r) && forall j: nat :: IsPower(c, j) ==> IsPower(start, j)
      decreases c
    {
      PowersOfRoot(c, r, k);
      RootKeepsValue(scale, c, r, k, e);
      RootLoad(scale, c, r, k, e);
      RootOfRoot(r, k, c, start);
      DividesTransitive(r, c, start);
      DenPositive(scale, e);
      RootedAgain(r, k, c, e, start, exponent);
      TimesIsNormal(k, e);
      c, e := r, Times(k, e);
      r := Iroot(c, k, estimate(c, k) + 1);
    }
    RootIsExact(c, k, r);
  }

  lemma DenPositive(d: nat, e: Rat)
    requires Clears(d, e)
    ensures e.den > 0
  {
  }

  /** Replaces a factor without small divisors by the number it is a perfect power of. */
  method PerfectPower(start: nat, exponent: Rat, trial: nat, estimate: (nat, nat) -> nat, ghost scale: nat) returns (c: nat, e: Rat)
    requires start > 1 && Clears(scale, exponent) && FreeBelow(start, trial + 1) && Normal(exponent)
    ensures e.den > 0 && Rooted(c, e, start, exponent)
    ensures c > 1 && Divides(c, start) && Clears(scale, e)
    ensures EntryValue(scale, (c, e)) == EntryValue(scale, (start, exponent))
    ensures Load(scale, (c, e)) <= Load(scale, (start, exponent)) && RootOf(c, start)
    ensures Primitive(c)
  {
    hide EntryValue, Clears, Divides, Msb, Prime, FreeBelow, IsPower, TriedBelow, Primitive, Load, RootOf, Rooted, Normal;
    c, e := start, exponent;
    RootedItself(start, exponent);
    DenPositive(scale, e);
    RootOfItself(c);
    StartDivision(start, []);
    MsbPositive(trial);
    var rootBits := if trial < 2 then 1 else Msb(trial);
    var k := 2;
    NoneTried(c);
    while k <= Msb(c) / rootBits
      invariant TriedBelow(c, k)
      invariant e.den > 0 && Rooted(c, e, start, exponent) && Normal(e)
      invariant k >= 2 && c > 1 && Divides(c, start) && Clears(scale, e)
      invariant EntryValue(scale, (c, e)) == EntryValue(scale, (start, exponent))
      invariant Load(scale, (c, e)) <= Load(scale, (start, exponent)) && RootOf(c, start)
      decreases start + 1 - k, Msb(c)
    {
      var prime := IsPrime(k);
      BoundedRootOrder(c, start, rootBits, k);
      ghost var before, last := c, e;
      if prime {
        c, e := ExtractRoots(c, e, k, estimate, scale);
        DividesTransitive(c, before, start);
        RootTransitive(c, before, start);
        RootedTransitive(c, e, before, last, start, exponent);
      }
      TriedMore(before, c, k);
      k := k + 1;
    }
    FreeDivisor(start, trial + 1, c);
    TriedAll(c, k, trial, rootBits);
  }

  lemma NoneTried(c: nat)
    ensures TriedBelow(c, 2)
  {
  }

  lemma MsbPositive(n: nat)
    ensures n >= 2 ==> Msb(n) >= 1
  {
  }

  lemma BoundedRootOrder(c: nat, start: nat, rootBits: nat, k: nat)
    requires c > 0 && start > 0 && Divides(c, start) && rootBits > 0 && k <= Msb(c) / rootBits
    ensures k <= start
  {
    DivisorBound(c, start);
    MsbBelow(c);
    DivBounds(Msb(c), rootBits);
    MulMono(1, rootBits, Msb(c) / rootBits);
  }

  lemma {:induction false} MsbBelow(n: nat)
    ensures Msb(n) <= n
  {
    if n >= 2 { MsbBelow(n / 2); }
  }

  /** The factor that stays after trial division becomes one key. */
  method FactorElement(element: nat, exponent: Rat, start: seq<Entry>, trial: nat, estimate: (nat, nat) -> nat, ghost scale: nat)
      returns (es: seq<Entry>)
    requires element > 1 && TableOk(start, trial) && KeysCoprimeTo(start, element) && KeysAscending(start)
    requires Cleared(scale, start) && Clears(scale, exponent) && exponent.den > 1 && exponent.num != 0 && Normal(exponent)
    ensures AllFound(start, es, element, exponent, trial)
    ensures TableOk(es, trial) && NewKeysDivide(start, es, element) && Cleared(scale, es)
    ensures ValueOf(scale, es) == Pending(scale, start, element, exponent)
    ensures Weight(scale, es) <= Burden(scale, start, element, exponent)
    ensures KeysSquareFree(start) && Level(element, trial) ==> KeysSquareFree(es)
  {
    hide Pending, TableOk, KeysCoprimeTo, NewKeysDivide, Cleared, FreeBelow, AddEntry, EntryValue, Divides, Clears, Tried, ValueOf,
         Burden, Weight, Load, Smooth, KeysSquareFree, SquareFree, RootOf, Level, Primitive, Prime, Found, AllFound, PrimesBelow,
         Rooted, Normal, Parted, KeysAscending;
    var cofactor, d, table, small := TrialDivision(element, exponent, start, trial, scale);
    es := table;
    BurdenIs(scale, table, cofactor, exponent);
    if cofactor == 1 {
      PendingOne(scale, es, exponent);
      NothingRests(start, es, element, exponent, trial, d, small);
      return;
    }
    var c, e := cofactor, exponent;
    if d * d <= cofactor {
      FreeToTrial(cofactor, d, trial);
      c, e := PerfectPower(cofactor, exponent, trial, estimate, scale);
      FreeDivisor(cofactor, d, c);
      RootTried(c, d, trial);
      if Level(element, trial) { LevelRoot(element, small, cofactor, c, trial); }
    } else {
      LastPrime(cofactor, d, trial);
      PrimeIsSquareFree(cofactor);
      StartDivision(cofactor, start);
      RootedItself(cofactor, exponent);
    }
    EntriesPositive(table, trial, e, scale);
    LastFound(start, table, element, exponent, trial, d, small, cofactor, c, e);
    LastKey(start, table, element, cofactor, c, e, trial);
    LastKeySquareFree(table, cofactor, c, e, trial);
    PendingAdd(scale, table, c, e, cofactor, exponent);
    AddEntryWeight(scale, table, c, e);
    es := AddEntry(table, c, e);
  }

  lemma NothingRests(start: seq<Entry>, es: seq<Entry>, a: nat, exponent: Rat, trial: nat, d: nat, small: nat)
    requires a > 0 && exponent.den > 1 && exponent.num != 0 && Found(start, es, a, exponent, trial, d)
    requires Parted(a, small, 1) && PrimesBelow(small, d) && Smooth(small, trial)
    ensures AllFound(start, es, a, exponent, trial)
  {
    hide Found, AllFound, PrimesBelow, Smooth;
    SmallElement(start, es, a, exponent, trial, d, small);
  }

  /** The last key: the primitive root of a factor without small primes, or a prime. */
  lemma LastFound(start: seq<Entry>, es: seq<Entry>, a: nat, exponent: Rat, trial: nat, d: nat, small: nat, cofactor: nat, c: nat, e: Rat)
    requires a > 0 && exponent.den > 1 && exponent.num != 0 && Normal(exponent) && Found(start, es, a, exponent, trial, d)
    requires Parted(a, small, cofactor) && PrimesBelow(small, d) && Smooth(small, trial) && PositiveEntries(es)
    requires cofactor > 1 && KeysCoprimeTo(es, cofactor) && FreeBelow(cofactor, d)
    requires c > 1 && e.den > 0 && Divides(c, cofactor) && Rooted(c, e, cofactor, exponent)
    requires (d > trial && Primitive(c)) || (Prime(cofactor) && c == cofactor && e == exponent)
    ensures AllFound(start, AddEntry(es, c, e), a, exponent, trial)
  {
    hide Found, AllFound, PrimesBelow, Smooth, KeysCoprimeTo, FreeBelow, Divides, Rooted, Primitive, Prime, AddEntry, Normal;
    KeyIsNew(es, cofactor, c);
    if d > trial && Primitive(c) {
      FreeToTrial(cofactor, d, trial);
      FreeDivisor(cofactor, trial + 1, c);
      LargeElement(start, es, a, exponent, trial, d, small, cofactor, c, e);
    } else if cofactor <= trial {
      LastSmallPrime(start, es, a, exponent, trial, d, small, cofactor);
    } else {
      LargePrimeIsFree(cofactor, trial);
      PrimeIsPrimitive(cofactor);
      LargeElement(start, es, a, exponent, trial, d, small, cofactor, c, e);
    }
  }

  lemma LargePrimeIsFree(p: nat, trial: nat)
    requires Prime(p) && p > trial
    ensures FreeBelow(p, trial + 1)
  {
  }

  lemma LevelRoot(element: nat, small: nat, cofactor: nat, c: nat, trial: nat)
    requires Level(element, trial) && cofactor > 1 && Parted(element, small, cofactor) && Smooth(small, trial)
    requires FreeBelow(cofactor, trial + 1) && c > 1 && RootOf(c, cofactor) && Primitive(c)
    ensures SquareFree(c)
  {
    hide Smooth, FreeBelow, SquareFree, Primitive, Level, RootOf;
    RootSquareFree(element, small, cofactor, c, trial);
  }

  lemma BurdenIs(d: nat, es: seq<Entry>, c: nat, e: Rat)
    requires Cleared(d, es) && Clears(d, e)
    ensures Burden(d, es, c, e) == Weight(d, es) + Load(d, (c, e))
  {
  }

  /** A cofactor of a level element is a power of a number without square factors, and that is the root found. */
  lemma RootSquareFree(element: nat, small: nat, cofactor: nat, c: nat, trial: nat)
    requires Level(element, trial) && small > 0 && cofactor > 1 && element == small * cofactor && Smooth(small, trial)
    requires FreeBelow(cofactor, trial + 1) && c > 1 && RootOf(c, cofactor) && Primitive(c)
    ensures SquareFree(c)
  {
    hide Smooth, FreeBelow, SquareFree, Primitive, Prime;
    var a: nat, s: nat, k: nat :| LevelParts(element, a, s, k, trial);
    RoughRoot(s, k, trial);
    RoughPartUnique(small, cofactor, a, Pow(s, k), trial);
    var j: nat :| j > 0 && Pow(c, j) == cofactor;
    if s == 1 { OnePower(k); }
    if k == 0 { PowOfNone(s); }
    SquareFreeIsPrimitive(s);
    PrimitiveRoot(c, j, s, k);
  }

  lemma LastKeySquareFree(es: seq<Entry>, cofactor: nat, c: nat, e: Rat, trial: nat)
    requires TableOk(es, trial) && KeysCoprimeTo(es, cofactor) && Divides(c, cofactor) && c > 1 && cofactor > 0 && e.den > 0
    requires PositiveEntries(es)
    ensures KeysSquareFree(es) && SquareFree(c) ==> KeysSquareFree(AddEntry(es, c, e))
  {
    KeysCoprimeToDivisor(es, cofactor, c);
    if KeysSquareFree(es) && SquareFree(c) { NewSquareFree(es, c, e); }
  }

  lemma RootTried(c: nat, d: nat, trial: nat)
    requires FreeBelow(c, d) && trial < d && Primitive(c)
    ensures Tried(c, trial)
  {
    FreeAboveTrial(c, d, trial);
  }

  lemma LastPrime(c: nat, d: nat, trial: nat)
    requires c > 1 && d > 0 && c < d * d && FreeBelow(c, d)
    ensures Prime(c) && Tried(c, trial)
  {
    SquareAbove(c, d, c);
    OnlyItself(c);
    PrimeTried(c, trial);
  }

  lemma PendingOne(d: nat, es: seq<Entry>, e: Rat)
    requires Cleared(d, es) && Clears(d, e)
    ensures Pending(d, es, 1, e) == ValueOf(d, es)
  {
    hide Mul, Power, Scaled, ValueOf;
    PowerOne(Scaled(d, e));
    MulOne(ValueOf(d, es));
  }

  lemma LastKey(start: seq<Entry>, es: seq<Entry>, element: nat, cofactor: nat, c: nat, e: Rat, trial: nat)
    requires TableOk(es, trial) && KeysCoprimeTo(es, cofactor) && NewKeysDivide(start, es, element) && Divides(cofactor, element)
    requires Divides(c, cofactor) && c > 1 && cofactor > 0 && element > 0 && Tried(c, trial) && e.den > 0 && PositiveEntries(es)
    ensures TableOk(AddEntry(es, c, e), trial) && NewKeysDivide(start, AddEntry(es, c, e), element)
  {
    DividesTransitive(c, cofactor, element);
    KeysCoprimeToDivisor(es, cofactor, c);
    NewKey(es, c, e);
    AddedKey(start, es, element, c, e);
    var out := AddEntry(es, c, e);
    hide AddEntry, Tried, Coprime;
    forall k | 0 <= k < |out| ensures out[k].1.den == 1 || Tried(out[k].0, trial) {
      if out[k] in es { var l :| 0 <= l < |es| && es[l] == out[k]; }
    }
  }

  lemma PendingAdd(d: nat, es: seq<Entry>, c: nat, e: Rat, cofactor: nat, exponent: Rat)
    requires Cleared(d, es) && c > 0 && cofactor > 0 && Clears(d, e) && Clears(d, exponent) && PositiveEntries(es) && e.den > 0
    requires EntryValue(d, (c, e)) == EntryValue(d, (cofactor, exponent))
    ensures Cleared(d, AddEntry(es, c, e)) && ValueOf(d, AddEntry(es, c, e)) == Pending(d, es, cofactor, exponent)
  {
    hide Mul, ValueOf, EntryValue, AddEntry;
    AddEntryValue(d, es, c, e);
    MulSwap(EntryValue(d, (c, e)), ValueOf(d, es), 1.0);
  }

  // ---- The exponent table ----

  /** The entries that a product of powers consists of: numerators, and denominators with the negated exponent. */
  function Entries(powers: seq<(Rat, Rat)>): seq<Entry> {
    if powers == [] then []
    else
      var (b, e) := Last(powers);
      Entries(Init(powers)) + [(Abs(b.num), e), (b.den, Rat(-e.num, e.den))]
  }

  ghost predicate RemainingApart(es: seq<Entry>, base: seq<nat>, k: nat) {
    forall j :: k <= j < |base| ==> KeysCoprimeTo(es, base[j])
  }

  /** The integer part of the exponent alone does not put more bits into the rational part than are allowed. */
  ghost predicate WholeFits(a: nat, terms: seq<Entry>, maxBits: nat)
    requires a > 1 && PositiveEntries(terms)
  {
    var e := TotalExponent(a, terms);
    Abs(e.num) / e.den * (Msb(a) + 1) <= maxBits
  }

  lemma WholeBits(a: nat, terms: seq<Entry>, maxBits: nat)
    requires a > 1 && PositiveEntries(terms)
    ensures var e := TotalExponent(a, terms);
            && e.den > 0 && (WholeFits(a, terms, maxBits) <==> Abs(e.num) / e.den * (Msb(a) + 1) <= maxBits)
            && (e.num == 0 ==> WholeFits(a, terms, maxBits))
  {
    var e := TotalExponent(a, terms);
    if e.num == 0 { DivBounds(0, e.den); }
  }

  /** The table of the first elements. */
  ghost predicate SoFar(es: seq<Entry>, base: seq<nat>, n: nat, terms: seq<Entry>, trial: nat)
    requires n <= |base| && PositiveEntries(terms) && AboveOne(base)
  {
    KeysAscending(es) && forall t: Entry :: t in es <==> PartOfSome(base, n, terms, trial, t)
  }

  lemma SoFarAscends(es: seq<Entry>, base: seq<nat>, n: nat, terms: seq<Entry>, trial: nat)
    requires n <= |base| && PositiveEntries(terms) && AboveOne(base) && SoFar(es, base, n, terms, trial)
    ensures KeysAscending(es)
  {
  }

  lemma SoFarMore(before: seq<Entry>, es: seq<Entry>, base: seq<nat>, k: nat, terms: seq<Entry>, trial: nat)
    requires k < |base| && PositiveEntries(terms) && AboveOne(base) && SoFar(before, base, k, terms, trial)
    requires AllFound(before, es, base[k], TotalExponent(base[k], terms), trial)
    ensures SoFar(es, base, k + 1, terms, trial)
  {
    hide IsPart, KeysAscending, TotalExponent;
    forall t: Entry ensures t in es <==> PartOfSome(base, k + 1, terms, trial, t) {
      if t in before { assert PartOfSome(base, k, terms, trial, t); }
      if PartOfSome(base, k + 1, terms, trial, t) {
        var j :| 0 <= j < k + 1 && IsPart(base[j], TotalExponent(base[j], terms), trial, t);
        if j < k { assert PartOfSome(base, k, terms, trial, t); }
      }
    }
  }

  lemma SoFarAll(es: seq<Entry>, base: seq<nat>, terms: seq<Entry>, trial: nat)
    requires PositiveEntries(terms) && AboveOne(base) && SoFar(es, base, |base|, terms, trial)
    ensures IsTable(es, base, terms, trial)
  {
  }

  lemma NoParts(es: seq<Entry>, a: nat, exponent: Rat, trial: nat)
    requires a > 0 && exponent.den > 0 && exponent.num == 0 && KeysAscending(es)
    ensures AllFound(es, es, a, exponent, trial)
  {
  }

  lemma WholePart(es: seq<Entry>, base: seq<nat>, k: nat, a: nat, exponent: Rat, trial: nat)
    requires k < |base| && a == base[k] && AboveOne(base) && exponent.den == 1 && exponent.num != 0 && KeysAscending(es)
    requires PositiveEntries(es) && RemainingApart(es, base, k)
    ensures AllFound(es, AddEntry(es, a, exponent), a, exponent, trial)
  {
    hide AddEntry, KeysAscending;
    Multiple(a, 1);
    KeyIsNew(es, a, a);
    AddMembers(es, a, exponent);
  }

  lemma TotalNormal(a: nat, terms: seq<Entry>)
    requires a > 1 && PositiveEntries(terms)
    ensures Normal(TotalExponent(a, terms))
  {
    if terms == [] {
      NormalZero();
    } else {
      var x, y := TotalExponent(a, Init(terms)), Times(Multiplicity(a, Last(terms).0), Last(terms).1);
      MulMono(1, x.den, y.den);
      LowestCoprime(x.num * y.den + y.num * x.den, x.den * y.den);
    }
  }

  lemma NormalZero()
    ensures Normal(Rat(0, 1))
  {
    GcdDivides(1, 0);
    DivisorBound(Gcd(1, 0), 1);
  }

  /** The table of primes and cofactors; refused if an element alone would exceed the budget. */
  method CollectExponents(terms: seq<Entry>, base: seq<nat>, trial: nat, maxBits: nat, estimate: (nat, nat) -> nat, ghost scale: nat)
      returns (ok: bool, es: seq<Entry>)
    requires Cleared(scale, terms) && PositiveEntries(terms) && scale > 0 && AboveOne(base) && PairwiseCoprime(base)
    ensures ok <==> forall k :: 0 <= k < |base| ==> WholeFits(base[k], terms, maxBits)
    ensures ok ==> IsTable(es, base, terms, trial)
    ensures ok ==> TableOk(es, trial) && Cleared(scale, es) && ValueOf(scale, es) == ElementsValue(scale, base, terms)
    ensures ok ==> Weight(scale, es) <= ElementsWeight(scale, base, terms)
    ensures ok && (forall k :: 0 <= k < |base| ==> Level(base[k], trial)) ==> KeysSquareFree(es)
    ensures !ok ==> maxBits < 2 * ElementsWeight(scale, base, terms)
  {
    hide TableOk, Cleared, ValueOf, ElementsValue, TotalExponent, AddEntry, Coprime, KeysCoprimeTo, PairwiseCoprime, Clears, Msb,
         Weight, ElementsWeight, KeysSquareFree, Level, Load, Burden, AllFound, SoFar, Normal, WholeFits;
    ok, es := true, [];
    StartTable(scale, base, terms, trial);
    for k := 0 to |base|
      invariant SoFar(es, base, k, terms, trial) && forall j :: 0 <= j < k ==> WholeFits(base[j], terms, maxBits)
      invariant TableOk(es, trial) && Cleared(scale, es) && RemainingApart(es, base, k)
      invariant ValueOf(scale, es) == ElementsValue(scale, base[..k], terms)
      invariant Weight(scale, es) <= ElementsWeight(scale, base[..k], terms)
      invariant (forall j :: 0 <= j < |base| ==> Level(base[j], trial)) ==> KeysSquareFree(es)
    {
      var element := base[k];
      var exponent := ExponentOf(element, terms);
      TotalScaled(scale, element, terms);
      NextElement(scale, base, terms, k);
      NextWeight(scale, base, terms, k);
      BurdenIs(scale, es, element, exponent);
      ghost var before := es;
      TotalNormal(element, terms);
      SoFarAscends(es, base, k, terms, trial);
      WholeBits(element, terms, maxBits);
      if exponent.num == 0 {
        ZeroExponent(scale, es, element, exponent);
        NoParts(es, element, exponent, trial);
      } else {
        var whole := Abs(exponent.num) / exponent.den;
        WholeWithin(scale, element, exponent);
        if whole * (Msb(element) + 1) > maxBits { return false, es; }
        if exponent.den == 1 {
          WholeKey(scale, es, element, exponent, trial);
          EntriesPositive(es, trial, exponent, scale);
          AddEntryWeight(scale, es, element, exponent);
          WholeKeySquareFree(es, element, exponent, trial);
          WholePart(es, base, k, element, exponent, trial);
          es := AddEntry(es, element, exponent);
        } else {
          es := FactorElement(element, exponent, es, trial, estimate, scale);
        }
        StillApart(before, es, base, k);
      }
      SoFarMore(before, es, base, k, terms, trial);
    }
    assert base[..|base|] == base;
    SoFarAll(es, base, terms, trial);
  }

  lemma NextWeight(d: nat, base: seq<nat>, terms: seq<Entry>, k: nat)
    requires AboveOne(base) && Cleared(d, terms) && d > 0 && k < |base| && PositiveEntries(terms)
    ensures Clears(d, TotalExponent(base[k], terms))
    ensures ElementsWeight(d, base[..k + 1], terms)
            == ElementsWeight(d, base[..k], terms) + Load(d, (base[k], TotalExponent(base[k], terms)))
    ensures ElementsWeight(d, base[..k + 1], terms) <= ElementsWeight(d, base, terms)
  {
    assert Init(base[..k + 1]) == base[..k] && Last(base[..k + 1]) == base[k];
    hide TotalExponent, Load, Clears;
    TotalScaled(d, base[k], terms);
    ElementsWeightPrefix(d, base, terms, k + 1);
  }

  /** An element refused before it is factored weighs enough to be. */
  lemma WholeWithin(d: nat, element: nat, e: Rat)
    requires element > 1 && Clears(d, e) && d > 0
    ensures Abs(e.num) / e.den * (Msb(element) + 1) <= 2 * Load(d, (element, e))
  {
    ScaledIs(d, e);
    Quotient(e.den, d);
    QuotientAboveZero(d, e.den);
    DivBounds(Abs(e.num), e.den);
    MulMono(1, e.den, Abs(e.num) / e.den);
    MulMono(1, d / e.den, Abs(e.num));
    AbsTimes(e.num, d / e.den);
    hide Scaled;
    assert Scaled(d, e) == e.num * (d / e.den) by { ScaledUnfolds(d, e); }
    BitsWithin(element, Abs(e.num) / e.den, Abs(Scaled(d, e)));
  }

  lemma ScaledUnfolds(d: nat, e: Rat)
    requires Clears(d, e)
    ensures Scaled(d, e) == e.num * (d / e.den)
  {
  }

  lemma WholeKeySquareFree(es: seq<Entry>, element: nat, e: Rat, trial: nat)
    requires PositiveEntries(es) && TableOk(es, trial) && element > 1 && e.den == 1 && KeysCoprimeTo(es, element)
    ensures KeysSquareFree(es) ==> KeysSquareFree(AddEntry(es, element, e))
  {
    if KeysSquareFree(es) { NewSquareFree(es, element, e); }
  }

  lemma StartTable(d: nat, base: seq<nat>, terms: seq<Entry>, trial: nat)
    requires AboveOne(base) && Cleared(d, terms) && d > 0
    ensures TableOk([], trial) && Cleared(d, []) && RemainingApart([], base, 0) && base[..0] == []
    ensures ValueOf(d, []) == ElementsValue(d, base[..0], terms)
    ensures PositiveEntries(terms) ==> SoFar([], base, 0, terms, trial)
    ensures Weight(d, []) == ElementsWeight(d, base[..0], terms) && KeysSquareFree([])
  {
  }

  lemma NextElement(d: nat, base: seq<nat>, terms: seq<Entry>, k: nat)
    requires AboveOne(base) && Cleared(d, terms) && d > 0 && k < |base| && PositiveEntries(terms)
    ensures Clears(d, TotalExponent(base[k], terms))
    ensures ElementsValue(d, base[..k + 1], terms)
            == Mul(ElementsValue(d, base[..k], terms), EntryValue(d, (base[k], TotalExponent(base[k], terms))))
  {
    assert Init(base[..k + 1]) == base[..k] && Last(base[..k + 1]) == base[k];
    hide Mul, Power, TotalExponent, Scaled;
    TotalScaled(d, base[k], terms);
  }

  lemma ZeroExponent(d: nat, es: seq<Entry>, c: nat, e: Rat)
    requires Cleared(d, es) && c > 0 && Clears(d, e) && e.num == 0
    ensures Mul(ValueOf(d, es), EntryValue(d, (c, e))) == ValueOf(d, es)
  {
    hide Mul, Power, ValueOf;
    assert Scaled(d, e) == 0;
    PowerZero(c as real);
    MulOne(ValueOf(d, es));
  }

  lemma WholeKey(d: nat, es: seq<Entry>, element: nat, e: Rat, trial: nat)
    requires Cleared(d, es) && TableOk(es, trial) && element > 1 && Clears(d, e) && e.den == 1 && KeysCoprimeTo(es, element)
    ensures PositiveEntries(es)
    ensures var out := AddEntry(es, element, e);
            && TableOk(out, trial) && NewKeysDivide(es, out, element) && Cleared(d, out)
            && ValueOf(d, out) == Pending(d, es, element, e)
  {
    NewKey(es, element, e);
    Multiple(element, 1);
    AddedKey(es, es, element, element, e);
    PendingAdd(d, es, element, e, element, e);
    var out := AddEntry(es, element, e);
    hide AddEntry, Tried, Coprime, ValueOf;
    forall k | 0 <= k < |out| ensures out[k].1.den == 1 || Tried(out[k].0, trial) {
      if out[k] in es { var l :| 0 <= l < |es| && es[l] == out[k]; }
    }
  }

  lemma StillApart(before: seq<Entry>, es: seq<Entry>, base: seq<nat>, k: nat)
    requires k < |base| && AboveOne(base) && PairwiseCoprime(base) && RemainingApart(before, base, k)
    requires NewKeysDivide(before, es, base[k])
    ensures RemainingApart(es, base, k + 1)
  {
    hide KeysCoprimeTo, Coprime;
  }
}
