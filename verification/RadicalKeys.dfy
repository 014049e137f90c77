/**
 The entries that the elements of a coprime base leave in the exponent table, said without reference to how they are
 found: an element with a whole exponent stays whole; any other falls apart into its small primes and the primitive root
 of the rest.
 */
module RadicalKeys {
  import opened IntegerRoots
  import opened Divisibility
  import opened Rationals
  import opened RadicalTerms
  import opened RadicalParts
  import opened Primes
  import opened PowerRoots

  // ---- Lowest terms are unique ----

  lemma NormalUnique(a: Rat, b: Rat)
    requires Normal(a) && Normal(b) && a.num * b.den == b.num * a.den
    ensures a == b
  {
    hide Coprime, Divides;
    DenDivides(a, b);
    DenDivides(b, a);
    DividesBoth(a.den, b.den);
    CancelRight(a.num, b.num, a.den);
  }

  lemma DenDivides(a: Rat, b: Rat)
    requires Normal(a) && Normal(b) && a.num * b.den == b.num * a.den
    ensures Divides(b.den, a.den)
  {
    hide Coprime;
    AbsTimes(b.num, a.den);
    AbsTimes(a.num, b.den);
    Multiple(b.den, Abs(a.num));
    CoprimeDivides(b.den, Abs(b.num), a.den);
  }

  lemma Swap3(a: int, b: int, c: int)
    ensures (a * b) * c == (a * c) * b
  {
  }

  lemma TimesIsNormal(k: int, e: Rat)
    requires e.den > 0
    ensures Normal(Times(k, e)) && Times(k, e).num * e.den == (k * e.num) * Times(k, e).den
  {
    hide Normal;
    LowestCoprime(k * e.num, e.den);
    LowestCross(k * e.num, e.den);
  }

  lemma LowestCross(num: int, den: nat)
    requires den > 0
    ensures Lowest(num, den).num * den == num * Lowest(num, den).den
  {
    hide Gcd, Divides;
    LowestExact(num, den);
    var r, g := Lowest(num, den), Gcd(den, Abs(num));
    MulAssocInt(r.num, r.den, g);
    Swap3(r.num, r.den, g);
  }

  lemma TimesOne(e: Rat)
    requires Normal(e)
    ensures Times(1, e) == e
  {
    TimesIsNormal(1, e);
    NormalUnique(Times(1, e), e);
  }

  lemma TimesTimes(k: int, j: int, e: Rat)
    requires e.den > 0
    ensures Times(k, Times(j, e)) == Times(k * j, e)
  {
    hide Times, Normal;
    var x := Times(j, e);
    var y, z := Times(k, x), Times(k * j, e);
    TimesIsNormal(j, e);
    TimesIsNormal(k, x);
    TimesIsNormal(k * j, e);
    CrossTimes(k, x.num, x.den, j * e.num, e.den);
    MulAssocInt(k, j, e.num);
    CrossTransitive(y.num, y.den, k * x.num, x.den, (k * j) * e.num, e.den);
    CrossTransitive(y.num, y.den, (k * j) * e.num, e.den, z.num, z.den);
    NormalUnique(y, z);
  }

  lemma CrossTimes(k: int, an: int, ad: nat, bn: int, bd: nat)
    requires an * bd == bn * ad
    ensures (k * an) * bd == (k * bn) * ad
  {
    MulAssocInt(k, an, bd);
    MulAssocInt(k, bn, ad);
  }

  lemma CrossTransitive(an: int, ad: nat, bn: int, bd: nat, cn: int, cd: nat)
    requires an * bd == bn * ad && bn * cd == cn * bd && bd > 0
    ensures an * cd == cn * ad
  {
    Swap3(an, cd, bd);
    Swap3(bn, ad, cd);
    Swap3(cn, bd, ad);
    CancelRight(an * cd, cn * ad, bd);
  }

  // ---- The parts of an element ----

  /** A prime up to the bound, as often as it divides a. */
  ghost predicate SmallPart(a: nat, exponent: Rat, trial: nat, t: Entry)
    requires a > 0 && exponent.den > 0
  {
    Prime(t.0) && t.0 <= trial && Divides(t.0, a) && t.1 == Times(Multiplicity(t.0, a), exponent)
  }

  /** c is no power, and a is c to the j times small primes. */
  ghost predicate RootAt(a: nat, trial: nat, c: nat, s: nat, j: nat) {
    s > 0 && j > 0 && c > 1 && a == s * Pow(c, j) && Smooth(s, trial) && FreeBelow(c, trial + 1) && Primitive(c)
  }

  ghost predicate LargePart(a: nat, exponent: Rat, trial: nat, t: Entry)
    requires exponent.den > 0
  {
    exists s: nat, j: nat :: RootAt(a, trial, t.0, s, j) && t.1 == Times(j, exponent)
  }

  /** t is an entry that the element a with its exponent leaves in the table. */
  ghost predicate IsPart(a: nat, exponent: Rat, trial: nat, t: Entry)
    requires a > 0 && exponent.den > 0
  {
    exponent.num != 0 &&
    if exponent.den == 1 then t == (a, exponent) else SmallPart(a, exponent, trial, t) || LargePart(a, exponent, trial, t)
  }

  /** t is a part of one of the first n elements, each with its total exponent in the terms. */
  ghost predicate PartOfSome(base: seq<nat>, n: nat, terms: seq<Entry>, trial: nat, t: Entry)
    requires n <= |base| && PositiveEntries(terms) && forall k :: 0 <= k < |base| ==> base[k] > 1
  {
    exists k :: 0 <= k < n && IsPart(base[k], TotalExponent(base[k], terms), trial, t)
  }

  ghost predicate KeysAscending(es: seq<Entry>) {
    forall i, j :: 0 <= i < j < |es| ==> es[i].0 < es[j].0
  }

  /** The table of base and terms: the parts of all elements, sorted by keys. */
  ghost predicate IsTable(table: seq<Entry>, base: seq<nat>, terms: seq<Entry>, trial: nat)
    requires PositiveEntries(terms) && forall k :: 0 <= k < |base| ==> base[k] > 1
  {
    KeysAscending(table) && forall t: Entry :: t in table <==> PartOfSome(base, |base|, terms, trial, t)
  }

  /** There is only one such table. */
  lemma {:induction false} TableUnique(s: seq<Entry>, t: seq<Entry>)
    requires KeysAscending(s) && KeysAscending(t) && forall e :: e in s <==> e in t
    ensures s == t
  {
    if s == [] {
      assert forall k :: 0 <= k < |t| ==> t[k] in s;
    } else {
      assert s[0] in s && t != [];
      assert t[0] in t;
      FirstIsSame(s, t);
      forall e ensures e in s[1..] <==> e in t[1..] { TailMembers(s, e); TailMembers(t, e); }
      TableUnique(s[1..], t[1..]);
    }
  }

  lemma FirstIsSame(s: seq<Entry>, t: seq<Entry>)
    requires KeysAscending(s) && KeysAscending(t) && s != [] && t != [] && s[0] in t && t[0] in s
    ensures s[0] == t[0]
  {
  }

  lemma TailMembers(s: seq<Entry>, e: Entry)
    requires KeysAscending(s) && s != []
    ensures e in s[1..] <==> e in s && e != s[0]
  {
    if e in s && e != s[0] {
      var k :| 0 <= k < |s| && s[k] == e;
      assert s[1..][k - 1] == e;
    }
  }

  /** Adding a new key keeps the order and the other entries. */
  lemma {:induction false} AddMembers(es: seq<Entry>, b: nat, e: Rat)
    requires PositiveEntries(es) && b > 0 && e.den > 0 && KeysAscending(es) && forall k :: 0 <= k < |es| ==> es[k].0 != b
    ensures KeysAscending(AddEntry(es, b, e))
    ensures forall t :: t in AddEntry(es, b, e) <==> t in es || t == (b, e)
  {
    if es == [] || b < es[0].0 {
      assert AddEntry(es, b, e) == [(b, e)] + es;
    } else {
      AddMembers(es[1..], b, e);
      var rest := AddEntry(es[1..], b, e);
      forall k | 0 <= k < |rest| ensures es[0].0 < rest[k].0 {
        assert rest[k] in rest;
        if rest[k] in es[1..] { var j :| 0 <= j < |es[1..]| && es[1..][j] == rest[k]; }
      }
      assert es == [es[0]] + es[1..];
      assert AddEntry(es, b, e) == [es[0]] + rest;
    }
  }

  // ---- Trial division finds the small parts ----

  /** The table has what it had and the small parts found below d. */
  ghost predicate Found(start: seq<Entry>, es: seq<Entry>, a: nat, exponent: Rat, trial: nat, d: nat)
    requires a > 0 && exponent.den > 0
  {
    KeysAscending(es) && forall t: Entry :: t in es <==> t in start || (SmallPart(a, exponent, trial, t) && t.0 < d)
  }

  ghost predicate PrimesBelow(s: nat, d: nat) {
    forall p: nat :: Prime(p) && Divides(p, s) ==> p < d
  }

  lemma FoundNothing(start: seq<Entry>, a: nat, exponent: Rat, trial: nat)
    requires a > 0 && exponent.den > 0 && KeysAscending(start)
    ensures Found(start, start, a, exponent, trial, 2) && PrimesBelow(1, 2)
  {
    forall p: nat | Divides(p, 1) ensures p < 2 { DivisorBound(p, 1); }
  }

  /** A prime that divides a product divides a factor. */
  lemma PrimeDividesFactor(p: nat, a: nat, b: nat)
    requires Prime(p) && a > 0 && b > 0 && Divides(p, a * b)
    ensures Divides(p, a) || Divides(p, b)
  {
    if !Divides(p, a) {
      PrimeCoprime(p, a);
      CoprimeDivides(p, a, b);
    }
  }

  /** No prime lies between d and the next divisor tried but d itself. */
  lemma NextPrime(p: nat, d: nat)
    requires Prime(p) && d >= 2 && (d == 2 || d % 2 == 1) && p < (if d == 2 then 3 else d + 2)
    ensures p <= d
  {
    if d > 2 && p == d + 1 { assert Divides(2, p); }
  }

  /** What divisor d adds. */
  lemma FoundMore(start: seq<Entry>, es: seq<Entry>, a: nat, exponent: Rat, trial: nat, d: nat, small: nat, c: nat, m: nat, rest: nat)
    requires a > 0 && exponent.den > 0 && Found(start, es, a, exponent, trial, d) && PositiveEntries(es) && small > 0 && c > 0
    requires a == small * c && PrimesBelow(small, d) && FreeBelow(c, d) && d <= trial && d >= 2 && (d == 2 || d % 2 == 1)
    requires m == Multiplicity(d, c) && c == Pow(d, m) * rest && rest > 0
    requires m != 0 ==> forall k :: 0 <= k < |es| ==> es[k].0 != d
    ensures var out, next := if m != 0 then AddEntry(es, d, Times(m, exponent)) else es, if d == 2 then 3 else d + 2;
            Found(start, out, a, exponent, trial, next) && PrimesBelow(small * Pow(d, m), next)
  {
    hide Prime, Times, Pow, SmallPart, AddEntry, KeysAscending;
    var next := if d == 2 then 3 else d + 2;
    var e := Times(m, exponent);
    if m != 0 {
      DividesByMultiplicity(d, c);
      SmallestDivisorIsPrime(c, d);
      AddMembers(es, d, e);
    }
    var out := if m != 0 then AddEntry(es, d, e) else es;
    forall t: Entry ensures t in out <==> t in start || (SmallPart(a, exponent, trial, t) && t.0 < next) {
      PartAt(a, exponent, trial, d, small, c, t);
    }
    forall p: nat | Prime(p) && Divides(p, small * Pow(d, m)) ensures p < next {
      PrimeDividesFactor(p, small, Pow(d, m));
      if Divides(p, Pow(d, m)) { PrimeOfPower(p, d, m); }
    }
  }

  lemma DividesByMultiplicity(d: nat, c: nat)
    requires d > 1 && c > 0
    ensures Multiplicity(d, c) != 0 <==> Divides(d, c)
  {
  }

  lemma {:induction false} PrimeOfPower(p: nat, d: nat, m: nat)
    requires Prime(p) && d > 0 && Divides(p, Pow(d, m))
    ensures p <= d
    decreases m
  {
    hide Prime;
    if m == 0 {
      PrimeAboveOne(p);
      DivisorBound(p, 1);
    } else {
      PrimeDividesFactor(p, d, Pow(d, m - 1));
      if Divides(p, d) { DivisorBound(p, d); } else { PrimeOfPower(p, d, m - 1); }
    }
  }

  lemma PrimeAboveOne(p: nat)
    requires Prime(p)
    ensures p > 1
  {
  }

  /** An entry from d up to the next divisor is a small part exactly if it is d, as often as it divides what is left. */
  lemma PartAt(a: nat, exponent: Rat, trial: nat, d: nat, small: nat, c: nat, t: Entry)
    requires a > 0 && exponent.den > 0 && small > 0 && c > 0 && a == small * c && PrimesBelow(small, d) && FreeBelow(c, d)
    requires 2 <= d <= trial && (d == 2 || d % 2 == 1)
    ensures var m := Multiplicity(d, c);
            SmallPart(a, exponent, trial, t) && t.0 < (if d == 2 then 3 else d + 2)
            <==> (SmallPart(a, exponent, trial, t) && t.0 < d) || (m != 0 && t == (d, Times(m, exponent)))
  {
    hide Prime, Times;
    DividesByMultiplicity(d, c);
    if SmallPart(a, exponent, trial, t) && t.0 < (if d == 2 then 3 else d + 2) && t.0 >= d {
      NextPrime(t.0, d);
      PrimeDividesFactor(d, small, c);
    }
    if Multiplicity(d, c) != 0 {
      SmallestDivisorIsPrime(c, d);
      DividesTimes(d, c, small);
    }
    if Prime(d) && !Divides(d, small) { PrimeMultiplicity(d, small, c); }
  }

  lemma PrimeMultiplicity(d: nat, small: nat, c: nat)
    requires Prime(d) && small > 0 && c > 0 && small * c > 0 && !Divides(d, small)
    ensures Multiplicity(d, small * c) == Multiplicity(d, c)
  {
    PrimeCoprime(d, small);
    assert c * small == small * c;
    MultiplicityOfCoprime(d, small, c);
  }

  // ---- Roots ----

  /** n is a power of c, and e the exponent of n times that power. */
  ghost predicate Rooted(c: nat, e: Rat, n: nat, exponent: Rat)
    requires exponent.den > 0
  {
    exists j: nat :: j > 0 && Pow(c, j) == n && e == Times(j, exponent)
  }

  lemma RootedItself(n: nat, exponent: Rat)
    requires Normal(exponent)
    ensures Rooted(n, exponent, n, exponent)
  {
    hide Times;
    PowStep(n, 0);
    PowOfNone(n);
    TimesOne(exponent);
    assert Pow(n, 1) == n;
  }

  lemma RootedAgain(r: nat, k: nat, c: nat, e: Rat, n: nat, exponent: Rat)
    requires exponent.den > 0 && e.den > 0 && k > 0 && Pow(r, k) == c && Rooted(c, e, n, exponent)
    ensures Rooted(r, Times(k, e), n, exponent)
  {
    hide Times;
    var j: nat :| j > 0 && Pow(c, j) == n && e == Times(j, exponent);
    PowOfPow(r, k, j);
    MulMono(1, k, j);
    TimesTimes(k, j, exponent);
    assert Pow(r, k * j) == n;
  }

  lemma RootedTransitive(c: nat, e: Rat, b: nat, f: Rat, n: nat, exponent: Rat)
    requires exponent.den > 0 && f.den > 0 && Rooted(c, e, b, f) && Rooted(b, f, n, exponent)
    ensures Rooted(c, e, n, exponent)
  {
    hide Times;
    var k: nat :| k > 0 && Pow(c, k) == b && e == Times(k, f);
    RootedAgain(c, k, b, f, n, exponent);
  }

  lemma {:induction false} PowerAboveOne(c: nat, j: nat)
    requires c > 1 && j > 0
    ensures Pow(c, j) > 1
  {
    PowStep(c, j - 1);
    MulMono(1, Pow(c, j - 1), c);
  }

  lemma SameExponent(c: nat, j: nat, k: nat)
    requires c > 1 && Pow(c, j) == Pow(c, k)
    ensures j == k
  {
    if j < k { LongerPower(c, j, k); }
    if k < j { LongerPower(c, k, j); }
  }

  lemma {:induction false} LongerPower(c: nat, j: nat, k: nat)
    requires c > 1 && j < k
    ensures Pow(c, j) < Pow(c, k)
    decreases k
  {
    PowStep(c, k - 1);
    MulMono(2, c, Pow(c, k - 1));
    if j < k - 1 { LongerPower(c, j, k - 1); }
  }

  // ---- The parts of an element together ----

  /** The table has what it had and all parts of a. */
  ghost predicate AllFound(start: seq<Entry>, es: seq<Entry>, a: nat, exponent: Rat, trial: nat)
    requires a > 0 && exponent.den > 0
  {
    KeysAscending(es) && forall t: Entry :: t in es <==> t in start || IsPart(a, exponent, trial, t)
  }

  /** Nothing large is in a product of small primes. */
  lemma NothingLarge(a: nat, exponent: Rat, trial: nat, t: Entry)
    requires a > 0 && exponent.den > 0 && Smooth(a, trial)
    ensures !LargePart(a, exponent, trial, t)
  {
    hide Smooth, FreeBelow, Primitive, Times;
    forall s: nat, j: nat ensures !RootAt(a, trial, t.0, s, j) {
      if RootAt(a, trial, t.0, s, j) {
        OneIsFree(trial + 1);
        RoughRoot(t.0, j, trial);
        RoughPartUnique(s, Pow(t.0, j), a, 1, trial);
        PowerAboveOne(t.0, j);
      }
    }
  }

  lemma OneIsFree(d: nat)
    ensures FreeBelow(1, d)
  {
    forall q: nat | 1 < q < d ensures !Divides(q, 1) {
      if Divides(q, 1) { DivisorBound(q, 1); }
    }
  }

  lemma RoughRoot(s: nat, k: nat, trial: nat)
    requires s > 0 && FreeBelow(s, trial + 1)
    ensures FreeBelow(Pow(s, k), trial + 1)
  {
    forall q: nat | 1 < q < trial + 1 ensures !Divides(q, Pow(s, k)) {
      if Divides(q, Pow(s, k)) {
        var p := PrimeDivisor(q, 2);
        DividesTransitive(p, q, Pow(s, k));
        DivisorBound(p, q);
        PrimeCoprime(p, s);
        CoprimePower(p, s, k);
        Multiple(p, 1);
        CommonDivisor(p, Pow(s, k), p);
        DivisorBound(p, 1);
      }
    }
  }

  /** A small part of a divides the small factor. */
  lemma SmallIsBelow(a: nat, exponent: Rat, trial: nat, d: nat, small: nat, c: nat, t: Entry)
    requires a > 0 && exponent.den > 0 && small > 0 && c > 0 && a == small * c && PrimesBelow(small, d)
    ensures SmallPart(a, exponent, trial, t) && !Divides(t.0, c) ==> t.0 < d
  {
    hide Prime, Times;
    if SmallPart(a, exponent, trial, t) { PrimeDividesFactor(t.0, small, c); }
  }

  /** Nothing is left but small primes. */
  lemma SmallElement(start: seq<Entry>, es: seq<Entry>, a: nat, exponent: Rat, trial: nat, d: nat, small: nat)
    requires a > 0 && exponent.den > 1 && exponent.num != 0 && small > 0 && a == small * 1
    requires Found(start, es, a, exponent, trial, d) && PrimesBelow(small, d) && Smooth(small, trial)
    ensures AllFound(start, es, a, exponent, trial)
  {
    hide SmallPart, LargePart, Smooth, PrimesBelow, KeysAscending;
    forall t: Entry ensures t in es <==> t in start || IsPart(a, exponent, trial, t) {
      NothingLarge(a, exponent, trial, t);
      SmallIsBelow(a, exponent, trial, d, small, 1, t);
      if SmallPart(a, exponent, trial, t) { NotOne(a, exponent, trial, t); }
    }
  }

  lemma NotOne(a: nat, exponent: Rat, trial: nat, t: Entry)
    requires a > 0 && exponent.den > 0 && SmallPart(a, exponent, trial, t)
    ensures !Divides(t.0, 1)
  {
    PrimeAboveOne(t.0);
    if Divides(t.0, 1) { DivisorBound(t.0, 1); }
  }

  /** What is left has no small primes; its primitive root becomes a key. */
  lemma LargeElement(start: seq<Entry>, es: seq<Entry>, a: nat, exponent: Rat, trial: nat, d: nat, small: nat, cofactor: nat, c: nat, e: Rat)
    requires a > 0 && exponent.den > 1 && exponent.num != 0 && small > 0 && cofactor > 0 && a == small * cofactor
    requires Found(start, es, a, exponent, trial, d) && PrimesBelow(small, d) && Smooth(small, trial) && PositiveEntries(es)
    requires FreeBelow(cofactor, trial + 1) && c > 1 && e.den > 0 && Rooted(c, e, cofactor, exponent) && Primitive(c)
    requires FreeBelow(c, trial + 1) && forall k :: 0 <= k < |es| ==> es[k].0 != c
    ensures AllFound(start, AddEntry(es, c, e), a, exponent, trial)
  {
    hide SmallPart, LargePart, Smooth, PrimesBelow, KeysAscending, AddEntry, FreeBelow, Rooted, Primitive;
    AddMembers(es, c, e);
    forall t: Entry ensures t in AddEntry(es, c, e) <==> t in start || IsPart(a, exponent, trial, t) {
      LargeIs(a, exponent, trial, small, cofactor, c, e, t);
      SmallIsBelow(a, exponent, trial, d, small, cofactor, t);
      if SmallPart(a, exponent, trial, t) { SmallIsTried(a, exponent, trial, cofactor, t); }
    }
  }

  lemma SmallIsTried(a: nat, exponent: Rat, trial: nat, c: nat, t: Entry)
    requires a > 0 && exponent.den > 0 && SmallPart(a, exponent, trial, t) && FreeBelow(c, trial + 1)
    ensures !Divides(t.0, c)
  {
    PrimeAboveOne(t.0);
  }

  lemma LargeIs(a: nat, exponent: Rat, trial: nat, small: nat, cofactor: nat, c: nat, e: Rat, t: Entry)
    requires exponent.den > 0 && small > 0 && cofactor > 0 && a == small * cofactor && Smooth(small, trial)
    requires FreeBelow(cofactor, trial + 1) && c > 1 && Rooted(c, e, cofactor, exponent) && Primitive(c) && FreeBelow(c, trial + 1)
    ensures LargePart(a, exponent, trial, t) <==> t == (c, e)
  {
    hide Smooth, FreeBelow, Primitive, Times;
    var j: nat :| j > 0 && Pow(c, j) == cofactor && e == Times(j, exponent);
    assert RootAt(a, trial, c, small, j);
    if LargePart(a, exponent, trial, t) {
      var s: nat, k: nat :| RootAt(a, trial, t.0, s, k) && t.1 == Times(k, exponent);
      RoughRoot(t.0, k, trial);
      RoughPartUnique(s, Pow(t.0, k), small, cofactor, trial);
      PrimitiveRoot(t.0, k, c, j);
      SameExponent(c, j, k);
    }
  }

  /** What is left is a small prime. */
  lemma LastSmallPrime(start: seq<Entry>, es: seq<Entry>, a: nat, exponent: Rat, trial: nat, d: nat, small: nat, c: nat)
    requires a > 0 && exponent.den > 1 && exponent.num != 0 && Normal(exponent) && small > 0 && a == small * c
    requires Found(start, es, a, exponent, trial, d) && PrimesBelow(small, d) && Smooth(small, trial) && PositiveEntries(es)
    requires Prime(c) && c <= trial && c > 0 && FreeBelow(c, d) && forall k :: 0 <= k < |es| ==> es[k].0 != c
    ensures AllFound(start, AddEntry(es, c, exponent), a, exponent, trial)
  {
    hide SmallPart, LargePart, Smooth, KeysAscending, AddEntry, FreeBelow, Prime, PrimesBelow;
    AddMembers(es, c, exponent);
    AllSmooth(a, small, c, trial);
    forall t: Entry ensures t in AddEntry(es, c, exponent) <==> t in start || IsPart(a, exponent, trial, t) {
      NothingLarge(a, exponent, trial, t);
      SmallIsBelow(a, exponent, trial, d, small, c, t);
      LastPartIs(a, exponent, trial, d, small, c, t);
    }
  }

  lemma AllSmooth(a: nat, small: nat, c: nat, trial: nat)
    requires small > 0 && a == small * c && Smooth(small, trial) && Prime(c) && c <= trial
    ensures Smooth(a, trial)
  {
    hide Smooth, Prime;
    PrimeAboveOne(c);
    SmoothTimes(small, c, 1, trial);
    PowStep(c, 0);
    PowOfNone(c);
  }

  lemma LastPartIs(a: nat, exponent: Rat, trial: nat, d: nat, small: nat, c: nat, t: Entry)
    requires a > 0 && exponent.den > 0 && Normal(exponent) && small > 0 && a == small * c && PrimesBelow(small, d)
    requires Prime(c) && c <= trial && FreeBelow(c, d)
    ensures SmallPart(a, exponent, trial, t) && Divides(t.0, c) <==> t == (c, exponent)
    ensures t == (c, exponent) ==> t.0 >= d
  {
    hide Times, Normal;
    NotBelow(c, d);
    Multiple(c, 1);
    DividesTimes(c, c, small);
    MultiplicityOfSelf(c);
    PrimeMultiplicity(c, small, c);
    TimesOne(exponent);
  }

  lemma NotBelow(c: nat, d: nat)
    requires c > 1 && FreeBelow(c, d)
    ensures c >= d
  {
    Multiple(c, 1);
    assert Divides(c, c);
  }

  lemma MultiplicityOfSelf(c: nat)
    requires c > 1
    ensures Multiplicity(c, c) == 1
  {
    Multiple(c, 1);
    assert c / c == 1;
    assert Multiplicity(c, 1) == 0;
  }
}
