/**
 The sign of a term. Each contraction contributes the parity of the operators
 left between its two; the product is the sign of the permutation that moves
 all contracted pairs to the front, whatever the order of the contractions.
 */
module WickPhase {
  import opened Sequences
  import opened Parity
  import opened WickProblem
  import opened WickMatchings

  /** Uncontracted operators strictly between the two of e. */
  ghost function Between(s: seq<Pair>, e: Pair): set<nat> {
    set o: nat | e.0 < o < e.1 && o !in Ends(s)
  }

  /** The sign accumulated along the contractions s, in the order they are made. */
  ghost function Phase(p: Problem, s: seq<Pair>): int {
    if s == [] then 1
    else Phase(p, Init(s)) * (if p.fermi then Sign(|Between(Init(s), Last(s))|) else 1)
  }

  /** Contractions of distinct operators below n, in any order. */
  ghost predicate Separate(s: seq<Pair>, n: nat) {
    && (forall k :: 0 <= k < |s| ==> s[k].0 < s[k].1 < n)
    && (forall i, j :: 0 <= i < j < |s| ==> Apart(s[i], s[j]))
  }

  lemma SeparateInit(s: seq<Pair>, n: nat)
    requires Separate(s, n) && s != []
    ensures Separate(Init(s), n)
    ensures Last(s).0 !in Ends(Init(s)) && Last(s).1 !in Ends(Init(s))
    ensures Last(s) !in Pairs(Init(s))
    ensures Pairs(s) == Pairs(Init(s)) + {Last(s)}
    ensures forall f :: f in Pairs(Init(s)) ==> Apart(f, Last(s)) && f.0 < f.1
  {
    EndsCovered(Init(s));
    forall e: Pair ensures e in Pairs(s) <==> e in Pairs(Init(s)) || e == Last(s) { InitMembers(s, e); }
    forall f | f in Pairs(Init(s)) ensures Apart(f, Last(s)) && f.0 < f.1 {
      var i :| 0 <= i < |s| - 1 && s[i] == f;
    }
  }

  // ---- The permutation ----

  function Flatten(s: seq<Pair>): seq<nat> {
    if s == [] then [] else Flatten(Init(s)) + [Last(s).0, Last(s).1]
  }

  /** The operators with the contracted pairs moved to the front. */
  ghost function PairsFirst(s: seq<Pair>, n: nat): seq<nat> {
    Flatten(s) + RemainingBelow(s, n)
  }

  /** Moving a pair out of an increasing sequence: the inversions are those past the prefix twice and between once. */
  lemma MovePair(a: seq<nat>, l: nat, b: seq<nat>, r: nat, c: seq<nat>)
    requires Increasing(a + [l] + b + [r] + c)
    ensures Inversions([l, r] + (a + b + c)) == 2 * |a| + |b|
    ensures forall x :: CountBelow(a + [l] + b + [r] + c, x) == CountBelow([l, r] + (a + b + c), x)
  {
    hide Increasing;
    var q, rest := a + [l] + b + [r] + c, a + b + c;
    forall x ensures CountBelow(q, x) == CountBelow([l, r] + rest, x) {
      CountBelowParts(a, l, b, r, c, x);
    }
    CountBelowParts(a, l, b, r, c, l);
    CountBelowParts(a, l, b, r, c, r);
    CountsAround(a, l, b, r, c);
    IncreasingParts(q, a, l, b, r, c);
    IncreasingHasNoInversions(rest);
    assert ([l, r] + rest)[1..] == [r] + rest && ([r] + rest)[1..] == rest;
  }

  lemma CountsAround(a: seq<nat>, l: nat, b: seq<nat>, r: nat, c: seq<nat>)
    requires Increasing(a + [l] + b + [r] + c)
    ensures l < r && CountBelow(a, l) == CountBelow(a, r) == |a|
    ensures CountBelow(b, l) == 0 && CountBelow(b, r) == |b| && CountBelow(c, l) == CountBelow(c, r) == 0
  {
    var q := a + [l] + b + [r] + c;
    assert q[|a|] == l && q[|a| + 1 + |b|] == r;
    forall k | 0 <= k < |a| ensures a[k] < l { assert a[k] == q[k]; }
    forall k | 0 <= k < |b| ensures l < b[k] < r { assert b[k] == q[|a| + 1 + k]; }
    forall k | 0 <= k < |c| ensures r < c[k] { assert c[k] == q[|a| + |b| + 2 + k]; }
    hide Increasing;
    CountBelowAll(a, l);
    CountBelowAll(a, r);
    CountBelowNone(b, l);
    CountBelowAll(b, r);
    CountBelowNone(c, l);
    CountBelowNone(c, r);
  }

  lemma IncreasingParts(q: seq<nat>, a: seq<nat>, l: nat, b: seq<nat>, r: nat, c: seq<nat>)
    requires q == a + [l] + b + [r] + c && Increasing(q)
    ensures Increasing(a + b + c)
  {
    var rest := a + b + c;
    forall i, j | 0 <= i < j < |rest| ensures rest[i] < rest[j] {
      var i' := if i < |a| then i else if i < |a| + |b| then i + 1 else i + 2;
      var j' := if j < |a| then j else if j < |a| + |b| then j + 1 else j + 2;
      assert rest[i] == q[i'] && rest[j] == q[j'];
    }
  }

  lemma CountBelowParts(a: seq<nat>, l: nat, b: seq<nat>, r: nat, c: seq<nat>, x: nat)
    ensures var ends := (if l < x then 1 else 0) + (if r < x then 1 else 0);
            var inner := CountBelow(a, x) + CountBelow(b, x) + CountBelow(c, x);
            && CountBelow(a + [l] + b + [r] + c, x) == ends + inner
            && CountBelow([l, r] + (a + b + c), x) == ends + inner
            && CountBelow(a + b + c, x) == inner
  {
    CountBelowConcat(a + [l] + b + [r], c, x);
    CountBelowConcat(a + [l] + b, [r], x);
    CountBelowConcat(a + [l], b, x);
    CountBelowConcat(a, [l], x);
    CountBelowConcat(a + b, c, x);
    CountBelowConcat(a, b, x);
    assert ([l, r] + (a + b + c))[1..] == [r] + (a + b + c);
    assert ([r] + (a + b + c))[1..] == a + b + c;
  }

  /** An increasing sequence around two of its elements. */
  lemma SplitAtPair(q: seq<nat>, i: nat, j: nat)
    requires i < j < |q|
    ensures q == q[..i] + [q[i]] + q[i + 1..j] + [q[j]] + q[j + 1..]
    ensures Erase(Erase(q, j), i) == q[..i] + q[i + 1..j] + q[j + 1..]
  {
  }

  lemma Positions(s: seq<Pair>, n: nat, e: Pair) returns (i: nat, j: nat)
    requires e.0 < e.1 < n && e.0 !in Ends(s) && e.1 !in Ends(s)
    ensures var q := RemainingBelow(s, n);
            && i < j < |q| && q[i] == e.0 && q[j] == e.1
            && RemainingBelow(s + [e], n) == Erase(Erase(q, j), i)
            && |Between(s, e)| == j - i - 1
  {
    hide Between;
    var q := RemainingBelow(s, n);
    RemainingBelowProps(s, n);
    assert e.0 in q && e.1 in q;
    i :| 0 <= i < |q| && q[i] == e.0;
    j :| 0 <= j < |q| && q[j] == e.1;
    ErasePair(s, n, e, i, j);
    BetweenSize(s, n, e, i, j);
  }

  lemma ErasePair(s: seq<Pair>, n: nat, e: Pair, i: nat, j: nat)
    requires var q := RemainingBelow(s, n); i < j < |q| && e == (q[i], q[j])
    ensures RemainingBelow(s + [e], n) == Erase(Erase(RemainingBelow(s, n), j), i)
  {
    var q := RemainingBelow(s, n);
    RemainingBelowProps(s, n);
    RemainingBelowProps(s + [e], n);
    EndsSnoc(s, e);
    EraseIncreasing(q, j);
    assert Erase(q, j)[i] == q[i];
    EraseIncreasing(Erase(q, j), i);
    IncreasingUnique(RemainingBelow(s + [e], n), Erase(Erase(q, j), i));
  }

  lemma BetweenSize(s: seq<Pair>, n: nat, e: Pair, i: nat, j: nat)
    requires var q := RemainingBelow(s, n); i < j < |q| && e == (q[i], q[j])
    ensures |Between(s, e)| == j - i - 1
  {
    var q := RemainingBelow(s, n);
    RemainingBelowProps(s, n);
    assert e.1 in q;
    var mid := q[i + 1..j];
    assert NoDup(mid);
    NoDupSize(mid);
    forall o: nat ensures o in Between(s, e) <==> o in mid {
      BetweenMember(q, i, j, o);
    }
    assert Between(s, e) == Elems(mid);
  }

  lemma BetweenMember(q: seq<nat>, i: nat, j: nat, o: nat)
    requires Increasing(q) && i < j < |q|
    ensures o in q[i + 1..j] <==> o in q && q[i] < o < q[j]
  {
    var mid := q[i + 1..j];
    if o in q && q[i] < o < q[j] {
      var k :| 0 <= k < |q| && q[k] == o;
      assert mid[k - i - 1] == o;
    }
    if o in mid {
      var k :| 0 <= k < |mid| && mid[k] == o;
      assert o == q[i + 1 + k];
    }
  }

  /** The accumulated sign is that of the permutation to [contracted pairs][uncontracted operators]. */
  lemma {:induction false} PhaseIsPermutationSign(p: Problem, s: seq<Pair>)
    requires p.fermi && Separate(s, p.N())
    ensures Phase(p, s) == Sign(Inversions(PairsFirst(s, p.N())))
  {
    hide Separate, Between, Inversions, Sign, PairsFirst;
    if s == [] {
      NoPairsFirst(p.N());
    } else {
      var u, e := Init(s), Last(s);
      SeparateInit(s, p.N());
      LastInRange(s, p.N());
      PhaseIsPermutationSign(p, u);
      var i, j := Positions(u, p.N(), e);
      assert u + [e] == s;
      FrontOnePair(u, e, p.N(), i, j);
      SignDrop(Inversions(PairsFirst(u, p.N())) + |Between(u, e)|, Inversions(PairsFirst(s, p.N())), i);
      SignSum(Inversions(PairsFirst(u, p.N())), |Between(u, e)|);
    }
  }

  lemma NoPairsFirst(n: nat)
    ensures Sign(Inversions(PairsFirst([], n))) == 1
  {
    RemainingBelowProps([], n);
    IncreasingHasNoInversions(RemainingBelow([], n));
    assert PairsFirst([], n) == RemainingBelow([], n);
  }

  lemma FrontOnePair(u: seq<Pair>, e: Pair, n: nat, i: nat, j: nat)
    requires i < j < |RemainingBelow(u, n)| && RemainingBelow(u, n)[i] == e.0 && RemainingBelow(u, n)[j] == e.1
    requires RemainingBelow(u + [e], n) == Erase(Erase(RemainingBelow(u, n), j), i)
    ensures Inversions(PairsFirst(u + [e], n)) == Inversions(PairsFirst(u, n)) + 2 * i + (j - i - 1)
  {
    hide Inversions, CrossBelow, CountBelow, RemainingBelow, Increasing;
    var q, f := RemainingBelow(u, n), Flatten(u);
    var rest := RemainingBelow(u + [e], n);
    RemainingBelowProps(u, n);
    SplitAtPair(q, i, j);
    MovePair(q[..i], e.0, q[i + 1..j], e.1, q[j + 1..]);
    assert Init(u + [e]) == u;
    assert PairsFirst(u + [e], n) == f + ([e.0, e.1] + rest);
    InversionsConcat(f, [e.0, e.1] + rest);
    InversionsConcat(f, q);
    CrossBelowSame(f, q, [e.0, e.1] + rest);
    IncreasingHasNoInversions(q);
  }

  // ---- Crossings ----

  /** Pairs of contractions whose lines cross. */
  ghost function Crossings(m: set<Pair>): set<(Pair, Pair)> {
    set e, f | e in m && f in m && e.0 < f.0 < e.1 < f.1 :: (e, f)
  }

  /** Uncontracted operators under a contraction line. */
  ghost function Enclosed(m: set<Pair>, n: nat): set<(Pair, nat)> {
    set e, o: nat | e in m && o < n && e.0 < o < e.1 && !Covers(m, o) :: (e, o)
  }

  ghost function CrossingsLeft(m: set<Pair>, e: Pair): set<Pair> {
    set f | f in m && f.0 < e.0 < f.1 < e.1
  }

  ghost function CrossingsRight(m: set<Pair>, e: Pair): set<Pair> {
    set f | f in m && e.0 < f.0 < e.1 < f.1
  }

  ghost function Under(m: set<Pair>, o: nat): set<Pair> {
    set f | f in m && f.0 < o < f.1
  }

  ghost function TagRight<T, U>(a: set<T>, u: U): set<(T, U)> {
    set x | x in a :: (x, u)
  }

  ghost function TagLeft<T, U>(u: U, a: set<T>): set<(U, T)> {
    set x | x in a :: (u, x)
  }

  lemma {:induction false} TagSizes<T, U>(a: set<T>, u: U)
    ensures |TagRight(a, u)| == |a| && |TagLeft(u, a)| == |a|
    decreases |a|
  {
    if a != {} {
      var x :| x in a;
      TagSizes(a - {x}, u);
      assert TagRight(a, u) == TagRight(a - {x}, u) + {(x, u)};
      assert TagLeft(u, a) == TagLeft(u, a - {x}) + {(u, x)};
    }
  }

  lemma DisjointSize<T>(a: set<T>, b: set<T>)
    requires a !! b
    ensures |a + b| == |a| + |b|
  {
  }

  lemma CrossingsAdd(m: set<Pair>, e: Pair)
    requires e !in m
    ensures |Crossings(m + {e})| == |Crossings(m)| + |CrossingsLeft(m, e)| + |CrossingsRight(m, e)|
  {
    hide Crossings, CrossingsLeft, CrossingsRight, TagLeft, TagRight;
    var a, b := TagRight(CrossingsLeft(m, e), e), TagLeft(e, CrossingsRight(m, e));
    TagSizes(CrossingsLeft(m, e), e);
    TagSizes(CrossingsRight(m, e), e);
    CrossingsAddSets(m, e, a, b);
    DisjointSize(a, b);
    DisjointSize(Crossings(m), a + b);
  }

  lemma CrossingsAddSets(m: set<Pair>, e: Pair, a: set<(Pair, Pair)>, b: set<(Pair, Pair)>)
    requires e !in m
    requires a == TagRight(CrossingsLeft(m, e), e) && b == TagLeft(e, CrossingsRight(m, e))
    ensures Crossings(m + {e}) == Crossings(m) + (a + b) && a !! b && Crossings(m) !! a + b
  {
  }

  /** The lines over an end of e are those that cross e there and those that pass over all of e. */
  lemma UnderEnds(m: set<Pair>, e: Pair)
    requires e.0 < e.1 && forall f :: f in m ==> Apart(f, e) && f.0 < f.1
    ensures |Under(m, e.0)| + |Under(m, e.1)| ==
            |CrossingsLeft(m, e)| + |CrossingsRight(m, e)| + 2 * |Under(m, e.0) * Under(m, e.1)|
  {
    var h := Under(m, e.0) * Under(m, e.1);
    assert Under(m, e.0) == CrossingsLeft(m, e) + h && CrossingsLeft(m, e) !! h;
    assert Under(m, e.1) == CrossingsRight(m, e) + h && CrossingsRight(m, e) !! h;
  }

  lemma EnclosedAdd(m: set<Pair>, e: Pair, n: nat)
    requires e !in m && e.0 < e.1 < n && !Covers(m, e.0) && !Covers(m, e.1)
    ensures var inner := set o: nat | e.0 < o < e.1 && !Covers(m, o);
            |Enclosed(m + {e}, n)| + |Under(m, e.0)| + |Under(m, e.1)| == |Enclosed(m, n)| + |inner|
  {
    hide Enclosed, Under, TagLeft, TagRight, Covers;
    var inner := set o: nat | e.0 < o < e.1 && !Covers(m, o);
    var a, b, c := TagRight(Under(m, e.0), e.0), TagRight(Under(m, e.1), e.1), TagLeft(e, inner);
    TagSizes(Under(m, e.0), e.0);
    TagSizes(Under(m, e.1), e.1);
    TagSizes(inner, e);
    EnclosedAddSets(m, e, n, a, b, c);
    EnclosedSizes(Enclosed(m, n), a, b, c);
  }

  lemma EnclosedSizes<T>(k: set<T>, a: set<T>, b: set<T>, c: set<T>)
    requires a !! b && a + b <= k && k !! c
    ensures |k - (a + b) + c| + |a| + |b| == |k| + |c|
  {
    DisjointSize(k - (a + b), c);
    DisjointSize(a, b);
    assert k == k - (a + b) + (a + b);
  }

  lemma CoversAdd(m: set<Pair>, e: Pair)
    ensures forall o: nat :: Covers(m + {e}, o) <==> Covers(m, o) || Touches(e, o)
  {
    forall o: nat ensures Covers(m + {e}, o) <==> Covers(m, o) || Touches(e, o) {
      if Covers(m, o) { var f :| f in m && Touches(f, o); assert f in m + {e}; }
      if Touches(e, o) { assert e in m + {e}; }
    }
  }

  lemma EnclosedAddSets(m: set<Pair>, e: Pair, n: nat, a: set<(Pair, nat)>, b: set<(Pair, nat)>, c: set<(Pair, nat)>)
    requires e !in m && e.0 < e.1 < n && !Covers(m, e.0) && !Covers(m, e.1)
    requires a == TagRight(Under(m, e.0), e.0) && b == TagRight(Under(m, e.1), e.1)
    requires c == TagLeft(e, set o: nat | e.0 < o < e.1 && !Covers(m, o))
    ensures Enclosed(m + {e}, n) == Enclosed(m, n) - (a + b) + c
    ensures a + b <= Enclosed(m, n) && a !! b && Enclosed(m, n) !! c
  {
    hide Covers;
    CoversAdd(m, e);
  }

  /** The order-free sign of a set of contractions. */
  ghost function SignOf(m: set<Pair>, n: nat): int {
    Sign(|Crossings(m)| + |Enclosed(m, n)|)
  }

  lemma {:induction false} PhaseIsCrossingSign(p: Problem, s: seq<Pair>)
    requires p.fermi && Separate(s, p.N())
    ensures Phase(p, s) == SignOf(Pairs(s), p.N())
  {
    hide Separate, Crossings, Enclosed, Sign, Between;
    if s == [] {
      NoCrossings(p.N());
    } else {
      var u, e := Init(s), Last(s);
      SeparateInit(s, p.N());
      LastInRange(s, p.N());
      PhaseIsCrossingSign(p, u);
      SignOfAdd(u, e, p.N());
    }
  }

  lemma LastInRange(s: seq<Pair>, n: nat)
    requires Separate(s, n) && s != []
    ensures Last(s).0 < Last(s).1 < n
  {
  }

  lemma NoCrossings(n: nat)
    ensures SignOf(Pairs([]), n) == 1
  {
    assert Crossings(Pairs([])) == {} && Enclosed(Pairs([]), n) == {};
  }

  lemma SignOfAdd(u: seq<Pair>, e: Pair, n: nat)
    requires e.0 < e.1 < n && e !in Pairs(u) && e.0 !in Ends(u) && e.1 !in Ends(u)
    requires forall f :: f in Pairs(u) ==> Apart(f, e) && f.0 < f.1
    ensures SignOf(Pairs(u) + {e}, n) == SignOf(Pairs(u), n) * Sign(|Between(u, e)|)
  {
    hide Crossings, Enclosed, Under, CrossingsLeft, CrossingsRight, Sign;
    var m := Pairs(u);
    EndsCovered(u);
    CrossingsAdd(m, e);
    UnderEnds(m, e);
    EnclosedAdd(m, e, n);
    var inner := set o: nat | e.0 < o < e.1 && !Covers(m, o);
    assert inner == Between(u, e);
    var k, k' := |Crossings(m)| + |Enclosed(m, n)|, |Crossings(m + {e})| + |Enclosed(m + {e}, n)|;
    SignDrop(k', k + |inner|, |Under(m, e.0) * Under(m, e.1)|);
    SignSum(k, |inner|);
  }

  /** The sign does not depend on the order in which the contractions are made. */
  lemma PhaseOrderFree(p: Problem, s: seq<Pair>, t: seq<Pair>)
    requires Separate(s, p.N()) && Separate(t, p.N()) && Pairs(s) == Pairs(t)
    ensures Phase(p, s) == Phase(p, t)
  {
    if p.fermi {
      PhaseIsCrossingSign(p, s);
      PhaseIsCrossingSign(p, t);
    } else {
      BosonPhase(p, s);
      BosonPhase(p, t);
    }
  }

  lemma {:induction false} BosonPhase(p: Problem, s: seq<Pair>)
    requires !p.fermi
    ensures Phase(p, s) == 1
  {
    if s != [] { BosonPhase(p, Init(s)); }
  }

  /** For a full contraction the sign is the parity of the number of crossings. */
  lemma FullPhaseIsCrossingParity(p: Problem, s: seq<Pair>)
    requires WellFormed(p) && p.fermi && p.full && IsRun(p, s) && Complete(p, s)
    ensures Phase(p, s) == Sign(|Crossings(Pairs(s))|)
  {
    hide WellFormed, IsRun, Crossings, Separate;
    RunIsSeparate(p, s);
    PhaseIsCrossingSign(p, s);
    EndsCovered(s);
    assert Enclosed(Pairs(s), p.N()) == {};
  }

  lemma RunIsSeparate(p: Problem, s: seq<Pair>)
    requires WellFormed(p) && IsRun(p, s)
    ensures Separate(s, p.N())
  {
    hide WellFormed, IsRun;
    RunIsOrdered(p, s);
  }
}
