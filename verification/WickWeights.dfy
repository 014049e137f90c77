/**
 The weight of a term: the permutational degeneracy of a degree matrix is the
 number of leaves of the unpruned search that have it.
 */
module WickWeights {
  import opened Sequences
  import opened WickProblem
  import opened WickSearch
  import opened WickMatchings
  import opened WickPhase
  import opened WickDegrees
  import opened WickClasses
  import opened Factorials

  // ---- The leaves of a class ----

  /** Every complete run of the search without pruning. */
  ghost function Leaves(p: Problem): set<seq<Pair>>
    requires WellFormed(p) && (p.full ==> p.N() > 0)
  {
    PlainWellFormed(p);
    set t | t in Elems(Emitted(Plain(p)) + [[]]) && IsRun(Plain(p), t) && Complete(p, t)
  }

  lemma LeavesAreRuns(p: Problem, t: seq<Pair>)
    requires WellFormed(p) && (p.full ==> p.N() > 0)
    ensures t in Leaves(p) <==> PlainLeaf(p, t)
  {
    PlainWellFormed(p);
    EmittedAreRuns(Plain(p));
    hide WellFormed, IsRun, Emitted;
    if PlainLeaf(p, t) {
      assert Complete(Plain(p), t);
      var e := Emitted(Plain(p)) + [[]];
      assert t == [] ==> e[|e| - 1] == t;
    }
  }

  /** Leaves with the degree matrix of w. */
  ghost function Class(p: Problem, w: seq<Pair>): set<seq<Pair>>
    requires WellFormed(p) && (p.full ==> p.N() > 0)
  {
    set t | t in Leaves(p) && Degrees(p.partitionOf, t) == Degrees(p.partitionOf, w)
  }

  /** Those that begin with s and go on, if at all, from operator i or one right of it. */
  ghost predicate Extends(s: seq<Pair>, t: seq<Pair>, i: nat) {
    |s| <= |t| && t[..|s|] == s && (|t| > |s| ==> t[|s|].0 >= i)
  }

  ghost function From(p: Problem, w: seq<Pair>, s: seq<Pair>, i: nat): set<seq<Pair>>
    requires WellFormed(p) && (p.full ==> p.N() > 0)
  {
    set t: seq<Pair> | t in Class(p, w) && Extends(s, t, i)
  }

  /** Those that next contract i with j or an operator right of it. */
  ghost function FromPairs(p: Problem, w: seq<Pair>, s: seq<Pair>, i: nat, j: nat): set<seq<Pair>>
    requires WellFormed(p) && (p.full ==> p.N() > 0)
  {
    set t: seq<Pair> | t in Class(p, w) && |s| < |t| && t[..|s|] == s && t[|s|].0 == i && t[|s|].1 >= j
  }

  /** Those that next contract i with j. */
  ghost function FromPair(p: Problem, w: seq<Pair>, s: seq<Pair>, e: Pair): set<seq<Pair>>
    requires WellFormed(p) && (p.full ==> p.N() > 0)
  {
    set t: seq<Pair> | t in Class(p, w) && |s| < |t| && t[..|s|] == s && t[|s|] == e
  }

  lemma ClassMember(p: Problem, w: seq<Pair>, t: seq<Pair>)
    requires WellFormed(p) && (p.full ==> p.N() > 0)
    ensures t in Class(p, w) <==> PlainLeaf(p, t) && Degrees(p.partitionOf, t) == Degrees(p.partitionOf, w)
  {
    hide WellFormed, IsRun, Leaves, PlainLeaf;
    LeavesAreRuns(p, t);
  }

  lemma SplitFrom(p: Problem, w: seq<Pair>, s: seq<Pair>, i: nat)
    requires WellFormed(p) && (p.full ==> p.N() > 0)
    ensures |From(p, w, s, i)| == |From(p, w, s, i + 1)| + |FromPairs(p, w, s, i, i + 1)|
  {
    hide WellFormed, Class, PlainLeaf, IsRun, CanExtend;
    var a, b := From(p, w, s, i + 1), FromPairs(p, w, s, i, i + 1);
    forall t | t in From(p, w, s, i) ensures t in a + b {
      ClassMember(p, w, t);
      if |t| > |s| { LeafStep(p, t, |s|); }
    }
    assert From(p, w, s, i) == a + b;
    DisjointSize(a, b);
  }

  lemma SplitPairs(p: Problem, w: seq<Pair>, s: seq<Pair>, i: nat, j: nat)
    requires WellFormed(p) && (p.full ==> p.N() > 0)
    ensures |FromPairs(p, w, s, i, j)| == |FromPairs(p, w, s, i, j + 1)| + |FromPair(p, w, s, (i, j))|
  {
    hide WellFormed, Class;
    var a, b := FromPairs(p, w, s, i, j + 1), FromPair(p, w, s, (i, j));
    assert FromPairs(p, w, s, i, j) == a + b;
    DisjointSize(a, b);
  }

  /** Contracting i with j next is going on from i + 1 after it. */
  lemma PairThenFrom(p: Problem, w: seq<Pair>, s: seq<Pair>, e: Pair)
    requires WellFormed(p) && (p.full ==> p.N() > 0)
    ensures FromPair(p, w, s, e) == From(p, w, s + [e], e.0 + 1)
  {
    hide WellFormed, Class, PlainLeaf, IsRun, CanExtend;
    var u := s + [e];
    forall t ensures t in FromPair(p, w, s, e) <==> t in From(p, w, u, e.0 + 1) {
      if t in FromPair(p, w, s, e) {
        assert t[..|u|] == u;
        if |t| > |u| {
          ClassMember(p, w, t);
          LeafLefts(p, t);
          assert t[|s|] == e;
        }
      }
      if t in From(p, w, u, e.0 + 1) {
        assert t[..|s|] == t[..|u|][..|s|] == s;
        assert t[|s|] == t[..|u|][|s|];
      }
    }
  }

  // ---- Classes that cannot be reached ----

  lemma NoPairTaken(p: Problem, w: seq<Pair>, s: seq<Pair>, e: Pair)
    requires WellFormed(p) && (p.full ==> p.N() > 0)
    requires e.0 in Ends(s) || e.1 in Ends(s) || e.1 <= e.0 || e.1 >= p.N()
    ensures FromPair(p, w, s, e) == {}
  {
    hide WellFormed, Class, PlainLeaf, IsRun, CanExtend;
    forall t | t in FromPair(p, w, s, e) ensures false {
      ClassMember(p, w, t);
      LeafStep(p, t, |s|);
    }
  }

  lemma NoPairOfKey(p: Problem, w: seq<Pair>, s: seq<Pair>, e: Pair)
    requires WellFormed(p) && (p.full ==> p.N() > 0)
    requires Rest(p, w, s)[Key(p.partitionOf, e)] == 0
    ensures FromPair(p, w, s, e) == {}
  {
    hide WellFormed, Leaves, Degrees, Rest;
    forall t | t in FromPair(p, w, s, e) ensures false {
      KeyTaken(p, w, s, t, e);
    }
  }

  /** What a member of the class contracts next is left of the matrix. */
  lemma KeyTaken(p: Problem, w: seq<Pair>, s: seq<Pair>, t: seq<Pair>, e: Pair)
    requires |s| < |t| && t[..|s|] == s && t[|s|] == e && Degrees(p.partitionOf, t) == Degrees(p.partitionOf, w)
    ensures Rest(p, w, s)[Key(p.partitionOf, e)] > 0
  {
    hide Degrees;
    var key := Key(p.partitionOf, e);
    DegreesPrefix(p.partitionOf, t, |s| + 1);
    assert t[..|s| + 1] == s + [e];
    calc {
      Degrees(p.partitionOf, w)[key];
    ==
      Degrees(p.partitionOf, t)[key];
    >=
      Degrees(p.partitionOf, s + [e])[key];
    ==  { DegreesSnoc(p.partitionOf, s, e); }
      Degrees(p.partitionOf, s)[key] + 1;
    }
  }

  /** Passing over i is impossible if its partition has none to spare. */
  lemma NoSpareNoSkip(p: Problem, w: seq<Pair>, s: seq<Pair>, i: nat)
    requires WellFormed(p) && (p.full ==> p.N() > 0) && Within(p, w, s) && |p.partitionOf| == p.N()
    requires i < p.N() && i !in Ends(s) && p.partitionOf[i] < |p.partitions|
    requires RestDegree(p, w, s, p.partitionOf[i]) == FreeCount(p, s, p.partitionOf[i], i)
    requires WellFormed(Plain(p)) && IsRun(Plain(p), s)
    ensures From(p, w, s, i + 1) == {}
  {
    hide PlainLeaf, WellFormed, IsRun, Class, FreeCount, RestDegree;
    var f := From(p, w, s, i + 1);
    forall t | t in f ensures false {
      ClassMember(p, w, t);
      DegreeOfRest(p, w, s, t, p.partitionOf[i]);
      NewEnds(p, s, t, p.partitionOf[i], i + 1);
      FreeSkip(p, s, p.partitionOf[i], i);
    }
  }

  lemma DegreeOfRest(p: Problem, w: seq<Pair>, s: seq<Pair>, t: seq<Pair>, a: nat)
    requires PlainLeaf(p, t) && Within(p, w, s) && Degrees(p.partitionOf, t) == Degrees(p.partitionOf, w)
    requires IsRun(Plain(p), s)
    ensures RestDegree(p, w, s, a) + |ContractedSet(p.partitionOf, s, a)| == |ContractedSet(p.partitionOf, t, a)|
  {
    hide WellFormed, IsRun, Degrees, Contracted, ContractedSet, Degree, Complete;
    PartsInRange(p);
    RunIsSeparate(Plain(p), s);
    RunIsSeparate(Plain(p), t);
    var part, k := p.partitionOf, |p.partitions|;
    ContractedIsDegree(part, s, a, k);
    ContractedIsDegree(part, t, a, k);
    ContractedSize(part, s, a);
    ContractedSize(part, t, a);
    var d, r := Degrees(part, s), Rest(p, w, s);
    assert Degrees(part, t) == d + r;
    SumsUnion(d, r, a, k);
  }

  lemma {:induction false} SumsUnion(d: multiset<Pair>, r: multiset<Pair>, a: nat, k: nat)
    ensures Degree(d + r, a, k) == Degree(d, a, k) + Degree(r, a, k)
  {
    if k > 0 { SumsUnion(d, r, a, k - 1); }
  }

  /** What a leaf contracts beyond s it takes from the free operators. */
  lemma NewEnds(p: Problem, s: seq<Pair>, t: seq<Pair>, a: nat, i: nat)
    requires PlainLeaf(p, t) && Extends(s, t, i) && |p.partitionOf| == p.N()
    ensures |ContractedSet(p.partitionOf, t, a)| <= |ContractedSet(p.partitionOf, s, a)| + FreeCount(p, s, a, i)
  {
    var part := p.partitionOf;
    var c, f := ContractedSet(part, s, a), FreeIn(part, s, a, i);
    forall o | o in ContractedSet(part, t, a) ensures o in c + f {
      if o !in Ends(s) { LaterEnd(p, s, t, o, i); }
    }
    SubsetSize(ContractedSet(part, t, a), c + f);
    DisjointSize(c, f);
  }

  lemma LaterEnd(p: Problem, s: seq<Pair>, t: seq<Pair>, o: nat, i: nat)
    requires PlainLeaf(p, t) && Extends(s, t, i) && o in Ends(t) && o !in Ends(s)
    ensures o >= i
  {
    hide PlainLeaf, WellFormed, IsRun, CanExtend;
    assert forall k :: 0 <= k < |s| ==> t[..|s|][k] == s[k] == t[k];
    EndsCovered(t);
    var e :| e in Pairs(t) && Touches(e, o);
    var m :| 0 <= m < |t| && t[m] == e;
    LeafStep(p, t, m);
    LeafLefts(p, t);
    EndsMono(s, if m < |s| then m else 0);
  }

  lemma LeafStep(p: Problem, t: seq<Pair>, k: nat)
    requires PlainLeaf(p, t) && k < |t|
    ensures WellFormed(Plain(p)) && IsRun(Plain(p), t[..k]) && CanExtend(Plain(p), t[..k], t[k])
    ensures PairOk(p, t[k]) && t[k].0 < t[k].1 < p.N() && t[k].0 !in Ends(t[..k]) && t[k].1 !in Ends(t[..k])
  {
    hide WellFormed, IsRun, TopologicallyUnique, ConnectOk;
    RunStep(Plain(p), t, k);
    assert PairOk(Plain(p), t[k]);
  }

  lemma LeafLefts(p: Problem, t: seq<Pair>)
    requires PlainLeaf(p, t)
    ensures forall i, j :: 0 <= i < j < |t| ==> t[i].0 < t[j].0
  {
    hide WellFormed, IsRun;
    LeftsIncrease(Plain(p), t);
  }

  // ---- Counting ----

  ghost function FreeVec(p: Problem, s: seq<Pair>, i: nat): (v: seq<nat>)
    ensures |v| == |p.partitions|
  {
    seq(|p.partitions|, a requires 0 <= a < |p.partitions| => FreeCount(p, s, a, i))
  }

  /** Operators of each partition, from i on, that the class leaves uncontracted. */
  ghost function SpareVec(p: Problem, w: seq<Pair>, s: seq<Pair>, i: nat): seq<nat>
    requires Fits(p, w, s, i)
  {
    seq(|p.partitions|, a requires 0 <= a < |p.partitions| => FreeCount(p, s, a, i) - RestDegree(p, w, s, a))
  }

  ghost function Symmetry(p: Problem, w: seq<Pair>, s: seq<Pair>, i: nat): nat
    requires Fits(p, w, s, i)
  {
    FactMatrix(Rest(p, w, s), |p.partitions|, |p.partitions|) * FactVec(SpareVec(p, w, s, i))
  }

  /** What contracting i, of partition a, with an operator of partition b contributes, times the symmetry. */
  ghost function Share(m: multiset<Pair>, v: seq<nat>, a: nat): (h: seq<nat>)
    ensures |h| == |v|
  {
    seq(|v|, b requires 0 <= b < |v| => m[(a, b)] * (if v[b] > 0 then FactVec(v[b := v[b] - 1]) else 0))
  }

  /** Shares of the free operators from j on. */
  ghost function SumShares(p: Problem, s: seq<Pair>, h: seq<nat>, j: nat): nat
    decreases p.N() - j
  {
    if j >= p.N() then 0
    else (if j !in Ends(s) && j < |p.partitionOf| && p.partitionOf[j] < |h| then h[p.partitionOf[j]] else 0)
         + SumShares(p, s, h, j + 1)
  }

  lemma {:induction false} SumSharesIsDot(p: Problem, s: seq<Pair>, h: seq<nat>, j: nat)
    requires |h| == |p.partitions| && |p.partitionOf| == p.N() && PartsBelow(p.partitionOf, |h|) && j <= p.N()
    ensures SumShares(p, s, h, j) == Dot(h, FreeVec(p, s, j))
    decreases p.N() - j
  {
    var v := FreeVec(p, s, j);
    if j == p.N() {
      forall a | 0 <= a < |v| ensures v[a] == 0 { assert FreeIn(p.partitionOf, s, a, j) == {}; }
      DotZero(h, v);
    } else {
      SumSharesIsDot(p, s, h, j + 1);
      var u, b := FreeVec(p, s, j + 1), p.partitionOf[j];
      if j in Ends(s) {
        forall a | 0 <= a < |v| ensures v[a] == u[a] {
          assert FreeIn(p.partitionOf, s, a, j) == FreeIn(p.partitionOf, s, a, j + 1);
        }
        assert u == v;
      } else {
        forall a | 0 <= a < |v| ensures v[a] == u[b := u[b] + 1][a] { FreeSkip(p, s, a, j); }
        assert v == u[b := u[b] + 1];
        DotAdd(h, u, b);
      }
    }
  }

  /** Over all right operators, the shares add up to the entries of the row. */
  lemma SharesAddUp(m: multiset<Pair>, v: seq<nat>, a: nat)
    requires forall b :: 0 <= b < |v| && m[(a, b)] > 0 ==> v[b] > 0
    ensures Dot(Share(m, v, a), v) == RowSum(m, a, |v|) * FactVec(v)
  {
    var h := Share(m, v, a);
    forall b | 0 <= b < |v| ensures h[b] * v[b] == m[(a, b)] * FactVec(v) {
      ShareTimesCount(h[b], m[(a, b)], v, b);
    }
    hide Share;
    DotOfProducts(m, h, v, FactVec(v), a);
  }

  lemma {:induction false} DotOfProducts(m: multiset<Pair>, h: seq<nat>, v: seq<nat>, f: nat, a: nat)
    requires |h| == |v| && forall b :: 0 <= b < |v| ==> h[b] * v[b] == m[(a, b)] * f
    ensures Dot(h, v) == RowSum(m, a, |v|) * f
  {
    if v != [] {
      DotOfProducts(m, Init(h), Init(v), f, a);
      Distribute(RowSum(m, a, |v| - 1), m[(a, |v| - 1)], f);
    }
  }

  lemma ShareTimesCount(h: nat, e: nat, v: seq<nat>, b: nat)
    requires b < |v| && (e > 0 ==> v[b] > 0)
    requires h == e * (if v[b] > 0 then FactVec(v[b := v[b] - 1]) else 0)
    ensures h * v[b] == e * FactVec(v)
  {
    if v[b] > 0 {
      FactVecDrop(v, b);
      ProductSwap(e, FactVec(v[b := v[b] - 1]), v[b], FactVec(v));
    }
  }

  lemma ProductSwap(e: int, g: int, c: int, f: int)
    requires f == c * g
    ensures (e * g) * c == e * f
  {
    Mul3(e, g, c);
  }

  lemma Distribute(a: int, b: int, c: int)
    ensures (a + b) * c == a * c + b * c
  {
  }

  // ---- The induction over the operators ----

  lemma CountDone(p: Problem, w: seq<Pair>, s: seq<Pair>)
    requires WellFormed(p) && PlainLeaf(p, w) && (p.full ==> p.N() > 0)
    requires IsRun(Plain(p), s) && Budget(p, w, s, p.N())
    ensures |From(p, w, s, p.N())| * Symmetry(p, w, s, p.N()) == FactVec(FreeVec(p, s, p.N()))
  {
    ScanDone(p, w, s);
    hide WellFormed, IsRun, Complete, Degrees, Within, Settled, Fits, From;
    assert Rest(p, w, s) == multiset{};
    OnlyItself(p, w, s);
    PartsInRange(p);
    NothingFree(p, w, s);
  }

  lemma NothingFree(p: Problem, w: seq<Pair>, s: seq<Pair>)
    requires |p.partitionOf| == p.N() && Fits(p, w, s, p.N()) && Rest(p, w, s) == multiset{}
    ensures Symmetry(p, w, s, p.N()) == 1 && FactVec(FreeVec(p, s, p.N())) == 1
  {
    var n := p.N();
    forall a | 0 <= a < |p.partitions| ensures FreeCount(p, s, a, n) == 0 {
      assert FreeIn(p.partitionOf, s, a, n) == {};
    }
    hide FreeCount, Rest, RestDegree;
    FactVecZero(FreeVec(p, s, n));
    FactVecZero(SpareVec(p, w, s, n));
    FactMatrixEmpty(|p.partitions|, |p.partitions|);
  }

  lemma OnlyItself(p: Problem, w: seq<Pair>, s: seq<Pair>)
    requires WellFormed(p) && PlainLeaf(p, s) && Degrees(p.partitionOf, s) == Degrees(p.partitionOf, w)
    requires p.full ==> p.N() > 0
    ensures From(p, w, s, p.N()) == {s}
  {
    hide WellFormed, PlainLeaf, Class, IsRun, CanExtend, Degrees;
    ClassMember(p, w, s);
    assert s[..|s|] == s;
    forall t | t in From(p, w, s, p.N()) ensures t == s {
      ClassMember(p, w, t);
      if |t| > |s| { LeafStep(p, t, |s|); }
      assert t[..|t|] == t;
    }
  }

  lemma CountTaken(p: Problem, w: seq<Pair>, s: seq<Pair>, i: nat)
    requires WellFormed(p) && (p.full ==> p.N() > 0) && Budget(p, w, s, i) && i < p.N() && i in Ends(s)
    ensures Budget(p, w, s, i + 1)
    ensures From(p, w, s, i) == From(p, w, s, i + 1)
    ensures FreeVec(p, s, i) == FreeVec(p, s, i + 1) && Symmetry(p, w, s, i) == Symmetry(p, w, s, i + 1)
  {
    hide WellFormed, Within, Settled, Fits, From, Symmetry, FreeVec;
    BudgetTaken(p, w, s, i);
    FromTaken(p, w, s, i);
    VectorsTaken(p, w, s, i);
  }

  lemma FromTaken(p: Problem, w: seq<Pair>, s: seq<Pair>, i: nat)
    requires WellFormed(p) && (p.full ==> p.N() > 0) && i in Ends(s)
    ensures From(p, w, s, i) == From(p, w, s, i + 1)
  {
    hide WellFormed, Class, PlainLeaf, IsRun, CanExtend;
    forall t | t in From(p, w, s, i) ensures t in From(p, w, s, i + 1) {
      ClassMember(p, w, t);
      if |t| > |s| { LeafStep(p, t, |s|); }
    }
  }

  lemma VectorsTaken(p: Problem, w: seq<Pair>, s: seq<Pair>, i: nat)
    requires i in Ends(s) && Fits(p, w, s, i) && Fits(p, w, s, i + 1)
    ensures FreeVec(p, s, i) == FreeVec(p, s, i + 1) && Symmetry(p, w, s, i) == Symmetry(p, w, s, i + 1)
  {
    hide Rest, RestDegree;
    forall a ensures FreeCount(p, s, a, i) == FreeCount(p, s, a, i + 1) {
      assert FreeIn(p.partitionOf, s, a, i) == FreeIn(p.partitionOf, s, a, i + 1);
    }
    hide FreeCount;
    assert FreeVec(p, s, i) == FreeVec(p, s, i + 1);
    assert SpareVec(p, w, s, i) == SpareVec(p, w, s, i + 1);
  }

  lemma SpareVecSkip(p: Problem, w: seq<Pair>, s: seq<Pair>, i: nat)
    requires |p.partitionOf| == p.N() && i < p.N() && i !in Ends(s) && p.partitionOf[i] < |p.partitions|
    requires Fits(p, w, s, i) && Fits(p, w, s, i + 1)
    ensures var a, v := p.partitionOf[i], SpareVec(p, w, s, i);
            && v[a] > 0 && v[a] == FreeCount(p, s, a, i) - RestDegree(p, w, s, a)
            && SpareVec(p, w, s, i + 1) == v[a := v[a] - 1]
  {
    var a, v, u := p.partitionOf[i], SpareVec(p, w, s, i), SpareVec(p, w, s, i + 1);
    forall c | 0 <= c < |v| ensures v[c] == u[c] + (if c == a then 1 else 0) {
      FreeSkip(p, s, c, i);
    }
    hide FreeCount, RestDegree;
    assert u == v[a := v[a] - 1];
  }

  /** Passing over i uses up one spare operator of its partition. */
  lemma SymmetrySkip(p: Problem, w: seq<Pair>, s: seq<Pair>, i: nat)
    requires |p.partitionOf| == p.N() && i < p.N() && i !in Ends(s) && p.partitionOf[i] < |p.partitions|
    requires Fits(p, w, s, i) && Fits(p, w, s, i + 1)
    ensures var a := p.partitionOf[i];
            Symmetry(p, w, s, i) == (FreeCount(p, s, a, i) - RestDegree(p, w, s, a)) * Symmetry(p, w, s, i + 1)
  {
    SpareVecSkip(p, w, s, i);
    hide Fits, SpareVec, FreeCount, RestDegree, Rest, FactMatrix;
    var a, v := p.partitionOf[i], SpareVec(p, w, s, i);
    FactVecDrop(v, a);
    hide FactVec;
    Mul3(FactMatrix(Rest(p, w, s), |p.partitions|, |p.partitions|), v[a], FactVec(v[a := v[a] - 1]));
  }

  lemma FreeVecSkip(p: Problem, s: seq<Pair>, i: nat)
    requires |p.partitionOf| == p.N() && i < p.N() && i !in Ends(s) && p.partitionOf[i] < |p.partitions|
    ensures var a, v := p.partitionOf[i], FreeVec(p, s, i); v[a] > 0 && FreeVec(p, s, i + 1) == v[a := v[a] - 1]
  {
    var a, v := p.partitionOf[i], FreeVec(p, s, i);
    forall c | 0 <= c < |v| ensures v[c] == FreeCount(p, s, c, i + 1) + (if c == a then 1 else 0) {
      FreeSkip(p, s, c, i);
    }
    assert FreeVec(p, s, i + 1) == v[a := v[a] - 1];
  }

  /** Contracting i with j uses up one entry of the matrix and nothing to spare. */
  lemma SymmetryPair(p: Problem, w: seq<Pair>, s: seq<Pair>, i: nat, j: nat)
    requires Fits(p, w, s, i) && Fits(p, w, s + [(i, j)], i + 1)
    requires Parted(p) && Within(p, w, s) && i < j < p.N() && i !in Ends(s) && j !in Ends(s)
    requires Rest(p, w, s)[Key(p.partitionOf, (i, j))] > 0
    ensures Symmetry(p, w, s, i) ==
            Rest(p, w, s)[Key(p.partitionOf, (i, j))] * Symmetry(p, w, s + [(i, j)], i + 1)
  {
    hide Within, SpareVec, FactVec, FactMatrix, Fits, Parted, Rest, Ends;
    var t, e, k := s + [(i, j)], Key(p.partitionOf, (i, j)), |p.partitions|;
    RestSnoc(p, w, s, (i, j));
    SpareVecPair(p, w, s, i, j);
    KeyBelow(p, i, j);
    var m, m' := Rest(p, w, s), Rest(p, w, t);
    assert m == m' + multiset{e};
    FactMatrixAdd(m', e, k, k);
    ProductAfter(m[e], FactMatrix(m', k, k), FactVec(SpareVec(p, w, t, i + 1)), FactMatrix(m, k, k));
  }

  lemma BudgetParts(p: Problem, w: seq<Pair>, s: seq<Pair>, i: nat)
    requires Budget(p, w, s, i)
    ensures Within(p, w, s) && Fits(p, w, s, i)
  {
  }

  lemma KeyBelow(p: Problem, i: nat, j: nat)
    requires Parted(p) && i < p.N() && j < p.N()
    ensures Key(p.partitionOf, (i, j)).0 < |p.partitions| && Key(p.partitionOf, (i, j)).1 < |p.partitions|
  {
  }

  lemma ProductAfter(x: int, y: int, z: int, f: int)
    requires f == x * y
    ensures f * z == x * (y * z)
  {
    Mul3(x, y, z);
  }

  lemma SpareVecPair(p: Problem, w: seq<Pair>, s: seq<Pair>, i: nat, j: nat)
    requires Fits(p, w, s, i) && Fits(p, w, s + [(i, j)], i + 1)
    requires Parted(p) && Within(p, w, s) && i < j < p.N() && i !in Ends(s) && j !in Ends(s)
    requires Rest(p, w, s)[Key(p.partitionOf, (i, j))] > 0
    ensures SpareVec(p, w, s, i) == SpareVec(p, w, s + [(i, j)], i + 1)
  {
    hide Rest, FreeCount, RestDegree, Parted, Within, Ends;
    forall a | 0 <= a < |p.partitions|
      ensures FreeCount(p, s, a, i) - RestDegree(p, w, s, a)
              == FreeCount(p, s + [(i, j)], a, i + 1) - RestDegree(p, w, s + [(i, j)], a)
    {
      SpareKept(p, w, s, i, j, a);
    }
  }

  lemma FreeVecPair(p: Problem, s: seq<Pair>, i: nat, j: nat)
    requires |p.partitionOf| == p.N() && i < j < p.N() && i !in Ends(s) && j !in Ends(s)
    requires Parted(p) && p.partitionOf[i] != p.partitionOf[j]
    ensures var b, v := p.partitionOf[j], FreeVec(p, s, i + 1);
            v[b] > 0 && FreeVec(p, s + [(i, j)], i + 1) == v[b := v[b] - 1]
  {
    var b, v, t := p.partitionOf[j], FreeVec(p, s, i + 1), s + [(i, j)];
    forall c | 0 <= c < |v| ensures v[c] == FreeCount(p, t, c, i + 1) + (if c == b then 1 else 0) {
      FreeSkip(p, s, c, i);
      FreePair(p, s, c, i, j);
    }
    assert FreeVec(p, t, i + 1) == v[b := v[b] - 1];
  }

  /** The class goes on from s in exactly (free operators)! / symmetry ways. */
  lemma {:induction false} CountFrom(p: Problem, w: seq<Pair>, s: seq<Pair>, i: nat)
    requires WellFormed(p) && PlainLeaf(p, w) && Equivalences(p) && (p.full ==> p.N() > 0)
    requires IsRun(Plain(p), s) && (s != [] ==> Last(s).0 < i) && Budget(p, w, s, i)
    ensures |From(p, w, s, i)| * Symmetry(p, w, s, i) == FactVec(FreeVec(p, s, i))
    decreases p.N() - i, p.N() + 1
  {
    hide WellFormed, PlainLeaf, Equivalences, IsRun, From, FromPairs, Symmetry, Within, Fits, Settled, FreeVec;
    PartsInRange(p);
    if i == p.N() {
      CountDone(p, w, s);
    } else if i in Ends(s) {
      CountTaken(p, w, s, i);
      CountFrom(p, w, s, i + 1);
    } else {
      CountSkip(p, w, s, i);
      CountPairs(p, w, s, i, i + 1);
      CountFree(p, w, s, i);
    }
  }

  lemma {:induction false} CountSkip(p: Problem, w: seq<Pair>, s: seq<Pair>, i: nat)
    requires |p.partitionOf| == p.N() && i < p.N() && i !in Ends(s)
    requires WellFormed(p) && PlainLeaf(p, w) && Equivalences(p) && (p.full ==> p.N() > 0)
    requires IsRun(Plain(p), s) && (s != [] ==> Last(s).0 < i) && Budget(p, w, s, i)
    ensures var a := p.partitionOf[i];
            |From(p, w, s, i + 1)| * Symmetry(p, w, s, i)
            == (FreeCount(p, s, a, i) - RestDegree(p, w, s, a)) * FactVec(FreeVec(p, s, i + 1))
    decreases p.N() - i, p.N()
  {
    hide WellFormed, PlainLeaf, Equivalences, IsRun, From, Symmetry, Within, Settled, FreeCount, RestDegree, FreeVec;
    PartsInRange(p);
    PlainWellFormed(p);
    var a := p.partitionOf[i];
    var f, spare := |From(p, w, s, i + 1)|, FreeCount(p, s, a, i) - RestDegree(p, w, s, a);
    if spare == 0 {
      NoSpareNoSkip(p, w, s, i);
    } else {
      BudgetSkip(p, w, s, i);
      CountFrom(p, w, s, i + 1);
      SymmetrySkip(p, w, s, i);
      Mul3(f, spare, Symmetry(p, w, s, i + 1));
    }
  }

  lemma {:induction false} CountPairs(p: Problem, w: seq<Pair>, s: seq<Pair>, i: nat, j: nat)
    requires |p.partitionOf| == p.N() && i < j <= p.N() && i !in Ends(s)
    requires WellFormed(p) && PlainLeaf(p, w) && Equivalences(p) && (p.full ==> p.N() > 0)
    requires IsRun(Plain(p), s) && (s != [] ==> Last(s).0 < i) && Budget(p, w, s, i)
    ensures |FromPairs(p, w, s, i, j)| * Symmetry(p, w, s, i)
            == SumShares(p, s, Share(Rest(p, w, s), FreeVec(p, s, i + 1), p.partitionOf[i]), j)
    decreases p.N() - i, p.N() - j
  {
    hide WellFormed, PlainLeaf, Equivalences, IsRun, FromPairs, FromPair, Symmetry, Within, Settled, Share, Fits, SumShares, FreeVec, Rest, Ends;
    SharesStep(p, s, Share(Rest(p, w, s), FreeVec(p, s, i + 1), p.partitionOf[i]), j);
    if j == p.N() {
      NoPairsLeft(p, w, s, i);
    } else {
      PartsInRange(p);
      CountPairs(p, w, s, i, j + 1);
      CountPair(p, w, s, i, j);
      SplitPairs(p, w, s, i, j);
      Distribute(|FromPairs(p, w, s, i, j + 1)|, |FromPair(p, w, s, (i, j))|, Symmetry(p, w, s, i));
    }
  }

  lemma SharesStep(p: Problem, s: seq<Pair>, h: seq<nat>, j: nat)
    requires j <= p.N()
    ensures SumShares(p, s, h, j)
            == if j == p.N() then 0
               else (if j !in Ends(s) && j < |p.partitionOf| && p.partitionOf[j] < |h| then h[p.partitionOf[j]] else 0) + SumShares(p, s, h, j + 1)
  {
  }

  lemma NoPairsLeft(p: Problem, w: seq<Pair>, s: seq<Pair>, i: nat)
    requires WellFormed(p) && (p.full ==> p.N() > 0)
    ensures FromPairs(p, w, s, i, p.N()) == {}
  {
    hide WellFormed, Class, PlainLeaf, IsRun, CanExtend;
    var f := FromPairs(p, w, s, i, p.N());
    forall t | t in f ensures false {
      ClassMember(p, w, t);
      LeafStep(p, t, |s|);
    }
  }

  lemma {:induction false} CountPair(p: Problem, w: seq<Pair>, s: seq<Pair>, i: nat, j: nat)
    requires PlainLeaf(p, w) && IsRun(Plain(p), s) && WellFormed(p) && Equivalences(p)
    requires |p.partitionOf| == p.N() && i < j < p.N() && i !in Ends(s) && p.partitionOf[j] < |p.partitions|
    requires (p.full ==> p.N() > 0) && (s != [] ==> Last(s).0 < i) && Budget(p, w, s, i)
    ensures |FromPair(p, w, s, (i, j))| * Symmetry(p, w, s, i)
            == if j in Ends(s) then 0 else Share(Rest(p, w, s), FreeVec(p, s, i + 1), p.partitionOf[i])[p.partitionOf[j]]
    decreases p.N() - i, p.N() - j, 0
  {
    hide WellFormed, PlainLeaf, Equivalences, IsRun, From, FromPair, Symmetry, Within, Settled, Fits, Rest, FreeCount;
    var e, key := (i, j), Key(p.partitionOf, (i, j));
    if j in Ends(s) {
      NoPairTaken(p, w, s, e);
    } else if Rest(p, w, s)[key] == 0 {
      NoPairOfKey(p, w, s, e);
    } else {
      var t, m := s + [e], Rest(p, w, s)[key];
      PartsInRange(p);
      ClassExtends(p, w, s, i, j);
      PlainWellFormed(p);
      PlainSnoc(p, s, e);
      BudgetPair(p, w, s, i, j);
      BudgetParts(p, w, s, i);
      BudgetParts(p, w, t, i + 1);
      SymmetryPair(p, w, s, i, j);
      CountFrom(p, w, t, i + 1);
      PairThenFrom(p, w, s, e);
      DifferentPartitions(p, e);
      FreeVecPair(p, s, i, j);
      Mul3(|From(p, w, t, i + 1)|, m, Symmetry(p, w, t, i + 1));
    }
  }

  lemma PlainSnoc(p: Problem, s: seq<Pair>, e: Pair)
    requires WellFormed(p) && WellFormed(Plain(p)) && IsRun(Plain(p), s) && CanExtend(Plain(p), s, e)
    ensures IsRun(Plain(p), s + [e])
  {
    hide WellFormed, CanExtend;
    RunSnoc(Plain(p), s, e);
  }

  lemma DifferentPartitions(p: Problem, e: Pair)
    requires WellFormed(p) && PairOk(p, e)
    ensures p.partitionOf[e.0] != p.partitionOf[e.1]
  {
    NopOfMember(p, e.0);
    NopOfMember(p, e.1);
  }

  /** Passing over i and contracting it add up to all ways. */
  lemma CountFree(p: Problem, w: seq<Pair>, s: seq<Pair>, i: nat)
    requires |p.partitionOf| == p.N() && i < p.N() && i !in Ends(s)
    requires WellFormed(p) && PlainLeaf(p, w) && Equivalences(p) && (p.full ==> p.N() > 0) && Budget(p, w, s, i)
    requires var a := p.partitionOf[i];
             |From(p, w, s, i + 1)| * Symmetry(p, w, s, i)
             == (FreeCount(p, s, a, i) - RestDegree(p, w, s, a)) * FactVec(FreeVec(p, s, i + 1))
    requires |FromPairs(p, w, s, i, i + 1)| * Symmetry(p, w, s, i)
             == SumShares(p, s, Share(Rest(p, w, s), FreeVec(p, s, i + 1), p.partitionOf[i]), i + 1)
    ensures |From(p, w, s, i)| * Symmetry(p, w, s, i) == FactVec(FreeVec(p, s, i))
  {
    hide WellFormed, PlainLeaf, Equivalences, From, FromPairs, Symmetry, Fits, Within, Share, FreeCount, RestDegree,
         FreeVec, FactVec, Rest, RowSum;
    SplitFrom(p, w, s, i);
    RowOfFree(p, w, s, i);
    RowShares(p, w, s, i);
    var a, u := p.partitionOf[i], FreeVec(p, s, i + 1);
    AddWays(|From(p, w, s, i + 1)|, |FromPairs(p, w, s, i, i + 1)|, Symmetry(p, w, s, i),
            FreeCount(p, s, a, i) - RestDegree(p, w, s, a), RestDegree(p, w, s, a), FactVec(u));
  }

  /** The leftmost free operator: its row is all that is left for its partition. */
  lemma RowOfFree(p: Problem, w: seq<Pair>, s: seq<Pair>, i: nat)
    requires |p.partitionOf| == p.N() && i < p.N() && i !in Ends(s)
    requires WellFormed(p) && PlainLeaf(p, w) && Equivalences(p) && Budget(p, w, s, i)
    ensures var a := p.partitionOf[i];
            && RestDegree(p, w, s, a) == RowSum(Rest(p, w, s), a, |p.partitions|)
            && FactVec(FreeVec(p, s, i)) == FreeCount(p, s, a, i) * FactVec(FreeVec(p, s, i + 1))
  {
    hide WellFormed, PlainLeaf, Equivalences, Budget;
    PartsInRange(p);
    NoColumnLeft(p, w, s, i);
    FreeVecSkip(p, s, i);
    FactVecDrop(FreeVec(p, s, i), p.partitionOf[i]);
  }

  lemma AddWays(m: int, n: int, sym: int, spare: int, row: int, x: int)
    requires m * sym == spare * x && n * sym == row * x
    ensures (m + n) * sym == (spare + row) * x
  {
    Distribute(m, n, sym);
    Distribute(spare, row, x);
  }

  lemma RowShares(p: Problem, w: seq<Pair>, s: seq<Pair>, i: nat)
    requires |p.partitionOf| == p.N() && i < p.N() && i !in Ends(s)
    requires WellFormed(p) && PlainLeaf(p, w) && Equivalences(p) && Budget(p, w, s, i)
    ensures var a, v := p.partitionOf[i], FreeVec(p, s, i + 1);
            SumShares(p, s, Share(Rest(p, w, s), v, a), i + 1) == RowSum(Rest(p, w, s), a, |p.partitions|) * FactVec(v)
  {
    hide WellFormed, PlainLeaf, Equivalences, Budget, Share, Rest;
    PartsInRange(p);
    var a, v, m := p.partitionOf[i], FreeVec(p, s, i + 1), Rest(p, w, s);
    SumSharesIsDot(p, s, Share(m, v, a), i + 1);
    forall b | 0 <= b < |v| && m[(a, b)] > 0 ensures v[b] > 0 {
      RightPartitionFree(p, w, s, i, b);
      FreeSkip(p, s, b, i);
    }
    SharesAddUp(m, v, a);
  }

  // ---- The weight ----

  ghost function PartitionSizes(p: Problem): seq<nat> {
    seq(|p.partitions|, a requires 0 <= a < |p.partitions| => |p.partitions[a]|)
  }

  /** Operators of each partition that t leaves uncontracted. */
  ghost function Uncontracted(p: Problem, t: seq<Pair>): seq<nat> {
    seq(|p.partitions|, a requires 0 <= a < |p.partitions| =>
      if Contracted(p.partitionOf, t, a) <= |p.partitions[a]|
      then |p.partitions[a]| - Contracted(p.partitionOf, t, a) else 0)
  }

  /** The denominator of the permutational degeneracy of t. */
  ghost function Denominator(p: Problem, t: seq<Pair>): (r: nat)
    ensures r > 0
  {
    FactMatrix(Degrees(p.partitionOf, t), |p.partitions|, |p.partitions|) * FactVec(Uncontracted(p, t))
  }

  /**
   The number of leaves with the degrees of t is the product of the factorials
   of the partition sizes over those of the matrix entries and of the
   uncontracted operators.
   */
  lemma ClassSize(p: Problem, t: seq<Pair>)
    requires WellFormed(p) && PlainLeaf(p, t) && Equivalences(p) && (p.full ==> p.N() > 0)
    ensures |Class(p, t)| * Denominator(p, t) == FactVec(PartitionSizes(p))
  {
    hide WellFormed, PlainLeaf, Equivalences, Fits, Within, Settled, Class, Symmetry, Denominator;
    BudgetStart(p, t);
    StartVectors(p, t);
    assert From(p, t, [], 0) == Class(p, t);
    CountFrom(p, t, [], 0);
  }

  lemma StartVectors(p: Problem, t: seq<Pair>)
    requires WellFormed(p) && PlainLeaf(p, t) && Fits(p, t, [], 0)
    ensures FreeVec(p, [], 0) == PartitionSizes(p)
    ensures Symmetry(p, t, [], 0) == Denominator(p, t)
  {
    hide WellFormed, PlainLeaf, Fits;
    assert Rest(p, t, []) == Degrees(p.partitionOf, t);
    forall a | 0 <= a < |p.partitions|
      ensures FreeCount(p, [], a, 0) == |p.partitions[a]|
      ensures RestDegree(p, t, [], a) == Contracted(p.partitionOf, t, a)
    {
      PartitionElements(p, a);
      LeafDegree(p, t, a);
    }
    hide FreeCount, RestDegree, Rest;
    assert FreeVec(p, [], 0) == PartitionSizes(p);
    assert SpareVec(p, t, [], 0) == Uncontracted(p, t);
  }

  lemma PartitionElements(p: Problem, a: nat)
    requires WellFormed(p) && a < |p.partitions|
    ensures FreeCount(p, [], a, 0) == |p.partitions[a]|
  {
    assert FreeIn(p.partitionOf, [], a, 0) == Elems(p.partitions[a]);
    NoDupSize(p.partitions[a]);
  }

  lemma LeafDegree(p: Problem, t: seq<Pair>, a: nat)
    requires WellFormed(p) && PlainLeaf(p, t)
    ensures Contracted(p.partitionOf, t, a) == Degree(Degrees(p.partitionOf, t), a, |p.partitions|)
  {
    PartsInRange(p);
    hide WellFormed, IsRun;
    RunIsSeparate(Plain(p), t);
    ContractedIsDegree(p.partitionOf, t, a, |p.partitions|);
  }
}
