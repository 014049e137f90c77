/**
 Contraction sets with the same degree matrix, and the bookkeeping shared by
 the two results about them: scanning the operators from left to right, what is
 left of a matrix can be placed on what is left of the operators.
 */
module WickClasses {
  import opened Sequences
  import opened WickProblem
  import opened WickMatchings
  import opened WickDegrees

  /** The same problem searched without topological pruning. */
  function Plain(p: Problem): Problem {
    p.(topology := false)
  }

  lemma PlainWellFormed(p: Problem)
    requires WellFormed(p)
    ensures WellFormed(Plain(p))
  {
  }

  lemma PlainFeasible(p: Problem, s: seq<Pair>, x: nat)
    ensures NopFeasible(Plain(p), s, x) <==> NopFeasible(p, s, x)
  {
    var q := Plain(p);
    forall y: nat ensures Connected(q, s, x, y) <==> Connected(p, s, x, y) {
      assert forall k :: 0 <= k < |s| ==> (Links(q, s[k], x, y) <==> Links(p, s[k], x, y));
    }
    assert Unmet(q, s, x) == Unmet(p, s, x);
    assert Free(q, s, x) == Free(p, s, x);
  }

  lemma PlainExtends(p: Problem, s: seq<Pair>, e: Pair)
    requires WellFormed(p)
    ensures WellFormed(Plain(p))
    ensures CanExtend(p, s, e) <==>
            CanExtend(Plain(p), s, e) && e.0 < p.N() && e.1 < p.N() && TopologicallyUnique(p, s, e)
  {
    hide WellFormed, NopFeasible;
    PlainWellFormed(p);
    if PairOk(p, e) {
      PlainFeasible(p, s + [e], p.Nop(e.0));
      PlainFeasible(p, s + [e], p.Nop(e.1));
    }
  }

  lemma {:induction false} PlainRun(p: Problem, s: seq<Pair>)
    requires WellFormed(p) && IsRun(p, s)
    ensures WellFormed(Plain(p)) && IsRun(Plain(p), s)
  {
    PlainWellFormed(p);
    if s != [] {
      PlainRun(p, Init(s));
      PlainExtends(p, Init(s), Last(s));
    }
  }

  /** A complete run of the search without pruning. */
  ghost predicate PlainLeaf(p: Problem, w: seq<Pair>) {
    WellFormed(p) && WellFormed(Plain(p)) && IsRun(Plain(p), w) && Complete(p, w)
  }

  lemma SamePartition(p: Problem, o: nat, o': nat)
    requires WellFormed(p) && o < p.N() && o' < p.N() && p.partitionOf[o] == p.partitionOf[o']
    ensures p.Nop(o) == p.Nop(o')
  {
    NopOfMember(p, o);
    NopOfMember(p, o');
  }

  lemma NopOrder(p: Problem, o: nat, o': nat)
    requires WellFormed(p) && o < p.N() && o' < p.N() && p.Nop(o) != p.Nop(o')
    ensures o < o' <==> p.Nop(o) < p.Nop(o')
  {
  }

  lemma ContractAlike(p: Problem, e: Pair, f: Pair)
    requires WellFormed(p) && Equivalences(p) && PairOk(p, e) && f.0 < p.N() && f.1 < p.N()
    requires Key(p.partitionOf, e) == Key(p.partitionOf, f)
    ensures PairOk(p, f)
  {
    SamePartition(p, e.0, f.0);
    SamePartition(p, e.1, f.1);
    NopOrder(p, e.0, e.1);
    NopOrder(p, f.0, f.1);
  }

  lemma RunPairOk(p: Problem, w: seq<Pair>, k: nat)
    requires PlainLeaf(p, w) && k < |w|
    ensures PairOk(p, w[k])
  {
    hide WellFormed, IsRun;
    RunStep(Plain(p), w, k);
    assert PairOk(Plain(p), w[k]);
  }

  /** Whatever joins two partitions in a leaf may join any two of their operators. */
  lemma ClassPair(p: Problem, w: seq<Pair>, f: Pair)
    requires PlainLeaf(p, w) && Equivalences(p) && f.0 < p.N() && f.1 < p.N()
    requires Degrees(p.partitionOf, w)[Key(p.partitionOf, f)] > 0
    ensures PairOk(p, f)
  {
    hide WellFormed, IsRun, Equivalences;
    assert w[..0] == [];
    var k := LaterKey(p.partitionOf, w, 0, Key(p.partitionOf, f));
    RunPairOk(p, w, k);
    ContractAlike(p, w[k], f);
  }

  lemma OrderedPlain(p: Problem, s: seq<Pair>)
    requires WellFormed(p) && Ordered(Plain(p), s)
    ensures Ordered(p, s)
  {
    hide WellFormed;
  }

  lemma LeafKeys(p: Problem, w: seq<Pair>)
    requires PlainLeaf(p, w)
    ensures Ordered(p, w)
    ensures forall key :: key in Degrees(p.partitionOf, w) ==> ProperKey(p, key)
  {
    hide WellFormed, IsRun;
    RunIsOrdered(Plain(p), w);
    OrderedPlain(p, w);
    KeysProper(p, w);
  }

  /** Every operator is in one of the partitions. */
  ghost predicate Parted(p: Problem) {
    |p.partitionOf| == p.N() && PartsBelow(p.partitionOf, |p.partitions|)
  }

  lemma PartsInRange(p: Problem)
    requires WellFormed(p)
    ensures Parted(p)
  {
  }

  // ---- What is left of a matrix, and of the operators, at operator i ----

  /** The contractions of w's matrix that s has not made. */
  ghost function Rest(p: Problem, w: seq<Pair>, s: seq<Pair>): multiset<Pair> {
    Degrees(p.partitionOf, w) - Degrees(p.partitionOf, s)
  }

  ghost function FreeCount(p: Problem, s: seq<Pair>, a: nat, i: nat): nat {
    |FreeIn(p.partitionOf, s, a, i)|
  }

  ghost function RestDegree(p: Problem, w: seq<Pair>, s: seq<Pair>, a: nat): nat {
    Degree(Rest(p, w, s), a, |p.partitions|)
  }

  /** s has made no contraction that the matrix of w does not have. */
  ghost predicate Within(p: Problem, w: seq<Pair>, s: seq<Pair>) {
    Degrees(p.partitionOf, s) <= Degrees(p.partitionOf, w)
  }

  /** What is left of the matrix of w fits partition by partition on the operators from i on. */
  ghost predicate Fits(p: Problem, w: seq<Pair>, s: seq<Pair>, i: nat) {
    forall a :: 0 <= a < |p.partitions| ==>
      && RestDegree(p, w, s, a) <= FreeCount(p, s, a, i)
      && (p.full ==> RestDegree(p, w, s, a) == FreeCount(p, s, a, i))
  }

  /** For full contractions no operator before i is left. */
  ghost predicate Settled(p: Problem, s: seq<Pair>, i: nat) {
    p.full ==> AllTaken(s, i)
  }

  /** The operators from i on can still take what is left of the matrix of w. */
  ghost predicate Budget(p: Problem, w: seq<Pair>, s: seq<Pair>, i: nat) {
    i <= p.N() && Within(p, w, s) && Fits(p, w, s, i) && Settled(p, s, i)
  }

  lemma BudgetStart(p: Problem, w: seq<Pair>)
    requires PlainLeaf(p, w)
    ensures Budget(p, w, [], 0)
  {
    LeafKeys(p, w);
    PartsInRange(p);
    LeafSizes(p, w);
  }

  lemma LeafSizes(p: Problem, w: seq<Pair>)
    requires PlainLeaf(p, w) && Ordered(p, w) && PartsBelow(p.partitionOf, |p.partitions|) && |p.partitionOf| == p.N()
    ensures forall a :: 0 <= a < |p.partitions| ==>
              && RestDegree(p, w, [], a) <= FreeCount(p, [], a, 0)
              && (p.full ==> RestDegree(p, w, [], a) == FreeCount(p, [], a, 0))
  {
    hide WellFormed, IsRun;
    forall a | 0 <= a < |p.partitions|
      ensures RestDegree(p, w, [], a) <= FreeCount(p, [], a, 0)
      ensures p.full ==> RestDegree(p, w, [], a) == FreeCount(p, [], a, 0)
    {
      ContractedIsDegree(p.partitionOf, w, a, |p.partitions|);
      ContractedSize(p.partitionOf, w, a);
      var c, f := ContractedSet(p.partitionOf, w, a), FreeIn(p.partitionOf, [], a, 0);
      assert c <= f;
      SubsetSize(c, f);
      if p.full { assert c == f; }
      assert Degrees(p.partitionOf, w) - multiset{} == Degrees(p.partitionOf, w);
    }
  }

  /** A contracted operator is free for no one. */
  lemma FreeTaken(p: Problem, s: seq<Pair>, a: nat, i: nat)
    requires i in Ends(s)
    ensures FreeCount(p, s, a, i + 1) == FreeCount(p, s, a, i)
  {
    assert FreeIn(p.partitionOf, s, a, i + 1) == FreeIn(p.partitionOf, s, a, i);
  }

  lemma BudgetTaken(p: Problem, w: seq<Pair>, s: seq<Pair>, i: nat)
    requires Budget(p, w, s, i) && i < p.N() && i in Ends(s)
    ensures Budget(p, w, s, i + 1)
  {
    hide FreeCount, RestDegree, Within, Ends;
    forall a | 0 <= a < |p.partitions| ensures FreeCount(p, s, a, i + 1) == FreeCount(p, s, a, i) { FreeTaken(p, s, a, i); }
  }

  /** Passing over a free operator costs its partition one. */
  lemma FreeSkip(p: Problem, s: seq<Pair>, a: nat, i: nat)
    requires |p.partitionOf| == p.N() && i < p.N() && i !in Ends(s)
    ensures FreeCount(p, s, a, i) == FreeCount(p, s, a, i + 1) + (if p.partitionOf[i] == a then 1 else 0)
  {
    var f, g := FreeIn(p.partitionOf, s, a, i), FreeIn(p.partitionOf, s, a, i + 1);
    if p.partitionOf[i] == a {
      assert f == g + {i};
    } else {
      assert f == g;
    }
  }

  lemma FreePair(p: Problem, s: seq<Pair>, a: nat, i: nat, j: nat)
    requires |p.partitionOf| == p.N() && i < j < p.N() && i !in Ends(s) && j !in Ends(s)
    ensures FreeCount(p, s, a, i) == FreeCount(p, s + [(i, j)], a, i + 1)
              + (if p.partitionOf[i] == a then 1 else 0) + (if p.partitionOf[j] == a then 1 else 0)
  {
    FreeSkip(p, s, a, i);
    EndsSnoc(s, (i, j));
    hide Ends;
    var f, g := FreeIn(p.partitionOf, s, a, i + 1), FreeIn(p.partitionOf, s + [(i, j)], a, i + 1);
    if p.partitionOf[j] == a {
      assert f == g + {j};
    } else {
      assert f == g;
    }
  }

  lemma RestSnoc(p: Problem, w: seq<Pair>, s: seq<Pair>, e: Pair)
    requires Rest(p, w, s)[Key(p.partitionOf, e)] > 0
    requires Within(p, w, s)
    ensures Rest(p, w, s) == Rest(p, w, s + [e]) + multiset{Key(p.partitionOf, e)}
    ensures Within(p, w, s + [e])
  {
    DegreesSnoc(p.partitionOf, s, e);
  }

  lemma RestWithin(p: Problem, w: seq<Pair>, s: seq<Pair>, key: Pair)
    requires Rest(p, w, s)[key] > 0
    ensures Degrees(p.partitionOf, w)[key] > 0
  {
  }

  /** Contracting i with j uses one of each partition and one entry of the matrix. */
  lemma SpareKept(p: Problem, w: seq<Pair>, s: seq<Pair>, i: nat, j: nat, a: nat)
    requires Parted(p) && Within(p, w, s)
    requires i < j < p.N() && i !in Ends(s) && j !in Ends(s) && a < |p.partitions|
    requires Rest(p, w, s)[Key(p.partitionOf, (i, j))] > 0
    ensures FreeCount(p, s, a, i) - RestDegree(p, w, s, a)
            == FreeCount(p, s + [(i, j)], a, i + 1) - RestDegree(p, w, s + [(i, j)], a)
  {
    var e, t := (i, j), s + [(i, j)];
    RestSnoc(p, w, s, e);
    hide Degrees, Ends, Rest, FreeCount;
    FreePair(p, s, a, i, j);
    DegreeAdd(Rest(p, w, t), Key(p.partitionOf, e), a, |p.partitions|);
  }

  lemma BudgetPair(p: Problem, w: seq<Pair>, s: seq<Pair>, i: nat, j: nat)
    requires Parted(p) && Budget(p, w, s, i) && i < j < p.N() && i !in Ends(s) && j !in Ends(s)
    requires Rest(p, w, s)[Key(p.partitionOf, (i, j))] > 0
    ensures Budget(p, w, s + [(i, j)], i + 1)
  {
    hide Settled, Fits;
    var e, t := (i, j), s + [(i, j)];
    RestSnoc(p, w, s, e);
    FitsPair(p, w, s, i, j);
    SettledPair(p, s, i, j);
  }

  lemma SettledPair(p: Problem, s: seq<Pair>, i: nat, j: nat)
    requires Settled(p, s, i)
    ensures Settled(p, s + [(i, j)], i + 1)
  {
    EndsSnoc(s, (i, j));
  }

  lemma FitsPair(p: Problem, w: seq<Pair>, s: seq<Pair>, i: nat, j: nat)
    requires Parted(p) && Within(p, w, s) && Fits(p, w, s, i) && i < j < p.N() && i !in Ends(s) && j !in Ends(s)
    requires Rest(p, w, s)[Key(p.partitionOf, (i, j))] > 0
    ensures Fits(p, w, s + [(i, j)], i + 1)
  {
    hide Ends, Rest, FreeCount, RestDegree;
    var t := s + [(i, j)];
    forall a | 0 <= a < |p.partitions|
      ensures FreeCount(p, s, a, i) - RestDegree(p, w, s, a) == FreeCount(p, t, a, i + 1) - RestDegree(p, w, t, a)
    {
      SpareKept(p, w, s, i, j, a);
    }
  }

  lemma BudgetSkip(p: Problem, w: seq<Pair>, s: seq<Pair>, i: nat)
    requires Parted(p) && Budget(p, w, s, i) && i < p.N() && i !in Ends(s) && !p.full
    requires RestDegree(p, w, s, p.partitionOf[i]) < FreeCount(p, s, p.partitionOf[i], i)
    ensures Budget(p, w, s, i + 1)
  {
    hide Degrees, FreeCount;
    forall a | 0 <= a < |p.partitions| ensures RestDegree(p, w, s, a) <= FreeCount(p, s, a, i + 1) {
      FreeSkip(p, s, a, i);
    }
  }

  /** Nothing left of the matrix pairs the leftmost free operator with one to its left. */
  lemma NoColumnLeft(p: Problem, w: seq<Pair>, s: seq<Pair>, i: nat)
    requires PlainLeaf(p, w) && Equivalences(p) && Budget(p, w, s, i) && i < p.N() && i !in Ends(s)
    ensures |p.partitionOf| == p.N() && ColSum(Rest(p, w, s), p.partitionOf[i], |p.partitions|) == 0
  {
    hide Equivalences, Budget, WellFormed, IsRun, Complete;
    PartsInRange(p);
    var a, m := p.partitionOf[i], Rest(p, w, s);
    forall b | 0 <= b < |p.partitions| ensures m[(b, a)] == 0 {
      NoColumnEntry(p, w, s, i, b);
    }
    ColSumZero(m, a, |p.partitions|);
  }

  lemma NoColumnEntry(p: Problem, w: seq<Pair>, s: seq<Pair>, i: nat, b: nat)
    requires PlainLeaf(p, w) && Equivalences(p) && Budget(p, w, s, i) && i < p.N() && i !in Ends(s)
    requires |p.partitionOf| == p.N() && b < |p.partitions|
    ensures Rest(p, w, s)[(b, p.partitionOf[i])] == 0
  {
    PartsInRange(p);
    hide PlainLeaf, Equivalences, Within, Settled;
    var a, m := p.partitionOf[i], Rest(p, w, s);
    if m[(b, a)] > 0 {
      RestWithin(p, w, s, (b, a));
      LeftPartitionDone(p, w, i, b);
      NoneFree(p, s, i, b);
      hide Rest, FreeCount, RowSum, ColSum;
      SumsBound(m, b, a, |p.partitions|);
    }
  }

  lemma NoneFree(p: Problem, s: seq<Pair>, i: nat, b: nat)
    requires |p.partitionOf| == p.N() && forall o :: i <= o < p.N() ==> p.partitionOf[o] != b
    ensures FreeCount(p, s, b, i) == 0
  {
    assert FreeIn(p.partitionOf, s, b, i) == {};
  }

  lemma LeftPartitionDone(p: Problem, w: seq<Pair>, i: nat, b: nat)
    requires PlainLeaf(p, w) && Equivalences(p) && i < p.N() && |p.partitionOf| == p.N()
    requires Degrees(p.partitionOf, w)[(b, p.partitionOf[i])] > 0
    ensures forall o :: i <= o < p.N() ==> p.partitionOf[o] != b
  {
    hide PlainLeaf, Equivalences;
    forall o | 0 <= o < p.N() && p.partitionOf[o] == b ensures o < i {
      ClassPair(p, w, (o, i));
    }
  }

  /** An entry left of the matrix in the row of i names a partition with free operators, all right of i. */
  lemma RightPartitionFree(p: Problem, w: seq<Pair>, s: seq<Pair>, i: nat, b: nat)
    requires PlainLeaf(p, w) && Equivalences(p) && Budget(p, w, s, i) && i < p.N() && |p.partitionOf| == p.N()
    requires b < |p.partitions| && Rest(p, w, s)[(p.partitionOf[i], b)] > 0
    ensures FreeCount(p, s, b, i) > 0 && RestDegree(p, w, s, b) > 0
    ensures forall o :: 0 <= o < p.N() && p.partitionOf[o] == b ==> o > i
  {
    hide PlainLeaf, Equivalences, Budget, RestDegree, FreeCount, Rest, Degrees;
    PartitionBelow(p, w, i);
    FitsAt(p, w, s, i, b);
    RestWithin(p, w, s, (p.partitionOf[i], b));
    LaterPartition(p, w, i, b);
    EntryInDegree(p, w, s, p.partitionOf[i], b);
  }

  lemma PartitionBelow(p: Problem, w: seq<Pair>, i: nat)
    requires PlainLeaf(p, w) && i < p.N()
    ensures |p.partitionOf| == p.N() && p.partitionOf[i] < |p.partitions|
  {
  }

  /** Operators that contract with i, or are equivalent to one that does, come later. */
  lemma LaterPartition(p: Problem, w: seq<Pair>, i: nat, b: nat)
    requires PlainLeaf(p, w) && Equivalences(p) && i < p.N() && |p.partitionOf| == p.N()
    requires Degrees(p.partitionOf, w)[(p.partitionOf[i], b)] > 0
    ensures forall o :: 0 <= o < p.N() && p.partitionOf[o] == b ==> o > i
  {
    hide PlainLeaf, Equivalences, Degrees;
    forall o | 0 <= o < p.N() && p.partitionOf[o] == b ensures o > i {
      ClassPair(p, w, (i, o));
    }
  }

  lemma FitsAt(p: Problem, w: seq<Pair>, s: seq<Pair>, i: nat, a: nat)
    requires Budget(p, w, s, i) && a < |p.partitions|
    ensures RestDegree(p, w, s, a) <= FreeCount(p, s, a, i)
  {
  }

  lemma EntryInDegree(p: Problem, w: seq<Pair>, s: seq<Pair>, a: nat, b: nat)
    requires a < |p.partitions| && b < |p.partitions| && Rest(p, w, s)[(a, b)] > 0
    ensures RestDegree(p, w, s, b) > 0
  {
    hide Rest, RowSum, ColSum;
    SumsBound(Rest(p, w, s), b, a, |p.partitions|);
  }

  /** The next contraction of a class extends a run of the search without pruning. */
  lemma ClassExtends(p: Problem, w: seq<Pair>, s: seq<Pair>, i: nat, j: nat)
    requires PlainLeaf(p, w) && Equivalences(p) && Budget(p, w, s, i) && i < p.N() && j < p.N()
    requires IsRun(Plain(p), s) && (s != [] ==> Last(s).0 < i) && i !in Ends(s) && j !in Ends(s)
    requires Rest(p, w, s)[Key(p.partitionOf, (i, j))] > 0
    ensures i < j && PairOk(p, (i, j)) && CanExtend(Plain(p), s, (i, j))
  {
    hide WellFormed, IsRun, CanExtend, NopFeasible, PairOk, Equivalences;
    var e := (i, j);
    RestSnoc(p, w, s, e);
    RestWithin(p, w, s, Key(p.partitionOf, e));
    hide Degrees, Rest, Complete, Fits;
    ClassPair(p, w, e);
    ClassOrder(p, e);
    if p.Targets() != [] {
      ClassFeasible(p, w, s, e, p.Nop(i));
      ClassFeasible(p, w, s, e, p.Nop(j));
    }
    ClassExtension(p, s, e);
  }

  lemma ClassOrder(p: Problem, e: Pair)
    requires PairOk(p, e)
    ensures e.0 < e.1
  {
  }

  lemma ClassExtension(p: Problem, s: seq<Pair>, e: Pair)
    requires WellFormed(Plain(p)) && PairOk(p, e) && e.0 !in Ends(s) && e.1 !in Ends(s)
    requires s != [] ==> Last(s).0 < e.0
    requires p.full ==> forall x: nat :: x < e.0 ==> x in Ends(s)
    requires p.Targets() != [] ==>
               NopFeasible(Plain(p), s + [e], p.Nop(e.0)) && NopFeasible(Plain(p), s + [e], p.Nop(e.1))
    ensures CanExtend(Plain(p), s, e)
  {
    hide WellFormed, NopFeasible;
  }

  lemma ClassFeasible(p: Problem, w: seq<Pair>, s: seq<Pair>, e: Pair, x: nat)
    requires PlainLeaf(p, w) && IsRun(Plain(p), s) && PairOk(p, e) && (s != [] ==> Last(s).0 < e.0)
    requires e.0 !in Ends(s) && e.1 !in Ends(s) && p.Targets() != []
    requires Within(p, w, s + [e])
    requires x == p.Nop(e.0) || x == p.Nop(e.1)
    ensures NopFeasible(Plain(p), s + [e], x)
  {
    hide WellFormed, IsRun;
    LeafKeys(p, w);
    RunIsOrdered(Plain(p), s);
    OrderedPlain(p, s);
    OrderedExtend(p, s, e);
    assert x == p.Nop(e.0) || x == p.Nop(e.1);
    ClassActive(p, w, s, e, x);
    RunConnectable(Plain(p), w, x);
    PlainFeasible(p, w, x);
    FeasibleBelow(p, s + [e], w, x);
    PlainFeasible(p, s + [e], x);
  }

  lemma OrderedExtend(p: Problem, s: seq<Pair>, e: Pair)
    requires Ordered(p, s) && PairOk(p, e) && (s != [] ==> Last(s).0 < e.0)
    requires e.0 !in Ends(s) && e.1 !in Ends(s)
    ensures Ordered(p, s + [e])
  {
    hide PairOk;
    EndsMono(s, 0);
    assert s[..0] == [];
    forall k | 0 <= k < |s| ensures s[k].0 < e.0 && Apart(s[k], e) {
      assert k < |s| - 1 ==> s[k].0 < Last(s).0;
    }
  }

  /** A normal operator that an entry of the matrix touches takes part in every leaf of the class. */
  lemma ClassActive(p: Problem, w: seq<Pair>, s: seq<Pair>, e: Pair, x: nat)
    requires PlainLeaf(p, w) && PairOk(p, e) && (x == p.Nop(e.0) || x == p.Nop(e.1))
    requires Within(p, w, s + [e])
    ensures Active(Plain(p), Pairs(w), x)
  {
    hide WellFormed, IsRun, Complete;
    DegreesSnoc(p.partitionOf, s, e);
    assert w[..0] == [];
    var k := LaterKey(p.partitionOf, w, 0, Key(p.partitionOf, e));
    RunPairOk(p, w, k);
    hide Degrees;
    assert w[k] in Pairs(w);
    PartsInRange(p);
    SamePartition(p, e.0, w[k].0);
    SamePartition(p, e.1, w[k].1);
    assert Plain(p).Nop(w[k].0) == p.Nop(e.0) && Plain(p).Nop(w[k].1) == p.Nop(e.1);
  }

  /** When every operator is scanned nothing of the matrix is left. */
  lemma ScanDone(p: Problem, w: seq<Pair>, s: seq<Pair>)
    requires PlainLeaf(p, w) && Budget(p, w, s, p.N())
    ensures Complete(p, s) && Degrees(p.partitionOf, s) == Degrees(p.partitionOf, w)
  {
    hide WellFormed, IsRun, Ends, AllTaken, Fits;
    LeafKeys(p, w);
    PartsInRange(p);
    forall key: Pair ensures Rest(p, w, s)[key] == 0 {
      if Rest(p, w, s)[key] > 0 {
        RestWithin(p, w, s, key);
        assert key in Degrees(p.partitionOf, w);
        NothingLeft(p, w, s, key);
      }
    }
    NoRest(p, w, s);
  }

  lemma NoRest(p: Problem, w: seq<Pair>, s: seq<Pair>)
    requires Within(p, w, s) && forall key: Pair :: Rest(p, w, s)[key] == 0
    ensures Degrees(p.partitionOf, s) == Degrees(p.partitionOf, w)
  {
    hide Degrees;
    forall key: Pair ensures Degrees(p.partitionOf, s)[key] == Degrees(p.partitionOf, w)[key] {
      assert Rest(p, w, s)[key] == 0;
    }
  }

  lemma NothingLeft(p: Problem, w: seq<Pair>, s: seq<Pair>, key: Pair)
    requires Fits(p, w, s, p.N()) && |p.partitionOf| == p.N() && key.0 < |p.partitions| && key.1 < |p.partitions|
    ensures Rest(p, w, s)[key] == 0
  {
    hide Ends, Rest, RowSum, ColSum;
    assert FreeIn(p.partitionOf, s, key.0, p.N()) == {};
    SumsBound(Rest(p, w, s), key.0, key.1, |p.partitions|);
    assert RestDegree(p, w, s, key.0) == 0;
  }
}
