/**
 What the weights add up to. With topology they count the plain terms; without it every term is one plain
 term, and a weight above 1 counts too much.
 */
module WickTotals {
  import opened Sequences
  import opened WickProblem
  import opened WickSearch
  import opened WickMatchings
  import opened WickClasses
  import opened WickRepresentatives
  import opened WickWeights
  import opened WickExchanges
  import opened WickTerms
  import opened WickTheorem

  lemma EmittedLeaf(p: Problem, t: seq<Pair>)
    requires WellFormed(p) && (p.full ==> p.N() > 0) && t in Emitted(p)
    ensures PlainLeaf(p, t)
  {
    hide WellFormed, IsRun, Emitted;
    EmittedAreRuns(p);
    PlainRun(p, t);
  }

  /** A term has weight 1 exactly if each operator it contracts is alone in its partition, with or without topology. */
  lemma UnitWeight(p: Problem, t: seq<Pair>)
    requires WellFormed(p) && Equivalences(p) && p.N() > 0 && t in Emitted(p)
    ensures Weight(p, t) >= 1.0
    ensures Weight(p, t) == 1.0 <==> forall o :: o in Ends(t) ==> Alone(p, o)
  {
    hide WellFormed, Equivalences, PlainLeaf, Emitted, Class, Alone, Weight, Ends;
    EmittedLeaf(p, t);
    ClassIsSingle(p, t);
    WeightIsClassSize(p, t);
    SizeOneOrMore(t, Class(p, t));
  }

  lemma SizeOneOrMore(t: seq<Pair>, c: set<seq<Pair>>)
    requires t in c
    ensures |c| as real >= 1.0 && (|c| as real == 1.0 <==> |c| == 1)
  {
    assert c == {t} + (c - {t});
  }

  // ---- What a caller can check ----

  /** If there is a full contraction, all weights are 1 exactly if all partitions are singletons. */
  lemma UnitWeightsFull(p: Problem)
    requires WellFormed(p) && Equivalences(p) && p.N() > 0 && p.full && Emitted(p) != []
    ensures (forall t :: t in Emitted(p) ==> Weight(p, t) == 1.0) <==> forall a :: 0 <= a < |p.partitions| ==> |p.partitions[a]| == 1
  {
    hide Equivalences, Emitted, Weight, Ends, Alone;
    AloneIfSingletons(p);
    hide WellFormed;
    EmittedAreRuns(p);
    if forall a :: 0 <= a < |p.partitions| ==> |p.partitions[a]| == 1 {
      forall t | t in Emitted(p) ensures Weight(p, t) == 1.0 {
        UnitWeight(p, t);
        EndsInRange(p, t);
      }
    }
    if forall t :: t in Emitted(p) ==> Weight(p, t) == 1.0 {
      var t := Emitted(p)[0];
      assert t in Emitted(p);
      UnitWeight(p, t);
    }
  }

  lemma AloneIfSingletons(p: Problem)
    requires WellFormed(p)
    ensures (forall o :: 0 <= o < p.N() ==> Alone(p, o)) <==> forall a :: 0 <= a < |p.partitions| ==> |p.partitions[a]| == 1
  {
    if forall o :: 0 <= o < p.N() ==> Alone(p, o) {
      forall a | 0 <= a < |p.partitions| ensures |p.partitions[a]| == 1 {
        assert Alone(p, p.partitions[a][0]);
      }
    }
  }

  lemma EndsInRange(p: Problem, t: seq<Pair>)
    requires WellFormed(p) && (p.full ==> p.N() > 0) && t in Emitted(p)
    ensures forall o :: o in Ends(t) ==> 0 <= o < p.N()
  {
    hide WellFormed, Emitted, PlainLeaf, Ends;
    EmittedLeaf(p, t);
    LeafKeys(p, t);
    forall o | o in Ends(t) ensures 0 <= o < p.N() { LeafEndsInRange(p, t, o); }
  }

  /** Without topology a contraction of a term may come first. */
  lemma MayComeFirst(p: Problem, t: seq<Pair>, k: nat)
    requires WellFormed(p) && !p.full && !p.topology && IsRun(p, t) && k < |t|
    ensures CanExtend(p, [], t[k])
  {
    var e := t[k];
    RunIsOrdered(p, t);
    assert PairOk(p, e);
    if p.Targets() != [] {
      FirstFeasible(p, t, k, p.Nop(e.0));
      FirstFeasible(p, t, k, p.Nop(e.1));
    }
    hide WellFormed, IsRun, Ordered, NopFeasible;
    assert Ends([]) == {};
  }

  lemma FirstFeasible(p: Problem, t: seq<Pair>, k: nat, x: nat)
    requires WellFormed(p) && Ordered(p, t) && IsRun(p, t) && k < |t| && p.Targets() != []
    requires t[k].0 < p.N() && t[k].1 < p.N() && (x == p.Nop(t[k].0) || x == p.Nop(t[k].1))
    ensures NopFeasible(p, [] + [t[k]], x)
  {
    hide WellFormed, IsRun, NopFeasible, PairOk;
    var e := t[k];
    assert e in Pairs(t);
    RunConnectable(p, t, x);
    assert [] + [e] == [e];
    assert PairOk(p, e);
    assert Ordered(p, [e]);
    WickDegrees.DegreesSnoc(p.partitionOf, [], e);
    WickDegrees.DegreesMember(p.partitionOf, t, k);
    assert Degrees(p.partitionOf, []) == multiset{};
    WickDegrees.FeasibleBelow(p, [e], t, x);
  }

  /**
   Without topology all weights of partial contractions are 1 exactly if no contraction that may come first
   touches a partition of two or more.
   */
  lemma UnitWeightsPartial(p: Problem)
    requires WellFormed(p) && Equivalences(p) && p.N() > 0 && !p.full && !p.topology
    ensures (forall t :: t in Emitted(p) ==> Weight(p, t) == 1.0) <==>
            forall e :: CanExtend(p, [], e) ==> Alone(p, e.0) && Alone(p, e.1)
  {
    hide WellFormed, Equivalences, Emitted, Weight, Alone, CanExtend, IsRun;
    if forall t :: t in Emitted(p) ==> Weight(p, t) == 1.0 {
      forall e | CanExtend(p, [], e) ensures Alone(p, e.0) && Alone(p, e.1) {
        LooseRun(p, [e]);
        UnitWeight(p, [e]);
        EndsSnoc([], e);
        assert [] + [e] == [e];
      }
    }
    if forall e :: CanExtend(p, [], e) ==> Alone(p, e.0) && Alone(p, e.1) {
      forall t | t in Emitted(p) ensures Weight(p, t) == 1.0 {
        UnitWeight(p, t);
        EmittedAreRuns(p);
        forall o | o in Ends(t) ensures Alone(p, o) { EndMayComeFirst(p, t, o); }
      }
    }
  }

  lemma EndMayComeFirst(p: Problem, t: seq<Pair>, o: nat)
    requires WellFormed(p) && !p.full && !p.topology && IsRun(p, t) && o in Ends(t)
    ensures exists e :: CanExtend(p, [], e) && Touches(e, o)
  {
    hide WellFormed, CanExtend, IsRun;
    EndsCovered(t);
    var e :| e in Pairs(t) && Touches(e, o);
    var k :| 0 <= k < |t| && t[k] == e;
    MayComeFirst(p, t, k);
  }

  // ---- Sums ----

  ghost function TotalWeight(p: Problem, ts: seq<seq<Pair>>): real {
    if ts == [] then 0.0 else TotalWeight(p, Init(ts)) + Weight(p, Last(ts))
  }

  /** The plain terms that the terms ts stand for. */
  ghost function Covered(p: Problem, ts: seq<seq<Pair>>): set<seq<Pair>>
    requires WellFormed(p) && (p.full ==> p.N() > 0)
  {
    if ts == [] then {} else Covered(p, Init(ts)) + Class(p, Last(ts))
  }

  lemma {:induction false} CoveredIs(p: Problem, ts: seq<seq<Pair>>, w: seq<Pair>)
    requires WellFormed(p) && (p.full ==> p.N() > 0)
    ensures w in Covered(p, ts) <==> exists k :: 0 <= k < |ts| && w in Class(p, ts[k])
  {
    hide WellFormed, Class;
    if ts != [] {
      var us, t := Init(ts), Last(ts);
      CoveredIs(p, us, w);
      assert ts == us + [t] && ts[|us|] == t;
      if k :| 0 <= k < |us| && w in Class(p, us[k]) { assert w in Class(p, ts[k]); }
      if k :| 0 <= k < |ts| && w in Class(p, ts[k]) { assert k == |us| || w in Class(p, us[k]); }
    }
  }

  /** Different terms stand for different plain terms. */
  lemma ClassesApart(p: Problem, j: nat, k: nat, w: seq<Pair>)
    requires WellFormed(p) && Equivalences(p) && p.topology && p.N() > 0 && j < |Emitted(p)| && k < |Emitted(p)|
    requires w in Class(p, Emitted(p)[j]) && w in Class(p, Emitted(p)[k])
    ensures j == k
  {
    hide WellFormed, Equivalences, PlainLeaf, Emitted, Class, Degrees;
    var s, t := Emitted(p)[j], Emitted(p)[k];
    OneRepresentativePerClass(p);
    EmittedAreRuns(p);
    ClassMember(p, s, w);
    ClassMember(p, t, w);
    assert s in Emitted(p) && t in Emitted(p);
  }

  lemma {:induction false} WeightsCount(p: Problem, n: nat)
    requires WellFormed(p) && Equivalences(p) && p.topology && p.N() > 0 && n <= |Emitted(p)|
    ensures TotalWeight(p, Emitted(p)[..n]) == |Covered(p, Emitted(p)[..n])| as real
  {
    hide WellFormed, Equivalences, Emitted, Class, Weight;
    if n > 0 {
      var ts, us, t := Emitted(p)[..n], Emitted(p)[..n - 1], Emitted(p)[n - 1];
      WeightsCount(p, n - 1);
      assert Init(ts) == us && Last(ts) == t;
      assert t in Emitted(p);
      WeightIsClassSize(p, t);
      forall w | w in Covered(p, us) && w in Class(p, t) ensures false {
        CoveredIs(p, us, w);
        var k :| 0 <= k < |us| && w in Class(p, us[k]);
        ClassesApart(p, k, n - 1, w);
      }
      WickPhase.DisjointSize(Covered(p, us), Class(p, t));
    }
  }

  lemma CoveredPlain(p: Problem, w: seq<Pair>)
    requires WellFormed(p) && Equivalences(p) && p.topology && p.N() > 0
    ensures WellFormed(Plain(p))
    ensures w in Covered(p, Emitted(p)) <==> w in Emitted(Plain(p))
  {
    PlainWellFormed(p);
    OneRepresentativePerClass(p);
    CoveredIs(p, Emitted(p), w);
    hide WellFormed, Equivalences, PlainLeaf, Emitted, Class, Degrees;
    if w in Emitted(Plain(p)) {
      var t :| t in Emitted(p) && Degrees(p.partitionOf, t) == Degrees(p.partitionOf, w);
      EmittedLeaf(Plain(p), w);
      PlainLeafTwice(p, w);
      ClassMember(p, t, w);
      var k :| 0 <= k < |Emitted(p)| && Emitted(p)[k] == t;
    }
    if w in Covered(p, Emitted(p)) {
      var k :| 0 <= k < |Emitted(p)| && w in Class(p, Emitted(p)[k]);
      CoveredIsPlain(p, Emitted(p)[k], w);
    }
  }

  lemma PlainLeafTwice(p: Problem, w: seq<Pair>)
    requires WellFormed(p) && PlainLeaf(Plain(p), w)
    ensures PlainLeaf(p, w)
  {
    PlainWellFormed(p);
    assert Plain(Plain(p)) == Plain(p);
    hide WellFormed, IsRun;
    assert Complete(p, w);
  }

  lemma CoveredIsPlain(p: Problem, t: seq<Pair>, w: seq<Pair>)
    requires WellFormed(p) && (p.full ==> p.N() > 0) && t in Emitted(p) && w in Class(p, t)
    ensures WellFormed(Plain(p)) && w in Emitted(Plain(p))
  {
    PlainWellFormed(p);
    hide WellFormed, IsRun, Emitted, Class, Degrees;
    ClassMember(p, t, w);
    EmittedAreRuns(p);
    EmittedAreRuns(Plain(p));
    WickDegrees.DegreesSize(p.partitionOf, t);
    WickDegrees.DegreesSize(p.partitionOf, w);
    assert Complete(Plain(p), w);
    assert Plain(p).Unconstrained() == p.Unconstrained();
  }

  /** With topology the weights of the terms add up to the number of plain terms. */
  lemma WeightsAddUp(p: Problem)
    requires WellFormed(p) && Equivalences(p) && p.topology && p.N() > 0
    ensures WellFormed(Plain(p)) && TotalWeight(p, Emitted(p)) == |Emitted(Plain(p))| as real
  {
    hide WellFormed, Equivalences, Emitted, Covered;
    PlainWellFormed(p);
    WeightsCount(p, |Emitted(p)|);
    assert Emitted(p)[..|Emitted(p)|] == Emitted(p);
    EmittedAreRuns(Plain(p));
    NoDupSize(Emitted(Plain(p)));
    forall w ensures w in Covered(p, Emitted(p)) <==> w in Elems(Emitted(Plain(p))) { CoveredPlain(p, w); }
    assert Covered(p, Emitted(p)) == Elems(Emitted(Plain(p)));
  }

  lemma {:induction false} TotalAtLeast(p: Problem, n: nat)
    requires WellFormed(p) && Equivalences(p) && p.N() > 0 && n <= |Emitted(p)|
    ensures TotalWeight(p, Emitted(p)[..n]) >= n as real
    ensures TotalWeight(p, Emitted(p)[..n]) == n as real <==> forall k :: 0 <= k < n ==> Weight(p, Emitted(p)[k]) == 1.0
  {
    hide WellFormed, Equivalences, Emitted, Weight;
    if n > 0 {
      var ts := Emitted(p)[..n];
      TotalAtLeast(p, n - 1);
      assert Init(ts) == Emitted(p)[..n - 1] && Last(ts) == Emitted(p)[n - 1];
      assert Last(ts) in Emitted(p);
      UnitWeight(p, Last(ts));
    }
  }

  /**
   Without topology the weights add up to at least the number of terms, and to it exactly if no term contracts
   an operator of a partition of two or more.
   */
  lemma WeightsOvercount(p: Problem)
    requires WellFormed(p) && Equivalences(p) && !p.topology && p.N() > 0
    ensures WellFormed(Plain(p)) && Emitted(Plain(p)) == Emitted(p)
    ensures TotalWeight(p, Emitted(p)) >= |Emitted(Plain(p))| as real
    ensures TotalWeight(p, Emitted(p)) == |Emitted(Plain(p))| as real <==>
            forall t, o :: t in Emitted(p) && o in Ends(t) ==> Alone(p, o)
  {
    hide WellFormed, Equivalences, Emitted, Weight, Ends, Alone;
    assert Plain(p) == p;
    var ts := Emitted(p);
    TotalAtLeast(p, |ts|);
    assert ts[..|ts|] == ts;
    forall t | t in ts ensures Weight(p, t) == 1.0 <==> forall o :: o in Ends(t) ==> Alone(p, o) { UnitWeight(p, t); }
    if forall k :: 0 <= k < |ts| ==> Weight(p, ts[k]) == 1.0 {
      forall t | t in ts ensures Weight(p, t) == 1.0 { var k :| 0 <= k < |ts| && ts[k] == t; }
    }
  }

  // ---- An input ----

  /** Annihilators 0 and 1 in one partition, and a creator in another normal operator; no topology. */
  function TwinProblem(): Problem {
    var ops := [Op(0, Annihilate, 0), Op(1, Annihilate, 0), Op(2, Create, 1)];
    Problem(ops, 2, false, false, true, {ops[0], ops[1]}, {(ops[0], ops[2]), (ops[1], ops[2])}, true, 0,
            [], [], [[0, 1], [2]], [0, 0, 1])
  }

  lemma TwinProblemWellFormed()
    ensures WellFormed(TwinProblem()) && Equivalences(TwinProblem())
  {
    hide TwinProblem, PartitionsCover, ReverseMask, SameOp;
    TwinFields();
    TwinOps();
    TwinPartitions();
    assert WellFormed(TwinProblem());
    TwinEquivalences();
  }

  lemma TwinEquivalences()
    requires WellFormed(TwinProblem())
    ensures Equivalences(TwinProblem())
  {
    hide TwinProblem, WellFormed;
    TwinFields();
    var p := TwinProblem();
    forall i, j, k, l | 0 <= i < 3 && 0 <= j < 3 && 0 <= k < 3 && 0 <= l < 3
                        && p.partitionOf[i] == p.partitionOf[k] && p.partitionOf[j] == p.partitionOf[l] && (p.ops[i], p.ops[j]) in p.contractible
      ensures (p.ops[k], p.ops[l]) in p.contractible
    {
      TwinContractions(i, j);
      TwinContractions(k, l);
    }
  }

  lemma TwinContractions(i: nat, j: nat)
    requires i < 3 && j < 3
    ensures var p := TwinProblem();
            && p.N() == 3 && |p.partitionOf| == 3
            && ((p.ops[i], p.ops[j]) in p.contractible <==> p.partitionOf[i] == 0 && p.partitionOf[j] == 1)
  {
  }

  lemma TwinFields()
    ensures var p := TwinProblem();
            && p.N() == 3 && p.nnops == 2 && ReverseMask(p.required, 2) && ReverseMask(p.avoided, 2) && |p.partitionOf| == 3
            && forall a, b :: (a, b) in p.contractible ==> a in p.qpAnnihilators
  {
  }

  lemma TwinOps()
    ensures var p := TwinProblem();
            && p.N() == 3 && |p.partitionOf| == 3
            && (forall k :: 0 <= k < 3 ==> p.ops[k].nop == if k == 2 then 1 else 0)
            && (forall k :: 0 <= k < 3 ==> p.partitionOf[k] == p.ops[k].nop)
            && forall i, j :: 0 <= i < j < 3 ==> !SameOp(p.ops[i], p.ops[j])
  {
  }

  lemma TwinPartitions()
    ensures var p := TwinProblem(); PartitionsCover(p.partitions, p.partitionOf, 3)
  {
    var q: seq<seq<nat>> := [[0, 1], [2]];
    hide TwinProblem;
    assert Increasing(q[0]) && Increasing(q[1]);
    TwinCover(q, [0, 0, 1]);
    TwinParts();
  }

  lemma TwinParts()
    ensures TwinProblem().partitions == [[0, 1], [2]] && TwinProblem().partitionOf == [0, 0, 1]
  {
  }

  lemma TwinCover(q: seq<seq<nat>>, of: seq<nat>)
    requires |q| == 2 && q[0] == [0, 1] && q[1] == [2] && of == [0, 0, 1] && Increasing(q[0]) && Increasing(q[1])
    ensures PartitionsCover(q, of, 3)
  {
    hide Increasing;
  }

  lemma TwinContractionAccepted(e: Pair)
    requires e == (0, 2) || e == (1, 2)
    ensures WellFormed(TwinProblem()) && CanExtend(TwinProblem(), [], e)
  {
    TwinProblemWellFormed();
    hide WellFormed, Equivalences;
  }

  /**
   Without topology both contractions of two equivalent annihilators are reported, and each has at least the
   weight of both.
   */
  lemma PlainTermWeighsTwice()
    ensures var p := TwinProblem();
            && WellFormed(p) && Equivalences(p) && !p.topology
            && [(0, 2)] in Emitted(p) && [(1, 2)] in Emitted(p) && Weight(p, [(0, 2)]) >= 2.0
            && TotalWeight(p, Emitted(p)) > |Emitted(p)| as real
  {
    hide WellFormed, Equivalences, CanExtend, Emitted, Weight, Class, Alone, TotalWeight, Ends;
    TwinProblemWellFormed();
    TwinContractionAccepted((0, 2));
    TwinContractionAccepted((1, 2));
    TwinNotAlone();
    Overcounted(TwinProblem(), (0, 2));
    LooseRun(TwinProblem(), [(1, 2)]);
  }

  lemma TwinNotAlone()
    ensures !Alone(TwinProblem(), 0)
  {
  }

  lemma Overcounted(p: Problem, e: Pair)
    requires WellFormed(p) && Equivalences(p) && !p.topology && p.N() > 0 && !p.full && CanExtend(p, [], e) && !Alone(p, e.0)
    ensures [e] in Emitted(p) && Weight(p, [e]) >= 2.0 && TotalWeight(p, Emitted(p)) > |Emitted(p)| as real
  {
    hide WellFormed, Equivalences, CanExtend, Emitted, Weight, Class, Alone, TotalWeight, Ends;
    LooseRun(p, [e]);
    EndsSnoc([], e);
    assert [] + [e] == [e];
    UnitWeight(p, [e]);
    WeightIsClassSize(p, [e]);
    WeightsOvercount(p);
  }
}
