/**
 The search as it runs: one mutable state, changed on the way down and undone
 on the way up. Every method is proved against the search tree and the counter
 functions.
 */
module WickEngine {
  import opened Sequences
  import opened WickProblem
  import opened WickSearch
  import opened RangeNest
  import opened UpperTriangle
  import opened WickState
  import WickDegrees
  import opened WickTerms
  import WickPhase
  import WickDegeneracy
  import PartnerIndices
  import NormalOrder
  import Factorials
  import WickWeights
  import NopPartitions

  /** A signed product of contractions. */
  datatype Product = Product(scalar: int, factors: seq<(Op, Op)>)

  /** All that the search undoes. */
  datatype Snapshot = Snapshot(nopseq: seq<seq<Op>>, ordinals: seq<nat>, size: nat, sp: Product, level: nat, counts: Counters, nopPartitions: seq<set<nat>>)

  ghost function ProductOf(p: Problem, s: seq<Pair>): Product {
    Product(WickPhase.Phase(p, s), ContractionOps(p, s))
  }

  function FindContraction(s: seq<(Op, Op)>, c: (Op, Op)): (k: nat)
    ensures k <= |s| && (k < |s| ==> s[k] == c)
    ensures forall i :: 0 <= i < k ==> s[i] != c
  {
    if s == [] || s[0] == c then 0 else 1 + FindContraction(s[1..], c)
  }

  // ---- Facts about one pair ----

  lemma {:induction false} NotYetContracted(p: Problem, s: seq<Pair>, e: Pair)
    requires WellFormed(p) && e.0 < p.N() && e.1 < p.N() && e.0 !in Ends(s)
    ensures (p.ops[e.0], p.ops[e.1]) !in ContractionOps(p, s)
  {
    if s != [] {
      NotYetContracted(p, Init(s), e);
      if Last(s).0 < p.N() && Last(s).1 < p.N() { DistinctOps(p, e.0, Last(s).0); }
    }
  }

  lemma DistinctOps(p: Problem, i: nat, j: nat)
    requires WellFormed(p) && i < p.N() && j < p.N() && i != j
    ensures p.ops[i] != p.ops[j]
  {
    if i < j { assert !SameOp(p.ops[i], p.ops[j]); } else { assert !SameOp(p.ops[j], p.ops[i]); }
  }

  /** e is the pair of operators at two positions of the nest. */
  ghost predicate At(rem: seq<nat>, e: Pair, i: nat, j: nat) {
    i < j < |rem| && e == (rem[i], rem[j])
  }

  /** What the cursors read. */
  lemma CursorPair(p: Problem, rem: seq<nat>, nest: seq<seq<Op>>, e: Pair, x: nat, a: nat, i: nat, y: nat, b: nat, j: nat)
    requires WellFormed(p) && NestAt(p, rem, nest) && Increasing(rem) && At(rem, e, i, j)
    requires IsPosition(nest, x, a, i) && IsPosition(nest, y, b, j)
    ensures e.0 < e.1 < p.N() && x < p.nnops && y < p.nnops && |nest| == p.nnops && a < |nest[x]| && b < |nest[y]|
    ensures nest[x][a] == p.ops[e.0] && nest[y][b] == p.ops[e.1] && p.Nop(e.0) == x && p.Nop(e.1) == y
    ensures x != y ==> AcrossNops(p, e) && x < y && p.partitionOf[e.0] < p.partitionOf[e.1] < |p.partitions|
  {
    hide WellFormed, IsPosition, NestAt;
    NestPosition(p, rem, nest, x, a, i);
    NestPosition(p, rem, nest, y, b, j);
    if x != y { PairAscends(p, e); }
  }

  /** The positions of a pair in the two packed matrices. */
  lemma PairEntries(p: Problem, e: Pair) returns (k: nat, m: nat)
    requires WellFormed(p) && AcrossNops(p, e)
    ensures EntryOf(k, |p.partitions|, p.partitionOf, e) && EntryOf(m, p.nnops, NopsOf(p), e)
    ensures k < Ntri(|p.partitions|) && m < Ntri(p.nnops)
    ensures |p.partitionOf| == p.N() && p.partitionOf[e.0] < p.partitionOf[e.1] < |p.partitions| && p.Nop(e.0) < p.Nop(e.1) < p.nnops
    ensures k == UptriIdx(p.partitionOf[e.0], p.partitionOf[e.1], |p.partitions|) && m == UptriIdx(p.Nop(e.0), p.Nop(e.1), p.nnops)
  {
    PairAscends(p, e);
    UptriIdxBijective(|p.partitions|);
    UptriIdxBijective(p.nnops);
    hide WellFormed, UptriIdx, Ntri;
    k := UptriIdx(p.partitionOf[e.0], p.partitionOf[e.1], |p.partitions|);
    m := UptriIdx(p.Nop(e.0), p.Nop(e.1), p.nnops);
  }

  lemma CounterSizes(p: Problem, s: seq<Pair>, c: Counters)
    requires CountersAt(p, s, c)
    ensures |c.nopConnections| == p.nnops && |c.nopNConnections| == p.nnops && |c.opNContractions| == |p.partitions|
    ensures p.partitions != [] && |c.opDegrees| == Ntri(|p.partitions|)
    ensures p.nnops > 0 && |c.nopAdjacency| == Ntri(p.nnops)
    ensures c.contractions == ContractionOps(p, s)
  {
  }

  lemma MaskSizes(p: Problem)
    requires WellFormed(p)
    ensures p.avoided != [] ==> |p.avoided| == p.nnops
    ensures p.Targets() != [] ==> |p.Targets()| == p.nnops
  {
  }

  /** The test in connect for one of the normal operators: needs against what remains. */
  lemma FeasibleTest(p: Problem, s: seq<Pair>, e: Pair, nest: seq<seq<Op>>, links: seq<set<nat>>, x: nat)
    requires NestAt(p, Remaining(p, s), nest) && AcrossNops(p, e) && e.0 !in Ends(s) && e.1 !in Ends(s)
    requires LinksAt(p, links, s + [e]) && x < p.nnops && |p.Targets()| == p.nnops
    requires x == p.Nop(e.0) || x == p.Nop(e.1)
    ensures |nest| == p.nnops && |links| == p.nnops
    ensures |Flip(links[x] + p.Targets()[x])| > |nest[x]| - 1 <==> !NopFeasible(p, s + [e], x)
  {
    hide LinksAt, Free, Unmet, Flip;
    RangeSize(p, s, nest, x);
    WickDegrees.FreeSnoc(p, s, e, x);
    hide NestAt;
    assert |links| == p.nnops by { LinksSize(p, links, s + [e]); }
    NeedsAreUnmet(p, links, s + [e], x);
  }

  lemma LinksSize(p: Problem, links: seq<set<nat>>, s: seq<Pair>)
    requires LinksAt(p, links, s)
    ensures |links| == p.nnops
  {
  }

  /** The contraction to undo is found at the end of the list. */
  lemma FoundLast(p: Problem, s: seq<Pair>, e: Pair, cs: seq<(Op, Op)>)
    requires WellFormed(p) && AcrossNops(p, e) && e.0 !in Ends(s) && cs == ContractionOps(p, s + [e])
    ensures var c := FindContraction(cs, (p.ops[e.0], p.ops[e.1]));
            c < |cs| && cs[..c] + cs[c + 1..] + [(p.ops[e.0], p.ops[e.1])] == cs
  {
    hide WellFormed, ContractionOps, FindContraction, Ends;
    ContractionOpsSnoc(p, s, e);
    NotYetContracted(p, s, e);
    FoundAtEnd(ContractionOps(p, s), (p.ops[e.0], p.ops[e.1]));
  }

  lemma FoundAtEnd(cs: seq<(Op, Op)>, c: (Op, Op))
    requires c !in cs
    ensures FindContraction(cs + [c], c) == |cs|
  {
    forall i | 0 <= i < |cs| ensures (cs + [c])[i] != c { assert cs[i] in cs; }
    assert (cs + [c])[|cs|] == c;
  }

  /** What is to be decremented is positive. */
  lemma PositiveCounts(p: Problem, s: seq<Pair>, e: Pair, d: Counters, k: nat, m: nat)
    requires WellFormed(p) && AcrossNops(p, e) && CountersAt(p, s + [e], d)
    requires EntryOf(k, |p.partitions|, p.partitionOf, e) && EntryOf(m, p.nnops, NopsOf(p), e)
    ensures |d.nopNConnections| == p.nnops && |d.opNContractions| == |p.partitions|
    ensures p.Nop(e.0) < p.nnops && d.nopNConnections[p.Nop(e.0)] > 0
    ensures p.Nop(e.1) < p.nnops && d.nopNConnections[p.Nop(e.1)] > 0
    ensures p.partitionOf[e.0] < |p.partitions| && d.opNContractions[p.partitionOf[e.0]] > 0
    ensures p.partitionOf[e.1] < |p.partitions| && d.opNContractions[p.partitionOf[e.1]] > 0
    ensures k < |d.opDegrees| && d.opDegrees[k] > 0
    ensures p.Targets() != [] ==> |d.nopConnections| == p.nnops && LinksAt(p, d.nopConnections, s + [e])
    ensures p.Targets() != [] ==>
              m < |d.nopAdjacency| && d.nopAdjacency[m] == Degrees(NopsOf(p), s)[(p.Nop(e.0), p.Nop(e.1))] + 1
  {
    PairAscends(p, e);
    hide WellFormed, VectorAt, MatrixAt, LinksAt, Degrees, EntryOf;
    PositiveVector(d.nopNConnections, p.nnops, NopsOf(p), s, e);
    PositiveVector(d.opNContractions, |p.partitions|, p.partitionOf, s, e);
    PositiveEntry(d.opDegrees, |p.partitions|, p.partitionOf, s, e, k);
    if p.Targets() != [] {
      PositiveEntry(d.nopAdjacency, p.nnops, NopsOf(p), s, e, m);
      LinksSize(p, d.nopConnections, s + [e]);
    }
  }

  class NontensorWickState {
    const input: Input
    const problem: Problem
    const opToInputOrdinal: map<Op, nat>
    const countOnly: bool
    var nopseq: seq<seq<Op>>
    var opInputOrdinals: seq<nat>
    var nopseqSize: nat
    var sp: Product
    var contractions: seq<(Op, Op)>
    var level: nat
    var leftOpOffset: nat
    var nopConnections: seq<set<nat>>
    var nopAdjacencyMatrix: seq<nat>
    var nopNConnections: seq<nat>
    var nopPartitions: seq<set<nat>>
    var opPartitionCdegMatrix: seq<nat>
    var opPartitionNContractions: seq<nat>
    var result: seq<Term>
    var count: nat
    /** The contraction lists reported so far. */
    ghost var reported: seq<seq<Pair>>

    /** The untouched input: nothing connected, and every operator's ordinal looked up. */
    constructor (wick: Input, opseq: seq<seq<Op>>, ordinals: map<Op, nat>, countOnly: bool)
      requires WellFormed(wick.problem) && wick.problem.N() > 0 && ordinals == OrdinalOf(wick.problem)
      requires NestAt(wick.problem, Remaining(wick.problem, []), opseq)
      requires NopPartitions.Assigned(wick.nopPartitionOf, wick.nopNPartitions, wick.problem.nnops)
      ensures input == wick && this.countOnly == countOnly && leftOpOffset == 0
      ensures StateAt([]) && Reports() && reported == []
    {
      hide WellFormed, NestAt, Remaining, CountersAt, IsPosition, Flatten, InRange, IsRun, ProductOf, Terms, OrdinalOf, Ntri;
      input, problem, opToInputOrdinal, this.countOnly := wick, wick.problem, ordinals, countOnly;
      nopseq, opInputOrdinals, nopseqSize := opseq, [], |Flatten(opseq)|;
      sp, contractions, level, leftOpOffset := Product(1, []), [], 0, 0;
      nopConnections := seq(|opseq|, _ => {});
      nopAdjacencyMatrix := seq(Entries0(|opseq|), _ => 0);
      nopNConnections := seq(|opseq|, _ => 0);
      nopPartitions := [];
      opPartitionCdegMatrix := seq(Entries0(|wick.problem.partitions|), _ => 0);
      opPartitionNContractions := seq(|wick.problem.partitions|, _ => 0);
      result, count, reported := [], 0, [];
      new;
      StartFacts(input);
      NestLength(problem, Remaining(problem, []), opseq);
      nopPartitions := NopPartitions.InitTopologicalPartitions(input.nopPartitionOf, input.nopNPartitions);
      NopPartitions.NothingCounted(input.nopPartitionOf, input.nopNPartitions, nopNConnections);
      ReadOrdinals();
      StartCounters(problem, Counts());
    }

    /** Looks up the ordinals of all operators. */
    method ReadOrdinals()
      requires WellFormed(problem) && NestAt(problem, Remaining(problem, []), nopseq)
      requires opToInputOrdinal == OrdinalOf(problem) && opInputOrdinals == []
      modifies `opInputOrdinals
      ensures opInputOrdinals == Remaining(problem, [])
    {
      hide WellFormed, NestAt, Remaining, IsPosition, Flatten, OrdinalOf;
      NestLength(problem, Remaining(problem, []), nopseq);
      var it := new Cursor.Begin(nopseq);
      EmptyFlatten(nopseq, it);
      while it.rangeIter != |nopseq|
        invariant it.PointsInto(nopseq) && it.ordinal == |opInputOrdinals|
        invariant it.rangeIter == |nopseq| <==> it.ordinal == |Flatten(nopseq)|
        invariant |opInputOrdinals| <= |Remaining(problem, [])|
        invariant opInputOrdinals == Remaining(problem, [])[..|opInputOrdinals|]
        modifies `opInputOrdinals, it
        decreases |Flatten(nopseq)| - it.ordinal
      {
        OrdinalFound(problem, nopseq, it.rangeIter, it.elemIter, it.ordinal);
        opInputOrdinals := opInputOrdinals + [opToInputOrdinal[nopseq[it.rangeIter][it.elemIter]]];
        it.Next(nopseq);
      }
      assert Remaining(problem, [])[..|opInputOrdinals|] == Remaining(problem, []);
    }

    ghost function Counts(): Counters
      reads this
    {
      Counters(contractions, nopConnections, nopAdjacencyMatrix, nopNConnections, opPartitionCdegMatrix, opPartitionNContractions)
    }

    /** The state when the contractions s have been made. */
    ghost predicate StateAt(s: seq<Pair>)
      reads this
    {
      && Constants() && IsRun(problem, s)
      && opInputOrdinals == Remaining(problem, s) && NestAt(problem, opInputOrdinals, nopseq)
      && nopseqSize == |opInputOrdinals|
      && CountersAt(problem, s, Counts()) && Grouped()
      && sp == ProductOf(problem, s)
    }

    ghost predicate Constants() {
      && input.problem == problem && problem.N() > 0 && WellFormed(problem) && opToInputOrdinal == OrdinalOf(problem)
      && NopPartitions.Assigned(input.nopPartitionOf, input.nopNPartitions, problem.nnops)
    }

    /** Each partition of normal operators holds its members without connections. */
    ghost predicate Grouped()
      reads this
    {
      && input.problem == problem && NopPartitions.Assigned(input.nopPartitionOf, input.nopNPartitions, problem.nnops)
      && nopPartitions == NopPartitions.Partitions(input.nopPartitionOf, input.nopNPartitions, nopNConnections)
    }

    /** result and count say what has been reported. */
    ghost predicate Reports()
      reads this
    {
      && WellFormed(input.problem)
      && if countOnly then count == |reported| && result == [] else count == 0 && result == Terms(input, reported)
    }

    /** In terms of the contractions made: a partition holds its members that none of them touches. */
    lemma PartitionMembers(s: seq<Pair>, k: nat, x: nat)
      requires StateAt(s) && k < input.nopNPartitions && x < problem.nnops
      ensures k < |nopPartitions| && x < |input.nopPartitionOf|
      ensures x in nopPartitions[k] <==> input.nopPartitionOf[x] == k + 1 && Contracted(NopsOf(problem), s, x) == 0
    {
      hide WellFormed, IsRun, NestAt, Contracted, NopsOf;
    }

    ghost function Everything(): Snapshot
      reads this
    {
      Snapshot(nopseq, opInputOrdinals, nopseqSize, sp, level, Counts(), nopPartitions)
    }

    /** The cursors are at the two operators of e, of different normal operators. */
    ghost predicate CursorsAt(e: Pair, left: Cursor<Op>, right: Cursor<Op>)
      reads this, left, right
    {
      && left.PointsInto(nopseq) && right.PointsInto(nopseq) && left.rangeIter < |nopseq| && right.rangeIter < |nopseq|
      && left.rangeIter != right.rangeIter && At(opInputOrdinals, e, left.ordinal, right.ordinal)
    }

    lemma PairFacts(s: seq<Pair>, e: Pair, left: Cursor<Op>, right: Cursor<Op>)
      requires WellFormed(problem) && opInputOrdinals == Remaining(problem, s)
      requires NestAt(problem, opInputOrdinals, nopseq) && CursorsAt(e, left, right)
      ensures |nopseq| == problem.nnops && left.elemIter < |nopseq[left.rangeIter]| && right.elemIter < |nopseq[right.rangeIter]|
      ensures AcrossNops(problem, e) && e.0 !in Ends(s) && e.1 !in Ends(s)
      ensures nopseq[left.rangeIter][left.elemIter] == problem.ops[e.0]
      ensures nopseq[right.rangeIter][right.elemIter] == problem.ops[e.1]
      ensures problem.Nop(e.0) == left.rangeIter < problem.Nop(e.1) == right.rangeIter
      ensures |problem.partitionOf| == problem.N()
      ensures problem.partitionOf[e.0] < problem.partitionOf[e.1] < |problem.partitions|
    {
      RemainingBelowProps(s, problem.N());
      assert e.0 in opInputOrdinals && e.1 in opInputOrdinals;
      CursorPair(problem, opInputOrdinals, nopseq, e, left.rangeIter, left.elemIter, left.ordinal,
                 right.rangeIter, right.elemIter, right.ordinal);
    }

    /** Connects the normal operators of e if both can still make the connections they need. */
    method MarkConnected(ghost s: seq<Pair>, ghost e: Pair, x: nat, y: nat) returns (ok: bool)
      requires NestAt(problem, Remaining(problem, s), nopseq) && CountersAt(problem, s, Counts())
      requires AcrossNops(problem, e) && e.0 !in Ends(s) && e.1 !in Ends(s) && x == problem.Nop(e.0) && y == problem.Nop(e.1)
      requires x < problem.nnops && y < problem.nnops && |problem.Targets()| == problem.nnops
      modifies `nopConnections
      ensures ok <==> NopFeasible(problem, s + [e], x) && NopFeasible(problem, s + [e], y)
      ensures ok ==> LinksAt(problem, nopConnections, s + [e])
      ensures !ok ==> nopConnections == old(nopConnections)
    {
      ghost var before := Counts();
      CounterSizes(problem, s, before);
      var targets := problem.Targets();
      var connected := y in nopConnections[x];
      if !connected {
        nopConnections := nopConnections[x := nopConnections[x] + {y}];
        nopConnections := nopConnections[y := nopConnections[y] + {x}];
      }
      NowConnected(problem, s, e, before, nopConnections);
      FeasibleTest(problem, s, e, nopseq, nopConnections, x);
      FeasibleTest(problem, s, e, nopseq, nopConnections, y);
      hide NestAt, CountersAt, LinksAt, NopFeasible, Flip, Ends, AcrossNops;
      ok := true;
      if |Flip(nopConnections[x] + targets[x])| > |nopseq[x]| - 1 {
        ok := false;
      } else if |Flip(nopConnections[y] + targets[y])| > |nopseq[y]| - 1 {
        ok := false;
      }
      if !ok && !connected {
        nopConnections := nopConnections[x := nopConnections[x] - {y}];
        nopConnections := nopConnections[y := nopConnections[y] - {x}];
      }
    }

    /** One more connection; the first one takes the normal operator out of its partition. */
    method ConnectNop(x: nat)
      requires Grouped() && x < |nopNConnections| == problem.nnops
      modifies `nopNConnections, `nopPartitions
      ensures Grouped() && nopNConnections == Incremented(old(nopNConnections), x)
    {
      hide NopPartitions.Partitions;
      NopPartitions.CountChanged(input.nopPartitionOf, input.nopNPartitions, nopNConnections, x, nopNConnections[x] + 1);
      if nopPartitions != [] {
        var k := input.nopPartitionOf[x];
        if nopNConnections[x] == 0 && k > 0 {
          assert x in nopPartitions[k - 1];
          nopPartitions := nopPartitions[k - 1 := nopPartitions[k - 1] - {x}];
        }
      }
      nopNConnections := Incremented(nopNConnections, x);
    }

    /** One connection less; the last one puts the normal operator back into its partition. */
    method DisconnectNop(x: nat)
      requires Grouped() && x < |nopNConnections| == problem.nnops && nopNConnections[x] > 0
      modifies `nopNConnections, `nopPartitions
      ensures Grouped() && nopNConnections == Decremented(old(nopNConnections), x)
    {
      hide NopPartitions.Partitions;
      NopPartitions.CountChanged(input.nopPartitionOf, input.nopNPartitions, nopNConnections, x, nopNConnections[x] - 1);
      nopNConnections := Decremented(nopNConnections, x);
      if nopPartitions != [] {
        var k := input.nopPartitionOf[x];
        if nopNConnections[x] == 0 && k > 0 {
          assert x !in nopPartitions[k - 1];
          nopPartitions := nopPartitions[k - 1 := nopPartitions[k - 1] + {x}];
        }
      }
    }

    /** Counts contraction e. */
    method Register(ghost s: seq<Pair>, ghost e: Pair, left: Op, right: Op, x: nat, y: nat, a: nat, b: nat, ghost before: Counters)
      requires Grouped() && WellFormed(problem) && AcrossNops(problem, e) && CountersAt(problem, s, before)
      requires left == problem.ops[e.0] && right == problem.ops[e.1] && x == problem.Nop(e.0) && y == problem.Nop(e.1)
      requires |nopseq| == problem.nnops && a == problem.partitionOf[e.0] && b == problem.partitionOf[e.1]
      requires Counts().(nopConnections := before.nopConnections) == before
      requires if problem.Targets() != [] then LinksAt(problem, nopConnections, s + [e]) else nopConnections == before.nopConnections
      modifies `contractions, `nopAdjacencyMatrix, `nopNConnections, `nopPartitions, `opPartitionCdegMatrix, `opPartitionNContractions
      ensures CountersAt(problem, s + [e], Counts()) && Grouped()
    {
      hide WellFormed, CountersAt, LinksAt, UptriIdx, Ntri, EntryOf, AcrossNops, Incremented;
      CounterSizes(problem, s, before);
      ghost var k, m := PairEntries(problem, e);
      if problem.Targets() != [] {
        nopAdjacencyMatrix := Incremented(nopAdjacencyMatrix, UptriIdx(x, y, |nopseq|));
      }
      ConnectNop(x);
      ConnectNop(y);
      opPartitionCdegMatrix := Incremented(opPartitionCdegMatrix, UptriIdx(a, b, |problem.partitions|));
      opPartitionNContractions := Incremented(Incremented(opPartitionNContractions, a), b);
      contractions := contractions + [(left, right)];
      CountersSnoc(problem, s, e, before, Counts(), k, m);
    }

    /** Connects the normal operators of the two cursors unless a mask or a requirement forbids it. */
    method Connect(ghost s: seq<Pair>, ghost e: Pair, left: Cursor<Op>, right: Cursor<Op>) returns (ok: bool)
      requires StateAt(s) && CursorsAt(e, left, right)
      modifies `contractions, `nopConnections, `nopAdjacencyMatrix, `nopNConnections, `nopPartitions, `opPartitionCdegMatrix,
               `opPartitionNContractions
      ensures e.0 < problem.N() && e.1 < problem.N()
      ensures ok <==> ConnectOk(problem, s, e)
      ensures ok ==> CountersAt(problem, s + [e], Counts()) && Grouped()
      ensures !ok ==> Counts() == old(Counts()) && nopPartitions == old(nopPartitions)
    {
      hide WellFormed, IsRun, NestAt, CountersAt, NopFeasible, LinksAt, IsPosition, ProductOf;
      PairFacts(s, e, left, right);
      ghost var before := Counts();
      MaskSizes(problem);
      var x, y := left.rangeIter, right.rangeIter;
      if problem.avoided != [] && y !in problem.avoided[x] {
        return false;
      }
      if problem.Targets() != [] {
        ok := MarkConnected(s, e, x, y);
        if !ok { return; }
      }
      ok := true;
      var l, r := opInputOrdinals[left.ordinal], opInputOrdinals[right.ordinal];
      Register(s, e, nopseq[x][left.elemIter], nopseq[y][right.elemIter], x, y, problem.partitionOf[l], problem.partitionOf[r], before);
    }

    /** Takes contraction e off the counts of operators and partitions, and off the list. */
    method Unregister(left: Op, right: Op, x: nat, y: nat, a: nat, b: nat)
      requires Grouped() && |nopNConnections| == problem.nnops && x < |nopNConnections| && y < |nopNConnections| && x != y && nopNConnections[x] > 0 && nopNConnections[y] > 0
      requires |opPartitionNContractions| == |problem.partitions| && a < b < |problem.partitions|
      requires opPartitionNContractions[a] > 0 && opPartitionNContractions[b] > 0
      requires 0 <= UptriIdx(a, b, |problem.partitions|) < |opPartitionCdegMatrix|
      requires opPartitionCdegMatrix[UptriIdx(a, b, |problem.partitions|)] > 0
      requires var c := FindContraction(contractions, (left, right));
               c < |contractions| && contractions[..c] + contractions[c + 1..] + [(left, right)] == contractions
      modifies `contractions, `nopNConnections, `nopPartitions, `opPartitionCdegMatrix, `opPartitionNContractions
      ensures Grouped() && Bump2(nopNConnections, old(nopNConnections), x, y)
      ensures Bump(opPartitionCdegMatrix, old(opPartitionCdegMatrix), UptriIdx(a, b, |problem.partitions|))
      ensures Bump2(opPartitionNContractions, old(opPartitionNContractions), a, b)
      ensures old(contractions) == contractions + [(left, right)]
    {
      hide UptriIdx, Incremented, Decremented, FindContraction;
      var entry := UptriIdx(a, b, |problem.partitions|);
      DecrementedBump2(nopNConnections, x, y);
      DecrementedBump(opPartitionCdegMatrix, entry);
      DecrementedBump2(opPartitionNContractions, a, b);
      DisconnectNop(x);
      DisconnectNop(y);
      opPartitionCdegMatrix := Decremented(opPartitionCdegMatrix, entry);
      opPartitionNContractions := Decremented(Decremented(opPartitionNContractions, a), b);
      var found := FindContraction(contractions, (left, right));
      contractions := contractions[..found] + contractions[found + 1..];
    }

    /** Takes one contraction off the adjacency of two normal operators; the last one disconnects them. */
    method Unmark(ghost s: seq<Pair>, ghost e: Pair, x: nat, y: nat)
      requires WellFormed(problem) && IsRun(problem, s) && e.0 < problem.N() && e.1 < problem.N()
      requires x == problem.Nop(e.0) && y == problem.Nop(e.1) && x < y < problem.nnops == |nopseq| == |nopConnections|
      requires LinksAt(problem, nopConnections, s + [e])
      requires 0 <= UptriIdx(x, y, problem.nnops) < |nopAdjacencyMatrix|
      requires nopAdjacencyMatrix[UptriIdx(x, y, problem.nnops)] == Degrees(NopsOf(problem), s)[(x, y)] + 1
      modifies `nopConnections, `nopAdjacencyMatrix
      ensures LinksAt(problem, nopConnections, s)
      ensures Bump(nopAdjacencyMatrix, old(nopAdjacencyMatrix), UptriIdx(x, y, problem.nnops))
    {
      RunAscends(problem, s);
      LinksRemove(problem, nopConnections, s, e);
      hide WellFormed, IsRun, Ascending, LinksAt, UptriIdx, Incremented, Degrees, NopsOf;
      var adjacent := UptriIdx(x, y, |nopseq|);
      DecrementedBump(nopAdjacencyMatrix, adjacent);
      nopAdjacencyMatrix := Decremented(nopAdjacencyMatrix, adjacent);
      if nopAdjacencyMatrix[adjacent] == 0 {
        nopConnections := nopConnections[x := nopConnections[x] - {y}];
        nopConnections := nopConnections[y := nopConnections[y] - {x}];
      }
    }

    /** The counts that disconnect takes down are there. */
    lemma DisconnectFacts(s: seq<Pair>, e: Pair, left: Cursor<Op>, right: Cursor<Op>, x: nat, y: nat, a: nat, b: nat)
      requires WellFormed(problem) && opInputOrdinals == Remaining(problem, s)
      requires NestAt(problem, opInputOrdinals, nopseq) && CursorsAt(e, left, right)
      requires CountersAt(problem, s + [e], Counts()) && AcrossNops(problem, e)
      requires x == left.rangeIter && y == right.rangeIter
      requires a == problem.partitionOf[e.0] && b == problem.partitionOf[e.1]
      ensures x == problem.Nop(e.0) && y == problem.Nop(e.1) && x < y < problem.nnops == |nopseq| == |nopConnections|
      ensures |nopNConnections| == problem.nnops && x < |nopNConnections| && y < |nopNConnections| && nopNConnections[x] > 0 && nopNConnections[y] > 0
      ensures |opPartitionNContractions| == |problem.partitions| && a < b < |problem.partitions|
      ensures opPartitionNContractions[a] > 0 && opPartitionNContractions[b] > 0
      ensures 0 <= UptriIdx(a, b, |problem.partitions|) < |opPartitionCdegMatrix|
      ensures opPartitionCdegMatrix[UptriIdx(a, b, |problem.partitions|)] > 0
      ensures problem.Targets() != [] ==> LinksAt(problem, nopConnections, s + [e])
      ensures problem.Targets() != [] ==>
                0 <= UptriIdx(x, y, problem.nnops) < |nopAdjacencyMatrix|
                && nopAdjacencyMatrix[UptriIdx(x, y, problem.nnops)] == Degrees(NopsOf(problem), s)[(x, y)] + 1
      ensures left.elemIter < |nopseq[x]| && right.elemIter < |nopseq[y]|
      ensures nopseq[x][left.elemIter] == problem.ops[e.0] && nopseq[y][right.elemIter] == problem.ops[e.1]
      ensures var c := FindContraction(contractions, (problem.ops[e.0], problem.ops[e.1]));
              c < |contractions| && contractions[..c] + contractions[c + 1..] + [(problem.ops[e.0], problem.ops[e.1])] == contractions
    {
      PairFacts(s, e, left, right);
      var k, m := PairEntries(problem, e);
      hide WellFormed, NestAt, CountersAt, LinksAt, UptriIdx, Ntri, EntryOf, AcrossNops, Degrees, FindContraction, ContractionOps, NopsOf, IsPosition;
      CounterSizes(problem, s + [e], Counts());
      PositiveCounts(problem, s, e, Counts(), k, m);
      FoundLast(problem, s, e, contractions);
    }

    /** The counts without e are those of s. */
    lemma Disconnected(s: seq<Pair>, e: Pair, after: Counters)
      requires WellFormed(problem) && AcrossNops(problem, e) && CountersAt(problem, s + [e], after)
      requires after.contractions == contractions + [(problem.ops[e.0], problem.ops[e.1])]
      requires Bump2(nopNConnections, after.nopNConnections, problem.Nop(e.0), problem.Nop(e.1))
      requires problem.partitionOf[e.0] < problem.partitionOf[e.1] < |problem.partitions|
      requires problem.Nop(e.0) < problem.Nop(e.1) < problem.nnops
      requires Bump2(opPartitionNContractions, after.opNContractions, problem.partitionOf[e.0], problem.partitionOf[e.1])
      requires 0 <= UptriIdx(problem.partitionOf[e.0], problem.partitionOf[e.1], |problem.partitions|)
      requires Bump(opPartitionCdegMatrix, after.opDegrees,
                    UptriIdx(problem.partitionOf[e.0], problem.partitionOf[e.1], |problem.partitions|))
      requires if problem.Targets() != [] then
                 && LinksAt(problem, nopConnections, s)
                 && 0 <= UptriIdx(problem.Nop(e.0), problem.Nop(e.1), problem.nnops)
                 && Bump(nopAdjacencyMatrix, after.nopAdjacency, UptriIdx(problem.Nop(e.0), problem.Nop(e.1), problem.nnops))
               else nopAdjacencyMatrix == after.nopAdjacency && nopConnections == after.nopConnections
      ensures CountersAt(problem, s, Counts())
    {
      var k, m := PairEntries(problem, e);
      hide WellFormed, CountersAt, LinksAt, UptriIdx, Ntri, EntryOf, AcrossNops, Incremented;
      CounterSizes(problem, s + [e], after);
      CountersSnoc(problem, s, e, Counts(), after, k, m);
    }

    /** Undoes connect. */
    method Disconnect(ghost s: seq<Pair>, ghost e: Pair, left: Cursor<Op>, right: Cursor<Op>)
      requires WellFormed(problem) && IsRun(problem, s) && opInputOrdinals == Remaining(problem, s)
      requires NestAt(problem, opInputOrdinals, nopseq) && CursorsAt(e, left, right)
      requires CountersAt(problem, s + [e], Counts()) && Grouped()
      modifies `contractions, `nopConnections, `nopAdjacencyMatrix, `nopNConnections, `nopPartitions, `opPartitionCdegMatrix,
               `opPartitionNContractions
      ensures CountersAt(problem, s, Counts()) && Grouped()
    {
      hide WellFormed, IsRun, NestAt, CountersAt, LinksAt, UptriIdx, Bump, Bump2, Degrees, FindContraction, NopsOf, IsPosition;
      PairFacts(s, e, left, right);
      ghost var after := Counts();
      var x, y := left.rangeIter, right.rangeIter;
      var l, r := opInputOrdinals[left.ordinal], opInputOrdinals[right.ordinal];
      var a, b := problem.partitionOf[l], problem.partitionOf[r];
      DisconnectFacts(s, e, left, right, x, y, a, b);
      Unregister(nopseq[x][left.elemIter], nopseq[y][right.elemIter], x, y, a, b);
      if problem.Targets() != [] {
        Unmark(s, e, x, y);
      }
      Disconnected(s, e, after);
    }

    /** Tests whether an equivalent contraction has been or will be made instead. */
    method IsTopologicallyUnique(ghost s: seq<Pair>, l: nat, r: nat) returns (isUnique: bool)
      requires WellFormed(problem) && CountersAt(problem, s, Counts()) && AcrossNops(problem, (l, r))
      ensures isUnique <==> TopologicallyUnique(problem, s, (l, r))
    {
      hide WellFormed, CountersAt, Contracted, Degrees, UptriIdx, Ntri;
      CounterSizes(problem, s, Counts());
      PairAscends(problem, (l, r));
      isUnique := true;
      if problem.topology {
        var a, b, n := problem.partitionOf[l], problem.partitionOf[r], |problem.partitions|;
        DegreesStored(problem, s, Counts(), a, b);
        if !problem.full {
          isUnique := opPartitionNContractions[a] == problem.Rank(l);
        }
        if isUnique && b + 1 < n {
          var start := UptriIdx(a, b + 1, n);
          var past := opPartitionCdegMatrix[start..start + (n - b - 1)];
          var q := 0;
          while q < |past| && past[q] == 0
            invariant q <= |past| && forall k :: 0 <= k < q ==> past[k] == 0
          {
            q := q + 1;
          }
          isUnique := q == |past|;
          assert forall k :: b < k < n ==> past[k - b - 1] == Degrees(problem.partitionOf, s)[(a, k)];
          assert q < |past| ==> b < b + 1 + q < n && Degrees(problem.partitionOf, s)[(a, b + 1 + q)] == past[(b + 1 + q) - b - 1];
        }
        if isUnique {
          isUnique := opPartitionNContractions[b] == problem.Rank(r);
        }
      }
    }

    /** Takes the operators at the cursors out of the nest, the right one first. */
    method RemovePair(ghost e: Pair, left: Cursor<Op>, right: Cursor<Op>) returns (leftOp: Op, rightOp: Op)
      requires NestAt(problem, opInputOrdinals, nopseq) && CursorsAt(e, left, right) && left.rangeIter < right.rangeIter
      requires nopseqSize == |opInputOrdinals|
      modifies `nopseq, `opInputOrdinals, `nopseqSize
      ensures Removed(old(nopseq), left.rangeIter, left.elemIter, right.rangeIter, right.elemIter, leftOp, rightOp, nopseq)
      ensures opInputOrdinals == Erase(Erase(old(opInputOrdinals), right.ordinal), left.ordinal)
      ensures nopseqSize == |opInputOrdinals| && NestAt(problem, opInputOrdinals, nopseq)
    {
      hide NestAt, IsPosition;
      ghost var nest, rem := nopseq, opInputOrdinals;
      PairRemoval(problem, rem, nest, left.rangeIter, left.elemIter, left.ordinal, right.rangeIter, right.elemIter, right.ordinal);
      rightOp := nopseq[right.rangeIter][right.elemIter];
      nopseq := right.EraseAt(nopseq);
      opInputOrdinals := opInputOrdinals[..right.ordinal] + opInputOrdinals[right.ordinal + 1..];
      nopseqSize := nopseqSize - 1;
      leftOp := nopseq[left.rangeIter][left.elemIter];
      nopseq := left.EraseAt(nopseq);
      opInputOrdinals := opInputOrdinals[..left.ordinal] + opInputOrdinals[left.ordinal + 1..];
      nopseqSize := nopseqSize - 1;
    }

    /** Puts them back, the left one first. */
    method RestorePair(left: Cursor<Op>, right: Cursor<Op>, leftOp: Op, rightOp: Op, l: nat, r: nat,
                       ghost nest: seq<seq<Op>>, ghost rem: seq<nat>)
      requires Removed(nest, left.rangeIter, left.elemIter, right.rangeIter, right.elemIter, leftOp, rightOp, nopseq)
      requires At(rem, (l, r), left.ordinal, right.ordinal)
      requires opInputOrdinals == Erase(Erase(rem, right.ordinal), left.ordinal) && nopseqSize == |opInputOrdinals|
      modifies `nopseq, `opInputOrdinals, `nopseqSize
      ensures nopseq == nest && opInputOrdinals == rem && nopseqSize == |rem|
    {
      PairRestored(nest, left.rangeIter, left.elemIter, right.rangeIter, right.elemIter);
      nopseq := left.InsertAt(nopseq, leftOp);
      opInputOrdinals := opInputOrdinals[..left.ordinal] + [l] + opInputOrdinals[left.ordinal..];
      nopseqSize := nopseqSize + 1;
      assert opInputOrdinals == Erase(rem, right.ordinal);
      nopseq := right.InsertAt(nopseq, rightOp);
      opInputOrdinals := opInputOrdinals[..right.ordinal] + [r] + opInputOrdinals[right.ordinal..];
      nopseqSize := nopseqSize + 1;
    }

    /** Adds the term of the contractions made, or counts it. */
    method Report(ghost t: seq<Pair>)
      requires StateAt(t) && Reports() && (problem.full ==> opInputOrdinals == [])
      modifies `result, `count, `reported
      ensures Reports() && reported == old(reported) + [t]
    {
      hide WellFormed, IsRun, NestAt, CountersAt, TermOf, ProductOf;
      if countOnly {
        count := count + 1;
      } else {
        var term;
        if problem.full {
          term := FullTerm(t);
        } else {
          term := PartialTerm(t);
        }
        result := result + [term];
      }
      reported := reported + [t];
    }

    method FullTerm(ghost t: seq<Pair>) returns (term: Term)
      requires StateAt(t) && problem.full
      ensures term == TermOf(input, t)
    {
      hide WellFormed, IsRun, NestAt, TermOf, PartnerIndices.Joined, Scaled;
      FullTermIs(input, t);
      CounterSizes(problem, t, Counts());
      hide CountersAt;
      var prefactor := Degeneracy(t);
      var factor := 1;
      if problem.fermi && input.spinfree {
        var pairs, ncycles := PartnerIndices.MakeTargetPartnerIndices(input.partners, contractions);
        factor := Pow2(ncycles);
      }
      term := Term(Scaled(prefactor, factor, sp.scalar), sp.factors, [], []);
    }

    method PartialTerm(ghost t: seq<Pair>) returns (term: Term)
      requires StateAt(t) && !problem.full
      ensures term == TermOf(input, t)
    {
      hide WellFormed, IsRun, NestAt, TermOf, PartnerIndices.Joined, Scaled, NormalOrder.NormalOrdered, NormalOrder.Numbers,
           NormalOrder.SignOfOrder, OrdinalOf, RemainingBelow, Flatten, NormalOrder.Storage;
      CounterSizes(problem, t, Counts());
      hide CountersAt;
      var prefactor := Degeneracy(t);
      var pairs, ncycles := PartnerIndices.MakeTargetPartnerIndices(input.partners, contractions);
      var factor := 1;
      if ncycles > 0 && input.spinfree {
        factor := Pow2(ncycles);
      }
      NormalReady(problem, t, nopseq);
      PartialTermIs(input, t, nopseq);
      var phase, cre, ann := NormalOrder.Normalize(nopseq, pairs, problem.fermi, OrdinalOf(problem));
      term := Term(Scaled(prefactor, factor, sp.scalar * phase), sp.factors, cre, ann);
    }

    method Degeneracy(ghost t: seq<Pair>) returns (weight: real)
      requires StateAt(t)
      ensures weight == Weight(problem, t)
    {
      hide WellFormed, IsRun, NestAt, CountersAt, Degrees, Holds, WickDegeneracy.Consistent, WickDegeneracy.Symmetry,
           WickDegeneracy.Fraction, Factorials.FactVec, WickWeights.Denominator, WickDegeneracy.Sizes, WickWeights.PartitionSizes;
      DegeneracyReady(problem, t, Counts());
      weight := WickDegeneracy.OpPermutationalDegeneracy(problem.partitions, opPartitionCdegMatrix, opPartitionNContractions,
                                                         Degrees(problem.partitionOf, t));
      WickDegeneracy.FractionIs(weight, Factorials.FactVec(WickWeights.PartitionSizes(problem)), WickWeights.Denominator(problem, t));
    }

    /** The left-hand operator from which an activation starts. */
    method CursorAt(n: nat) returns (cursor: Cursor<Op>)
      requires n <= |Flatten(nopseq)|
      ensures fresh(cursor) && cursor.PointsInto(nopseq) && cursor.ordinal == n
    {
      hide Flatten, IsPosition;
      cursor := new Cursor.Begin(nopseq);
      var k := 0;
      while k < n
        invariant k <= n && cursor.PointsInto(nopseq) && cursor.ordinal == k
      {
        BeforeEnd(nopseq, cursor);
        cursor.Next(nopseq);
        k := k + 1;
      }
    }

    /** Emits every term reached from the contractions s, and leaves the state as it was. */
    method RecursiveNontensorWick(ghost s: seq<Pair>)
      requires StateAt(s) && Reports() && AtNode(problem, s, opInputOrdinals, leftOpOffset)
      requires problem.full ==> opInputOrdinals != []
      modifies this
      ensures StateAt(s) && Everything() == old(Everything()) && Reports()
      ensures InRange(problem, old(opInputOrdinals)) && old(leftOpOffset) <= |old(opInputOrdinals)|
      ensures reported == old(reported) + Search(problem, s, old(opInputOrdinals), old(leftOpOffset))
      decreases |opInputOrdinals|, 5
    {
      hide NestAt, IsPosition, IsRun, WellFormed, CountersAt, ProductOf, AtNode, RightLoop, Flatten, Remaining, LeftLoop, InRange, OrdinalOf, Search;
      NodeFacts(problem, s, opInputOrdinals, leftOpOffset);
      NestLength(problem, opInputOrdinals, nopseq);
      SearchIs(problem, s, opInputOrdinals, leftOpOffset);
      var offset := leftOpOffset;
      ghost var rem, start, before := opInputOrdinals, leftOpOffset, Everything();
      NestLength(problem, rem, nopseq);
      var left := CursorAt(offset);
      if problem.full {
        BeforeEnd(nopseq, left);
        CursorReads(problem, rem, nopseq, left);
        if nopseq[left.rangeIter][left.elemIter] !in problem.qpAnnihilators {
          assert reported + [] == reported;
          assert Search(problem, s, rem, start) == [];
          return;
        }
      }
      var fence := if problem.full then offset + 1 else |Flatten(nopseq)|;
      while left.ordinal != fence
        invariant start <= offset == left.ordinal <= fence && left.PointsInto(nopseq)
        invariant problem.full ==> offset == 0 || offset == fence
        invariant StateAt(s) && Everything() == before && Reports()
        invariant reported + LeftLoop(problem, s, rem, offset, fence)
                  == old(reported) + LeftLoop(problem, s, rem, start, fence)
        decreases fence - left.ordinal
      {
        BeforeEnd(nopseq, left);
        StepLeft(problem, s, rem, offset, fence);
        TryRight(s, left, offset, start);
        left.Next(nopseq);
        offset := offset + 1;
      }
      StepLeft(problem, s, rem, offset, fence);
    }

    /** Tries every later operator as the partner of the left one. */
    method TryRight(ghost s: seq<Pair>, left: Cursor<Op>, offset: nat, ghost start: nat)
      requires StateAt(s) && Reports() && AtNode(problem, s, opInputOrdinals, start)
      requires left.PointsInto(nopseq) && left.rangeIter < |nopseq| && start <= left.ordinal == offset
      requires offset < |opInputOrdinals| && (problem.full ==> offset == 0)
      modifies this
      ensures StateAt(s) && Everything() == old(Everything()) && Reports()
      ensures InRange(problem, old(opInputOrdinals)) && offset < |old(opInputOrdinals)|
      ensures reported == old(reported) + RightLoop(problem, s, old(opInputOrdinals), offset, offset + 1)
      decreases |opInputOrdinals|, 4
    {
      hide NestAt, IsPosition, IsRun, WellFormed, CountersAt, ProductOf, AtNode, RightLoop, Flatten, Remaining, InRange, OrdinalOf,
           Tried;
      ghost var rem, before := opInputOrdinals, Everything();
      NodeFacts(problem, s, rem, start);
      NestLength(problem, rem, nopseq);
      var right := new Cursor.CopyOf(left);
      right.Next(nopseq);
      while right.rangeIter != |nopseq|
        invariant right.PointsInto(nopseq) && offset < right.ordinal <= |rem|
        invariant right.rangeIter == |nopseq| <==> right.ordinal == |rem|
        invariant StateAt(s) && Everything() == before && Reports()
        invariant reported + RightLoop(problem, s, rem, offset, right.ordinal)
                  == old(reported) + RightLoop(problem, s, rem, offset, offset + 1)
        decreases |rem| - right.ordinal
      {
        StepRight(problem, s, rem, offset, right.ordinal);
        TryContract(s, left, right, offset, start);
        right.Next(nopseq);
      }
      StepRight(problem, s, rem, offset, right.ordinal);
    }

    /** Contracts the operators at the cursors if nothing forbids it, explores what follows, and undoes it. */
    method TryContract(ghost s: seq<Pair>, left: Cursor<Op>, right: Cursor<Op>, offset: nat, ghost start: nat)
      requires WellFormed(problem) && InRange(problem, opInputOrdinals)
      requires start <= left.ordinal == offset < right.ordinal < |opInputOrdinals| && (problem.full ==> offset == 0)
      requires StateAt(s) && Reports() && AtNode(problem, s, opInputOrdinals, start)
      requires left.PointsInto(nopseq) && left.rangeIter < |nopseq| && right.PointsInto(nopseq) && right.rangeIter < |nopseq|
      modifies this
      ensures StateAt(s) && Everything() == old(Everything()) && Reports()
      ensures reported == old(reported) + Tried(problem, s, old(opInputOrdinals), left.ordinal, right.ordinal)
      decreases |opInputOrdinals|, 3
    {
      hide NestAt, IsPosition, IsRun, WellFormed, CountersAt, ProductOf, AtNode, Flatten, Remaining, InRange, OrdinalOf, Accepts, Branch,
           TopologicallyUnique, ConnectOk, CanExtend, AcrossNops, Search, NopPartitions.Assigned, NopPartitions.Partitions, Terms;
      ghost var rem, before := opInputOrdinals, Counts();
      NestLength(problem, rem, nopseq);
      assert reported + [] == reported;
      var l, r := opInputOrdinals[left.ordinal], opInputOrdinals[right.ordinal];
      ghost var e := (l, r);
      CursorReads(problem, rem, nopseq, left);
      CursorReads(problem, rem, nopseq, right);
      AcceptsIs(problem, s, rem, start, left, right, nopseq);
      if left.rangeIter != right.rangeIter {
        PairFacts(s, e, left, right);
        if (nopseq[left.rangeIter][left.elemIter], nopseq[right.rangeIter][right.elemIter]) in problem.contractible {
          var isUnique := IsTopologicallyUnique(s, l, r);
          if isUnique {
            var connected := Connect(s, e, left, right);
            if connected {
              CarryOut(s, e, rem, left, right, offset, start);
              CountersUnique(problem, s, before, Counts());
            }
          }
        }
      }
    }

    /** Carries out a contraction that connect has counted, reports and explores, and undoes it. */
    method CarryOut(ghost s: seq<Pair>, ghost e: Pair, ghost rem: seq<nat>, left: Cursor<Op>, right: Cursor<Op>, offset: nat,
                    ghost start: nat)
      requires WellFormed(problem) && InRange(problem, rem) && left.ordinal < right.ordinal < |rem| && rem == opInputOrdinals
      requires e.0 < problem.N() && e.1 < problem.N() && (problem.full ==> left.ordinal == 0)
      requires AtNode(problem, s, rem, start) && CanExtend(problem, s, e) && start <= left.ordinal == offset
      requires ConnectedAt(s, e) && CursorsAt(e, left, right) && Reports()
      modifies this
      ensures StateAt(s) && Reports()
      ensures Everything().(counts := old(Counts()), nopPartitions := old(nopPartitions)) == old(Everything())
      ensures reported == old(reported) + Branch(problem, s, rem, left.ordinal, right.ordinal)
      decreases |opInputOrdinals|, 2
    {
      hide NestAt, IsPosition, IsRun, WellFormed, CountersAt, ProductOf, AtNode, Flatten, Remaining, InRange, OrdinalOf, Branch, CanExtend,
           Search, Removed, Erase, NopPartitions.Assigned, NopPartitions.Partitions, Terms;
      ghost var t, nest := s + [e], nopseq;
      BranchIs(problem, s, e, rem, start, left.ordinal, right.ordinal);
      var l, r, spCopy := opInputOrdinals[left.ordinal], opInputOrdinals[right.ordinal], sp;
      var leftOp, rightOp := Contract(s, e, left, right);
      Descend(t, offset);
      Undo(s, e, left, right, spCopy, leftOp, rightOp, l, r, nest, rem);
    }

    /** Undoes Contract and connect. */
    method Undo(ghost s: seq<Pair>, ghost e: Pair, left: Cursor<Op>, right: Cursor<Op>, spCopy: Product, leftOp: Op, rightOp: Op,
                l: nat, r: nat, ghost nest: seq<seq<Op>>, ghost rem: seq<nat>)
      requires StateAt(s + [e]) && IsRun(problem, s) && rem == Remaining(problem, s) && NestAt(problem, rem, nest)
      requires e == (l, r) && At(rem, e, left.ordinal, right.ordinal) && left.rangeIter != right.rangeIter
      requires left.rangeIter < |nest| && right.rangeIter < |nest| && left.PointsInto(nest) && right.PointsInto(nest)
      requires Removed(nest, left.rangeIter, left.elemIter, right.rangeIter, right.elemIter, leftOp, rightOp, nopseq)
      requires opInputOrdinals == Erase(Erase(rem, right.ordinal), left.ordinal) && spCopy == ProductOf(problem, s)
      modifies `sp, `nopseq, `opInputOrdinals, `nopseqSize, `contractions, `nopConnections, `nopAdjacencyMatrix, `nopNConnections, `nopPartitions,
               `opPartitionCdegMatrix, `opPartitionNContractions
      ensures StateAt(s) && nopseq == nest
    {
      hide NestAt, IsPosition, IsRun, WellFormed, CountersAt, ProductOf, Flatten, Remaining, OrdinalOf, Removed, Offset;
      sp := spCopy;
      RestorePair(left, right, leftOp, rightOp, l, r, nest, rem);
      Disconnect(s, e, left, right);
    }

    /** The state of s with contraction e counted but its operators still in place. */
    ghost predicate ConnectedAt(s: seq<Pair>, e: Pair)
      reads this
    {
      && Constants() && IsRun(problem, s) && opInputOrdinals == Remaining(problem, s)
      && NestAt(problem, opInputOrdinals, nopseq) && nopseqSize == |opInputOrdinals| && sp == ProductOf(problem, s)
      && CountersAt(problem, s + [e], Counts()) && Grouped()
    }

    /** Multiplies in the contraction with its sign and takes its operators out. */
    method Contract(ghost s: seq<Pair>, ghost e: Pair, left: Cursor<Op>, right: Cursor<Op>) returns (leftOp: Op, rightOp: Op)
      requires ConnectedAt(s, e) && CursorsAt(e, left, right) && CanExtend(problem, s, e)
      modifies `sp, `nopseq, `opInputOrdinals, `nopseqSize
      ensures StateAt(s + [e])
      ensures Removed(old(nopseq), left.rangeIter, left.elemIter, right.rangeIter, right.elemIter, leftOp, rightOp, nopseq)
      ensures opInputOrdinals == Erase(Erase(old(opInputOrdinals), right.ordinal), left.ordinal)
    {
      hide NestAt, IsPosition, IsRun, WellFormed, CountersAt, ProductOf, Flatten, Remaining, OrdinalOf, CanExtend, AcrossNops, Removed;
      PairFacts(s, e, left, right);
      RunSnoc(problem, s, e);
      RemainingSnoc(problem, s, left.ordinal, right.ordinal);
      var phase := 1;
      if problem.fermi {
        var distance := right.ordinal - left.ordinal - 1;
        if distance % 2 != 0 { phase := phase * -1; }
      }
      AcrossIs(problem, e);
      ProductSnoc(problem, s, e, opInputOrdinals, left.ordinal, right.ordinal, sp, phase);
      sp := Product(sp.scalar * phase, sp.factors + [(nopseq[left.rangeIter][left.elemIter], nopseq[right.rangeIter][right.elemIter])]);
      leftOp, rightOp := RemovePair(e, left, right);
    }

    /** Reports the contractions made if they are wanted, and explores what can be added. */
    method Descend(ghost t: seq<Pair>, offset: nat)
      requires StateAt(t) && Reports() && AtNode(problem, t, opInputOrdinals, offset)
      modifies this
      ensures StateAt(t) && Everything() == old(Everything()) && Reports()
      ensures InRange(problem, old(opInputOrdinals)) && offset <= |old(opInputOrdinals)| && (problem.full ==> offset == 0)
      ensures reported == old(reported) + (if !problem.full || old(opInputOrdinals) == [] then [t] else [])
                          + (if old(opInputOrdinals) != [] then Search(problem, t, old(opInputOrdinals), offset) else [])
      decreases |opInputOrdinals|, 6
    {
      hide NestAt, IsPosition, IsRun, WellFormed, CountersAt, ProductOf, AtNode, Flatten, Remaining, InRange, OrdinalOf, Search,
           NopPartitions.Assigned, NopPartitions.Partitions, Terms;
      NestLength(problem, opInputOrdinals, nopseq);
      NodeFacts(problem, t, opInputOrdinals, offset);
      if !problem.full || nopseqSize == 0 {
        Report(t);
      }
      if nopseqSize != 0 {
        level := level + 1;
        leftOpOffset := offset;
        RecursiveNontensorWick(t);
        level := level - 1;
      }
    }
  }

  lemma AcrossIs(p: Problem, e: Pair)
    requires AcrossNops(p, e)
    ensures e.0 < p.N() && e.1 < p.N()
  {
  }

  lemma BranchIs(p: Problem, s: seq<Pair>, e: Pair, rem: seq<nat>, off: nat, i: nat, j: nat)
    requires WellFormed(p) && InRange(p, rem) && At(rem, e, i, j) && (p.full ==> i == 0)
    requires AtNode(p, s, rem, off) && off <= i && e.0 < p.N() && e.1 < p.N() && CanExtend(p, s, e)
    ensures var rest := Erase(Erase(rem, j), i);
            && |rest| < |rem| && InRange(p, rest) && AtNode(p, s + [e], rest, i)
            && Branch(p, s, rem, i, j) == (if !p.full || rest == [] then [s + [e]] else [])
                                         + (if rest != [] then Search(p, s + [e], rest, i) else [])
  {
    hide WellFormed, Search, AtNode, CanExtend;
    NodeStep(p, s, rem, off, i, j);
  }

  /** The sign of one contraction is the parity of the operators left between the two. */
  lemma ProductSnoc(p: Problem, s: seq<Pair>, e: Pair, rem: seq<nat>, i: nat, j: nat, sp: Product, phase: int)
    requires rem == Remaining(p, s) && At(rem, e, i, j) && e.0 < p.N() && e.1 < p.N() && sp == ProductOf(p, s)
    requires phase == if p.fermi && (j - i - 1) % 2 != 0 then -1 else 1
    ensures Product(sp.scalar * phase, sp.factors + [(p.ops[e.0], p.ops[e.1])]) == ProductOf(p, s + [e])
  {
    hide Remaining, RemainingBelow, WickPhase.Between;
    assert rem == RemainingBelow(s, p.N()) by { RemainingIs(p, s); }
    WickPhase.BetweenSize(s, p.N(), e, i, j);
    ContractionOpsSnoc(p, s, e);
    assert Init(s + [e]) == s && Last(s + [e]) == e;
  }

  lemma RemainingIs(p: Problem, s: seq<Pair>)
    ensures Remaining(p, s) == RemainingBelow(s, p.N())
  {
  }

  /** The tests of the search for the operators at two cursors. */
  lemma AcceptsIs(p: Problem, s: seq<Pair>, rem: seq<nat>, start: nat, left: Cursor<Op>, right: Cursor<Op>, nest: seq<seq<Op>>)
    requires WellFormed(p) && NestAt(p, rem, nest) && AtNode(p, s, rem, start)
    requires left.PointsInto(nest) && left.rangeIter < |nest| && right.PointsInto(nest) && right.rangeIter < |nest|
    requires start <= left.ordinal < right.ordinal < |rem| && (p.full ==> left.ordinal == 0)
    ensures rem[left.ordinal] < p.N() && rem[right.ordinal] < p.N()
    ensures var (l, r) := (rem[left.ordinal], rem[right.ordinal]);
            && (CanExtend(p, s, (l, r)) <==> Accepts(p, s, l, r))
            && (Accepts(p, s, l, r) <==>
                  && left.rangeIter != right.rangeIter && (p.ops[l], p.ops[r]) in p.contractible
                  && TopologicallyUnique(p, s, (l, r)) && ConnectOk(p, s, (l, r)))
  {
    hide WellFormed, NestAt, AtNode, IsPosition, CanExtend, TopologicallyUnique, ConnectOk;
    NestPosition(p, rem, nest, left.rangeIter, left.elemIter, left.ordinal);
    NestPosition(p, rem, nest, right.rangeIter, right.elemIter, right.ordinal);
    ExtendIffAccepts(p, s, rem, start, left.ordinal, right.ordinal);
  }

  /** What one try emits. */
  ghost function Tried(p: Problem, s: seq<Pair>, rem: seq<nat>, i: nat, j: nat): seq<seq<Pair>>
    requires WellFormed(p) && InRange(p, rem) && i < j < |rem| && (p.full ==> i == 0)
  {
    if Accepts(p, s, rem[i], rem[j]) then Branch(p, s, rem, i, j) else []
  }

  ghost function Branch(p: Problem, s: seq<Pair>, rem: seq<nat>, i: nat, j: nat): seq<seq<Pair>> {
    if WellFormed(p) && InRange(p, rem) && i < j < |rem| && (p.full ==> i == 0) then Visit(p, s, rem, i, j) else []
  }

  /** A cursor before the end is at an operator. */
  lemma BeforeEnd(nest: seq<seq<Op>>, cursor: Cursor<Op>)
    requires cursor.PointsInto(nest) && cursor.ordinal < |Flatten(nest)|
    ensures cursor.rangeIter < |nest| && cursor.elemIter < |nest[cursor.rangeIter]|
  {
  }

  lemma CursorReads(p: Problem, rem: seq<nat>, nest: seq<seq<Op>>, cursor: Cursor<Op>)
    requires NestAt(p, rem, nest) && cursor.PointsInto(nest) && cursor.rangeIter < |nest|
    ensures cursor.elemIter < |nest[cursor.rangeIter]| && cursor.ordinal < |rem| && rem[cursor.ordinal] < p.N()
    ensures nest[cursor.rangeIter][cursor.elemIter] == p.ops[rem[cursor.ordinal]]
  {
    NestPosition(p, rem, nest, cursor.rangeIter, cursor.elemIter, cursor.ordinal);
  }

  lemma NestLength(p: Problem, rem: seq<nat>, nest: seq<seq<Op>>)
    requires NestAt(p, rem, nest)
    ensures |Flatten(nest)| == |rem| && InRange(p, rem) && |nest| == p.nnops
  {
  }

  lemma NodeFacts(p: Problem, s: seq<Pair>, rem: seq<nat>, off: nat)
    requires WellFormed(p) && AtNode(p, s, rem, off)
    ensures off <= |rem| && (p.full ==> off == 0)
  {
  }

  lemma SearchIs(p: Problem, s: seq<Pair>, rem: seq<nat>, off: nat)
    requires WellFormed(p) && InRange(p, rem) && off <= |rem| && (p.full ==> off == 0 && rem != [])
    ensures Search(p, s, rem, off)
            == if p.full && p.ops[rem[off]] !in p.qpAnnihilators then []
               else LeftLoop(p, s, rem, off, if p.full then off + 1 else |rem|)
  {
  }

  lemma StepLeft(p: Problem, s: seq<Pair>, rem: seq<nat>, i: nat, fence: nat)
    requires WellFormed(p) && InRange(p, rem) && i <= fence <= |rem| && (p.full ==> fence == 1)
    ensures i < fence ==>
              LeftLoop(p, s, rem, i, fence) == RightLoop(p, s, rem, i, i + 1) + LeftLoop(p, s, rem, i + 1, fence)
    ensures LeftLoop(p, s, rem, fence, fence) == []
  {
  }

  lemma StepRight(p: Problem, s: seq<Pair>, rem: seq<nat>, i: nat, j: nat)
    requires WellFormed(p) && InRange(p, rem) && i < j <= |rem| && (p.full ==> i == 0)
    ensures j == |rem| ==> RightLoop(p, s, rem, i, j) == []
    ensures j < |rem| ==>
              RightLoop(p, s, rem, i, j)
              == Tried(p, s, rem, i, j) + RightLoop(p, s, rem, i, j + 1)
  {
  }

  lemma FullTermIs(i: Input, t: seq<Pair>)
    requires WellFormed(i.problem) && i.problem.full
    ensures TermOf(i, t) == Term(Scaled(Weight(i.problem, t), CycleFactor(i, t), WickPhase.Phase(i.problem, t)),
                                 ContractionOps(i.problem, t), [], [])
  {
  }

  lemma PartialTermIs(i: Input, t: seq<Pair>, nest: seq<seq<Op>>)
    requires WellFormed(i.problem) && !i.problem.full && NestAt(i.problem, Remaining(i.problem, t), nest)
    ensures var p, cs := i.problem, ContractionOps(i.problem, t);
            var (cre, ann) := NormalOrder.NormalOrdered(nest, PartnerIndices.Joined(i.partners, cs).0);
            TermOf(i, t) == Term(Scaled(Weight(p, t), CycleFactor(i, t), WickPhase.Phase(p, t) * NormalSign(p, cre, ann)), cs, cre, ann)
  {
    hide WellFormed, Weight, CycleFactor, NormalSign, NestAt, NormalOrder.NormalOrdered, Scaled;
    NestIsNestOf(i.problem, Remaining(i.problem, t), nest);
  }

  /** The operators left are numbered in order by their input ordinals. */
  lemma NormalReady(p: Problem, t: seq<Pair>, nest: seq<seq<Op>>)
    requires WellFormed(p) && p.N() > 0 && NestAt(p, Remaining(p, t), nest)
    ensures nest != [] && NormalOrder.Numbers(OrdinalOf(p), Flatten(nest))
  {
    assert p.ops[0].nop < p.nnops;
    hide WellFormed, OrdinalOf;
    RemainingBelowProps(t, p.N());
    OrdinalLabels(p, OrdinalOf(p), Remaining(p, t));
  }

  /** The nest after its operators at (y, b) and (x, a) are erased. */
  ghost predicate Removed(nest: seq<seq<Op>>, x: nat, a: nat, y: nat, b: nat, leftOp: Op, rightOp: Op, after: seq<seq<Op>>) {
    && x < y < |nest| && a < |nest[x]| && b < |nest[y]| && leftOp == nest[x][a] && rightOp == nest[y][b]
    && after == nest[y := Erase(nest[y], b)][x := Erase(nest[x], a)]
  }

  lemma PairRemoval(p: Problem, rem: seq<nat>, nest: seq<seq<Op>>, x: nat, a: nat, i: nat, y: nat, b: nat, j: nat)
    requires NestAt(p, rem, nest) && x < y && i < j && IsPosition(nest, x, a, i) && IsPosition(nest, y, b, j)
    ensures y < |nest| && b < |nest[y]| && a < |nest[x]| && j < |rem|
    ensures var once := nest[y := Erase(nest[y], b)];
            && |once| == |nest| && once[x] == nest[x] && IsPosition(once, x, a, i)
            && NestAt(p, Erase(Erase(rem, j), i), once[x := Erase(once[x], a)])
  {
    hide NestAt;
    NestPosition(p, rem, nest, x, a, i);
    NestPosition(p, rem, nest, y, b, j);
    NestErase(p, rem, nest, y, b, j);
    OffsetUpdate(nest, y, Erase(nest[y], b), x);
    var once := nest[y := Erase(nest[y], b)];
    NestErase(p, Erase(rem, j), once, x, a, i);
  }

  lemma PairRestored(nest: seq<seq<Op>>, x: nat, a: nat, y: nat, b: nat)
    requires x < y < |nest| && a < |nest[x]| && b < |nest[y]|
    ensures var once := nest[y := Erase(nest[y], b)];
            var twice := once[x := Erase(nest[x], a)];
            && twice[x := Insert(twice[x], a, nest[x][a])] == once
            && once[y := Insert(once[y], b, nest[y][b])] == nest
  {
    var once := nest[y := Erase(nest[y], b)];
    InsertRestores(nest, y, b);
    InsertRestores(once, x, a);
  }

  lemma DegeneracyReady(p: Problem, t: seq<Pair>, c: Counters)
    requires WellFormed(p) && IsRun(p, t) && CountersAt(p, t, c)
    ensures p.partitions != [] && WickDegeneracy.Consistent(p.partitions, Degrees(p.partitionOf, t), c.opNContractions)
    ensures Holds(c.opDegrees, |p.partitions|, (a, b) => Degrees(p.partitionOf, t)[(a, b)])
    ensures Factorials.FactVec(WickDegeneracy.Sizes(p.partitions)) == Factorials.FactVec(WickWeights.PartitionSizes(p))
    ensures WickDegeneracy.Symmetry(p.partitions, Degrees(p.partitionOf, t), c.opNContractions) == WickWeights.Denominator(p, t)
  {
    hide WellFormed, IsRun, Degrees, Contracted;
    WickDegeneracy.CountersConsistent(p, t, c.opNContractions);
  }

  /** The entries of row a past column b are stored one after the other. */
  lemma DegreesStored(p: Problem, s: seq<Pair>, c: Counters, a: nat, b: nat)
    requires CountersAt(p, s, c) && a < b < |p.partitions|
    ensures |c.opNContractions| == |p.partitions|
    ensures c.opNContractions[a] == Contracted(p.partitionOf, s, a) && c.opNContractions[b] == Contracted(p.partitionOf, s, b)
    ensures b + 1 < |p.partitions| ==>
              0 <= UptriIdx(a, b + 1, |p.partitions|) <= UptriIdx(a, b + 1, |p.partitions|) + (|p.partitions| - b - 1) <= |c.opDegrees|
    ensures forall k :: b < k < |p.partitions| ==>
              c.opDegrees[UptriIdx(a, b + 1, |p.partitions|) + (k - b - 1)] == Degrees(p.partitionOf, s)[(a, k)]
  {
    hide Contracted, Degrees, UptriIdx, LinksAt, Untracked, MatrixAt;
    var n := |p.partitions|;
    if b + 1 < n {
      EntryStored(c.opDegrees, n, p.partitionOf, s, a, b + 1);
      EntryStored(c.opDegrees, n, p.partitionOf, s, a, n - 1);
      AlongRow(a, b + 1, n - 1, n);
    }
    forall k | b < k < n
      ensures 0 <= UptriIdx(a, b + 1, n) + (k - b - 1) < |c.opDegrees|
      ensures c.opDegrees[UptriIdx(a, b + 1, n) + (k - b - 1)] == Degrees(p.partitionOf, s)[(a, k)]
    {
      EntryStored(c.opDegrees, n, p.partitionOf, s, a, k);
      AlongRow(a, b + 1, k, n);
    }
  }

  lemma AlongRow(i: nat, j: nat, k: nat, n: nat)
    requires i < j <= k < n
    ensures UptriIdx(i, k, n) == UptriIdx(i, j, n) + (k - j)
  {
  }

  lemma EntryStored(m: seq<nat>, n: nat, part: seq<nat>, s: seq<Pair>, a: nat, b: nat)
    requires MatrixAt(m, n, part, s) && a < b < n
    ensures 0 <= UptriIdx(a, b, n) < |m| && m[UptriIdx(a, b, n)] == Degrees(part, s)[(a, b)]
  {
    assert m[UptriIdx(a, b, n)] == Entries(part, s)(a, b);
  }

  /** Marking the normal operators of e connected, whether they were or not. */
  lemma NowConnected(p: Problem, s: seq<Pair>, e: Pair, c: Counters, links: seq<set<nat>>)
    requires CountersAt(p, s, c) && p.Targets() != [] && AcrossNops(p, e)
    requires p.Nop(e.0) < |c.nopConnections| && p.Nop(e.1) < |c.nopConnections|
    requires var x, y := p.Nop(e.0), p.Nop(e.1);
             links == if y in c.nopConnections[x] then c.nopConnections
                      else c.nopConnections[x := c.nopConnections[x] + {y}][y := c.nopConnections[y] + {x}]
    ensures LinksAt(p, links, s + [e])
    ensures var x, y := p.Nop(e.0), p.Nop(e.1);
            y !in c.nopConnections[x] ==>
              links[x := links[x] - {y}][y := links[y] - {x}] == c.nopConnections
  {
    var x, y := p.Nop(e.0), p.Nop(e.1);
    LinksAdd(p, c.nopConnections, s, e);
    assert y in c.nopConnections[x] <==> x in c.nopConnections[y];
  }

  // ---- The start ----

  lemma StartFacts(i: Input)
    requires WellFormed(i.problem)
    ensures IsRun(i.problem, []) && ProductOf(i.problem, []) == Product(1, []) && Terms(i, []) == []
  {
  }

  function Entries0(n: nat): nat {
    if n == 0 then 0 else Ntri(n)
  }

  lemma EmptyFlatten(nest: seq<seq<Op>>, it: Cursor<Op>)
    requires it.PointsInto(nest) && it.ordinal == 0 && (it.rangeIter == |nest| <==> Flatten(nest) == [])
    ensures it.rangeIter == |nest| <==> it.ordinal == |Flatten(nest)|
  {
  }

  lemma OrdinalFound(p: Problem, nest: seq<seq<Op>>, r: nat, e: nat, k: nat)
    requires WellFormed(p) && NestAt(p, Remaining(p, []), nest) && IsPosition(nest, r, e, k)
    ensures r < |nest| && e < |nest[r]| && k < |Remaining(p, [])| && nest[r][e] in OrdinalOf(p)
    ensures OrdinalOf(p)[nest[r][e]] == Remaining(p, [])[k]
  {
    hide WellFormed, NestAt, IsPosition, OrdinalOf, Remaining;
    NestPosition(p, Remaining(p, []), nest, r, e, k);
  }

  lemma StartCounters(p: Problem, c: Counters)
    requires WellFormed(p) && p.N() > 0
    requires c.contractions == [] && c.nopNConnections == seq(p.nnops, _ => 0) && c.opNContractions == seq(|p.partitions|, _ => 0)
    requires c.nopConnections == seq(p.nnops, _ => {}) && c.nopAdjacency == seq(Entries0(p.nnops), _ => 0)
    requires c.opDegrees == seq(Entries0(|p.partitions|), _ => 0)
    ensures CountersAt(p, [], c)
  {
    assert p.ops[0].nop < p.nnops && p.partitionOf[0] < |p.partitions|;
    hide WellFormed;
    StartMatrix(c.opDegrees, |p.partitions|, p.partitionOf);
    StartMatrix(c.nopAdjacency, p.nnops, NopsOf(p));
  }

  lemma StartMatrix(m: seq<nat>, n: nat, part: seq<nat>)
    requires n > 0 && m == seq(Ntri(n), _ => 0)
    ensures MatrixAt(m, n, part, [])
  {
    UptriIdxBijective(n);
  }
}
