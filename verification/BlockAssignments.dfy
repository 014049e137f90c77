/** The search over block assignments as it runs: positions are marked and unmarked in place. */
module BlockAssignments {
  import opened Sequences
  import opened Parity
  import opened RangeNest
  import opened BlockFamilies
  import opened BlockTree
  import opened BlockSigns
  import BlockUniqueness

  /** One call of the sink. */
  datatype Report = Report(sign: int, blocks: seq<Block>, remainder: seq<nat>)

  function ReportOf(v: Survivors, fermi: bool, bs: seq<Block>): Report {
    Report(SignOfBlocks(v, fermi, bs), bs, Rest(Used(bs), v.N()))
  }

  /** A report written out: the sign is that of all legs followed by the remainder, which is what no block holds. */
  lemma ReportIs(v: Survivors, fermi: bool, bs: seq<Block>)
    ensures var r := ReportOf(v, fermi, bs);
            && r.blocks == bs && (fermi ==> r.sign == Sign(Inversions(Flatten(bs) + r.remainder))) && (!fermi ==> r.sign == 1)
            && Increasing(r.remainder)
            && forall x: nat :: x in r.remainder <==> x < v.N() && forall k :: 0 <= k < |bs| ==> x !in bs[k]
  {
    hide Used, Rest, Sign, Inversions, Increasing, Flatten;
    RestAre(Used(bs), v.N());
    forall x: nat ensures x in Used(bs) <==> exists k :: 0 <= k < |bs| && x in bs[k] { UsedMembers(bs, x); }
  }

  /** The legs of b of one kind. */
  ghost function KindSet(v: Survivors, b: Block, creator: bool): set<nat> {
    set x | x in b && x < v.N() && v.creator[x] == creator
  }

  /** A block written out: as many creators as annihilators, from 2 to the maximum, all active, not all of one normal operator. */
  ghost predicate IsBlock(v: Survivors, b: Block)
    requires v.Ok()
  {
    && Increasing(b) && (forall x :: x in b ==> x < v.N() && v.active[x])
    && (exists x, y :: x in b && y in b && v.provenance[x] != v.provenance[y])
    && 2 <= |KindSet(v, b, true)| == |KindSet(v, b, false)| <= v.maxRank
  }

  lemma KindSizes(v: Survivors, b: Block)
    requires v.Ok() && Increasing(b) && forall x :: x in b ==> x < v.N()
    ensures |OfKind(v, b, true)| == |KindSet(v, b, true)| && |OfKind(v, b, false)| == |KindSet(v, b, false)|
  {
    hide OfKind;
    KindNoDup(v, b, true);
    KindNoDup(v, b, false);
    assert Elems(OfKind(v, b, true)) == KindSet(v, b, true) && Elems(OfKind(v, b, false)) == KindSet(v, b, false);
  }

  lemma KindNoDup(v: Survivors, b: Block, creator: bool)
    requires Increasing(b)
    ensures forall x :: x in OfKind(v, b, creator) <==> x in b && x < v.N() && v.creator[x] == creator
    ensures |Elems(OfKind(v, b, creator))| == |OfKind(v, b, creator)|
  {
    hide OfKind, NoDup, Increasing;
    OfKindAre(v, b, creator);
    IncreasingNoDup(OfKind(v, b, creator));
    NoDupSize(OfKind(v, b, creator));
  }

  lemma BlockIs(v: Survivors, b: Block)
    requires v.Ok()
    ensures IsLegal(v, b) <==> IsBlock(v, b)
  {
    hide OfKind, KindSet, SeveralProvenances, Increasing;
    if k: nat :| Legal(v, b, k) {
      forall x | x in b ensures x < v.N() && v.active[x] { var i :| 0 <= i < |b| && b[i] == x; }
      KindSizes(v, b);
      ProvenancesAre(v, b);
    }
    if IsBlock(v, b) {
      KindSizes(v, b);
      ProvenancesAre(v, b);
      forall i | 0 <= i < |b| ensures b[i] < v.N() && v.active[b[i]] { assert b[i] in b; }
      assert Legal(v, b, |KindSet(v, b, true)|);
    }
  }

  lemma ProvenancesAre(v: Survivors, b: Block)
    requires v.Ok() && forall x :: x in b ==> x < v.N()
    ensures SeveralProvenances(v, b) <==> exists x, y :: x in b && y in b && v.provenance[x] != v.provenance[y]
  {
    assert forall i :: 0 <= i < |b| ==> b[i] in b;
    if x, y :| x in b && y in b && v.provenance[x] != v.provenance[y] {
      var i :| 0 <= i < |b| && b[i] == x;
      var j :| 0 <= j < |b| && b[j] == y;
      assert v.provenance[b[i]] != v.provenance[b[0]] || v.provenance[b[j]] != v.provenance[b[0]];
    }
  }

  ghost predicate Held(bs: seq<Block>, x: nat) {
    exists i :: 0 <= i < |bs| && x in bs[i]
  }

  /** What is wanted, written out: disjoint blocks by lowest leg, which leave nothing if only full contractions are wanted. */
  lemma WantedIs(v: Survivors, bs: seq<Block>)
    requires v.Ok()
    ensures Wanted(v, bs) <==>
              && (forall i :: 0 <= i < |bs| ==> IsBlock(v, bs[i]) && bs[i] != [])
              && (forall i, j, x :: 0 <= i < j < |bs| && x in bs[i] ==> x !in bs[j])
              && (forall i, j :: 0 <= i < j < |bs| ==> bs[i] != [] && bs[j] != [] && bs[i][0] < bs[j][0])
              && (v.full ==> forall x: nat :: x < v.N() ==> Held(bs, x))
  {
    hide IsLegal, IsBlock, Used, Held, Covers;
    forall i | 0 <= i < |bs| ensures IsLegal(v, bs[i]) <==> IsBlock(v, bs[i]) { BlockIs(v, bs[i]); }
    DisjointIs(bs);
    CoversIs(v, bs);
  }

  lemma CoversIs(v: Survivors, bs: seq<Block>)
    ensures Covers(v, bs) <==> forall x: nat :: x < v.N() ==> Held(bs, x)
  {
    forall x: nat ensures x in Used(bs) <==> Held(bs, x) { UsedMembers(bs, x); }
    hide Held;
    if forall x: nat :: x < v.N() ==> Held(bs, x) {
      forall x: nat | x < v.N() ensures x in Used(bs) { assert Held(bs, x); }
    }
  }

  lemma DisjointIs(bs: seq<Block>)
    ensures (forall j :: 0 <= j < |bs| ==> Elems(bs[j]) !! Used(bs[..j])) <==>
            (forall i, j, x :: 0 <= i < j < |bs| && x in bs[i] ==> x !in bs[j])
  {
    hide Used;
    if forall i, j, x :: 0 <= i < j < |bs| && x in bs[i] ==> x !in bs[j] {
      forall j | 0 <= j < |bs| ensures Elems(bs[j]) !! Used(bs[..j]) {
        forall x | x in Elems(bs[j]) ensures x !in Used(bs[..j]) { UsedBefore(bs, j, x); }
      }
    }
    if forall j :: 0 <= j < |bs| ==> Elems(bs[j]) !! Used(bs[..j]) {
      forall i, j, x | 0 <= i < j < |bs| && x in bs[i] ensures x !in bs[j] {
        UsedBefore(bs, j, x);
        assert Elems(bs[j]) !! Used(bs[..j]);
      }
    }
  }

  lemma UsedBefore(bs: seq<Block>, j: nat, x: nat)
    requires j <= |bs|
    ensures x in Used(bs[..j]) <==> exists i :: 0 <= i < j && x in bs[i]
  {
    UsedMembers(bs[..j], x);
    if i :| 0 <= i < j && x in bs[i] { assert bs[..j][i] == bs[i]; }
  }

  function Reports(v: Survivors, fermi: bool, ts: seq<seq<Block>>): seq<Report> {
    seq(|ts|, i requires 0 <= i < |ts| => ReportOf(v, fermi, ts[i]))
  }

  lemma ReportsConcat(v: Survivors, fermi: bool, a: seq<seq<Block>>, b: seq<seq<Block>>)
    ensures Reports(v, fermi, a + b) == Reports(v, fermi, a) + Reports(v, fermi, b)
  {
    hide ReportOf;
  }

  const UNASSIGNED := -1

  /** assignment names for every leg the block that holds it, and marks the others as unassigned. */
  ghost predicate Marks(v: Survivors, a: seq<int>, bs: seq<Block>) {
    && |a| == v.N() && NoDup(Flatten(bs)) && AllBelow(Flatten(bs), v.N())
    && (forall i: nat :: i < |a| ==> (a[i] == UNASSIGNED <==> i !in Used(bs)))
    && forall i: nat :: i < |a| && a[i] != UNASSIGNED ==> 0 <= a[i] < |bs| && i in bs[a[i]]
  }

  ghost predicate Overwritten(a: seq<int>, b: Block, id: int, c: seq<int>) {
    |c| == |a| && forall i: nat :: i < |a| ==> c[i] == if i in b then id else a[i]
  }

  /** Erasing the name of a block of free legs gives back what was there before. */
  lemma Unmarked(v: Survivors, a: seq<int>, bs: seq<Block>, c: seq<int>, d: seq<int>, b: Block)
    requires Marks(v, a, bs) && Elems(b) !! Used(bs) && Overwritten(a, b, |bs|, c) && Overwritten(c, b, UNASSIGNED, d)
    ensures d == a
  {
    hide Used, NoDup;
    forall i: nat | i < |a| ensures d[i] == a[i] {
      if i in b { assert i in Elems(b); }
    }
  }

  lemma CoversNothingLeft(v: Survivors, bs: seq<Block>)
    ensures Covers(v, bs) <==> Rest(Used(bs), v.N()) == []
  {
    hide Used, Rest;
    RestAre(Used(bs), v.N());
    var r := Rest(Used(bs), v.N());
    if r != [] { assert r[0] in r; }
  }

  /** Writing the name of a new block over its legs. */
  lemma MarkMore(v: Survivors, a: seq<int>, bs: seq<Block>, c: seq<int>, b: Block)
    requires Marks(v, a, bs) && NoDup(b) && AllBelow(b, v.N()) && Elems(b) !! Used(bs)
    requires Overwritten(a, b, |bs|, c)
    ensures Marks(v, c, bs + [b])
  {
    hide Used, NoDup;
    assert Init(bs + [b]) == bs && Last(bs + [b]) == b;
    UsedSnoc(bs, b);
    forall x | x in Flatten(bs) ensures x !in b { FlattenUsed(bs, x); }
    NoDupConcat(Flatten(bs), b);
    assert Flatten(bs + [b]) == Flatten(bs) + b;
    assert forall j :: 0 <= j < |bs| ==> (bs + [b])[j] == bs[j];
  }

  class BlockSearch {
    const v: Survivors
    const fermi: bool
    const assignment: array<int>
    var blocks: seq<Block>
    var reported: seq<Report>

    ghost predicate Valid()
      reads this, assignment
    {
      v.Ok() && assignment.Length == v.N() && Marks(v, assignment[..], blocks)
    }

    constructor (v: Survivors, fermi: bool)
      requires v.Ok()
      ensures this.v == v && this.fermi == fermi && fresh(assignment)
      ensures Valid() && blocks == [] && reported == []
    {
      this.v, this.fermi := v, fermi;
      this.assignment := new int[v.N()](_ => UNASSIGNED);
      this.blocks, this.reported := [], [];
    }

    /** Sign of [blocks][remainder] by counting the pairs that are out of order. */
    method SignOf(perm: seq<nat>) returns (sign: int)
      ensures sign == if fermi then Sign(Inversions(perm)) else 1
    {
      sign := 1;
      if fermi {
        ghost var count := 0;
        for i := 0 to |perm|
          invariant sign == Sign(count) && count + Inversions(perm[i..]) == Inversions(perm)
        {
          assert perm[i..][0] == perm[i] && perm[i..][1..] == perm[i + 1..];
          for j := i + 1 to |perm|
            invariant sign == Sign(count)
            invariant count + CountBelow(perm[j..], perm[i]) + Inversions(perm[i + 1..]) == Inversions(perm)
          {
            assert perm[j..][0] == perm[j] && perm[j..][1..] == perm[j + 1..];
            if perm[i] > perm[j] { sign, count := -sign, count + 1; }
          }
        }
      }
    }

    method Emit()
      requires Valid()
      modifies this`reported
      ensures reported == old(reported) + Reports(v, fermi, if v.full && !Covers(v, blocks) then [] else [blocks])
      ensures forall r :: r in reported[|old(reported)|..] ==>
                r.blocks == blocks && r.sign == if fermi then Sign(Inversions(Flatten(blocks) + r.remainder)) else 1
    {
      hide Used, Inversions, Covers;
      var remainder: seq<nat> := [];
      for i := 0 to v.N()
        invariant remainder == Rest(Used(blocks), i)
      {
        if assignment[i] == UNASSIGNED { remainder := remainder + [i]; }
      }
      CoversNothingLeft(v, blocks);
      if v.full && remainder != [] { return; }
      var perm: seq<nat> := [];
      for i := 0 to |blocks|
        invariant perm == Flatten(blocks[..i])
      {
        assert Init(blocks[..i + 1]) == blocks[..i];
        perm := perm + blocks[i];
      }
      assert blocks[..|blocks|] == blocks;
      perm := perm + remainder;
      ArrangementPermutes(v, blocks);
      var sign := SignOf(perm);
      reported := reported + [Report(sign, blocks, remainder)];
    }

    method SkipAssigned(first: nat) returns (f: nat)
      requires Valid() && first <= v.N()
      ensures f == NextFree(v, Used(blocks), first)
    {
      hide Used;
      f := first;
      while f != v.N() && assignment[f] != UNASSIGNED
        invariant first <= f <= v.N() && NextFree(v, Used(blocks), f) == NextFree(v, Used(blocks), first)
      {
        f := f + 1;
      }
    }

    method Collect(from: nat) returns (cre: seq<nat>, ann: seq<nat>)
      requires Valid() && from <= v.N()
      ensures cre == Candidates(v, Used(blocks), from, true) && ann == Candidates(v, Used(blocks), from, false)
    {
      hide Used, Marks;
      cre, ann := [], [];
      for i := from to v.N()
        invariant cre + Candidates(v, Used(blocks), i, true) == Candidates(v, Used(blocks), from, true)
        invariant ann + Candidates(v, Used(blocks), i, false) == Candidates(v, Used(blocks), from, false)
      {
        MarkOf(v, assignment[..], blocks, i);
        Regroup(cre, i, Candidates(v, Used(blocks), i + 1, true));
        Regroup(ann, i, Candidates(v, Used(blocks), i + 1, false));
        if assignment[i] == UNASSIGNED && v.active[i] {
          if v.creator[i] { cre := cre + [i]; } else { ann := ann + [i]; }
        }
      }
    }

    /** Decides the fate of the first undecided operator at or after first. */
    method Recurse(first: nat)
      requires Valid() && first <= v.N()
      modifies this`blocks, this`reported, assignment
      ensures blocks == old(blocks) && assignment[..] == old(assignment[..])
      ensures reported == old(reported) + Reports(v, fermi, Tree(v, old(blocks), first))
      decreases v.N() - first, 4, 0
    {
      hide Used, Marks, Covers, Ranks, NextFree, Reports, Tree;
      FreeIsFree(v, blocks, first);
      TreeReports(v, fermi, blocks, first);
      var f := SkipAssigned(first);
      if f == v.N() {
        Emit();
        return;
      }
      if !v.full { Recurse(f + 1); }
      if v.maxRank < 2 || !v.active[f] { return; }
      PickRanks(f);
    }

    method PickRanks(f: nat)
      requires Valid() && f < v.N() && f !in Used(blocks) && v.active[f]
      modifies this`blocks, this`reported, assignment
      ensures blocks == old(blocks) && assignment[..] == old(assignment[..])
      ensures reported == old(reported) + Reports(v, fermi, Ranks(v, old(blocks), f, 2))
      decreases v.N() - f, 3, 0
    {
      hide Used, Marks, Picks, Reports, Sames, Candidates;
      NothingReported(v, fermi);
      var cre, ann := Collect(f + 1);
      var same := if v.creator[f] then cre else ann;
      var other := if v.creator[f] then ann else cre;
      var k := 2;
      while k <= v.maxRank
        invariant k >= 2 && Valid() && blocks == old(blocks) && assignment[..] == old(assignment[..])
        invariant reported + Reports(v, fermi, Ranks(v, blocks, f, k)) == old(reported) + Reports(v, fermi, Ranks(v, blocks, f, 2))
      {
        if |same| + 1 < k || |other| < k { break; }
        ReportsConcat(v, fermi, Sames(v, blocks, f, Picks(same, k - 1), Picks(other, k)), Ranks(v, blocks, f, k + 1));
        PickSame(f, k, Picks(same, k - 1), Picks(other, k));
        k := k + 1;
      }
    }

    method PickSame(f: nat, k: nat, ss: seq<seq<nat>>, os: seq<seq<nat>>)
      requires Valid() && f < v.N() && f !in Used(blocks) && v.active[f] && 2 <= k <= v.maxRank
      requires ss == Picks(Same(v, blocks, f), k - 1) && os == Picks(Other(v, blocks, f), k)
      modifies this`blocks, this`reported, assignment
      ensures blocks == old(blocks) && assignment[..] == old(assignment[..])
      ensures reported == old(reported) + Reports(v, fermi, Sames(v, old(blocks), f, ss, os))
      decreases v.N() - f, 2, 0
    {
      hide Used, Marks, Picks, Reports, Others, Same, Other;
      NothingReported(v, fermi);
      for i := 0 to |ss|
        invariant Valid() && blocks == old(blocks) && assignment[..] == old(assignment[..])
        invariant reported + Reports(v, fermi, Sames(v, blocks, f, ss[i..], os)) == old(reported) + Reports(v, fermi, Sames(v, blocks, f, ss, os))
      {
        assert ss[i..][0] == ss[i] && ss[i..][1..] == ss[i + 1..];
        ReportsConcat(v, fermi, Others(v, blocks, f, ss[i], os), Sames(v, blocks, f, ss[i + 1..], os));
        PickOther(f, k, ss[i], os);
      }
    }

    method PickOther(f: nat, k: nat, s: seq<nat>, os: seq<seq<nat>>)
      requires Valid() && f < v.N() && f !in Used(blocks) && v.active[f] && 2 <= k <= v.maxRank
      requires s in Picks(Same(v, blocks, f), k - 1) && os == Picks(Other(v, blocks, f), k)
      modifies this`blocks, this`reported, assignment
      ensures blocks == old(blocks) && assignment[..] == old(assignment[..])
      ensures reported == old(reported) + Reports(v, fermi, Others(v, old(blocks), f, s, os))
      decreases v.N() - f, 1, 0
    {
      hide Used, Marks, Picks, Reports, Try, Same, Other;
      NothingReported(v, fermi);
      for i := 0 to |os|
        invariant Valid() && blocks == old(blocks) && assignment[..] == old(assignment[..])
        invariant reported + Reports(v, fermi, Others(v, blocks, f, s, os[i..])) == old(reported) + Reports(v, fermi, Others(v, blocks, f, s, os))
      {
        assert os[i..][0] == os[i] && os[i..][1..] == os[i + 1..];
        ReportsConcat(v, fermi, Try(v, blocks, f, s, os[i]), Others(v, blocks, f, s, os[i + 1..]));
        TryBlock(f, k, s, os[i]);
      }
    }

    /** Marks the block and recurses, unless all its legs come from one normal operator. */
    method TryBlock(f: nat, k: nat, s: seq<nat>, o: seq<nat>)
      requires Valid() && f < v.N() && f !in Used(blocks) && v.active[f] && 2 <= k <= v.maxRank
      requires s in Picks(Same(v, blocks, f), k - 1) && o in Picks(Other(v, blocks, f), k)
      modifies this`blocks, this`reported, assignment
      ensures blocks == old(blocks) && assignment[..] == old(assignment[..])
      ensures reported == old(reported) + Reports(v, fermi, Try(v, old(blocks), f, s, o))
      decreases v.N() - f, 0, 0
    {
      hide Used, Marks, Picks, Reports, Same, Other, BlockOf, SeveralProvenances, Tree, NoDup, AllBelow;
      NothingReported(v, fermi);
      var block := BlockOf(f, s, o);
      if !SeveralProvenances(v, block) { return; }
      BlockIsFree(v, blocks, f, k, s, o);
      ghost var was, bs := assignment[..], blocks;
      Assign(block, |blocks|);
      MarkMore(v, was, bs, assignment[..], block);
      ghost var marked := assignment[..];
      blocks := blocks + [block];
      Recurse(f + 1);
      assert assignment[..] == marked;
      blocks := blocks[..|blocks| - 1];
      assert blocks == bs;
      Assign(block, UNASSIGNED);
      Unmarked(v, was, bs, marked, assignment[..], block);
    }

    method Assign(b: Block, id: int)
      requires AllBelow(b, assignment.Length)
      modifies assignment
      ensures Overwritten(old(assignment[..]), b, id, assignment[..])
    {
      for j := 0 to |b|
        invariant Overwritten(old(assignment[..]), b[..j], id, assignment[..])
      {
        assert b[j] in b;
        assignment[b[j]] := id;
        assert b[..j + 1] == b[..j] + [b[j]];
      }
      assert b[..|b|] == b;
    }
  }

  lemma MarkOf(v: Survivors, a: seq<int>, bs: seq<Block>, i: nat)
    requires Marks(v, a, bs) && i < |a|
    ensures a[i] == UNASSIGNED <==> i !in Used(bs)
  {
    hide Used;
  }

  lemma Regroup(a: seq<nat>, x: nat, b: seq<nat>)
    ensures a + ([x] + b) == a + [x] + b && a + ([] + b) == a + b
  {
  }

  lemma NothingReported(v: Survivors, fermi: bool)
    ensures Reports(v, fermi, []) == []
  {
  }

  /** What one call reports, in the order of its branches. */
  lemma TreeReports(v: Survivors, fermi: bool, bs: seq<Block>, first: nat)
    requires v.Ok() && first <= v.N()
    ensures var f := NextFree(v, Used(bs), first);
            Reports(v, fermi, Tree(v, bs, first)) ==
            if f == v.N() then Reports(v, fermi, if v.full && !Covers(v, bs) then [] else [bs])
            else (if !v.full then Reports(v, fermi, Tree(v, bs, f + 1)) else [])
                 + (if v.maxRank < 2 || !v.active[f] then [] else Reports(v, fermi, Ranks(v, bs, f, 2)))
  {
    hide Used, Covers, Ranks, Reports, Tree, NextFree;
    var f := NextFree(v, Used(bs), first);
    NothingReported(v, fermi);
    TreeIs(v, bs, first);
    if f < v.N() {
      var later := if !v.full then Tree(v, bs, f + 1) else [];
      var here := if v.maxRank < 2 || !v.active[f] then [] else Ranks(v, bs, f, 2);
      ReportsConcat(v, fermi, later, here);
    }
  }

  lemma TreeIs(v: Survivors, bs: seq<Block>, first: nat)
    requires v.Ok() && first <= v.N()
    ensures var f := NextFree(v, Used(bs), first);
            Tree(v, bs, first) ==
            if f == v.N() then if v.full && !Covers(v, bs) then [] else [bs]
            else (if !v.full then Tree(v, bs, f + 1) else []) + (if v.maxRank < 2 || !v.active[f] then [] else Ranks(v, bs, f, 2))
  {
    hide Used, Covers, Ranks;
  }

  lemma BlockIsFree(v: Survivors, bs: seq<Block>, f: nat, k: nat, s: seq<nat>, o: seq<nat>)
    requires v.Ok() && f < v.N() && f !in Used(bs) && v.active[f] && 2 <= k <= v.maxRank
    requires s in Picks(Same(v, bs, f), k - 1) && o in Picks(Other(v, bs, f), k)
    ensures var b := BlockOf(f, s, o); NoDup(b) && AllBelow(b, v.N()) && Elems(b) !! Used(bs)
  {
    hide Used, Picks, Candidates, Sort, NoDup;
    CandidatesAre(v, Used(bs), f + 1, v.creator[f]);
    CandidatesAre(v, Used(bs), f + 1, !v.creator[f]);
    PicksAre(Same(v, bs, f), k - 1, s);
    PicksAre(Other(v, bs, f), k, o);
    ChosenLegs(v, bs, f, k, s, o);
    SortFacts([f] + s + o);
    IncreasingNoDup(BlockOf(f, s, o));
  }

  /** Reports every wanted family of disjoint legal blocks exactly once, with its sign and remainder. */
  method ForEachBlockAssignment(v: Survivors, fermi: bool) returns (reported: seq<Report>)
    requires v.Ok()
    ensures NoDup(reported)
    ensures forall bs :: Wanted(v, bs) <==> ReportOf(v, fermi, bs) in reported
    ensures forall r :: r in reported ==> r == ReportOf(v, fermi, r.blocks) && Wanted(v, r.blocks)
    ensures forall r :: r in reported ==>
              && (fermi ==> r.sign == Sign(Inversions(Flatten(r.blocks) + r.remainder))) && (!fermi ==> r.sign == 1)
              && Increasing(r.remainder)
              && forall x: nat :: x in r.remainder <==> x < v.N() && forall k :: 0 <= k < |r.blocks| ==> x !in r.blocks[k]
  {
    hide Tree, Wanted, NoDup, ReportOf, Sign, Inversions, Flatten;
    var search := new BlockSearch(v, fermi);
    search.Recurse(0);
    reported := search.reported;
    BlockUniqueness.ReportedOnce(v);
    ReportsMembers(v, fermi, Tree(v, [], 0));
    assert [] + Reports(v, fermi, Tree(v, [], 0)) == Reports(v, fermi, Tree(v, [], 0));
    forall bs ensures Wanted(v, bs) <==> ReportOf(v, fermi, bs) in reported { ReportIs(v, fermi, bs); }
    forall r | r in reported
      ensures (fermi ==> r.sign == Sign(Inversions(Flatten(r.blocks) + r.remainder))) && (!fermi ==> r.sign == 1)
      ensures Increasing(r.remainder)
      ensures forall x: nat :: x in r.remainder <==> x < v.N() && forall k :: 0 <= k < |r.blocks| ==> x !in r.blocks[k]
    {
      ReportIs(v, fermi, r.blocks);
    }
  }

  lemma ReportsMembers(v: Survivors, fermi: bool, ts: seq<seq<Block>>)
    requires NoDup(ts)
    ensures NoDup(Reports(v, fermi, ts))
    ensures forall t :: t in ts ==> ReportOf(v, fermi, t) in Reports(v, fermi, ts)
    ensures forall r :: r in Reports(v, fermi, ts) ==> r == ReportOf(v, fermi, r.blocks) && r.blocks in ts
  {
    var rs := Reports(v, fermi, ts);
    forall i, j | 0 <= i < j < |rs| ensures rs[i] != rs[j] {
      assert rs[i].blocks == ts[i] && rs[j].blocks == ts[j];
    }
    forall t | t in ts ensures ReportOf(v, fermi, t) in rs {
      var i :| 0 <= i < |ts| && ts[i] == t;
      assert rs[i] == ReportOf(v, fermi, t);
    }
  }
}
