/** The tree of choices that reports block assignments, and the proof that it reports every wanted family once. */
module BlockTree {
  import opened Sequences
  import opened BlockFamilies

  /** Unassigned active operators of one kind, from a position on. */
  function Candidates(v: Survivors, used: set<nat>, from: nat, creator: bool): seq<nat>
    requires v.Ok()
    decreases v.N() - from
  {
    if from >= v.N() then []
    else (if from !in used && v.active[from] && v.creator[from] == creator then [from] else [])
         + Candidates(v, used, from + 1, creator)
  }

  lemma {:induction false} CandidatesAre(v: Survivors, used: set<nat>, from: nat, creator: bool)
    requires v.Ok()
    ensures Increasing(Candidates(v, used, from, creator))
    ensures forall x: nat :: x in Candidates(v, used, from, creator) <==>
              from <= x < v.N() && x !in used && v.active[x] && v.creator[x] == creator
    decreases v.N() - from
  {
    hide Increasing;
    if from < v.N() {
      CandidatesAre(v, used, from + 1, creator);
      PrependIncreasing(from, Candidates(v, used, from + 1, creator));
    } else {
      NothingIncreasing();
    }
  }

  lemma NothingIncreasing()
    ensures Increasing([])
  {
  }

  lemma PrependIncreasing(x: nat, r: seq<nat>)
    requires Increasing(r) && forall y :: y in r ==> x < y
    ensures Increasing([x] + r) && Increasing([] + r)
    ensures forall y :: y in [x] + r <==> y == x || y in r
    ensures [] + r == r
  {
    hide Increasing;
    assert forall i :: 0 <= i < |r| ==> r[i] in r;
    PrependOrder(x, r);
    assert [] + r == r;
  }

  /** The first unassigned position, or the end. */
  function NextFree(v: Survivors, used: set<nat>, first: nat): (f: nat)
    requires first <= v.N()
    ensures first <= f <= v.N() && (f < v.N() ==> f !in used) && forall x :: first <= x < f ==> x in used
    decreases v.N() - first
  {
    if first == v.N() || first !in used then first else NextFree(v, used, first + 1)
  }

  ghost function Tree(v: Survivors, bs: seq<Block>, first: nat): seq<seq<Block>>
    requires v.Ok() && first <= v.N()
    decreases v.N() - first, 4, 0
  {
    var f := NextFree(v, Used(bs), first);
    if f == v.N() then (if v.full && !Covers(v, bs) then [] else [bs])
    else (if !v.full then Tree(v, bs, f + 1) else []) + (if v.maxRank < 2 || !v.active[f] then [] else Ranks(v, bs, f, 2))
  }

  function Same(v: Survivors, bs: seq<Block>, f: nat): seq<nat>
    requires v.Ok() && f < v.N()
  {
    Candidates(v, Used(bs), f + 1, v.creator[f])
  }

  function Other(v: Survivors, bs: seq<Block>, f: nat): seq<nat>
    requires v.Ok() && f < v.N()
  {
    Candidates(v, Used(bs), f + 1, !v.creator[f])
  }

  ghost function Ranks(v: Survivors, bs: seq<Block>, f: nat, k: nat): seq<seq<Block>>
    requires v.Ok() && f < v.N() && k >= 1
    decreases v.N() - f, 3, v.maxRank + 1 - k
  {
    var same, other := Same(v, bs, f), Other(v, bs, f);
    if k > v.maxRank || |same| + 1 < k || |other| < k then []
    else Sames(v, bs, f, Picks(same, k - 1), Picks(other, k)) + Ranks(v, bs, f, k + 1)
  }

  ghost function Sames(v: Survivors, bs: seq<Block>, f: nat, ss: seq<seq<nat>>, os: seq<seq<nat>>): seq<seq<Block>>
    requires v.Ok() && f < v.N()
    decreases v.N() - f, 2, |ss|
  {
    if ss == [] then [] else Others(v, bs, f, ss[0], os) + Sames(v, bs, f, ss[1..], os)
  }

  ghost function Others(v: Survivors, bs: seq<Block>, f: nat, s: seq<nat>, os: seq<seq<nat>>): seq<seq<Block>>
    requires v.Ok() && f < v.N()
    decreases v.N() - f, 1, |os|
  {
    if os == [] then [] else Try(v, bs, f, s, os[0]) + Others(v, bs, f, s, os[1..])
  }

  function BlockOf(f: nat, s: seq<nat>, o: seq<nat>): Block {
    Sort([f] + s + o)
  }

  ghost function Try(v: Survivors, bs: seq<Block>, f: nat, s: seq<nat>, o: seq<nat>): seq<seq<Block>>
    requires v.Ok() && f < v.N()
    decreases v.N() - f, 0, 0
  {
    if SeveralProvenances(v, BlockOf(f, s, o)) then Tree(v, bs + [BlockOf(f, s, o)], f + 1) else []
  }

  // ---- Blocks that start at f ----

  /** A family whose next block may start at first or later. */
  ghost predicate AtNode(v: Survivors, bs: seq<Block>, first: nat) {
    && v.Ok() && first <= v.N() && Family(v, bs)
    && (forall i :: 0 <= i < |bs| ==> bs[i] != [] && bs[i][0] < first)
    && (v.full ==> forall x: nat :: x < first ==> x in Used(bs))
  }

  /** t is wanted and extends bs by blocks that start at first or later. */
  ghost predicate Reaches(v: Survivors, bs: seq<Block>, first: nat, t: seq<Block>) {
    && Wanted(v, t) && bs <= t
    && forall j :: |bs| <= j < |t| ==> t[j] != [] && t[j][0] >= first
  }

  /** b is a legal block of rank k of free operators that starts at f. */
  ghost predicate StartsAt(v: Survivors, bs: seq<Block>, f: nat, k: nat, b: Block) {
    Legal(v, b, k) && b != [] && b[0] == f && Elems(b) !! Used(bs)
  }

  ghost predicate Chosen(v: Survivors, bs: seq<Block>, f: nat, k: nat, s: seq<nat>, o: seq<nat>)
    requires v.Ok() && f < v.N() && k >= 1
  {
    Selects(Same(v, bs, f), k - 1, s) && Selects(Other(v, bs, f), k, o)
  }

  /** What the chosen legs have in common. */
  lemma ChosenLegs(v: Survivors, bs: seq<Block>, f: nat, k: nat, s: seq<nat>, o: seq<nat>)
    requires v.Ok() && f < v.N() && f !in Used(bs) && v.active[f] && k >= 1 && Chosen(v, bs, f, k, s, o)
    ensures NoDup([f] + s + o) && Increasing([f] + s) && Increasing(o)
    ensures forall x :: x in [f] + s + o ==> f <= x < v.N() && x !in Used(bs) && v.active[x]
    ensures forall x :: x in [f] + s ==> x < v.N() && v.creator[x] == v.creator[f]
    ensures forall x :: x in o ==> x < v.N() && v.creator[x] != v.creator[f]
  {
    hide Picks, Used, Candidates, Increasing, NoDup;
    CandidatesAre(v, Used(bs), f + 1, v.creator[f]);
    CandidatesAre(v, Used(bs), f + 1, !v.creator[f]);
    var fs := [f] + s;
    forall x | x in s ensures f < x < v.N() && x !in Used(bs) && v.active[x] && v.creator[x] == v.creator[f] {
      assert x in Same(v, bs, f);
    }
    forall x | x in o ensures f < x < v.N() && x !in Used(bs) && v.active[x] && v.creator[x] != v.creator[f] {
      assert x in Other(v, bs, f);
    }
    PrependIncreasing(f, s);
    IncreasingNoDup(fs);
    IncreasingNoDup(o);
    NoDupConcat(fs, o);
    assert forall x :: x in [f] + s + o ==> x in fs || x in o;
  }

  lemma ChosenBlock(v: Survivors, bs: seq<Block>, f: nat, k: nat, s: seq<nat>, o: seq<nat>)
    requires v.Ok() && f < v.N() && f !in Used(bs) && v.active[f] && 2 <= k <= v.maxRank && Chosen(v, bs, f, k, s, o)
    ensures var b := BlockOf(f, s, o);
            && OfKind(v, b, v.creator[f]) == [f] + s && OfKind(v, b, !v.creator[f]) == o
            && b != [] && b[0] == f && (SeveralProvenances(v, b) <==> StartsAt(v, bs, f, k, b))
  {
    hide Picks, Used, Candidates, Sort, SeveralProvenances, OfKind, Increasing, NoDup;
    ChosenLegs(v, bs, f, k, s, o);
    var legs, b := [f] + s + o, BlockOf(f, s, o);
    SortFacts(legs);
    assert f in legs by { assert legs[0] == f; }
    assert f in b;
    OfKindAre(v, b, v.creator[f]);
    OfKindAre(v, b, !v.creator[f]);
    forall x ensures x in OfKind(v, b, v.creator[f]) <==> x in [f] + s { assert x in b <==> x in legs; }
    forall x ensures x in OfKind(v, b, !v.creator[f]) <==> x in o { assert x in b <==> x in legs; }
    IncreasingUnique(OfKind(v, b, v.creator[f]), [f] + s);
    IncreasingUnique(OfKind(v, b, !v.creator[f]), o);
    LeastIsFirst(b, f);
    forall i | 0 <= i < |b| ensures b[i] < v.N() && v.active[b[i]] { assert b[i] in b && b[i] in legs; }
    forall x | x in b ensures x !in Used(bs) { assert x in legs; }
  }

  lemma LeastIsFirst(b: seq<nat>, f: nat)
    requires Increasing(b) && f in b && forall x :: x in b ==> f <= x
    ensures b != [] && b[0] == f
  {
    FirstIsLeast(b);
    assert b[0] in b;
  }

  /** The legs of a legal block, apart from its lowest, are candidates. */
  lemma LegsAreCandidates(v: Survivors, bs: seq<Block>, f: nat, k: nat, b: Block, s: seq<nat>, o: seq<nat>)
    requires v.Ok() && f < v.N() && StartsAt(v, bs, f, k, b)
    requires OfKind(v, b, v.creator[f]) == [f] + s && OfKind(v, b, !v.creator[f]) == o
    ensures (forall x :: x in s ==> x in Same(v, bs, f)) && forall x :: x in o ==> x in Other(v, bs, f)
    ensures forall x :: x in b <==> x in [f] + s + o
  {
    hide Picks, Used, Sort, SeveralProvenances, NoDup;
    var kind := v.creator[f];
    OfKindAre(v, b, kind);
    OfKindAre(v, b, !kind);
    hide OfKind;
    FirstIsLeast(b);
    CandidatesAre(v, Used(bs), f + 1, kind);
    CandidatesAre(v, Used(bs), f + 1, !kind);
    hide Candidates;
    forall x | x in b ensures x < v.N() && v.active[x] && f <= x && x !in Used(bs) {
      var j :| 0 <= j < |b| && b[j] == x;
    }
    TailAbove(f, s);
    forall x | x in s ensures x in Same(v, bs, f) {
      assert x in [f] + s && x in b && x > f;
    }
    forall x | x in o ensures x in Other(v, bs, f) {
      assert x in b && x != f;
    }
    forall x ensures x in b <==> x in [f] + s + o {
      assert x in [f] + s + o <==> x in [f] + s || x in o;
    }
  }

  lemma TailAbove(f: nat, s: seq<nat>)
    requires Increasing([f] + s)
    ensures Increasing(s) && forall x :: x in s ==> x > f
  {
    var fs := [f] + s;
    forall i, j | 0 <= i < j < |s| ensures s[i] < s[j] { assert fs[i + 1] < fs[j + 1]; }
    forall x | x in s ensures x > f {
      var i :| 0 <= i < |s| && s[i] == x;
      assert fs[0] < fs[i + 1];
    }
  }

  /** The first of the legs of f's kind is f. */
  lemma OwnKind(v: Survivors, bs: seq<Block>, f: nat, k: nat, b: Block) returns (s: seq<nat>)
    requires v.Ok() && f < v.N() && StartsAt(v, bs, f, k, b)
    ensures OfKind(v, b, v.creator[f]) == [f] + s && |s| + 1 == k && |OfKind(v, b, !v.creator[f])| == k && k >= 2 && v.active[f]
    ensures Increasing([f] + s) && Increasing(OfKind(v, b, !v.creator[f]))
  {
    hide Used, SeveralProvenances;
    OfKindAre(v, b, v.creator[f]);
    OfKindAre(v, b, !v.creator[f]);
    FirstIsLeast(b);
    assert b[0] in b;
    var mine := OfKind(v, b, v.creator[f]);
    LeastIsFirst(mine, f);
    s := mine[1..];
    assert mine == [f] + s;
  }

  /** A legal block is chosen by its legs. */
  lemma BlockParts(v: Survivors, bs: seq<Block>, f: nat, k: nat, b: Block) returns (s: seq<nat>, o: seq<nat>)
    requires v.Ok() && f < v.N() && f !in Used(bs) && StartsAt(v, bs, f, k, b)
    ensures k >= 2 && v.active[f] && Chosen(v, bs, f, k, s, o) && BlockOf(f, s, o) == b
    ensures |Same(v, bs, f)| + 1 >= k && |Other(v, bs, f)| >= k
  {
    s := OwnKind(v, bs, f, k, b);
    o := OfKind(v, b, !v.creator[f]);
    LegsAreCandidates(v, bs, f, k, b, s, o);
    StartIncreases(v, bs, f, k, b);
    hide StartsAt, Used, Sort, OfKind, Candidates, NoDup, Increasing;
    TailAbove(f, s);
    CandidatesAre(v, Used(bs), f + 1, v.creator[f]);
    CandidatesAre(v, Used(bs), f + 1, !v.creator[f]);
    SubsequenceShorter(s, Same(v, bs, f));
    SubsequenceShorter(o, Other(v, bs, f));
    ChosenLegs(v, bs, f, k, s, o);
    SortFacts([f] + s + o);
    IncreasingUnique(BlockOf(f, s, o), b);
  }

  lemma StartIncreases(v: Survivors, bs: seq<Block>, f: nat, k: nat, b: Block)
    requires StartsAt(v, bs, f, k, b)
    ensures Increasing(b)
  {
  }

  lemma SubsequenceShorter(s: seq<nat>, t: seq<nat>)
    requires Increasing(s) && Increasing(t) && forall x :: x in s ==> x in t
    ensures |s| <= |t|
  {
    NoDupSize(s);
    NoDupSize(t);
    SubsetSize(Elems(s), Elems(t));
  }

  // ---- Membership ----

  lemma FamilySnoc(v: Survivors, bs: seq<Block>, first: nat, f: nat, k: nat, b: Block)
    requires AtNode(v, bs, first) && first <= f < v.N() && StartsAt(v, bs, f, k, b)
    requires v.full ==> forall x: nat :: x < f ==> x in Used(bs)
    ensures AtNode(v, bs + [b], f + 1)
  {
    hide Legal, Used, Family, SeveralProvenances;
    UsedSnoc(bs, b);
    var t := bs + [b];
    FamilyMore(v, bs, f, k, b);
    assert f in b by { assert b[0] == f; }
    forall i | 0 <= i < |t| ensures t[i] != [] && t[i][0] < f + 1 {
      if i < |bs| { assert t[i] == bs[i]; }
    }
  }

  lemma FamilyMore(v: Survivors, bs: seq<Block>, f: nat, k: nat, b: Block)
    requires Family(v, bs) && StartsAt(v, bs, f, k, b) && forall i :: 0 <= i < |bs| ==> bs[i] != [] && bs[i][0] < f
    ensures Family(v, bs + [b])
  {
    hide Legal, Used;
    assert IsLegal(v, b);
    hide IsLegal;
    var t := bs + [b];
    assert forall i :: 0 <= i < |bs| ==> t[i] == bs[i] && t[..i] == bs[..i];
    assert t[|bs|] == b && t[..|bs|] == bs;
  }

  lemma UsedSnoc(bs: seq<Block>, b: Block)
    ensures Used(bs + [b]) == Used(bs) + Elems(b)
  {
    assert Init(bs + [b]) == bs;
  }

  /** The next block of a family is legal and of free operators. */
  lemma NextBlock(v: Survivors, bs: seq<Block>, t: seq<Block>) returns (k: nat)
    requires Family(v, t) && bs < t
    ensures t[|bs|] != [] && StartsAt(v, bs, t[|bs|][0], k, t[|bs|])
  {
    hide Legal, Used;
    var b := t[|bs|];
    assert IsLegal(v, b);
    k :| Legal(v, b, k);
    assert t[..|bs|] == bs;
  }

  /** Skipping positions that are taken changes nothing. */
  lemma NodeAtFree(v: Survivors, bs: seq<Block>, first: nat)
    requires AtNode(v, bs, first)
    ensures var f := NextFree(v, Used(bs), first);
            AtNode(v, bs, f) && forall t :: Reaches(v, bs, first, t) <==> Reaches(v, bs, f, t)
  {
    var f := NextFree(v, Used(bs), first);
    hide Used, IsLegal, NextFree;
    forall t | Reaches(v, bs, first, t) ensures Reaches(v, bs, f, t) {
      forall j | |bs| <= j < |t| ensures t[j][0] >= f {
        LaterDisjoint(v, bs, t, j);
      }
    }
  }

  lemma LaterDisjoint(v: Survivors, bs: seq<Block>, t: seq<Block>, j: nat)
    requires Family(v, t) && bs <= t && |bs| <= j < |t|
    ensures t[j] != [] && t[j][0] !in Used(bs)
  {
    hide IsLegal;
    assert t[..j] == bs + t[|bs|..j];
    UsedSplit(bs, t[|bs|..j]);
    assert t[j][0] in t[j];
  }

  /** No family of bs reaches a start at or beyond the end but bs. */
  lemma OnlyItself(v: Survivors, bs: seq<Block>, t: seq<Block>)
    requires AtNode(v, bs, v.N())
    ensures Reaches(v, bs, v.N(), t) <==> t == bs && (v.full ==> Covers(v, bs))
  {
    if Reaches(v, bs, v.N(), t) && |t| > |bs| {
      var k := NextBlock(v, bs, t);
    }
  }

  /** A family whose next block does not start at f starts later. */
  lemma StartsLater(v: Survivors, bs: seq<Block>, f: nat, t: seq<Block>)
    requires AtNode(v, bs, f) && f < v.N()
    ensures Reaches(v, bs, f, t) <==>
            Reaches(v, bs, f + 1, t) || (Reaches(v, bs, f, t) && |t| > |bs| && t[|bs|] != [] && t[|bs|][0] == f)
  {
    hide IsLegal, Used;
    if Reaches(v, bs, f, t) && !(|t| > |bs| && t[|bs|][0] == f) {
      forall j | |bs| <= j < |t| ensures t[j][0] >= f + 1 {
        if j > |bs| { assert t[|bs|][0] < t[j][0]; }
      }
    }
  }

  /** For full contractions the first free operator must be in the next block. */
  lemma FullStartsHere(v: Survivors, bs: seq<Block>, f: nat, t: seq<Block>)
    requires AtNode(v, bs, f) && f < v.N() && f !in Used(bs) && v.full && Reaches(v, bs, f, t)
    ensures |t| > |bs| && t[|bs|] != [] && t[|bs|][0] == f
  {
    hide Used, Family, IsLegal;
    var i := HoldsPosition(v, bs, f, t);
    FamilyAt(v, t, i, |bs|);
    FirstIsLeast(t[i]);
  }

  /** The block of t that holds f is not one of bs. */
  lemma HoldsPosition(v: Survivors, bs: seq<Block>, f: nat, t: seq<Block>) returns (i: nat)
    requires bs <= t && f !in Used(bs) && f < v.N() && Covers(v, t)
    ensures |bs| <= i < |t| && f in t[i]
  {
    hide Used;
    UsedMembers(t, f);
    UsedMembers(bs, f);
    assert forall j :: 0 <= j < |bs| ==> t[j] == bs[j];
    i :| 0 <= i < |t| && f in t[i];
  }

  lemma FamilyAt(v: Survivors, t: seq<Block>, i: nat, j: nat)
    requires Family(v, t) && i < |t| && j < |t|
    ensures Increasing(t[i]) && t[i] != [] && t[j] != [] && (j < i ==> t[j][0] < t[i][0])
  {
    hide Used, Legal;
    assert IsLegal(v, t[i]);
    var k: nat :| Legal(v, t[i], k);
    LegalIncreases(v, t[i], k);
  }

  lemma LegalIncreases(v: Survivors, b: Block, k: nat)
    requires Legal(v, b, k)
    ensures Increasing(b)
  {
  }

  /** t reaches through a next block that starts at f and has rank k or more. */
  ghost predicate ReachesRank(v: Survivors, bs: seq<Block>, f: nat, k: nat, t: seq<Block>) {
    Reaches(v, bs, f, t) && |t| > |bs| && exists j: nat :: j >= k && StartsAt(v, bs, f, j, t[|bs|])
  }

  ghost predicate ReachesBlock(v: Survivors, bs: seq<Block>, f: nat, b: Block, t: seq<Block>) {
    Reaches(v, bs, f, t) && |t| > |bs| && t[|bs|] == b
  }

  lemma {:induction false} TreeMembers(v: Survivors, bs: seq<Block>, first: nat, t: seq<Block>)
    requires AtNode(v, bs, first)
    ensures t in Tree(v, bs, first) <==> Reaches(v, bs, first, t)
    decreases v.N() - first, 4, 0
  {
    hide AtNode, Reaches, Used, NextFree, Ranks;
    NodeOk(v, bs, first);
    NodeAtFree(v, bs, first);
    var f := NextFree(v, Used(bs), first);
    FreeIsFree(v, bs, first);
    if f == v.N() {
      OnlyItself(v, bs, t);
    } else {
      StartsLater(v, bs, f, t);
      if !v.full {
        NodeSkips(v, bs, f);
        TreeMembers(v, bs, f + 1, t);
      }
      BlocksAtFree(v, bs, f, t);
      if v.maxRank >= 2 && v.active[f] { RanksMembers(v, bs, f, 2, t); }
    }
  }

  lemma NodeOk(v: Survivors, bs: seq<Block>, first: nat)
    requires AtNode(v, bs, first)
    ensures v.Ok() && first <= v.N()
  {
  }

  lemma FreeIsFree(v: Survivors, bs: seq<Block>, first: nat)
    requires first <= v.N()
    ensures var f := NextFree(v, Used(bs), first); first <= f <= v.N() && (f < v.N() ==> f !in Used(bs))
  {
  }

  lemma NodeSkips(v: Survivors, bs: seq<Block>, f: nat)
    requires AtNode(v, bs, f) && !v.full && f < v.N()
    ensures AtNode(v, bs, f + 1)
  {
    hide Used, Family;
  }

  /** Which families a start at f adds to those that start later. */
  lemma BlocksAtFree(v: Survivors, bs: seq<Block>, f: nat, t: seq<Block>)
    requires AtNode(v, bs, f) && f < v.N() && f !in Used(bs)
    ensures ReachesRank(v, bs, f, 2, t) <==> Reaches(v, bs, f, t) && |t| > |bs| && t[|bs|] != [] && t[|bs|][0] == f
    ensures v.full && Reaches(v, bs, f, t) ==> ReachesRank(v, bs, f, 2, t)
    ensures v.maxRank < 2 || !v.active[f] ==> !ReachesRank(v, bs, f, 2, t)
    ensures Reaches(v, bs, f + 1, t) ==> Reaches(v, bs, f, t)
  {
    hide Used, Family, Legal;
    if v.full && Reaches(v, bs, f, t) { FullStartsHere(v, bs, f, t); }
    if Reaches(v, bs, f, t) && |t| > |bs| {
      var k := NextBlock(v, bs, t);
      LegalRank(v, t[|bs|], k);
    }
    if ReachesRank(v, bs, f, 2, t) {
      var j: nat :| j >= 2 && StartsAt(v, bs, f, j, t[|bs|]);
      LegalRank(v, t[|bs|], j);
    }
  }

  lemma LegalRank(v: Survivors, b: Block, k: nat)
    requires Legal(v, b, k)
    ensures 2 <= k <= v.maxRank && k == |OfKind(v, b, true)|
    ensures b != [] && b[0] < v.N() && v.active[b[0]]
  {
    assert |OfKind(v, [], true)| == 0;
  }

  lemma {:induction false} RanksMembers(v: Survivors, bs: seq<Block>, f: nat, k: nat, t: seq<Block>)
    requires AtNode(v, bs, f) && v.Ok() && f < v.N() && f !in Used(bs) && v.active[f] && k >= 2
    ensures t in Ranks(v, bs, f, k) <==> ReachesRank(v, bs, f, k, t)
    decreases v.N() - f, 3, v.maxRank + 1 - k
  {
    hide AtNode, Reaches, Used, Legal, StartsAt, Picks, Candidates, ReachesBlock, Sames;
    var same, other := Same(v, bs, f), Other(v, bs, f);
    if k > v.maxRank || |same| + 1 < k || |other| < k {
      NoHigherRank(v, bs, f, k, t);
    } else {
      RanksMembers(v, bs, f, k + 1, t);
      SamesMembers(v, bs, f, k, Picks(same, k - 1), Picks(other, k), t);
      RankSplits(v, bs, f, k, t);
    }
  }

  /** When the loop over ranks stops, no block of that rank or more is left. */
  lemma NoHigherRank(v: Survivors, bs: seq<Block>, f: nat, k: nat, t: seq<Block>)
    requires v.Ok() && f < v.N() && f !in Used(bs) && (k > v.maxRank || |Same(v, bs, f)| + 1 < k || |Other(v, bs, f)| < k)
    ensures !ReachesRank(v, bs, f, k, t)
  {
    hide Reaches, Used, Candidates;
    if ReachesRank(v, bs, f, k, t) {
      var j: nat :| j >= k && StartsAt(v, bs, f, j, t[|bs|]);
      LegalRank(v, t[|bs|], j);
      var s, o := BlockParts(v, bs, f, j, t[|bs|]);
    }
  }

  /** t reaches through a block of rank k chosen from the candidates. */
  ghost predicate ReachesChosen(v: Survivors, bs: seq<Block>, f: nat, ss: seq<seq<nat>>, os: seq<seq<nat>>, t: seq<Block>)
    requires v.Ok()
  {
    exists s, o :: s in ss && o in os && ReachesTry(v, bs, f, s, o, t)
  }

  ghost predicate ReachesTry(v: Survivors, bs: seq<Block>, f: nat, s: seq<nat>, o: seq<nat>, t: seq<Block>) {
    SeveralProvenances(v, BlockOf(f, s, o)) && ReachesBlock(v, bs, f, BlockOf(f, s, o), t)
  }

  lemma RankSplits(v: Survivors, bs: seq<Block>, f: nat, k: nat, t: seq<Block>)
    requires AtNode(v, bs, f) && v.Ok() && f < v.N() && f !in Used(bs) && v.active[f] && 2 <= k <= v.maxRank
    ensures ReachesRank(v, bs, f, k, t) <==>
            ReachesRank(v, bs, f, k + 1, t) || ReachesChosen(v, bs, f, Picks(Same(v, bs, f), k - 1), Picks(Other(v, bs, f), k), t)
  {
    hide AtNode, Reaches, Used, Candidates, Picks, Legal, BlockOf;
    CandidatesAre(v, Used(bs), f + 1, v.creator[f]);
    CandidatesAre(v, Used(bs), f + 1, !v.creator[f]);
    var same, other := Same(v, bs, f), Other(v, bs, f);
    if ReachesRank(v, bs, f, k, t) {
      var j: nat :| j >= k && StartsAt(v, bs, f, j, t[|bs|]);
      if j == k {
        var s, o := BlockParts(v, bs, f, k, t[|bs|]);
        PicksAre(same, k - 1, s);
        PicksAre(other, k, o);
        ChosenBlock(v, bs, f, k, s, o);
        assert ReachesTry(v, bs, f, s, o, t);
      }
    }
    if ReachesChosen(v, bs, f, Picks(same, k - 1), Picks(other, k), t) {
      var s, o :| s in Picks(same, k - 1) && o in Picks(other, k) && ReachesTry(v, bs, f, s, o, t);
      PicksAre(same, k - 1, s);
      PicksAre(other, k, o);
      ChosenBlock(v, bs, f, k, s, o);
    }
  }

  lemma {:induction false} SamesMembers(v: Survivors, bs: seq<Block>, f: nat, k: nat, ss: seq<seq<nat>>, os: seq<seq<nat>>, t: seq<Block>)
    requires AtNode(v, bs, f) && v.Ok() && f < v.N() && f !in Used(bs) && v.active[f] && 2 <= k <= v.maxRank
    requires forall s :: s in ss ==> s in Picks(Same(v, bs, f), k - 1)
    requires forall o :: o in os ==> o in Picks(Other(v, bs, f), k)
    ensures t in Sames(v, bs, f, ss, os) <==> ReachesChosen(v, bs, f, ss, os, t)
    decreases v.N() - f, 2, |ss|
  {
    hide AtNode, Used, Picks, Same, Other, ReachesTry, Others;
    if ss != [] {
      assert ss == [ss[0]] + ss[1..];
      assert ss[0] in ss;
      assert forall s :: s in ss <==> s == ss[0] || s in ss[1..];
      SamesMembers(v, bs, f, k, ss[1..], os, t);
      OthersMembers(v, bs, f, k, ss[0], os, t);
    }
  }

  lemma {:induction false} OthersMembers(v: Survivors, bs: seq<Block>, f: nat, k: nat, s: seq<nat>, os: seq<seq<nat>>, t: seq<Block>)
    requires AtNode(v, bs, f) && v.Ok() && f < v.N() && f !in Used(bs) && v.active[f] && 2 <= k <= v.maxRank
    requires s in Picks(Same(v, bs, f), k - 1) && forall o :: o in os ==> o in Picks(Other(v, bs, f), k)
    ensures t in Others(v, bs, f, s, os) <==> exists o :: o in os && ReachesTry(v, bs, f, s, o, t)
    decreases v.N() - f, 1, |os|
  {
    hide AtNode, Used, Picks, Same, Other, ReachesTry, Try;
    if os != [] {
      assert os == [os[0]] + os[1..];
      assert os[0] in os;
      assert forall o :: o in os <==> o == os[0] || o in os[1..];
      OthersMembers(v, bs, f, k, s, os[1..], t);
      TryMembers(v, bs, f, k, s, os[0], t);
    }
  }

  lemma {:induction false} TryMembers(v: Survivors, bs: seq<Block>, f: nat, k: nat, s: seq<nat>, o: seq<nat>, t: seq<Block>)
    requires AtNode(v, bs, f) && v.Ok() && f < v.N() && f !in Used(bs) && v.active[f] && 2 <= k <= v.maxRank
    requires s in Picks(Same(v, bs, f), k - 1) && o in Picks(Other(v, bs, f), k)
    ensures t in Try(v, bs, f, s, o) <==> ReachesTry(v, bs, f, s, o, t)
    decreases v.N() - f, 0, 0
  {
    hide AtNode, Used, Picks, Candidates, BlockOf, Tree, StartsAt, SeveralProvenances;
    CandidatesAre(v, Used(bs), f + 1, v.creator[f]);
    CandidatesAre(v, Used(bs), f + 1, !v.creator[f]);
    PicksAre(Same(v, bs, f), k - 1, s);
    PicksAre(Other(v, bs, f), k, o);
    ChosenBlock(v, bs, f, k, s, o);
    var b := BlockOf(f, s, o);
    if SeveralProvenances(v, b) {
      NodeAtPosition(v, bs, f);
      FamilySnoc(v, bs, f, f, k, b);
      TreeMembers(v, bs + [b], f + 1, t);
      assert b != [] && b[0] == f;
      ReachesNext(v, bs, f, b, t);
    }
  }

  lemma NodeAtPosition(v: Survivors, bs: seq<Block>, f: nat)
    requires AtNode(v, bs, f)
    ensures v.full ==> forall x: nat :: x < f ==> x in Used(bs)
  {
  }

  lemma ReachesNext(v: Survivors, bs: seq<Block>, f: nat, b: Block, t: seq<Block>)
    requires b != [] && b[0] == f
    ensures Reaches(v, bs + [b], f + 1, t) <==> ReachesBlock(v, bs, f, b, t)
  {
    hide Used, IsLegal;
    if Reaches(v, bs + [b], f + 1, t) {
      assert t[|bs|] == (bs + [b])[|bs|];
    }
    if ReachesBlock(v, bs, f, b, t) {
      assert forall j :: |bs| < j < |t| ==> t[|bs|][0] < t[j][0];
    }
  }
}
