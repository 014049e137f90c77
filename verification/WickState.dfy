/**
 The state the search changes in place, as a function of the contractions made
 so far: the nest of remaining operators and the connection counters.
 */
module WickState {
  import opened Sequences
  import opened WickProblem
  import opened WickSearch
  import opened RangeNest
  import opened UpperTriangle
  import WickDegrees

  // ---- The nest of remaining operators ----

  ghost function OpsAt(p: Problem, ks: seq<nat>): (ops: seq<Op>)
    requires InRange(p, ks)
    ensures |ops| == |ks|
  {
    seq(|ks|, k requires 0 <= k < |ks| => p.ops[ks[k]])
  }

  /** The remaining operators, each in the range of its normal operator. */
  ghost predicate NestAt(p: Problem, rem: seq<nat>, nest: seq<seq<Op>>) {
    && InRange(p, rem) && |nest| == p.nnops && Flatten(nest) == OpsAt(p, rem)
    && forall x :: 0 <= x < |nest| ==> OfNop(nest[x], x)
  }

  ghost predicate OfNop(ops: seq<Op>, x: nat) {
    forall k :: 0 <= k < |ops| ==> ops[k].nop == x
  }

  function OpsWith(ops: seq<Op>, x: nat): seq<Op> {
    if ops == [] then [] else OpsWith(Init(ops), x) + (if Last(ops).nop == x then [Last(ops)] else [])
  }

  /** The remaining operators by normal operator. */
  ghost function NestOf(p: Problem, rem: seq<nat>): seq<seq<Op>>
    requires InRange(p, rem)
  {
    seq(p.nnops, x requires 0 <= x < p.nnops => OpsWith(OpsAt(p, rem), x))
  }

  lemma {:induction false} OpsWithConcat(a: seq<Op>, b: seq<Op>, x: nat)
    ensures OpsWith(a + b, x) == OpsWith(a, x) + OpsWith(b, x)
  {
    if b == [] {
      assert a + b == a;
    } else {
      OpsWithConcat(a, Init(b), x);
      assert Init(a + b) == a + Init(b);
    }
  }

  lemma {:induction false} OpsWithRange(ops: seq<Op>, r: nat, x: nat)
    requires OfNop(ops, r)
    ensures OpsWith(ops, x) == if r == x then ops else []
  {
    if ops != [] { OpsWithRange(Init(ops), r, x); }
  }

  lemma {:induction false} RangeIsFilter(nest: seq<seq<Op>>, n: nat, x: nat)
    requires n <= |nest| && x < |nest| && forall r :: 0 <= r < |nest| ==> OfNop(nest[r], r)
    ensures OpsWith(Flatten(nest[..n]), x) == if x < n then nest[x] else []
  {
    hide OfNop, OpsWith, Flatten;
    FirstRanges(nest, n);
    if n > 0 {
      RangeIsFilter(nest, n - 1, x);
      OpsWithConcat(Flatten(nest[..n - 1]), nest[n - 1], x);
      OpsWithRange(nest[n - 1], n - 1, x);
    } else {
      NoOpsWith(x);
    }
  }

  lemma NoOpsWith(x: nat)
    ensures OpsWith([], x) == []
  {
  }

  lemma FirstRanges(nest: seq<seq<Op>>, n: nat)
    requires n <= |nest|
    ensures Flatten(nest[..n]) == if n > 0 then Flatten(nest[..n - 1]) + nest[n - 1] else []
  {
    if n > 0 { assert Init(nest[..n]) == nest[..n - 1]; }
  }

  /** The remaining operators determine the nest. */
  lemma NestIsNestOf(p: Problem, rem: seq<nat>, nest: seq<seq<Op>>)
    requires NestAt(p, rem, nest)
    ensures nest == NestOf(p, rem)
  {
    assert nest[..|nest|] == nest;
    forall x | 0 <= x < |nest| ensures nest[x] == NestOf(p, rem)[x] {
      RangeIsFilter(nest, |nest|, x);
    }
  }

  ghost function OfNopIn(p: Problem, rem: seq<nat>, x: nat): set<nat>
    requires InRange(p, rem)
  {
    set o | o in rem && o < p.N() && p.Nop(o) == x
  }

  lemma {:induction false} FilterSize(p: Problem, rem: seq<nat>, x: nat)
    requires InRange(p, rem) && NoDup(rem)
    ensures |OpsWith(OpsAt(p, rem), x)| == |OfNopIn(p, rem, x)|
  {
    if rem == [] {
      assert OfNopIn(p, rem, x) == {};
    } else {
      var r, o := Init(rem), Last(rem);
      assert rem == r + [o] && o !in r && NoDup(r);
      hide NoDup;
      FilterSize(p, r, x);
      assert Init(OpsAt(p, rem)) == OpsAt(p, r) && Last(OpsAt(p, rem)) == p.ops[o];
      FilterSnoc(p, r, o, x);
    }
  }

  lemma FilterSnoc(p: Problem, r: seq<nat>, o: nat, x: nat)
    requires InRange(p, r) && o < p.N() && o !in r
    ensures InRange(p, r + [o])
    ensures |OfNopIn(p, r + [o], x)| == |OfNopIn(p, r, x)| + (if p.Nop(o) == x then 1 else 0)
  {
    if p.Nop(o) == x {
      assert OfNopIn(p, r + [o], x) == OfNopIn(p, r, x) + {o};
    } else {
      assert OfNopIn(p, r + [o], x) == OfNopIn(p, r, x);
    }
  }

  /** A range holds the uncontracted operators of its normal operator. */
  lemma RangeSize(p: Problem, s: seq<Pair>, nest: seq<seq<Op>>, x: nat)
    requires NestAt(p, Remaining(p, s), nest) && x < p.nnops
    ensures |nest[x]| == |Free(p, s, x)|
  {
    var rem := Remaining(p, s);
    NestIsNestOf(p, rem, nest);
    RemainingBelowProps(s, p.N());
    FilterSize(p, rem, x);
    assert OfNopIn(p, rem, x) == Free(p, s, x);
  }

  /** The operator at a position of the nest. */
  lemma NestPosition(p: Problem, rem: seq<nat>, nest: seq<seq<Op>>, r: nat, e: nat, k: nat)
    requires NestAt(p, rem, nest) && IsPosition(nest, r, e, k)
    ensures |nest| == p.nnops && r < p.nnops && e < |nest[r]| && k < |rem| && rem[k] < p.N()
    ensures nest[r][e] == p.ops[rem[k]] && p.Nop(rem[k]) == r
  {
    ElementAt(nest, r, e, k);
    assert OfNop(nest[r], r);
  }

  lemma NestErase(p: Problem, rem: seq<nat>, nest: seq<seq<Op>>, r: nat, e: nat, k: nat)
    requires NestAt(p, rem, nest) && r < |nest| && e < |nest[r]| && IsPosition(nest, r, e, k)
    ensures k < |rem| && NestAt(p, Erase(rem, k), nest[r := Erase(nest[r], e)])
  {
    FlattenErase(nest, r, e, k);
    var after := nest[r := Erase(nest[r], e)];
    forall x | 0 <= x < |after| ensures OfNop(after[x], x) {
      assert OfNop(nest[x], x);
    }
    assert OpsAt(p, Erase(rem, k)) == Erase(OpsAt(p, rem), k);
  }

  // ---- The counters ----

  datatype Counters = Counters(
    contractions: seq<(Op, Op)>,
    nopConnections: seq<set<nat>>,
    nopAdjacency: seq<nat>,
    nopNConnections: seq<nat>,
    opDegrees: seq<nat>,
    opNContractions: seq<nat>)

  /** The normal operator of each operator. */
  ghost function NopsOf(p: Problem): (v: seq<nat>)
    ensures |v| == p.N()
  {
    seq(p.N(), k requires 0 <= k < p.N() => p.Nop(k))
  }

  ghost function ContractionOps(p: Problem, s: seq<Pair>): seq<(Op, Op)> {
    if s == [] then []
    else ContractionOps(p, Init(s)) + (if Last(s).0 < p.N() && Last(s).1 < p.N() then [(p.ops[Last(s).0], p.ops[Last(s).1])] else [])
  }

  ghost function Entries(part: seq<nat>, s: seq<Pair>): (nat, nat) -> nat {
    (i, j) => Degrees(part, s)[(i, j)]
  }

  ghost predicate MatrixAt(m: seq<nat>, n: nat, part: seq<nat>, s: seq<Pair>) {
    Holds(m, n, Entries(part, s))
  }

  ghost predicate VectorAt(v: seq<nat>, n: nat, part: seq<nat>, s: seq<Pair>) {
    |v| == n && forall a :: 0 <= a < n ==> v[a] == Contracted(part, s, a)
  }

  ghost predicate LinksAt(p: Problem, links: seq<set<nat>>, s: seq<Pair>) {
    |links| == p.nnops && forall x: nat, y: nat :: x < p.nnops ==> (y in links[x] <==> Connected(p, s, x, y))
  }

  /** Connections are tracked only if some are required. */
  ghost predicate Untracked(p: Problem, links: seq<set<nat>>, adjacency: seq<nat>) {
    && p.nnops > 0 && |links| == p.nnops && |adjacency| == Ntri(p.nnops)
    && (forall x :: 0 <= x < p.nnops ==> links[x] == {})
    && forall k :: 0 <= k < |adjacency| ==> adjacency[k] == 0
  }

  ghost predicate CountersAt(p: Problem, s: seq<Pair>, c: Counters) {
    && c.contractions == ContractionOps(p, s)
    && VectorAt(c.nopNConnections, p.nnops, NopsOf(p), s)
    && VectorAt(c.opNContractions, |p.partitions|, p.partitionOf, s)
    && MatrixAt(c.opDegrees, |p.partitions|, p.partitionOf, s)
    && if p.Targets() != [] then LinksAt(p, c.nopConnections, s) && MatrixAt(c.nopAdjacency, p.nnops, NopsOf(p), s)
       else Untracked(p, c.nopConnections, c.nopAdjacency)
  }

  // ---- The counters are a function of the contractions ----

  lemma HoldsUnique(m: seq<nat>, m': seq<nat>, n: nat, f: (nat, nat) -> nat)
    requires Holds(m, n, f) && Holds(m', n, f)
    ensures m == m'
  {
    UptriIdxBijective(n);
    forall x | 0 <= x < |m| ensures m[x] == m'[x] {
      assert Occupied(x, n);
      var i: nat, j: nat :| i < j < n && UptriIdx(i, j, n) == x;
    }
  }

  lemma LinksUnique(p: Problem, links: seq<set<nat>>, links': seq<set<nat>>, s: seq<Pair>)
    requires LinksAt(p, links, s) && LinksAt(p, links', s)
    ensures links == links'
  {
    forall x | 0 <= x < p.nnops ensures links[x] == links'[x] {
      forall y ensures y in links[x] <==> y in links'[x] {}
    }
  }

  lemma CountersUnique(p: Problem, s: seq<Pair>, c: Counters, d: Counters)
    requires CountersAt(p, s, c) && CountersAt(p, s, d)
    ensures c == d
  {
    hide LinksAt, Holds, Contracted, ContractionOps, NopsOf, Entries;
    HoldsUnique(c.opDegrees, d.opDegrees, |p.partitions|, Entries(p.partitionOf, s));
    if p.Targets() != [] {
      LinksUnique(p, c.nopConnections, d.nopConnections, s);
      HoldsUnique(c.nopAdjacency, d.nopAdjacency, p.nnops, Entries(NopsOf(p), s));
    }
  }

  // ---- One more contraction ----

  lemma VectorSnoc(v: seq<nat>, w: seq<nat>, n: nat, part: seq<nat>, s: seq<Pair>, e: Pair)
    requires e.0 < |part| && e.1 < |part| && part[e.0] != part[e.1] && part[e.0] < n && part[e.1] < n
    requires |v| == |w| == n && v == w[part[e.0] := w[part[e.0]] + 1][part[e.1] := w[part[e.1]] + 1]
    ensures VectorAt(v, n, part, s + [e]) <==> VectorAt(w, n, part, s)
  {
    hide Contracted;
    WickDegrees.DegreesSnoc(part, s, e);
    assert forall a :: 0 <= a < n ==> v[a] == w[a] + EndsIn(part, e, a);
    if VectorAt(v, n, part, s + [e]) {
      forall a | 0 <= a < n ensures w[a] == Contracted(part, s, a) {
        assert v[a] == Contracted(part, s + [e], a);
      }
    }
  }

  lemma MatrixSnoc(m: seq<nat>, w: seq<nat>, n: nat, part: seq<nat>, s: seq<Pair>, e: Pair, k: nat)
    requires e.0 < |part| && e.1 < |part| && part[e.0] < part[e.1] < n
    requires |m| == |w| == Ntri(n) && k == UptriIdx(part[e.0], part[e.1], n) && k < |w|
    requires m == w[k := w[k] + 1]
    ensures MatrixAt(m, n, part, s + [e]) <==> MatrixAt(w, n, part, s)
  {
    hide Degrees, Ntri, UptriIdx;
    WickDegrees.DegreesSnoc(part, s, e);
    UptriIdxBijective(n);
    var f, g := Entries(part, s), Entries(part, s + [e]);
    assert forall i: nat, j: nat :: g(i, j) == f(i, j) + if (i, j) == Key(part, e) then 1 else 0;
    if MatrixAt(m, n, part, s + [e]) { HoldsUpdate(m, n, g, f, part[e.0], part[e.1]); assert m[k := w[k]] == w; }
    if MatrixAt(w, n, part, s) { HoldsUpdate(w, n, f, g, part[e.0], part[e.1]); }
  }

  /** Left operators belong to earlier normal operators than right ones. */
  ghost predicate Ascending(p: Problem, s: seq<Pair>) {
    forall k :: 0 <= k < |s| ==> s[k].0 < p.N() && s[k].1 < p.N() && p.Nop(s[k].0) < p.Nop(s[k].1)
  }

  lemma {:induction false} RunAscends(p: Problem, s: seq<Pair>)
    requires WellFormed(p) && IsRun(p, s)
    ensures Ascending(p, s)
  {
    hide WellFormed, PairOk, TopologicallyUnique, ConnectOk, Ends;
    if s != [] {
      RunAscends(p, Init(s));
      OkIsAcross(p, Last(s));
      PairAscends(p, Last(s));
      AscendsSnoc(p, Init(s), Last(s));
      assert Init(s) + [Last(s)] == s;
    }
  }

  lemma AscendsSnoc(p: Problem, s: seq<Pair>, e: Pair)
    requires Ascending(p, s) && e.0 < p.N() && e.1 < p.N() && p.Nop(e.0) < p.Nop(e.1)
    ensures Ascending(p, s + [e])
  {
  }

  lemma OkIsAcross(p: Problem, e: Pair)
    requires PairOk(p, e)
    ensures AcrossNops(p, e)
  {
  }

  /** Operators of two normal operators, in input order. */
  ghost predicate AcrossNops(p: Problem, e: Pair) {
    e.0 < e.1 < p.N() && p.Nop(e.0) != p.Nop(e.1)
  }

  lemma PairAscends(p: Problem, e: Pair)
    requires WellFormed(p) && AcrossNops(p, e)
    ensures e.0 < p.N() && e.1 < p.N() && |p.partitionOf| == p.N()
    ensures p.Nop(e.0) < p.Nop(e.1) < p.nnops
    ensures p.partitionOf[e.0] < p.partitionOf[e.1] < |p.partitions|
  {
    var a, b := p.partitionOf[e.0], p.partitionOf[e.1];
    PartitionNop(p, e.0);
    PartitionNop(p, e.1);
    assert p.Nop(p.partitions[a][0]) < p.Nop(p.partitions[b][0]);
    assert p.partitions[a][0] < p.partitions[b][0];
  }

  lemma PartitionNop(p: Problem, o: nat)
    requires WellFormed(p) && o < p.N()
    ensures p.partitionOf[o] < |p.partitions| && p.partitions[p.partitionOf[o]] != []
    ensures p.partitions[p.partitionOf[o]][0] < p.N() && p.Nop(p.partitions[p.partitionOf[o]][0]) == p.Nop(o)
  {
  }

  /** Two normal operators are connected iff their entry of the adjacency matrix is positive. */
  lemma {:induction false} ConnectedIsEntry(p: Problem, s: seq<Pair>, x: nat, y: nat)
    requires Ascending(p, s) && x < y
    ensures Connected(p, s, x, y) <==> Degrees(NopsOf(p), s)[(x, y)] > 0
    ensures Connected(p, s, y, x) <==> Connected(p, s, x, y)
  {
    if s == [] {
    } else {
      var u, e := Init(s), Last(s);
      assert s == u + [e] && e == s[|s| - 1];
      forall k | 0 <= k < |u| ensures u[k] == s[k] {}
      ConnectedIsEntry(p, u, x, y);
      WickDegrees.ConnectedSnoc(p, u, e, x, y);
      WickDegrees.ConnectedSnoc(p, u, e, y, x);
      assert Links(p, e, x, y) <==> Key(NopsOf(p), e) == (x, y);
    }
  }

  /** Marking the two normal operators of e connected. */
  lemma LinksAdd(p: Problem, links: seq<set<nat>>, s: seq<Pair>, e: Pair)
    requires LinksAt(p, links, s) && e.0 < p.N() && e.1 < p.N()
    requires p.Nop(e.0) < p.nnops && p.Nop(e.1) < p.nnops && p.Nop(e.0) != p.Nop(e.1)
    ensures var x, y := p.Nop(e.0), p.Nop(e.1);
            LinksAt(p, links[x := links[x] + {y}][y := links[y] + {x}], s + [e])
  {
    hide Connected;
    var x, y := p.Nop(e.0), p.Nop(e.1);
    var after := links[x := links[x] + {y}][y := links[y] + {x}];
    forall a: nat, b: nat | a < p.nnops ensures b in after[a] <==> Connected(p, s + [e], a, b) {
      WickDegrees.ConnectedSnoc(p, s, e, a, b);
    }
  }

  /** Undoing a contraction disconnects its normal operators if it was their last one. */
  lemma LinksRemove(p: Problem, links: seq<set<nat>>, s: seq<Pair>, e: Pair)
    requires Ascending(p, s) && LinksAt(p, links, s + [e]) && e.0 < p.N() && e.1 < p.N()
    requires p.Nop(e.0) < p.Nop(e.1) < p.nnops
    ensures var x, y := p.Nop(e.0), p.Nop(e.1);
            LinksAt(p, if Degrees(NopsOf(p), s)[(x, y)] > 0 then links
                       else links[x := links[x] - {y}][y := links[y] - {x}], s)
  {
    hide Connected, Ascending;
    var x, y := p.Nop(e.0), p.Nop(e.1);
    ConnectedIsEntry(p, s, x, y);
    forall a: nat, b: nat | a < p.nnops ensures Connected(p, s + [e], a, b) <==> Connected(p, s, a, b) || Links(p, e, a, b) {
      WickDegrees.ConnectedSnoc(p, s, e, a, b);
    }
  }

  /** The connections still needed by x are those of its required ones not made. */
  lemma NeedsAreUnmet(p: Problem, links: seq<set<nat>>, s: seq<Pair>, x: nat)
    requires LinksAt(p, links, s) && x < p.nnops && |p.Targets()| == p.nnops
    ensures Flip(links[x] + p.Targets()[x]) == Unmet(p, s, x)
  {
    assert forall y: nat :: y in links[x] <==> Connected(p, s, x, y);
    hide Connected;
  }

  /** Contraction e counted: k and m are its entries in the two matrices. */
  ghost predicate Bumped(p: Problem, e: Pair, c: Counters, d: Counters, k: nat, m: nat)
    requires WellFormed(p) && AcrossNops(p, e)
  {
    var (x, y, a, b) := (p.Nop(e.0), p.Nop(e.1), p.partitionOf[e.0], p.partitionOf[e.1]);
    && d.contractions == c.contractions + [(p.ops[e.0], p.ops[e.1])]
    && Bump2(c.nopNConnections, d.nopNConnections, x, y)
    && Bump2(c.opNContractions, d.opNContractions, a, b)
    && Bump(c.opDegrees, d.opDegrees, k)
    && (p.Targets() != [] ==> Bump(c.nopAdjacency, d.nopAdjacency, m))
    && (p.Targets() == [] ==> d.nopAdjacency == c.nopAdjacency && d.nopConnections == c.nopConnections)
  }

  function Incremented(v: seq<nat>, k: nat): (w: seq<nat>)
    requires k < |v|
    ensures |w| == |v|
  {
    v[k := v[k] + 1]
  }

  ghost predicate Bump(v: seq<nat>, w: seq<nat>, k: nat) {
    k < |v| && w == Incremented(v, k)
  }

  ghost predicate Bump2(v: seq<nat>, w: seq<nat>, a: nat, b: nat) {
    a < |v| && b < |v| && a != b && w == Incremented(Incremented(v, a), b)
  }

  ghost predicate EntryOf(k: nat, n: nat, part: seq<nat>, e: Pair) {
    e.0 < |part| && e.1 < |part| && part[e.0] < part[e.1] < n && k == UptriIdx(part[e.0], part[e.1], n)
  }

  lemma ContractionOpsSnoc(p: Problem, s: seq<Pair>, e: Pair)
    requires e.0 < p.N() && e.1 < p.N()
    ensures ContractionOps(p, s + [e]) == ContractionOps(p, s) + [(p.ops[e.0], p.ops[e.1])]
    ensures Init(ContractionOps(p, s + [e])) == ContractionOps(p, s)
  {
    assert Init(s + [e]) == s;
  }

  /** The counters of s and of s + [e] differ by the count of e. */
  lemma CountersSnoc(p: Problem, s: seq<Pair>, e: Pair, c: Counters, d: Counters, k: nat, m: nat)
    requires WellFormed(p) && AcrossNops(p, e) && Bumped(p, e, c, d, k, m)
    requires EntryOf(k, |p.partitions|, p.partitionOf, e) && EntryOf(m, p.nnops, NopsOf(p), e)
    requires |c.nopNConnections| == p.nnops && |c.opNContractions| == |p.partitions|
    requires |c.opDegrees| == Ntri(|p.partitions|) && (p.Targets() != [] ==> |c.nopAdjacency| == Ntri(p.nnops))
    ensures CountersAt(p, s, c) && (p.Targets() != [] ==> LinksAt(p, d.nopConnections, s + [e]))
            ==> CountersAt(p, s + [e], d)
    ensures CountersAt(p, s + [e], d) && (p.Targets() != [] ==> LinksAt(p, c.nopConnections, s))
            ==> CountersAt(p, s, c)
  {
    hide WellFormed, LinksAt, VectorAt, MatrixAt, Untracked, UptriIdx, Ntri;
    ContractionOpsSnoc(p, s, e);
    assert c.contractions == Init(d.contractions);
    hide ContractionOps;
    VectorSnoc(d.nopNConnections, c.nopNConnections, |c.nopNConnections|, NopsOf(p), s, e);
    VectorSnoc(d.opNContractions, c.opNContractions, |c.opNContractions|, p.partitionOf, s, e);
    MatrixSnoc(d.opDegrees, c.opDegrees, |p.partitions|, p.partitionOf, s, e, k);
    if p.Targets() != [] { MatrixSnoc(d.nopAdjacency, c.nopAdjacency, p.nnops, NopsOf(p), s, e, m); }
  }

  function Decremented(v: seq<nat>, k: nat): (w: seq<nat>)
    requires k < |v| && v[k] > 0
    ensures |w| == |v|
  {
    v[k := v[k] - 1]
  }

  lemma DecrementedBump(v: seq<nat>, k: nat)
    requires k < |v| && v[k] > 0
    ensures Bump(Decremented(v, k), v, k)
  {
    assert Decremented(v, k)[k := v[k]] == v;
  }

  lemma DecrementedBump2(v: seq<nat>, a: nat, b: nat)
    requires a < |v| && b < |v| && a != b && v[a] > 0 && v[b] > 0
    ensures Decremented(v, a)[b] > 0 && Bump2(Decremented(Decremented(v, a), b), v, a, b)
  {
    assert Incremented(Incremented(Decremented(Decremented(v, a), b), a), b) == v;
  }

  /** The entries that count e are positive once e is made. */
  lemma PositiveVector(v: seq<nat>, n: nat, part: seq<nat>, s: seq<Pair>, e: Pair)
    requires VectorAt(v, n, part, s + [e]) && e.0 < |part| && e.1 < |part| && part[e.0] < n && part[e.1] < n
    ensures |v| == n && v[part[e.0]] > 0 && v[part[e.1]] > 0
  {
    WickDegrees.DegreesSnoc(part, s, e);
    assert v[part[e.0]] == Contracted(part, s + [e], part[e.0]);
    assert v[part[e.1]] == Contracted(part, s + [e], part[e.1]);
  }

  lemma PositiveEntry(m: seq<nat>, n: nat, part: seq<nat>, s: seq<Pair>, e: Pair, k: nat)
    requires MatrixAt(m, n, part, s + [e]) && EntryOf(k, n, part, e)
    ensures n > 0 && |m| == Ntri(n) && k < |m| && m[k] == Degrees(part, s)[(part[e.0], part[e.1])] + 1
  {
    hide Ntri, UptriIdx, Degrees;
    WickDegrees.DegreesSnoc(part, s, e);
    assert m[k] == Entries(part, s + [e])(part[e.0], part[e.1]);
  }
}
