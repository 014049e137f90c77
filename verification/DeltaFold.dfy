/**
 Folding deltas that say nothing new: those of an index with itself, and those
 between externals that earlier ones already identify, found by union-find.
 */
module DeltaFold {
  import opened Sequences
  import opened DeltaValues

  // ---- Union-find ----

  /** The links made, each from one root to another, in order. */
  type Links = seq<(Index, Index)>

  ghost function RootBy(links: Links, i: Index): Index {
    if links == [] then i
    else
      var r := RootBy(Init(links), i);
      if r == Last(links).0 then Last(links).1 else r
  }

  ghost function Linked(links: Links): set<Index> {
    set k | 0 <= k < |links| :: links[k].0
  }

  /** Each link joined two different roots. */
  ghost predicate RootLinks(links: Links) {
    forall k :: 0 <= k < |links| ==>
      links[k].0 != links[k].1 && links[k].0 !in Linked(links[..k]) && links[k].1 !in Linked(links[..k])
  }

  /** parent holds the links. */
  ghost predicate Holds(parent: map<Index, Index>, links: Links) {
    parent.Keys == Linked(links) && forall k :: 0 <= k < |links| ==> links[k].0 in parent && parent[links[k].0] == links[k].1
  }

  lemma {:induction false} RootIsUnlinked(links: Links, i: Index)
    requires RootLinks(links)
    ensures RootBy(links, i) !in Linked(links)
    ensures i !in Linked(links) ==> RootBy(links, i) == i
  {
    if links != [] {
      var u := Init(links);
      assert forall k :: 0 <= k < |u| ==> u[k] == links[k] && u[..k] == links[..k];
      RootIsUnlinked(u, i);
      assert links[..|links| - 1] == u;
      forall x ensures x in Linked(links) <==> x in Linked(u) || x == Last(links).0 {
        if x in Linked(u) { var k :| 0 <= k < |u| && u[k].0 == x; assert links[k].0 == x; }
      }
    }
  }

  /** Indices with one root keep it in common. */
  lemma {:induction false} RootsStay(links: Links, n: nat, i: Index, j: Index)
    requires n <= |links| && RootBy(links[..n], i) == RootBy(links[..n], j)
    ensures RootBy(links, i) == RootBy(links, j)
    decreases |links|
  {
    if n == |links| {
      assert links[..n] == links;
    } else {
      assert Init(links)[..n] == links[..n];
      RootsStay(Init(links), n, i, j);
    }
  }

  lemma LinkKeepsRoot(links: Links, k: nat)
    requires RootLinks(links) && k < |links|
    ensures RootBy(links, links[k].0) == RootBy(links, links[k].1)
  {
    var before := links[..k];
    assert forall j :: 0 <= j < k ==> before[j] == links[j] && before[..j] == links[..j];
    RootIsUnlinked(before, links[k].0);
    RootIsUnlinked(before, links[k].1);
    assert Init(links[..k + 1]) == before && Last(links[..k + 1]) == links[k];
    RootsStay(links, k + 1, links[k].0, links[k].1);
  }

  /** The position of the link that leaves i. */
  ghost function Position(links: Links, i: Index): (k: nat)
    ensures k <= |links| && (k < |links| ==> links[k].0 == i)
    ensures i in Linked(links) ==> k < |links|
    ensures forall j :: 0 <= j < k ==> links[j].0 != i
  {
    if links == [] || links[0].0 == i then 0
    else
      assert i in Linked(links) ==> i in Linked(links[1..]) by {
        if i in Linked(links) { var k :| 0 <= k < |links| && links[k].0 == i; assert links[1..][k - 1].0 == i; }
      }
      1 + Position(links[1..], i)
  }

  /** Follows the parents. */
  method Root(parent: map<Index, Index>, idx: Index, ghost links: Links) returns (r: Index)
    requires Holds(parent, links) && RootLinks(links)
    ensures r == RootBy(links, idx)
  {
    hide RootBy, Linked;
    r := idx;
    while r in parent
      invariant RootBy(links, r) == RootBy(links, idx)
      decreases |links| - Position(links, r)
    {
      var k := Position(links, r);
      LinkKeepsRoot(links, k);
      LaterLink(links, k);
      r := parent[r];
    }
    RootIsUnlinked(links, r);
  }

  lemma RootLinkAt(links: Links, k: nat)
    requires RootLinks(links) && k < |links|
    ensures links[k].0 != links[k].1 && links[k].1 !in Linked(links[..k])
  {
  }

  lemma LaterLink(links: Links, k: nat)
    requires RootLinks(links) && k < |links|
    ensures Position(links, links[k].1) > k
  {
    hide RootLinks, Position;
    RootLinkAt(links, k);
    EarlierLinked(links, k);
  }

  lemma EarlierLinked(links: Links, k: nat)
    requires k <= |links|
    ensures forall q :: 0 <= q < k ==> links[q].0 in Linked(links[..k])
  {
    var before := links[..k];
    assert forall q :: 0 <= q < k ==> before[q].0 == links[q].0 && before[q].0 in Linked(before);
  }

  /** Linking the roots of a and b. */
  lemma LinkRoots(links: Links, parent: map<Index, Index>, a: Index, b: Index)
    requires Holds(parent, links) && RootLinks(links) && a != b && a !in Linked(links) && b !in Linked(links)
    ensures Holds(parent[a := b], links + [(a, b)]) && RootLinks(links + [(a, b)])
    ensures forall i :: RootBy(links + [(a, b)], i) == if RootBy(links, i) == a then b else RootBy(links, i)
  {
    hide Holds, RootLinks, Linked;
    HoldsSnoc(links, parent, a, b);
    RootLinksSnoc(links, a, b);
    assert Init(links + [(a, b)]) == links;
  }

  lemma HoldsSnoc(links: Links, parent: map<Index, Index>, a: Index, b: Index)
    requires Holds(parent, links) && a !in Linked(links)
    ensures Holds(parent[a := b], links + [(a, b)])
  {
    var n := links + [(a, b)];
    forall x ensures x in Linked(n) <==> x in Linked(links) || x == a {
      if x in Linked(links) { var k :| 0 <= k < |links| && links[k].0 == x; assert n[k].0 == x; }
      if x == a { assert n[|links|].0 == a; }
    }
  }

  lemma RootLinksSnoc(links: Links, a: Index, b: Index)
    requires RootLinks(links) && a != b && a !in Linked(links) && b !in Linked(links)
    ensures RootLinks(links + [(a, b)])
  {
    hide Linked;
    var n := links + [(a, b)];
    forall k | 0 <= k < |n|
      ensures n[k].0 != n[k].1 && n[k].0 !in Linked(n[..k]) && n[k].1 !in Linked(n[..k])
    {
      if k < |links| { assert n[k] == links[k] && n[..k] == links[..k]; } else { assert n[..k] == links; }
    }
  }

  // ---- Binding by one more delta ----

  lemma {:induction false} PathWithLast(p: seq<Factor>, a: Index, b: Index, path: seq<Index>, x: Index, y: Index)
    requires Connects(p + [Delta(a, b)], path, x, y)
    ensures Bound(p, x, y) || (Bound(p, x, a) && Bound(p, b, y)) || (Bound(p, x, b) && Bound(p, a, y))
    decreases |path|
  {
    hide Bound;
    if |path| == 1 {
      BoundSelf(p, x);
    } else {
      var c := path[1];
      assert Joined(p + [Delta(a, b)], path[0], path[1]);
      assert Connects(p + [Delta(a, b)], path[1..], c, y) by {
        forall k | 0 <= k < |path[1..]| - 1 ensures Joined(p + [Delta(a, b)], path[1..][k], path[1..][k + 1]) {
          assert Joined(p + [Delta(a, b)], path[k + 1], path[k + 2]);
        }
      }
      PathWithLast(p, a, b, path[1..], c, y);
      BoundSelf(p, x);
      if Joined(p, x, c) {
        BoundJoined(p, x, c);
        if Bound(p, c, y) { BoundTransitive(p, x, c, y); }
        if Bound(p, c, a) { BoundTransitive(p, x, c, a); }
        if Bound(p, c, b) { BoundTransitive(p, x, c, b); }
      }
    }
  }

  lemma BoundMore(p: seq<Factor>, q: seq<Factor>, x: Index, y: Index)
    requires Bound(p, x, y) && forall i, j :: Delta(i, j) in p ==> Delta(i, j) in q
    ensures Bound(q, x, y)
  {
    var path :| Connects(p, path, x, y);
    forall k | 0 <= k < |path| - 1 ensures Joined(q, path[k], path[k + 1]) {
      assert Joined(p, path[k], path[k + 1]);
    }
    assert Connects(q, path, x, y);
  }

  lemma BoundSnoc(p: seq<Factor>, a: Index, b: Index, x: Index, y: Index)
    ensures Bound(p + [Delta(a, b)], x, y) <==>
            Bound(p, x, y) || (Bound(p, x, a) && Bound(p, b, y)) || (Bound(p, x, b) && Bound(p, a, y))
  {
    var q := p + [Delta(a, b)];
    if Bound(q, x, y) {
      var path :| Connects(q, path, x, y);
      PathWithLast(p, a, b, path, x, y);
    }
    hide Bound;
    assert Joined(q, a, b) by { assert q[|p|] == Delta(a, b); }
    BoundJoined(q, a, b);
    if Bound(p, x, y) { BoundMore(p, q, x, y); }
    if Bound(p, x, a) && Bound(p, b, y) {
      BoundMore(p, q, x, a);
      BoundMore(p, q, b, y);
      BoundTransitive(q, x, a, b);
      BoundTransitive(q, x, b, y);
    }
    if Bound(p, x, b) && Bound(p, a, y) {
      BoundMore(p, q, x, b);
      BoundMore(p, q, a, y);
      BoundTransitive(q, x, b, a);
      BoundTransitive(q, x, a, y);
    }
  }

  /** One root means bound by the deltas kept. */
  ghost predicate RootsAreBound(links: Links, kept: seq<Factor>) {
    forall x, y :: SameRoot(links, x, y) <==> Bound(kept, x, y)
  }

  ghost predicate SameRoot(links: Links, x: Index, y: Index) {
    RootBy(links, x) == RootBy(links, y)
  }

  lemma NothingBound()
    ensures RootsAreBound([], [])
  {
    forall x: Index, y: Index ensures SameRoot([], x, y) <==> Bound([], x, y) {
      if x == y { BoundSelf([], x); }
      if Bound([], x, y) {
        var path :| Connects([], path, x, y);
        if |path| > 1 { assert Joined([], path[0], path[1]); }
      }
    }
  }

  /** Keeping a delta between a and b and linking their roots. */
  lemma KeepAndLink(links: Links, kept: seq<Factor>, parent: map<Index, Index>, a: Index, b: Index)
    requires Holds(parent, links) && RootLinks(links) && RootsAreBound(links, kept) && !SameRoot(links, a, b)
    ensures var ra, rb := RootBy(links, a), RootBy(links, b);
            && Holds(parent[ra := rb], links + [(ra, rb)]) && RootLinks(links + [(ra, rb)])
            && RootsAreBound(links + [(ra, rb)], kept + [Delta(a, b)])
  {
    var ra, rb := RootBy(links, a), RootBy(links, b);
    RootIsUnlinked(links, a);
    RootIsUnlinked(links, b);
    LinkRoots(links, parent, ra, rb);
    hide Bound, RootBy;
    forall x, y ensures SameRoot(links + [(ra, rb)], x, y) <==> Bound(kept + [Delta(a, b)], x, y) {
      BoundSnoc(kept, a, b, x, y);
      assert SameRoot(links, x, y) <==> Bound(kept, x, y);
      assert SameRoot(links, x, a) <==> Bound(kept, x, a);
      assert SameRoot(links, x, b) <==> Bound(kept, x, b);
      assert SameRoot(links, a, y) <==> Bound(kept, a, y);
      assert SameRoot(links, b, y) <==> Bound(kept, b, y);
    }
  }

  // ---- Folding ----

  predicate SelfDelta(f: Factor) {
    f.Delta? && f.bra == f.ket
  }

  predicate ExternalDelta(f: Factor, ext: set<Index>) {
    f.Delta? && f.bra != f.ket && f.bra in ext && f.ket in ext
  }

  function CountIn(s: seq<Index>, i: Index): nat {
    if s == [] then 0 else CountIn(Init(s), i) + (if Last(s) == i then 1 else 0)
  }

  /** Occurrences of i in the slots of p. */
  function Occurrences(p: seq<Factor>, i: Index): nat {
    if p == [] then 0 else Occurrences(Init(p), i) + CountIn(Slots(Last(p)), i)
  }

  function SelfDeltas(p: seq<Factor>, i: Index): nat {
    if p == [] then 0 else SelfDeltas(Init(p), i) + (if Last(p) == Delta(i, i) then 1 else 0)
  }

  /** i is in a factor other than its self-deltas. */
  ghost predicate Elsewhere(p: seq<Factor>, i: Index) {
    exists k :: 0 <= k < |p| && HasElsewhere(p[k], i)
  }

  ghost predicate HasElsewhere(f: Factor, i: Index) {
    i in Slots(f) && f != Delta(i, i)
  }

  lemma {:induction false} CountInPositive(s: seq<Index>, i: Index)
    ensures CountIn(s, i) > 0 <==> i in s
  {
    if s != [] {
      CountInPositive(Init(s), i);
      assert s == Init(s) + [Last(s)];
    }
  }

  /** Counting occurrences finds the indices bound elsewhere. */
  lemma {:induction false} ElsewhereByCount(p: seq<Factor>, i: Index)
    ensures Occurrences(p, i) >= 2 * SelfDeltas(p, i)
    ensures Occurrences(p, i) > 2 * SelfDeltas(p, i) <==> Elsewhere(p, i)
  {
    hide Elsewhere, CountIn, Slots;
    ElsewhereSnoc(p, i);
    if p != [] {
      ElsewhereByCount(Init(p), i);
      CountInPositive(Slots(Last(p)), i);
      SelfDeltaCount(i);
    }
  }

  lemma ElsewhereSnoc(p: seq<Factor>, i: Index)
    ensures Elsewhere(p, i) <==> p != [] && (Elsewhere(Init(p), i) || HasElsewhere(Last(p), i))
  {
    if p != [] {
      var u, f := Init(p), Last(p);
      if Elsewhere(u, i) { var k :| 0 <= k < |u| && HasElsewhere(u[k], i); assert p[k] == u[k]; }
      if HasElsewhere(f, i) { assert p[|p| - 1] == f; }
      if Elsewhere(p, i) { var k :| 0 <= k < |p| && HasElsewhere(p[k], i); assert k < |u| ==> u[k] == p[k]; }
    }
  }

  lemma SelfDeltaCount(i: Index)
    ensures CountIn(Slots(Delta(i, i)), i) == 2
  {
    assert Init([i, i]) == [i] && Init([i]) == [];
    assert CountIn([], i) == 0 && CountIn([i], i) == 1;
  }

  /** The deltas between externals, in order. */
  function ExternalDeltas(p: seq<Factor>, ext: set<Index>): seq<Factor> {
    if p == [] then [] else ExternalDeltas(Init(p), ext) + (if ExternalDelta(Last(p), ext) then [Last(p)] else [])
  }

  lemma {:induction false} ExternalDeltasAre(p: seq<Factor>, ext: set<Index>)
    ensures forall i, j :: Delta(i, j) in ExternalDeltas(p, ext) ==> Delta(i, j) in p
  {
    if p != [] {
      ExternalDeltasAre(Init(p), ext);
      assert p == Init(p) + [Last(p)];
    }
  }

  /** Number of deltas. */
  function DeltaCount(p: seq<Factor>): nat {
    if p == [] then 0 else DeltaCount(Init(p)) + (if Last(p).Delta? then 1 else 0)
  }

  /** A factor of p that folding may turn into 1, given the result q. */
  ghost predicate Redundant(q: seq<Factor>, f: Factor) {
    f.Delta? && (f.bra == f.ket || Bound(q, f.bra, f.ket))
  }

  /** q is p with redundant deltas turned into 1 and the same dummies. */
  ghost predicate Folded(p: seq<Factor>, q: seq<Factor>, ext: set<Index>) {
    && |q| == |p|
    && (forall k :: 0 <= k < |p| ==> q[k] == p[k] || (q[k] == One && Redundant(q, p[k])))
    && Indices(q) - ext == Indices(p) - ext
  }

  /** No delta of q can be folded. */
  ghost predicate Tidy(q: seq<Factor>, ext: set<Index>) {
    && (forall k :: 0 <= k < |q| && SelfDelta(q[k]) ==> Lone(q, ext, k))
    && (forall k :: 0 <= k < |q| && ExternalDelta(q[k], ext) ==> !Bound(ExternalDeltas(q[..k], ext), q[k].bra, q[k].ket))
  }

  /** The self-delta q[k] is the only occurrence of a dummy. */
  ghost predicate Lone(q: seq<Factor>, ext: set<Index>, k: nat)
    requires k < |q| && q[k].Delta?
  {
    q[k].bra !in ext && !Elsewhere(q, q[k].bra) && forall j :: 0 <= j < |q| && j != k ==> q[j] != q[k]
  }

  /** What folding makes of factor k, given what it made of those before. */
  ghost function FoldOne(p: seq<Factor>, before: seq<Factor>, ext: set<Index>, k: nat): Factor
    requires k < |p|
  {
    if SelfDelta(p[k]) then
      if p[k].bra in ext || Elsewhere(p, p[k].bra) || p[k] in p[..k] then One else p[k]
    else if ExternalDelta(p[k], ext) then
      if Bound(ExternalDeltas(before, ext), p[k].bra, p[k].ket) then One else p[k]
    else p[k]
  }

  ghost function FoldTo(p: seq<Factor>, ext: set<Index>, n: nat): (q: seq<Factor>)
    requires n <= |p|
    ensures |q| == n
  {
    if n == 0 then [] else FoldTo(p, ext, n - 1) + [FoldOne(p, FoldTo(p, ext, n - 1), ext, n - 1)]
  }

  /** The product with its deltas folded. */
  ghost function Fold(p: seq<Factor>, ext: set<Index>): seq<Factor> {
    FoldTo(p, ext, |p|)
  }

  ghost predicate FoldStep(p: seq<Factor>, q: seq<Factor>, ext: set<Index>, k: nat)
    requires k < |p| == |q|
  {
    q[k] == FoldOne(p, q[..k], ext, k)
  }

  lemma {:induction false} StepsFold(p: seq<Factor>, q: seq<Factor>, ext: set<Index>, n: nat)
    requires n <= |p| == |q|
    ensures FoldSteps(p, q, ext, n) <==> q[..n] == FoldTo(p, ext, n)
  {
    hide FoldOne;
    if n > 0 {
      StepsFold(p, q, ext, n - 1);
      assert q[..n] == q[..n - 1] + [q[n - 1]];
      var r := FoldTo(p, ext, n);
      assert r[..n - 1] == FoldTo(p, ext, n - 1);
      if q[..n] == r { assert q[..n - 1] == q[..n][..n - 1]; assert q[n - 1] == q[..n][n - 1]; }
      assert FoldSteps(p, q, ext, n) <==> FoldSteps(p, q, ext, n - 1) && FoldStep(p, q, ext, n - 1);
    }
  }

  ghost predicate FoldSteps(p: seq<Factor>, q: seq<Factor>, ext: set<Index>, n: nat) {
    |q| == |p| && n <= |p| && forall k :: 0 <= k < n ==> FoldStep(p, q, ext, k)
  }

  /** The lone dummies whose self-delta has been kept. */
  ghost predicate KeptAre(kept: set<Index>, p: seq<Factor>, ext: set<Index>, n: nat) {
    n <= |p| && forall i :: i in kept <==> Delta(i, i) in p[..n] && i !in ext && !Elsewhere(p, i)
  }

  /** fold_deltas. */
  method FoldDeltas(p: seq<Factor>, ext: set<Index>) returns (q: seq<Factor>, mutated: bool)
    ensures q == Fold(p, ext) && Folded(p, q, ext) && Tidy(q, ext)
    ensures mutated <==> q != p
    ensures mutated ==> DeltaCount(q) < DeltaCount(p)
  {
    hide Elsewhere, Bound, Folded, Tidy, RootBy, DeltaCount, Occurrences, SelfDeltas, Linked, RootLinks, FoldSteps, KeptAre, Holds,
         RootsAreBound, ExternalDeltas;
    q, mutated := p, false;
    var kept: set<Index>, parent: map<Index, Index> := {}, map[];
    ghost var links: Links := [];
    StartOfFold(p, ext);
    for k := 0 to |p|
      invariant |q| == |p| && FoldSteps(p, q, ext, k) && q[k..] == p[k..]
      invariant KeptAre(kept, p, ext, k)
      invariant Holds(parent, links) && RootLinks(links) && RootsAreBound(links, ExternalDeltas(q[..k], ext))
      invariant mutated <==> q != p
    {
      var f := q[k];
      ghost var before := q;
      var redundant := false;
      if SelfDelta(f) {
        redundant, kept := FoldSelf(p, ext, k, f.bra, kept);
      } else if ExternalDelta(f, ext) {
        redundant, parent, links := FoldExternal(f.bra, f.ket, parent, links, ExternalDeltas(q[..k], ext));
      }
      if redundant {
        q := q[k := One];
        mutated := true;
      }
      StepFolded(p, before, q, ext, k, redundant);
      KeptStep(kept, p, ext, k);
    }
    EndOfFold(p, q, ext);
    StepsFold(p, q, ext, |p|);
    assert q[..|p|] == q;
    if mutated { FewerDeltas(p, q); }
  }

  /** Whether a self-delta of i is redundant, and the lone dummies with a kept one. */
  method FoldSelf(p: seq<Factor>, ext: set<Index>, k: nat, i: Index, kept: set<Index>) returns (redundant: bool, now: set<Index>)
    requires k < |p| && p[k] == Delta(i, i) && KeptAre(kept, p, ext, k)
    ensures redundant <==> i in ext || Elsewhere(p, i) || p[k] in p[..k]
    ensures KeptAre(now, p, ext, k + 1)
  {
    hide Elsewhere, Occurrences, SelfDeltas;
    ElsewhereByCount(p, i);
    now := kept;
    var boundElsewhere := i in ext || Occurrences(p, i) > 2 * SelfDeltas(p, i);
    redundant := boundElsewhere || i in kept;
    if !boundElsewhere { now := kept + {i}; }
    assert p[..k + 1] == p[..k] + [p[k]];
  }

  /** Whether a delta between externals is redundant, and the links with it. */
  method FoldExternal(a: Index, b: Index, parent: map<Index, Index>, ghost links: Links, ghost deltas: seq<Factor>)
      returns (redundant: bool, now: map<Index, Index>, ghost more: Links)
    requires Holds(parent, links) && RootLinks(links) && RootsAreBound(links, deltas)
    ensures redundant <==> Bound(deltas, a, b)
    ensures Holds(now, more) && RootLinks(more)
    ensures RootsAreBound(more, if redundant then deltas else deltas + [Delta(a, b)])
  {
    hide Holds, RootLinks, RootBy, Bound;
    now, more := parent, links;
    var braRoot := Root(parent, a, links);
    var ketRoot := Root(parent, b, links);
    redundant := braRoot == ketRoot;
    assert SameRoot(links, a, b) <==> redundant;
    assert SameRoot(links, a, b) <==> Bound(deltas, a, b);
    if !redundant {
      KeepAndLink(links, deltas, parent, a, b);
      now := parent[braRoot := ketRoot];
      more := links + [(braRoot, ketRoot)];
    }
  }

  lemma StartOfFold(p: seq<Factor>, ext: set<Index>)
    ensures FoldSteps(p, p, ext, 0) && KeptAre({}, p, ext, 0)
    ensures Holds(map[], []) && RootLinks([]) && RootsAreBound([], ExternalDeltas(p[..0], ext))
  {
    NothingBound();
    NoLinks();
    assert p[..0] == [];
  }

  lemma EndOfFold(p: seq<Factor>, q: seq<Factor>, ext: set<Index>)
    requires FoldSteps(p, q, ext, |p|)
    ensures Folded(p, q, ext) && Tidy(q, ext)
    ensures |q| == |p| && forall k :: 0 <= k < |p| ==> q[k] == p[k] || (q[k] == One && p[k].Delta?)
  {
    FoldResult(p, q, ext);
  }

  lemma KeptStep(kept: set<Index>, p: seq<Factor>, ext: set<Index>, k: nat)
    requires k < |p| && KeptAre(kept, p, ext, if SelfDelta(p[k]) then k + 1 else k)
    ensures KeptAre(kept, p, ext, k + 1)
  {
    hide Elsewhere;
    assert p[..k + 1] == p[..k] + [p[k]];
  }

  /** Folding factor k. */
  lemma StepFolded(p: seq<Factor>, before: seq<Factor>, q: seq<Factor>, ext: set<Index>, k: nat, redundant: bool)
    requires k < |p| && |before| == |p| && FoldSteps(p, before, ext, k) && before[k..] == p[k..]
    requires q == if redundant then before[k := One] else before
    requires redundant <==>
               if SelfDelta(p[k]) then p[k].bra in ext || Elsewhere(p, p[k].bra) || p[k] in p[..k]
               else ExternalDelta(p[k], ext) && Bound(ExternalDeltas(before[..k], ext), p[k].bra, p[k].ket)
    ensures FoldSteps(p, q, ext, k + 1) && q[k + 1..] == p[k + 1..] && before[k] == p[k]
    ensures ExternalDeltas(q[..k + 1], ext)
            == if ExternalDelta(p[k], ext) && !redundant then ExternalDeltas(before[..k], ext) + [p[k]] else ExternalDeltas(before[..k], ext)
    ensures q == before <==> !redundant || p[k] == One
  {
    hide Elsewhere, Bound, ExternalDeltas;
    assert before[k] == before[k..][0] == p[k..][0] == p[k];
    assert q[..k] == before[..k];
    assert q[k + 1..] == before[k..][1..];
    FoldStepsKept(p, before, q, ext, k);
    ExternalDeltasSnoc(q, ext, k);
    assert FoldStep(p, q, ext, k);
  }

  lemma NoLinks()
    ensures Holds(map[], []) && RootLinks([])
  {
  }

  lemma ExternalDeltasSnoc(q: seq<Factor>, ext: set<Index>, k: nat)
    requires k < |q|
    ensures ExternalDeltas(q[..k + 1], ext) == ExternalDeltas(q[..k], ext) + (if ExternalDelta(q[k], ext) then [q[k]] else [])
  {
    assert Init(q[..k + 1]) == q[..k] && Last(q[..k + 1]) == q[k];
  }

  /** Steps before k do not look at factor k. */
  lemma FoldStepsKept(p: seq<Factor>, before: seq<Factor>, q: seq<Factor>, ext: set<Index>, k: nat)
    requires k < |p| && FoldSteps(p, before, ext, k) && |q| == |p| && forall j :: 0 <= j < |p| && j != k ==> q[j] == before[j]
    ensures FoldSteps(p, q, ext, k)
  {
    forall j | 0 <= j < k ensures FoldStep(p, q, ext, j) {
      assert q[..j] == before[..j];
      assert FoldStep(p, before, ext, j);
    }
  }

  lemma FoldResult(p: seq<Factor>, q: seq<Factor>, ext: set<Index>)
    requires FoldSteps(p, q, ext, |p|)
    ensures Folded(p, q, ext) && Tidy(q, ext)
    ensures forall k :: 0 <= k < |p| ==> q[k] == p[k] || (q[k] == One && p[k].Delta?)
  {
    hide Elsewhere, Bound, Indices, ExternalDeltas;
    forall k | 0 <= k < |p| ensures q[k] == p[k] || (q[k] == One && Redundant(q, p[k])) {
      assert FoldStep(p, q, ext, k);
      if ExternalDelta(p[k], ext) && q[k] == One { EarlierBinds(q, ext, k, p[k].bra, p[k].ket); }
    }
    forall i | i !in ext ensures i in Indices(p) <==> i in Indices(q) {
      SameDummies(p, q, ext, i);
    }
    forall k | 0 <= k < |q| && SelfDelta(q[k]) ensures Lone(q, ext, k) {
      KeptIsLone(p, q, ext, k);
    }
    forall k | 0 <= k < |q| && ExternalDelta(q[k], ext)
      ensures !Bound(ExternalDeltas(q[..k], ext), q[k].bra, q[k].ket)
    {
      assert FoldStep(p, q, ext, k);
    }
  }

  lemma EarlierBinds(q: seq<Factor>, ext: set<Index>, k: nat, a: Index, b: Index)
    requires k <= |q| && Bound(ExternalDeltas(q[..k], ext), a, b)
    ensures Bound(q, a, b)
  {
    ExternalDeltasAre(q[..k], ext);
    forall i, j | Delta(i, j) in q[..k] ensures Delta(i, j) in q {
      var l :| 0 <= l < k && q[..k][l] == Delta(i, j);
      assert q[l] == Delta(i, j);
    }
    BoundMore(ExternalDeltas(q[..k], ext), q, a, b);
  }

  lemma {:induction false} IndexSomewhere(p: seq<Factor>, i: Index)
    ensures i in Indices(p) <==> exists k :: 0 <= k < |p| && i in Slots(p[k])
  {
    if p != [] {
      IndexSomewhere(Init(p), i);
      if i in Indices(Init(p)) {
        var k :| 0 <= k < |Init(p)| && i in Slots(Init(p)[k]);
        assert i in Slots(p[k]);
      }
      if i in Slots(Last(p)) { assert i in Slots(p[|p| - 1]); }
      if k :| 0 <= k < |p| && i in Slots(p[k]) { assert k < |p| - 1 ==> i in Slots(Init(p)[k]); }
    }
  }

  /** The first of the factors equal to f. */
  lemma {:induction false} FirstOf(p: seq<Factor>, f: Factor) returns (k: nat)
    requires f in p
    ensures k < |p| && p[k] == f && f !in p[..k]
  {
    if f in Init(p) {
      k := FirstOf(Init(p), f);
      assert Init(p)[..k] == p[..k];
    } else {
      k := |p| - 1;
      assert p == Init(p) + [Last(p)];
      assert p[..k] == Init(p);
    }
  }

  lemma SameDummies(p: seq<Factor>, q: seq<Factor>, ext: set<Index>, i: Index)
    requires FoldSteps(p, q, ext, |p|) && i !in ext
    ensures i in Indices(p) <==> i in Indices(q)
  {
    hide Bound, ExternalDeltas, Indices;
    IndexSomewhere(p, i);
    IndexSomewhere(q, i);
    if i in Indices(q) {
      var k :| 0 <= k < |q| && i in Slots(q[k]);
      assert FoldStep(p, q, ext, k);
      assert i in Slots(p[k]);
    }
    if i in Indices(p) {
      var k :| 0 <= k < |p| && i in Slots(p[k]);
      if Elsewhere(p, i) {
        k :| 0 <= k < |p| && HasElsewhere(p[k], i);
      } else {
        assert !HasElsewhere(p[k], i);
        k := FirstOf(p, Delta(i, i));
      }
      assert FoldStep(p, q, ext, k);
      assert i in Slots(q[k]);
    }
  }

  lemma KeptIsLone(p: seq<Factor>, q: seq<Factor>, ext: set<Index>, k: nat)
    requires FoldSteps(p, q, ext, |p|) && k < |q| && SelfDelta(q[k])
    ensures Lone(q, ext, k)
  {
    hide Bound, ExternalDeltas;
    assert FoldStep(p, q, ext, k);
    var i := q[k].bra;
    forall j | 0 <= j < |q| ensures !HasElsewhere(q[j], i) && (j != k ==> q[j] != q[k]) {
      assert FoldStep(p, q, ext, j);
      assert !HasElsewhere(p[j], i);
      if j < k && p[j] == p[k] {
        RepeatedIsOne(p, q, ext, j, k);
      } else if j > k && p[j] == p[k] {
        RepeatedIsOne(p, q, ext, k, j);
      }
    }
  }

  lemma RepeatedIsOne(p: seq<Factor>, q: seq<Factor>, ext: set<Index>, j: nat, k: nat)
    requires FoldSteps(p, q, ext, |p|) && j < k < |p| && p[j] == p[k] && SelfDelta(p[k])
    ensures q[k] == One
  {
    assert FoldStep(p, q, ext, k);
    assert p[..k][j] == p[k];
  }

  lemma {:induction false} FewerDeltas(p: seq<Factor>, q: seq<Factor>)
    requires |p| == |q| && forall k :: 0 <= k < |p| ==> q[k] == p[k] || (q[k] == One && p[k].Delta?)
    ensures DeltaCount(q) <= DeltaCount(p) && (q != p ==> DeltaCount(q) < DeltaCount(p))
  {
    if p != [] {
      FewerDeltas(Init(p), Init(q));
      if Init(p) == Init(q) && Last(p) == Last(q) { assert p == Init(p) + [Last(p)] && q == Init(q) + [Last(q)]; }
    }
  }

  // ---- Folding keeps the value ----

  /** g is f, or the constant 1 in place of a delta that a satisfies. */
  ghost predicate Alike(a: Assignment, f: Factor, g: Factor) {
    g == f || (g == One && f.Delta? && (f.bra in a && f.ket in a ==> a[f.bra] == a[f.ket]))
  }

  lemma AlikeValue(t: Meaning, f: Factor, g: Factor, a: Assignment)
    requires Alike(a, f, g) && Elems(Slots(f)) <= a.Keys && Elems(Slots(g)) <= a.Keys
    ensures FactorValue(t, g, a) == FactorValue(t, f, a)
  {
    if g != f { assert f.bra in Slots(f) && f.ket in Slots(f); }
  }

  lemma {:induction false} SatisfiedAlike(t: Meaning, p: seq<Factor>, q: seq<Factor>, a: Assignment)
    requires |p| == |q| && Indices(p) <= a.Keys && Indices(q) <= a.Keys
    requires forall k :: 0 <= k < |p| ==> Alike(a, p[k], q[k])
    ensures ProductValue(t, p, a) == ProductValue(t, q, a)
  {
    hide FactorValue, Alike;
    if p != [] {
      SatisfiedAlike(t, Init(p), Init(q), a);
      assert q[|q| - 1] == Last(q) && p[|p| - 1] == Last(p);
      AlikeValue(t, Last(p), Last(q), a);
    }
  }

  lemma FoldedSummand(t: Meaning, p: seq<Factor>, q: seq<Factor>, env: Assignment, s: Assignment)
    requires Folded(p, q, env.Keys) && s.Keys == Indices(p) - env.Keys
    ensures Summand(t, q, env, s) == Summand(t, p, env, s)
  {
    hide Bound, Satisfies, Indices;
    var a := env + s;
    assert Indices(p) <= a.Keys && Indices(q) <= a.Keys;
    ViolatedIsZero(t, p, a);
    ViolatedIsZero(t, q, a);
    if Satisfies(q, a) {
      forall k | 0 <= k < |p| ensures Alike(a, p[k], q[k]) {
        if q[k] != p[k] && p[k].bra in a && p[k].ket in a && p[k].bra != p[k].ket { BoundAgrees(q, a, p[k].bra, p[k].ket); }
      }
      SatisfiedAlike(t, p, q, a);
    } else if Satisfies(p, a) {
      SatisfiedLess(p, q, a);
    }
  }

  lemma SatisfiedLess(p: seq<Factor>, q: seq<Factor>, a: Assignment)
    requires |p| == |q| && (forall k :: 0 <= k < |p| ==> q[k] == p[k] || q[k] == One) && Satisfies(p, a)
    ensures Satisfies(q, a)
  {
    forall i, j | Delta(i, j) in q ensures i in a && j in a && a[i] == a[j] {
      var k :| 0 <= k < |q| && q[k] == Delta(i, j);
      assert Delta(i, j) == p[k];
      assert p[k] in p;
    }
  }

  lemma {:induction false} SameSum(t: Meaning, p: seq<Factor>, q: seq<Factor>, env: Assignment, on: set<Assignment>)
    requires forall s :: s in on ==> Summand(t, q, env, s) == Summand(t, p, env, s)
    ensures SumOver(t, q, env, on) == SumOver(t, p, env, on)
  {
    hide Summand;
    var h := map s | s in on :: s;
    SumImage(t, p, q, env, on, h);
    assert on == set s | s in on :: h[s];
  }

  lemma FoldKeepsValue(t: Meaning, p: seq<Factor>, q: seq<Factor>, env: Assignment)
    requires Folded(p, q, env.Keys)
    ensures Value(t, q, env) == Value(t, p, env)
  {
    hide Folded, Summand;
    SameDummySet(p, q, env.Keys);
    var d := Indices(p) - env.Keys;
    forall s | s in Assignments(d) ensures Summand(t, q, env, s) == Summand(t, p, env, s) {
      AssignmentsRange(d, s);
      FoldedSummand(t, p, q, env, s);
    }
    SameSum(t, p, q, env, Assignments(d));
  }

  lemma SameDummySet(p: seq<Factor>, q: seq<Factor>, ext: set<Index>)
    requires Folded(p, q, ext)
    ensures Indices(q) - ext == Indices(p) - ext
  {
  }
}
