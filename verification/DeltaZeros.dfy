/**
 When a product is found to be zero. Destinations are never empty and only narrow, so no delta of disjoint spaces, and no
 chain of deltas through dummies that leaves an index no value, survives the first pass; and what survives it, survives.
 */
module DeltaZeros {
  import opened Sequences
  import opened DeltaValues
  import opened DeltaSubstitution
  import opened DeltaRules
  import opened DeltaFold

  // ---- Destinations narrow ----

  ghost predicate NoneEmpty(m: map<Index, Index>) {
    forall i :: i in m ==> m[i].space != {}
  }

  ghost predicate Narrows(m: map<Index, Index>, n: map<Index, Index>) {
    m.Keys <= n.Keys && forall i :: i in m ==> n[i].space <= m[i].space
  }

  /** The spaces of a and b meet, and the destinations of the dummies among them are within both. */
  ghost predicate TightAt(ext: set<Index>, m: map<Index, Index>, a: Index, b: Index) {
    a != b ==>
      && a.space * b.space != {}
      && (a !in ext ==> a in m && m[a].space <= a.space * b.space)
      && (b !in ext ==> b in m && m[b].space <= a.space * b.space)
  }

  ghost predicate AllTight(q: seq<Factor>, ext: set<Index>, m: map<Index, Index>) {
    forall a, b :: Delta(a, b) in q ==> TightAt(ext, m, a, b)
  }

  lemma UpdateNarrows(r: Rules, src: Index, dst: Index)
    requires NoneEmpty(r.dst) && src in r.dst
    ensures match UpdateRule(r, src, dst)
            case Zero => true
            case Collected(n) => NoneEmpty(n.dst) && Narrows(r.dst, n.dst) && src in n.dst && n.dst[src].space <= dst.space
                                 && n.dst.Keys == r.dst.Keys
  {
  }

  lemma AddNarrows(r: Rules, src: Index, dst: Index)
    requires NoneEmpty(r.dst) && dst.space != {}
    ensures match AddOrUpdateRule(r, src, dst)
            case Zero => true
            case Collected(n) => NoneEmpty(n.dst) && Narrows(r.dst, n.dst) && src in n.dst && n.dst[src].space <= dst.space
  {
    hide UpdateRule;
    if src in r.dst { UpdateNarrows(r, src, dst); }
  }

  lemma FollowingNarrows(r: Rules, src: Index, other: Index, dst: Index)
    requires NoneEmpty(r.dst) && src in r.dst && other !in r.dst
    ensures match Following(UpdateRule(r, src, dst), src, other)
            case Zero => true
            case Collected(n) => NoneEmpty(n.dst) && Narrows(r.dst, n.dst) && src in n.dst && other in n.dst
                                 && n.dst[src].space <= dst.space && n.dst[other].space <= dst.space
  {
    hide UpdateRule;
    UpdateNarrows(r, src, dst);
  }

  lemma MergedHasSpace(d1: Index, d2: Index, dst: Index, next: nat, less: Order)
    ensures var space := MergedSpace(d1, d2, dst);
            && Merged(d1, d2, dst, space, next, less).space == space
            && space <= d1.space && space <= d2.space && space <= dst.space
  {
  }

  lemma BothNarrow(r: Rules, src1: Index, src2: Index, dst: Index, less: Order)
    requires NoneEmpty(r.dst) && dst.space != {} && src1 != src2
    ensures match AddOrUpdateRules(r, src1, src2, dst, less)
            case Zero => true
            case Collected(n) => NoneEmpty(n.dst) && Narrows(r.dst, n.dst) && src1 in n.dst && src2 in n.dst
                                 && n.dst[src1].space <= dst.space && n.dst[src2].space <= dst.space
  {
    hide UpdateRule, Following, Merged, MergedSpace;
    if src1 in r.dst && src2 in r.dst {
      MergedHasSpace(r.dst[src1], r.dst[src2], dst, r.next, less);
    } else if src1 in r.dst {
      FollowingNarrows(r, src1, src2, dst);
    } else if src2 in r.dst {
      FollowingNarrows(r, src2, src1, dst);
    }
  }

  lemma ProcessNarrows(r: Rules, ext: set<Index>, a: Index, b: Index, less: Order)
    requires NoneEmpty(r.dst)
    ensures match Process(r, ext, a, b, less)
            case Zero => true
            case Collected(n) => NoneEmpty(n.dst) && Narrows(r.dst, n.dst) && TightAt(ext, n.dst, a, b)
  {
    hide AddOrUpdateRule, AddOrUpdateRules;
    var space := a.space * b.space;
    if a != b && space != {} {
      if a !in ext && b !in ext {
        BothNarrow(r.(next := r.next + 1), a, b, Index(r.next, space), less);
      } else if b !in ext {
        if a.space <= b.space { AddNarrows(r, b, a); } else { AddNarrows(r.(next := r.next + 1), b, Index(r.next, space)); }
      } else if a !in ext {
        if b.space <= a.space { AddNarrows(r, a, b); } else { AddNarrows(r.(next := r.next + 1), a, Index(r.next, space)); }
      }
    }
  }

  lemma TightStays(ext: set<Index>, m: map<Index, Index>, n: map<Index, Index>, a: Index, b: Index)
    requires TightAt(ext, m, a, b) && Narrows(m, n)
    ensures TightAt(ext, n, a, b)
  {
  }

  lemma {:induction false} CollectTight(q: seq<Factor>, ext: set<Index>, first: nat, less: Order)
    ensures match Collect(q, ext, first, less)
            case Zero => true
            case Collected(r) => NoneEmpty(r.dst) && AllTight(q, ext, r.dst)
  {
    hide Process, TightAt, Narrows, NoneEmpty;
    NoneIsEmpty();
    if q != [] {
      CollectTight(Init(q), ext, first, less);
      var o, f := Collect(Init(q), ext, first, less), Last(q);
      assert q == Init(q) + [f];
      if o.Collected? && f.Delta? {
        ProcessNarrows(o.rules, ext, f.bra, f.ket, less);
        var n := Process(o.rules, ext, f.bra, f.ket, less);
        if n.Collected? {
          forall a, b | Delta(a, b) in q ensures TightAt(ext, n.rules.dst, a, b) {
            if Delta(a, b) in Init(q) { TightStays(ext, o.rules.dst, n.rules.dst, a, b); }
          }
        }
      }
    }
  }

  lemma NoneIsEmpty()
    ensures NoneEmpty(map[])
  {
  }

  // ---- What must be reported as zero ----

  /** A delta of different indices of disjoint spaces. */
  ghost predicate Impossible(f: Factor) {
    f.Delta? && f.bra != f.ket && f.bra.space * f.ket.space == {}
  }

  /** A chain of deltas from d to j all of whose indices but the last are dummies. */
  ghost predicate Leads(p: seq<Factor>, ext: set<Index>, path: seq<Index>, d: Index, j: Index) {
    Connects(p, path, d, j) && forall k :: 0 <= k < |path| - 1 ==> path[k] !in ext
  }

  ghost predicate Reaches(p: seq<Factor>, ext: set<Index>, d: Index, j: Index) {
    exists path :: Leads(p, ext, path, d, j)
  }

  /** v is in the space of all that d reaches. */
  ghost predicate Feeds(p: seq<Factor>, ext: set<Index>, d: Index, v: int) {
    forall j :: Reaches(p, ext, d, j) ==> v in j.space
  }

  /** No value is in the spaces of all that d reaches. */
  ghost predicate Starved(p: seq<Factor>, ext: set<Index>, d: Index) {
    forall v: int :: !Feeds(p, ext, d, v)
  }

  lemma TailLeads(p: seq<Factor>, ext: set<Index>, path: seq<Index>, d: Index, j: Index)
    requires Leads(p, ext, path, d, j) && |path| > 1
    ensures Leads(p, ext, path[1..], path[1], j) && Joined(p, d, path[1]) && d !in ext
    ensures path[1] in ext ==> path[1] == j
  {
    forall k | 0 <= k < |path[1..]| - 1 ensures Joined(p, path[1..][k], path[1..][k + 1]) && path[1..][k] !in ext {
      assert Joined(p, path[k + 1], path[k + 2]);
    }
    assert Joined(p, path[0], path[1]);
  }

  /** What d reaches by other deltas than those of d with itself has its destination within its space. */
  lemma {:induction false} ReachedSpace(p: seq<Factor>, ext: set<Index>, m: map<Index, Index>, path: seq<Index>, d: Index, j: Index)
    requires AllTight(p, ext, m) && AllSettled(p, ext, m) && Leads(p, ext, path, d, j) && d !in ext
    ensures j == d || (d in m && m[d].space <= j.space)
    decreases |path|
  {
    hide TightAt, Settled, Leads;
    LeadsEnds(p, ext, path, d, j);
    if |path| > 1 {
      var w := path[1];
      TailLeads(p, ext, path, d, j);
      JoinedTight(p, ext, m, d, w);
      if w !in ext { ReachedSpace(p, ext, m, path[1..], w, j); }
    }
  }

  lemma LeadsEnds(p: seq<Factor>, ext: set<Index>, path: seq<Index>, d: Index, j: Index)
    requires Leads(p, ext, path, d, j)
    ensures |path| > 0 && path[0] == d && (|path| == 1 ==> d == j)
  {
  }

  lemma JoinedTight(p: seq<Factor>, ext: set<Index>, m: map<Index, Index>, d: Index, w: Index)
    requires AllTight(p, ext, m) && AllSettled(p, ext, m) && Joined(p, d, w) && d !in ext
    ensures d != w ==> d in m && m[d].space <= d.space && m[d].space <= w.space
    ensures d != w && w !in ext ==> w in m && m[w] == m[d]
  {
    if Delta(d, w) in p {
      assert TightAt(ext, m, d, w) && Settled(ext, m, d, w);
    } else {
      assert TightAt(ext, m, w, d) && Settled(ext, m, w, d);
    }
  }

  /** The rules leave a dummy a value in all that it reaches. */
  lemma FedByRules(p: seq<Factor>, ext: set<Index>, m: map<Index, Index>, d: Index)
    requires AllTight(p, ext, m) && AllSettled(p, ext, m) && NoneEmpty(m) && d !in ext && d.space != {}
    ensures !Starved(p, ext, d)
  {
    hide AllTight, AllSettled, Leads;
    if exists j :: Reaches(p, ext, d, j) && j != d {
      var j :| Reaches(p, ext, d, j) && j != d;
      var path :| Leads(p, ext, path, d, j);
      ReachedSpace(p, ext, m, path, d, j);
      OwnSpace(p, ext, m, path, d, j);
      var v := ValueIn(m[d].space);
      forall k | Reaches(p, ext, d, k) ensures v in k.space {
        var x :| Leads(p, ext, x, d, k);
        ReachedSpace(p, ext, m, x, d, k);
      }
      assert Feeds(p, ext, d, v);
    } else {
      var v := ValueIn(d.space);
      assert Feeds(p, ext, d, v);
    }
  }

  lemma ValueIn<T>(s: set<T>) returns (v: T)
    requires s != {}
    ensures v in s
  {
    v :| v in s;
  }

  lemma {:induction false} OwnSpace(p: seq<Factor>, ext: set<Index>, m: map<Index, Index>, path: seq<Index>, d: Index, j: Index)
    requires AllTight(p, ext, m) && AllSettled(p, ext, m) && Leads(p, ext, path, d, j) && d !in ext && j != d
    ensures d in m && m[d].space <= d.space
    decreases |path|
  {
    hide TightAt, Settled, Leads, AllTight, AllSettled;
    LeadsEnds(p, ext, path, d, j);
    TailLeads(p, ext, path, d, j);
    JoinedTight(p, ext, m, d, path[1]);
    if path[1] == d { OwnSpace(p, ext, m, path[1..], d, j); }
  }

  /** A product with an impossible delta, or with a starved dummy, is zero in the first pass. */
  lemma MustBeZero(p: seq<Factor>, ext: set<Index>, first: nat, less: Order)
    requires LabelsBelow(p, ext, first)
    ensures (exists f :: f in p && Impossible(f)) ==> Collect(p, ext, first, less) == Zero
    ensures (exists d :: d !in ext && d.space != {} && Starved(p, ext, d)) ==> Collect(p, ext, first, less) == Zero
  {
    hide LabelsBelow, Collect, Starved, Covers, Bound, Inv, Settled;
    CollectTight(p, ext, first, less);
    CollectSound(p, p, ext, first, less);
    var o := Collect(p, ext, first, less);
    if o.Collected? {
      forall f | f in p ensures !Impossible(f) {
        if f.Delta? { assert Delta(f.bra, f.ket) in p && TightAt(ext, o.rules.dst, f.bra, f.ket); }
      }
      forall d: Index | d !in ext && d.space != {} ensures !Starved(p, ext, d) { FedByRules(p, ext, o.rules.dst, d); }
    }
  }

  /** What is collected is zero only if the product vanishes, and is zero if a delta is impossible or a dummy starved; else it is sound. */
  ghost predicate IsCollected(p: seq<Factor>, ext: set<Index>, outcome: Outcome) {
    match outcome
    case Zero => exists i :: i in Indices(p) && Covers(p, i, {})
    case Collected(r) =>
      && Sound(p, ext, r.dst) && AllSettled(p, ext, r.dst)
      && (forall f :: f in p ==> !Impossible(f)) && forall d: Index :: d !in ext && d.space != {} ==> !Starved(p, ext, d)
  }

  lemma CollectIs(p: seq<Factor>, ext: set<Index>, first: nat, less: Order)
    requires LabelsBelow(p, ext, first)
    ensures IsCollected(p, ext, Collect(p, ext, first, less))
  {
    hide LabelsBelow, Collect, Starved, Covers, Settled, Impossible, Sound;
    CollectSound(p, p, ext, first, less);
    MustBeZero(p, ext, first, less);
  }

  // ---- What is left joins spaces that meet ----

  /** Deltas of different indices join an external with an external whose space meets its own, or with a dummy whose space is within it. */
  ghost predicate Met(q: seq<Factor>, ext: set<Index>) {
    forall a, b :: Delta(a, b) in q && a != b ==> MetAt(ext, a, b)
  }

  ghost predicate MetAt(ext: set<Index>, a: Index, b: Index) {
    && a.space * b.space != {} && (a in ext || b in ext)
    && (a !in ext ==> a.space <= b.space) && (b !in ext ==> b.space <= a.space)
  }

  lemma RenamedMet(ext: set<Index>, m: map<Index, Index>, a: Index, b: Index)
    requires TightAt(ext, m, a, b) && Settled(ext, m, a, b) && NoneEmpty(m) && m.Keys !! ext
    ensures Rename(m, a) != Rename(m, b) ==> MetAt(ext, Rename(m, a), Rename(m, b))
  {
    if a != b && Rename(m, a) != Rename(m, b) {
      if a in m { assert m[a].space * b.space == m[a].space; }
      if b in m { assert a.space * m[b].space == m[b].space; }
    }
  }

  /** What the rules make of the deltas. */
  lemma AppliedMet(p: seq<Factor>, ext: set<Index>, m: map<Index, Index>)
    requires AllTight(p, ext, m) && AllSettled(p, ext, m) && NoneEmpty(m) && m.Keys !! ext
    ensures Met(Apply(m, p), ext)
  {
    hide TightAt, Settled, MetAt, NoneEmpty, Rename;
    var q := Apply(m, p);
    forall a, b | Delta(a, b) in q && a != b ensures MetAt(ext, a, b) {
      var k :| 0 <= k < |q| && q[k] == Delta(a, b);
      assert p[k] == Delta(p[k].bra, p[k].ket) && p[k] in p;
      RenamedMet(ext, m, p[k].bra, p[k].ket);
    }
  }

  lemma FoldedMet(p: seq<Factor>, q: seq<Factor>, ext: set<Index>)
    requires Met(p, ext) && Folded(p, q, ext)
    ensures Met(q, ext)
  {
    forall a, b | Delta(a, b) in q && a != b ensures MetAt(ext, a, b) {
      var k :| 0 <= k < |q| && q[k] == Delta(a, b);
      assert p[k] == q[k] && Delta(a, b) in p;
    }
  }

  ghost predicate SpacesKept(m: map<Index, Index>) {
    forall i :: i in m ==> m[i].space == i.space
  }

  lemma MetProcess(r: Rules, ext: set<Index>, a: Index, b: Index, less: Order)
    requires SpacesKept(r.dst) && (a != b ==> MetAt(ext, a, b))
    ensures Process(r, ext, a, b, less).Collected? && SpacesKept(Process(r, ext, a, b, less).rules.dst)
  {
    hide AddOrUpdateRules;
    assert a.space <= b.space ==> a.space * b.space == a.space;
    assert b.space <= a.space ==> a.space * b.space == b.space;
  }

  /** Nothing of this kind is ever found to be zero. */
  lemma {:induction false} MetCollects(q: seq<Factor>, ext: set<Index>, first: nat, less: Order)
    requires Met(q, ext)
    ensures Collect(q, ext, first, less).Collected? && SpacesKept(Collect(q, ext, first, less).rules.dst)
  {
    hide Process, MetAt;
    if q != [] {
      assert q == Init(q) + [Last(q)];
      MetCollects(Init(q), ext, first, less);
      var f := Last(q);
      if f.Delta? {
        assert Delta(f.bra, f.ket) in q;
        MetProcess(Collect(Init(q), ext, first, less).rules, ext, f.bra, f.ket, less);
      }
    }
  }
}
