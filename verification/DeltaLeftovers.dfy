/** When the reduction leaves a delta by which a dummy could still be replaced with an external. */
module DeltaLeftovers {
  import opened Options
  import opened Sequences
  import opened DeltaValues
  import opened DeltaSubstitution
  import opened DeltaRules
  import opened DeltaFold
  import opened DeltaPasses
  import opened DeltaReduction

  // ---- Chains of deltas before and after a pass ----

  /** Indices that become the same are bound already. */
  lemma SamePreimage(p: seq<Factor>, ext: set<Index>, m: map<Index, Index>, a: Index, b: Index)
    requires Sound(p, ext, m) && a in Indices(p) && b in Indices(p) && Rename(m, a) == Rename(m, b)
    ensures Bound(p, a, b)
  {
    hide Bound, Covers;
    if a in m { assert Suits(p, ext, a, m[a]); }
    if b in m { assert Suits(p, ext, b, m[b]); }
    if a !in m && b !in m {
      BoundSelf(p, a);
    } else if a !in m {
      BoundSymmetric(p, b, a);
    }
  }

  /** A delta of the renamed product. */
  lemma JoinedBefore(p: seq<Factor>, m: map<Index, Index>, a: Index, b: Index) returns (x: Index, y: Index)
    requires Joined(Apply(m, p), a, b)
    ensures x in Indices(p) && y in Indices(p) && Rename(m, x) == a && Rename(m, y) == b && Joined(p, x, y)
  {
    var q := Apply(m, p);
    var n :| 0 <= n < |q| && (q[n] == Delta(a, b) || q[n] == Delta(b, a));
    SlotsAreIndices(p, n);
    assert p[n] in p && p[n] == Delta(p[n].bra, p[n].ket);
    assert p[n].bra in Slots(p[n]) && p[n].ket in Slots(p[n]);
    if q[n] == Delta(a, b) { x, y := p[n].bra, p[n].ket; } else { x, y := p[n].ket, p[n].bra; }
  }

  /** What the rules leave bound was bound before. */
  lemma {:induction false} BoundBefore(p: seq<Factor>, ext: set<Index>, m: map<Index, Index>, a: Index, b: Index, path: seq<Index>) returns (c: Index)
    requires Sound(p, ext, m) && a in Indices(p) && Connects(Apply(m, p), path, Rename(m, a), b)
    ensures c in Indices(p) && Rename(m, c) == b && Bound(p, a, c)
    decreases |path|
  {
    hide Sound, Bound, Apply;
    if |path| == 1 {
      c := a;
      BoundSelf(p, a);
    } else {
      assert Joined(Apply(m, p), path[0], path[1]);
      var x, y := JoinedBefore(p, m, path[0], path[1]);
      SamePreimage(p, ext, m, a, x);
      BoundJoined(p, x, y);
      TailConnects(Apply(m, p), path, b);
      c := BoundBefore(p, ext, m, y, b, path[1..]);
      BoundTransitive(p, a, x, y);
      BoundTransitive(p, a, y, c);
    }
  }

  lemma TailConnects(q: seq<Factor>, path: seq<Index>, b: Index)
    requires |path| > 1 && Connects(q, path, path[0], b)
    ensures Connects(q, path[1..], path[1], b)
  {
    forall k | 0 <= k < |path[1..]| - 1 ensures Joined(q, path[1..][k], path[1..][k + 1]) {
      assert Joined(q, path[k + 1], path[k + 2]);
    }
  }

  lemma FoldedBound(p: seq<Factor>, q: seq<Factor>, ext: set<Index>, a: Index, b: Index)
    requires Folded(p, q, ext) && Bound(q, a, b)
    ensures Bound(p, a, b)
  {
    forall i, j | Delta(i, j) in q ensures Delta(i, j) in p {
      var k :| 0 <= k < |q| && q[k] == Delta(i, j);
      assert p[k] == q[k];
    }
    BoundMore(q, p, a, b);
  }

  // ---- Nothing is left unless externals of different spaces meet ----

  /** No dummy is bound to externals of different spaces. */
  ghost predicate Uncontested(p: seq<Factor>, ext: set<Index>) {
    forall i, e, x :: i in Indices(p) - ext && e in ext && x in ext && Bound(p, i, e) && Bound(p, i, x) ==> e.space == x.space
  }

  /** An external bound after the pass was bound before. */
  lemma ExternalBefore(p: seq<Factor>, q: seq<Factor>, ext: set<Index>, m: map<Index, Index>, a: Index, e: Index)
    requires Sound(p, ext, m) && Folded(Apply(m, p), q, ext) && a in Indices(p) && e in ext && Bound(q, Rename(m, a), e)
    ensures Bound(p, a, e)
  {
    hide Folded, Bound;
    FoldedBound(Apply(m, p), q, ext, Rename(m, a), e);
    var path := PathOf(Apply(m, p), Rename(m, a), e);
    var c := BoundBefore(p, ext, m, a, e, path);
    if c in m {
      assert Suits(p, ext, c, m[c]);
      BoundTransitive(p, a, c, e);
    }
  }

  lemma PathOf(p: seq<Factor>, a: Index, b: Index) returns (path: seq<Index>)
    requires Bound(p, a, b)
    ensures Connects(p, path, a, b)
  {
    path :| Connects(p, path, a, b);
  }

  lemma UncontestedStays(p: seq<Factor>, q: seq<Factor>, ext: set<Index>, m: map<Index, Index>)
    requires Sound(p, ext, m) && Folded(Apply(m, p), q, ext) && Uncontested(p, ext)
    ensures Uncontested(q, ext)
  {
    hide Bound, Apply, Sound, Folded, Indices, Rename;
    forall i, e, x | i in Indices(q) - ext && e in ext && x in ext && Bound(q, i, e) && Bound(q, i, x) ensures e.space == x.space {
      var a := DummyBefore(p, q, ext, m, i);
      ExternalBefore(p, q, ext, m, a, e);
      ExternalBefore(p, q, ext, m, a, x);
    }
  }

  lemma DummyBefore(p: seq<Factor>, q: seq<Factor>, ext: set<Index>, m: map<Index, Index>, i: Index) returns (a: Index)
    requires Sound(p, ext, m) && Folded(Apply(m, p), q, ext) && i in Indices(q) - ext
    ensures a in Indices(p) - ext && Rename(m, a) == i
  {
    hide Bound, Apply;
    AppliedIndices(m, p);
    assert i in Indices(Apply(m, p));
    a :| a in Indices(p) && i == Rename(m, a);
    RenamedWhere(p, ext, m, a);
  }

  ghost predicate NothingRemovable(q: seq<Factor>, ext: set<Index>) {
    forall k, e, d :: 0 <= k < |q| ==> !Removable(q[k], ext, e, d)
  }

  lemma MixedBinds(q: seq<Factor>, ext: set<Index>, k: nat, e: Index, d: Index)
    requires k < |q| && Mixed(q[k], ext, e, d)
    ensures d in Indices(q) && Bound(q, d, e)
  {
    SlotsAreIndices(q, k);
    assert q[k] in q && d in Slots(q[k]);
    BoundJoined(q, d, e);
  }

  lemma ReducedUncontested(q: seq<Factor>, ext: set<Index>)
    requires OnlyContestedStay(q, ext) && Uncontested(q, ext)
    ensures NothingRemovable(q, ext)
  {
    hide Indices;
    forall k, e, d | 0 <= k < |q| ensures !Removable(q[k], ext, e, d) {
      if Removable(q[k], ext, e, d) {
        assert OtherSpace(q, ext, d, e.space);
        MixedBinds(q, ext, k, e, d);
        forall n, x | 0 <= n < |q| && Mixed(q[n], ext, x, d) ensures x.space == e.space {
          MixedBinds(q, ext, n, x, d);
        }
      }
    }
  }

  /** If no dummy is bound to externals of different spaces, every delta that could be removed is. */
  lemma {:induction false} UncontestedReduces(p: seq<Factor>, ext: set<Index>, first: nat, less: Order)
    requires LabelsBelow(p, ext, first) && Uncontested(p, ext)
    ensures match Reduction(p, ext, first, less)
            case None => true
            case Some(q) => NothingRemovable(q, ext)
    decreases DeltaCount(p)
  {
    hide LabelsBelow, Collect, Sound, Tidy, Folded, Fold, DeltaCount, Uncontested, NothingRemovable, Apply, OnlyContestedStay;
    CollectSound(p, p, ext, first, less);
    var o := Collect(p, ext, first, less);
    if o.Collected? {
      var r := o.rules;
      var applied := Apply(r.dst, p);
      var q := Fold(applied, ext);
      AppliedCount(r.dst, p);
      FoldIsFolded(applied, ext);
      UncontestedStays(p, q, ext, r.dst);
      if q == applied {
        PassReduces(p, ext, first, less, r);
        ReducedUncontested(q, ext);
      } else {
        LabelsAfter(p, q, ext, first, r);
        UncontestedReduces(q, ext, r.next, less);
      }
    }
  }

  // ---- Something is left where a narrow external comes after a wider one ----

  /** The external that f is a delta of with dummy j. */
  function Partner(f: Factor, ext: set<Index>, j: Index): Option<Index> {
    if !f.Delta? || j in ext then None
    else if f.bra == j && f.ket in ext then Some(f.ket)
    else if f.ket == j && f.bra in ext then Some(f.bra)
    else None
  }

  lemma PartnerIsMixed(f: Factor, ext: set<Index>, e: Index, j: Index)
    ensures Partner(f, ext, j) == Some(e) <==> Mixed(f, ext, e, j)
  {
  }

  /** The external of the first delta in which dummy j meets one. */
  function Lead(q: seq<Factor>, ext: set<Index>, j: Index): Option<Index> {
    if q == [] then None
    else if Lead(Init(q), ext, j).Some? then Lead(Init(q), ext, j)
    else Partner(Last(q), ext, j)
  }

  /** How the rules go back to the first externals that dummies met in q. */
  ghost predicate Led(q: seq<Factor>, ext: set<Index>, m: map<Index, Index>) {
    && (forall j :: j in m <==> Lead(q, ext, j).Some?)
    && (forall j :: j in m && m[j] in ext ==> Lead(q, ext, j) == Some(m[j]))
    && (forall j, k :: j in m && k in m && m[j] == m[k] ==> Lead(q, ext, j) == Lead(q, ext, k))
    && forall n, x, j :: 0 <= n < |q| && Mixed(q[n], ext, x, j) ==> j in m && m[j].space <= x.space
  }

  lemma LeadSnoc(q: seq<Factor>, f: Factor, ext: set<Index>, j: Index)
    ensures Lead(q + [f], ext, j) == if Lead(q, ext, j).Some? then Lead(q, ext, j) else Partner(f, ext, j)
  {
    assert Init(q + [f]) == q;
  }

  /** The delta meets no dummy. */
  lemma LedSkip(q: seq<Factor>, f: Factor, ext: set<Index>, m: map<Index, Index>)
    requires Led(q, ext, m) && forall j :: Partner(f, ext, j) == None
    ensures Led(q + [f], ext, m)
  {
    hide Lead, Partner, Mixed;
    forall j ensures Lead(q + [f], ext, j) == Lead(q, ext, j) { LeadSnoc(q, f, ext, j); }
    forall n, x, j | 0 <= n < |q + [f]| && Mixed((q + [f])[n], ext, x, j) ensures n < |q| && Mixed(q[n], ext, x, j) {
      PartnerIsMixed(f, ext, x, j);
    }
  }

  /** What a delta of external e and dummy j does to the rules m. */
  ghost predicate Outdone(ext: set<Index>, m: map<Index, Index>, n: map<Index, Index>, e: Index, j: Index) {
    && m.Keys + {j} == n.Keys && n[j].space <= e.space
    && (forall i :: i in m ==> n[i].space <= m[i].space)
    && (n[j] in ext ==> if j in m then n[j] == m[j] else n[j] == e)
    && (forall i :: i in m && n[i] in ext ==> n[i] == m[i])
    && (forall i, k :: i in m && k in m && n[i] == n[k] ==> m[i] == m[k])
    && (j !in m ==> forall i :: i in m && n[i] == n[j] ==> n[j] == e && m[i] == e)
  }

  lemma LedMixed(q: seq<Factor>, f: Factor, ext: set<Index>, m: map<Index, Index>, n: map<Index, Index>, e: Index, j: Index)
    requires Led(q, ext, m) && Mixed(f, ext, e, j) && Outdone(ext, m, n, e, j)
    ensures Led(q + [f], ext, n)
  {
    hide Lead;
    var t := q + [f];
    forall i ensures Lead(t, ext, i) == if i in m then Lead(q, ext, i) else if i == j then Some(e) else None {
      LeadSnoc(q, f, ext, i);
      assert Lead(q, ext, i).None? || i in m;
    }
    forall k, x, i | 0 <= k < |t| && Mixed(t[k], ext, x, i) ensures i in n && n[i].space <= x.space {
      if k < |q| { assert Mixed(q[k], ext, x, i); }
    }
  }

  lemma UpdateOutdone(ext: set<Index>, r: Rules, src: Index, dst: Index, e: Index)
    requires src in r.dst && FreshAt(ext, r) && dst.space <= e.space
    ensures match UpdateRule(r, src, dst)
            case Zero => true
            case Collected(n) => Outdone(ext, r.dst, n.dst, e, src)
  {
    assert forall i :: i in r.dst ==> r.dst[i] in r.dst.Values;
  }

  lemma AddOutdone(ext: set<Index>, r: Rules, src: Index, dst: Index, e: Index)
    requires src !in r.dst && dst.space <= e.space && (dst == e || (dst !in ext && dst !in r.dst.Values)) && (dst in ext ==> dst == e)
    ensures Outdone(ext, r.dst, Redirect(r.dst, {src}, dst), e, src)
  {
    assert forall i :: i in r.dst ==> r.dst[i] in r.dst.Values;
  }

  lemma ProcessOutdone(ext: set<Index>, r: Rules, f: Factor, less: Order, e: Index, j: Index)
    requires Mixed(f, ext, e, j) && FreshAt(ext, r) && FreshAt(ext, r.(next := r.next + 1))
    ensures match Process(r, ext, f.bra, f.ket, less)
            case Zero => true
            case Collected(n) => Outdone(ext, r.dst, n.dst, e, j)
  {
    hide Outdone, UpdateRule;
    var space := e.space * j.space;
    assert j.space * e.space == space;
    var d := Index(r.next, space);
    if e.space <= j.space {
      if j in r.dst { UpdateOutdone(ext, r, j, e, e); } else { AddOutdone(ext, r, j, e, e); }
    } else {
      if j in r.dst { UpdateOutdone(ext, r.(next := r.next + 1), j, d, e); } else { AddOutdone(ext, r, j, d, e); }
    }
  }

  /** Without deltas between dummies, the rules go back to the first externals that the dummies met. */
  lemma {:induction false} CollectLed(p: seq<Factor>, q: seq<Factor>, ext: set<Index>, first: nat, less: Order)
    requires LabelsBelow(p, ext, first) && NoDummyPairs(p, ext) && q <= p
    ensures match Collect(q, ext, first, less)
            case Zero => true
            case Collected(r) => Led(q, ext, r.dst)
    decreases |q|
  {
    hide LabelsBelow, Inv, Led, Process;
    if q == [] {
      NothingLed(ext);
    } else {
      var f, n := Last(q), |q| - 1;
      assert q == Init(q) + [f] && f == p[n];
      CollectLed(p, Init(q), ext, first, less);
      CollectSound(p, Init(q), ext, first, less);
      var o := Collect(Init(q), ext, first, less);
      if o.Collected? {
        NextIsFresh(p, ext, first, o.rules);
        NextIsFresh(p, ext, first, o.rules.(next := o.rules.next + 1));
        LedStep(Init(q), f, ext, o.rules, less);
      }
    }
  }

  lemma NothingLed(ext: set<Index>)
    ensures Led([], ext, map[])
  {
  }

  lemma LedStep(q: seq<Factor>, f: Factor, ext: set<Index>, r: Rules, less: Order)
    requires Led(q, ext, r.dst) && FreshAt(ext, r) && FreshAt(ext, r.(next := r.next + 1))
    requires f.Delta? ==> f.bra == f.ket || f.bra in ext || f.ket in ext
    ensures if f.Delta? then
              match Process(r, ext, f.bra, f.ket, less)
              case Zero => true
              case Collected(n) => Led(q + [f], ext, n.dst)
            else Led(q + [f], ext, r.dst)
  {
    hide Led, Outdone, UpdateRule, FreshAt;
    if !f.Delta? || f.bra == f.ket || (f.bra in ext && f.ket in ext) {
      LedSkip(q, f, ext, r.dst);
    } else {
      var e, j := if f.bra in ext then f.bra else f.ket, if f.bra in ext then f.ket else f.bra;
      ProcessOutdone(ext, r, f, less, e, j);
      var o := Process(r, ext, f.bra, f.ket, less);
      if o.Collected? { LedMixed(q, f, ext, r.dst, o.rules.dst, e, j); }
    }
  }

  // ---- A contested dummy stays ----

  /** No space bound to d lacks a value of space. */
  ghost predicate Least(p: seq<Factor>, d: Index, space: Space) {
    forall x :: Bound(p, d, x) ==> space <= x.space
  }

  /** Dummy d meets external e, whose space is least, but first meets one of another space. */
  ghost predicate Contested(p: seq<Factor>, ext: set<Index>, d: Index, l: nat, e: Index) {
    && l < |p| && Mixed(p[l], ext, e, d) && Least(p, d, e.space)
    && Lead(p, ext, d).Some? && Lead(p, ext, d).value.space != e.space
  }

  lemma {:induction false} LeadFound(q: seq<Factor>, ext: set<Index>, j: Index, n: nat, x: Index)
    requires n < |q| && Mixed(q[n], ext, x, j) && forall k :: 0 <= k < n ==> Partner(q[k], ext, j) == None
    ensures Lead(q, ext, j) == Some(x)
    decreases |q|
  {
    if n < |q| - 1 {
      assert Init(q)[n] == q[n];
      LeadFound(Init(q), ext, j, n, x);
    } else {
      NoLead(Init(q), ext, j);
      PartnerIsMixed(q[n], ext, x, j);
    }
  }

  lemma {:induction false} NoLead(q: seq<Factor>, ext: set<Index>, j: Index)
    requires forall k :: 0 <= k < |q| ==> Partner(q[k], ext, j) == None
    ensures Lead(q, ext, j) == None
  {
    if q != [] { NoLead(Init(q), ext, j); }
  }

  lemma {:induction false} LeadPosition(q: seq<Factor>, ext: set<Index>, j: Index) returns (n: nat)
    requires Lead(q, ext, j).Some?
    ensures n < |q| && Mixed(q[n], ext, Lead(q, ext, j).value, j) && forall k :: 0 <= k < n ==> Partner(q[k], ext, j) == None
  {
    if Lead(Init(q), ext, j).Some? {
      n := LeadPosition(Init(q), ext, j);
    } else {
      n := |q| - 1;
      PartnerIsMixed(q[n], ext, Lead(q, ext, j).value, j);
      NoPartners(Init(q), ext, j);
    }
  }

  lemma {:induction false} NoPartners(q: seq<Factor>, ext: set<Index>, j: Index)
    requires Lead(q, ext, j) == None
    ensures forall k :: 0 <= k < |q| ==> Partner(q[k], ext, j) == None
  {
    if q != [] { NoPartners(Init(q), ext, j); }
  }

  /** A mixed delta stays one between what its ends become. */
  lemma MixedApplied(p: seq<Factor>, ext: set<Index>, m: map<Index, Index>, n: nat, x: Index, i: Index)
    requires m.Keys !! ext && n < |p| && Mixed(p[n], ext, x, i) && i in m && m[i] !in ext
    ensures Mixed(Apply(m, p)[n], ext, x, m[i])
  {
    assert Apply(m, p)[n] == ApplyTo(m, p[n]);
  }

  /** A mixed delta comes from a mixed delta if no delta joins two dummies. */
  lemma MixedPreimage(p: seq<Factor>, ext: set<Index>, m: map<Index, Index>, n: nat, x: Index, d: Index) returns (i: Index)
    requires AllSettled(p, ext, m) && m.Keys !! ext && NoDummyPairs(p, ext) && n < |p| && Mixed(Apply(m, p)[n], ext, x, d)
    ensures i in m && m[i] == d && Mixed(p[n], ext, x, i)
  {
    hide AllSettled;
    assert Apply(m, p)[n] == ApplyTo(m, p[n]);
    i := MixedBefore(p, ext, m, n, x, d);
    SettledAt(p, ext, m, n);
  }

  lemma LeadApplied(p: seq<Factor>, ext: set<Index>, m: map<Index, Index>, d: Index)
    requires AllSettled(p, ext, m) && m.Keys !! ext && NoDummyPairs(p, ext) && Led(p, ext, m) && d in m && m[d] !in ext
    ensures Lead(Apply(m, p), ext, m[d]) == Lead(p, ext, d)
  {
    hide AllSettled, NoDummyPairs, Mixed, Partner, Apply;
    var q := Apply(m, p);
    var n := LeadPosition(p, ext, d);
    MixedApplied(p, ext, m, n, Lead(p, ext, d).value, d);
    PartnerIsMixed(q[n], ext, Lead(p, ext, d).value, m[d]);
    if Lead(q, ext, m[d]) == None { NoPartners(q, ext, m[d]); }
    var k := LeadPosition(q, ext, m[d]);
    var x := Lead(q, ext, m[d]).value;
    var i := MixedPreimage(p, ext, m, k, x, m[d]);
    forall h | 0 <= h < k ensures Partner(p[h], ext, i) == None { PartnerApplied(p, ext, m, h, i); }
    LeadFound(p, ext, i, k, x);
  }

  lemma PartnerApplied(p: seq<Factor>, ext: set<Index>, m: map<Index, Index>, h: nat, i: Index)
    requires m.Keys !! ext && h < |p| && i in m && m[i] !in ext
    ensures Partner(Apply(m, p)[h], ext, m[i]) == None ==> Partner(p[h], ext, i) == None
  {
    hide Apply;
    if Partner(p[h], ext, i).Some? {
      var y := Partner(p[h], ext, i).value;
      PartnerIsMixed(p[h], ext, y, i);
      MixedApplied(p, ext, m, h, y, i);
      PartnerIsMixed(Apply(m, p)[h], ext, y, m[i]);
    }
  }

  lemma LeastApplied(p: seq<Factor>, ext: set<Index>, m: map<Index, Index>, d: Index, space: Space)
    requires Sound(p, ext, m) && d in Indices(p) && Least(p, d, space)
    ensures Least(Apply(m, p), Rename(m, d), space)
  {
    hide Bound, Apply, Sound;
    forall x | Bound(Apply(m, p), Rename(m, d), x) ensures space <= x.space {
      var path := PathOf(Apply(m, p), Rename(m, d), x);
      var c := BoundBefore(p, ext, m, d, x, path);
      if c in m { LeastCovered(p, ext, m, d, space, c); }
    }
  }

  lemma LeastCovered(p: seq<Factor>, ext: set<Index>, m: map<Index, Index>, d: Index, space: Space, c: Index)
    requires Sound(p, ext, m) && Least(p, d, space) && Bound(p, d, c) && c in m
    ensures space <= m[c].space
  {
    assert Suits(p, ext, c, m[c]);
    hide Bound;
    forall v: int | v in space ensures v in m[c].space {
      forall k: Index | Bound(p, c, k) ensures v in k.space { BoundTransitive(p, d, c, k); }
      assert InAll(p, c, v);
    }
  }

  /** A contested dummy becomes a contested dummy. */
  lemma ContestedApplied(p: seq<Factor>, ext: set<Index>, m: map<Index, Index>, d: Index, l: nat, e: Index)
    requires Sound(p, ext, m) && AllSettled(p, ext, m) && NoDummyPairs(p, ext) && Led(p, ext, m) && Contested(p, ext, d, l, e)
    ensures d in m && Contested(Apply(m, p), ext, m[d], l, e)
  {
    hide Apply, AllSettled, NoDummyPairs, Bound;
    SoundKeys(p, ext, m);
    MixedBinds(p, ext, l, e, d);
    assert d in m && m[d].space <= e.space;
    LeadIsExternal(p, ext, m, d, e);
    LeadApplied(p, ext, m, d);
    LeastApplied(p, ext, m, d, e.space);
    MixedApplied(p, ext, m, l, e, d);
  }

  /** The destination is not an external: that would be the first one, whose space is too wide. */
  lemma LeadIsExternal(p: seq<Factor>, ext: set<Index>, m: map<Index, Index>, d: Index, e: Index)
    requires Sound(p, ext, m) && Led(p, ext, m) && d in m && m[d].space <= e.space && Least(p, d, e.space)
    requires Lead(p, ext, d).Some? && Lead(p, ext, d).value.space != e.space
    ensures m[d] !in ext
  {
    hide Bound, Covers;
    assert Suits(p, ext, d, m[d]);
  }

  lemma {:induction false} LeadSame(p: seq<Factor>, q: seq<Factor>, ext: set<Index>, j: Index)
    requires |q| == |p| && forall k :: 0 <= k < |p| ==> Partner(q[k], ext, j) == Partner(p[k], ext, j)
    ensures Lead(q, ext, j) == Lead(p, ext, j)
  {
    if p != [] { LeadSame(Init(p), Init(q), ext, j); }
  }

  /** Folding leaves mixed deltas alone. */
  lemma FoldKeepsMixed(p: seq<Factor>, ext: set<Index>, k: nat, j: Index)
    requires k < |p| && |Fold(p, ext)| == |p|
    ensures Partner(Fold(p, ext)[k], ext, j) == Partner(p[k], ext, j)
    ensures forall e :: Mixed(p[k], ext, e, j) ==> Fold(p, ext)[k] == p[k]
  {
    hide Elsewhere, Bound, ExternalDeltas, FoldTo;
    var q := Fold(p, ext);
    StepsFold(p, q, ext, |p|);
    assert q[..|p|] == q;
    assert FoldStep(p, q, ext, k);
  }

  lemma ContestedFolded(p: seq<Factor>, ext: set<Index>, d: Index, l: nat, e: Index)
    requires Contested(p, ext, d, l, e) && NoDummyPairs(p, ext)
    ensures Contested(Fold(p, ext), ext, d, l, e) && NoDummyPairs(Fold(p, ext), ext)
  {
    hide Bound, Fold, Lead, Tidy;
    var q := Fold(p, ext);
    FoldIsFolded(p, ext);
    forall k | 0 <= k < |p| ensures Partner(q[k], ext, d) == Partner(p[k], ext, d) { FoldKeepsMixed(p, ext, k, d); }
    FoldKeepsMixed(p, ext, l, d);
    LeadSame(p, q, ext, d);
    forall x | Bound(q, d, x) ensures e.space <= x.space { FoldedBound(p, q, ext, d, x); }
    forall k | 0 <= k < |q| && q[k].Delta? ensures q[k].bra == q[k].ket || q[k].bra in ext || q[k].ket in ext {
      assert q[k] == p[k];
    }
  }

  ghost predicate SomethingRemovable(q: seq<Factor>, ext: set<Index>) {
    exists k, x, i :: 0 <= k < |q| && Removable(q[k], ext, x, i)
  }

  lemma ContestedRemovable(q: seq<Factor>, ext: set<Index>, d: Index, l: nat, e: Index)
    requires Contested(q, ext, d, l, e)
    ensures SomethingRemovable(q, ext)
  {
    BoundSelf(q, d);
    assert Removable(q[l], ext, e, d);
  }

  /**
   A dummy that meets an external of least space, but first meets one of another space, is never replaced with
   an external: a delta stays by which it could be.
   */
  lemma {:induction false} ContestedStays(p: seq<Factor>, ext: set<Index>, first: nat, less: Order, d: Index, l: nat, e: Index)
    requires LabelsBelow(p, ext, first) && NoDummyPairs(p, ext) && Contested(p, ext, d, l, e)
    ensures match Reduction(p, ext, first, less)
            case None => true
            case Some(q) => SomethingRemovable(q, ext)
    decreases DeltaCount(p)
  {
    hide LabelsBelow, Collect, Sound, Tidy, Folded, Fold, DeltaCount, Apply, NoDummyPairs, Contested, Led, AllSettled, SomethingRemovable;
    CollectSound(p, p, ext, first, less);
    CollectLed(p, p, ext, first, less);
    var o := Collect(p, ext, first, less);
    if o.Collected? {
      var r := o.rules;
      var applied := Apply(r.dst, p);
      var q := Fold(applied, ext);
      AppliedCount(r.dst, p);
      FoldIsFolded(applied, ext);
      ContestedApplied(p, ext, r.dst, d, l, e);
      SoundKeys(p, ext, r.dst);
      AppliedPairs(p, ext, r.dst);
      ContestedFolded(applied, ext, r.dst[d], l, e);
      if q == applied {
        ContestedRemovable(q, ext, r.dst[d], l, e);
      } else {
        LabelsAfter(p, q, ext, first, r);
        ContestedStays(q, ext, r.next, less, r.dst[d], l, e);
      }
    }
  }

  // ---- An input on which a removable delta stays ----

  const NARROW: Index := Index(0, {0})
  const WIDE: Index := Index(1, {0, 1})
  const DUMMY: Index := Index(2, {0, 1, 2})
  const NARROWED: Index := Index(3, {0})

  lemma Spaces()
    ensures NARROW.space <= WIDE.space <= DUMMY.space && NARROW.space * DUMMY.space == {0} == WIDE.space * NARROW.space
    ensures WIDE.space * DUMMY.space == {0, 1} && {0} != {0, 1} && {0} != {}
  {
    assert 0 in {0} && 1 in {0, 1} && 1 !in {0};
  }

  lemma WideFirst(less: Order)
    ensures Collect([Delta(WIDE, DUMMY)], {NARROW, WIDE}, 3, less) == Collected(Rules(map[DUMMY := WIDE], 3))
  {
    Spaces();
    var a := [Delta(WIDE, DUMMY)];
    assert Init(a) == [] && Last(a) == Delta(WIDE, DUMMY);
    assert Redirect(map[], {DUMMY}, WIDE) == map[DUMMY := WIDE];
  }

  lemma ThenNarrow(less: Order)
    ensures Collect([Delta(WIDE, DUMMY), Delta(NARROW, DUMMY)], {NARROW, WIDE}, 3, less) == Collected(Rules(map[DUMMY := NARROWED], 4))
  {
    Spaces();
    WideFirst(less);
    var p := [Delta(WIDE, DUMMY), Delta(NARROW, DUMMY)];
    assert Init(p) == [Delta(WIDE, DUMMY)] && Last(p) == Delta(NARROW, DUMMY);
    var m := map[DUMMY := WIDE];
    assert Class(m, WIDE) == {DUMMY};
    assert Redirect(m, {DUMMY}, NARROWED) == map[DUMMY := NARROWED];
  }

  lemma NothingFolds()
    ensures var q := [Delta(WIDE, NARROWED), Delta(NARROW, NARROWED)]; Fold(q, {NARROW, WIDE}) == q
  {
    var ext, q := {NARROW, WIDE}, [Delta(WIDE, NARROWED), Delta(NARROW, NARROWED)];
    FoldIsFolded(q, ext);
    forall k | 0 <= k < 2 ensures Fold(q, ext)[k] == q[k] {
      FoldKeepsMixed(q, ext, k, NARROWED);
      assert Mixed(q[k], ext, if k == 0 then WIDE else NARROW, NARROWED);
    }
    assert Fold(q, ext) == q;
  }

  /**
   Two externals narrow one dummy: the dummy becomes a fresh one with the space of the narrower external, neither
   delta folds and the passes stop, although the dummy could be replaced with that external.
   */
  lemma RemovableDeltaStays(less: Order)
    ensures var ext, q := {NARROW, WIDE}, [Delta(WIDE, NARROWED), Delta(NARROW, NARROWED)];
            && Reduction([Delta(WIDE, DUMMY), Delta(NARROW, DUMMY)], ext, 3, less) == Some(q)
            && Removable(q[1], ext, NARROW, NARROWED)
  {
    hide Fold, Collect;
    ThenNarrow(less);
    NothingFolds();
    var p := [Delta(WIDE, DUMMY), Delta(NARROW, DUMMY)];
    assert Apply(map[DUMMY := NARROWED], p) == [Delta(WIDE, NARROWED), Delta(NARROW, NARROWED)];
  }
}
