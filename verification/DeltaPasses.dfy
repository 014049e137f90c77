/** One pass of the reduction: what deltas are left when the rules have been applied and nothing folds. */
module DeltaPasses {
  import opened Sequences
  import opened DeltaValues
  import opened DeltaSubstitution
  import opened DeltaRules
  import opened DeltaFold

  /** No delta joins two different dummies. */
  ghost predicate NoDummyPairs(q: seq<Factor>, ext: set<Index>) {
    forall k :: 0 <= k < |q| && q[k].Delta? ==> q[k].bra == q[k].ket || q[k].bra in ext || q[k].ket in ext
  }

  ghost predicate Mentions(f: Factor, d: Index) {
    f.Delta? && (f.bra == d || f.ket == d)
  }

  /** f is a delta of the external e and the dummy d, in either order. */
  ghost predicate Mixed(f: Factor, ext: set<Index>, e: Index, d: Index) {
    e in ext && d !in ext && (f == Delta(e, d) || f == Delta(d, e))
  }

  /** f is a delta by which the dummy d could be replaced with the external e. */
  ghost predicate Removable(f: Factor, ext: set<Index>, e: Index, d: Index) {
    Mixed(f, ext, e, d) && e.space <= d.space
  }

  /** d has a delta with an external of another space, too. */
  ghost predicate OtherSpace(q: seq<Factor>, ext: set<Index>, d: Index, space: Space) {
    exists k, e :: 0 <= k < |q| && Mixed(q[k], ext, e, d) && e.space != space
  }

  /** A removable delta stays only if its dummy has deltas with externals of different spaces. */
  ghost predicate OnlyContestedStay(q: seq<Factor>, ext: set<Index>) {
    forall k, e, d :: 0 <= k < |q| && Removable(q[k], ext, e, d) ==> OtherSpace(q, ext, d, e.space)
  }

  ghost predicate Reduced(q: seq<Factor>, ext: set<Index>) {
    Tidy(q, ext) && NoDummyPairs(q, ext) && OnlyContestedStay(q, ext)
  }

  lemma AppliedPairs(p: seq<Factor>, ext: set<Index>, m: map<Index, Index>)
    requires AllSettled(p, ext, m) && m.Keys !! ext
    ensures NoDummyPairs(Apply(m, p), ext)
  {
    var q := Apply(m, p);
    forall k | 0 <= k < |q| && q[k].Delta? ensures q[k].bra == q[k].ket || q[k].bra in ext || q[k].ket in ext {
      assert p[k] in p && p[k] == Delta(p[k].bra, p[k].ket);
      assert Settled(ext, m, p[k].bra, p[k].ket);
    }
  }

  // ---- Dummies all of whose deltas are with externals of one space ----

  /** The delta does not touch i: its destination stays unless it shares it with one of the two. */
  lemma ProcessLeaves(r: Rules, ext: set<Index>, bra: Index, ket: Index, less: Order, i: Index)
    requires i in r.dst && i != bra && i != ket
    requires bra in r.dst ==> r.dst[bra] != r.dst[i]
    requires ket in r.dst ==> r.dst[ket] != r.dst[i]
    ensures match Process(r, ext, bra, ket, less)
            case Zero => true
            case Collected(n) => i in n.dst && n.dst[i] == r.dst[i]
  {
    hide Merged;
  }

  lemma ProcessSkips(r: Rules, ext: set<Index>, bra: Index, ket: Index, less: Order, i: Index)
    requires i !in r.dst && i != bra && i != ket
    ensures match Process(r, ext, bra, ket, less)
            case Zero => true
            case Collected(n) => i !in n.dst
  {
    hide Merged;
  }

  /** Sources that share a destination with one of c are in c. */
  ghost predicate Closed(m: map<Index, Index>, c: set<Index>) {
    forall j, k :: j in c && j in m && k in m && m[j] == m[k] ==> k in c
  }

  /** The deltas of the dummies in c are all with externals of one space. */
  ghost predicate OneSpace(p: seq<Factor>, ext: set<Index>, c: set<Index>, space: Space) {
    forall k, j :: 0 <= k < |p| && j in c && Mentions(p[k], j) ==> MixedWith(p[k], ext, j, space)
  }

  ghost predicate MixedWith(f: Factor, ext: set<Index>, j: Index, space: Space) {
    exists e :: Mixed(f, ext, e, j) && e.space == space
  }

  /** The destination that deltas with externals of one space give i. */
  ghost predicate Expected(ext: set<Index>, space: Space, i: Index, d: Index) {
    if space <= i.space then d in ext && d.space == space else d.space == space * i.space
  }

  ghost predicate AllExpected(m: map<Index, Index>, ext: set<Index>, c: set<Index>, space: Space) {
    forall j :: j in c && j in m ==> Expected(ext, space, j, m[j])
  }

  lemma MixedStep(r: Rules, ext: set<Index>, f: Factor, less: Order, e: Index, j: Index)
    requires Mixed(f, ext, e, j) && (j in r.dst ==> Expected(ext, e.space, j, r.dst[j]))
    ensures match Process(r, ext, f.bra, f.ket, less)
            case Zero => true
            case Collected(n) =>
              && j in n.dst && Expected(ext, e.space, j, n.dst[j])
              && forall k :: k in r.dst && k != j ==> k in n.dst && n.dst[k] == r.dst[k]
  {
    assert e.space * j.space == j.space * e.space;
  }

  lemma ClosedBefore(m: map<Index, Index>, n: map<Index, Index>, c: set<Index>)
    requires Extends(m, n) && Closed(n, c)
    ensures Closed(m, c)
  {
  }

  lemma OneSpaceAt(p: seq<Factor>, ext: set<Index>, c: set<Index>, space: Space, k: nat, j: Index) returns (e: Index)
    requires OneSpace(p, ext, c, space) && k < |p| && j in c && Mentions(p[k], j)
    ensures Mixed(p[k], ext, e, j) && e.space == space
  {
    assert MixedWith(p[k], ext, j, space);
    e :| Mixed(p[k], ext, e, j) && e.space == space;
  }

  /** One delta: it touches one dummy of c, or none. */
  lemma ExpectedStep(r: Rules, ext: set<Index>, f: Factor, less: Order, c: set<Index>, space: Space)
    requires f.Delta? && c !! ext && Closed(r.dst, c) && AllExpected(r.dst, ext, c, space)
    requires forall j :: j in c && Mentions(f, j) ==> MixedWith(f, ext, j, space)
    ensures match Process(r, ext, f.bra, f.ket, less)
            case Zero => true
            case Collected(n) => AllExpected(n.dst, ext, c, space)
  {
    hide Process, Expected;
    var o := Process(r, ext, f.bra, f.ket, less);
    if o.Collected? {
      if j :| j in c && Mentions(f, j) {
        var e :| Mixed(f, ext, e, j) && e.space == space;
        MixedStep(r, ext, f, less, e, j);
        forall k | k in c && k in o.rules.dst ensures Expected(ext, space, k, o.rules.dst[k]) {
          if k != j && k !in r.dst { OthersStay(r, ext, f, less, e, j, k); }
        }
      } else {
        forall k | k in c && k in o.rules.dst ensures Expected(ext, space, k, o.rules.dst[k]) {
          if k in r.dst { ProcessLeaves(r, ext, f.bra, f.ket, less, k); } else { ProcessSkips(r, ext, f.bra, f.ket, less, k); }
        }
      }
    }
  }

  /** A mixed delta gives no rule to any other dummy. */
  lemma OthersStay(r: Rules, ext: set<Index>, f: Factor, less: Order, e: Index, j: Index, k: Index)
    requires Mixed(f, ext, e, j) && k != j && k !in r.dst && k !in ext
    ensures match Process(r, ext, f.bra, f.ket, less)
            case Zero => true
            case Collected(n) => k !in n.dst
  {
    ProcessSkips(r, ext, f.bra, f.ket, less, k);
  }

  lemma {:induction false} AllAsExpected(p: seq<Factor>, q: seq<Factor>, ext: set<Index>, first: nat, less: Order, c: set<Index>, space: Space)
    requires LabelsBelow(p, ext, first) && q <= p && c !! ext && OneSpace(p, ext, c, space)
    ensures match Collect(q, ext, first, less)
            case Zero => true
            case Collected(r) => Closed(r.dst, c) ==> AllExpected(r.dst, ext, c, space)
    decreases |q|
  {
    hide Process, LabelsBelow, Closed, AllExpected, OneSpace, Inv;
    NoneExpected(ext, c, space);
    if q != [] {
      var f, n := Last(q), |q| - 1;
      assert f == p[n];
      AllAsExpected(p, Init(q), ext, first, less, c, space);
      CollectSound(p, Init(q), ext, first, less);
      var o := Collect(Init(q), ext, first, less);
      if o.Collected? && f.Delta? {
        SlotsAreIndices(p, n);
        assert f.bra in Slots(f) && f.ket in Slots(f) && f in p;
        ProcessSound(p, ext, first, o.rules, f.bra, f.ket, less);
        var s := Process(o.rules, ext, f.bra, f.ket, less);
        if s.Collected? && Closed(s.rules.dst, c) {
          ClosedBefore(o.rules.dst, s.rules.dst, c);
          forall j | j in c && Mentions(f, j) ensures MixedWith(f, ext, j, space) {
            var e := OneSpaceAt(p, ext, c, space, n, j);
          }
          ExpectedStep(o.rules, ext, f, less, c, space);
        }
      }
    }
  }

  lemma NoneExpected(ext: set<Index>, c: set<Index>, space: Space)
    ensures AllExpected(map[], ext, c, space)
  {
  }

  // ---- What a pass leaves ----

  /** The dummy end of a mixed delta after the rules is that of a mixed delta before. */
  lemma MixedBefore(p: seq<Factor>, ext: set<Index>, m: map<Index, Index>, k: nat, e: Index, d: Index) returns (i: Index)
    requires AllSettled(p, ext, m) && m.Keys !! ext && k < |p| && Mixed(ApplyTo(m, p[k]), ext, e, d)
    ensures i in m && m[i] == d && Mentions(p[k], i)
  {
    var bra, ket := p[k].bra, p[k].ket;
    assert p[k] == Delta(bra, ket) && p[k] in p;
    assert Settled(ext, m, bra, ket);
    i := if Rename(m, bra) == d then bra else ket;
  }

  /** In a tidy product, a dummy with a mixed delta has no self-delta. */
  lemma NoSelfDelta(q: seq<Factor>, ext: set<Index>, k: nat, e: Index, d: Index, n: nat)
    requires Tidy(q, ext) && k < |q| && Mixed(q[k], ext, e, d) && n < |q|
    ensures q[n] != Delta(d, d)
  {
    if q[n] == Delta(d, d) {
      assert Lone(q, ext, n);
      assert HasElsewhere(q[k], d);
    }
  }

  /** If a pass leaves a mixed delta of d and nothing folds, what became d has mixed deltas only. */
  lemma OnlyMixed(p: seq<Factor>, ext: set<Index>, m: map<Index, Index>, k: nat, e: Index, d: Index, n: nat, j: Index) returns (x: Index)
    requires AllSettled(p, ext, m) && m.Keys !! ext && Tidy(Apply(m, p), ext)
    requires k < |p| && Mixed(Apply(m, p)[k], ext, e, d) && n < |p| && j in m && m[j] == d && Mentions(p[n], j)
    ensures Mixed(p[n], ext, x, j) && Mixed(Apply(m, p)[n], ext, x, d)
  {
    hide Tidy, AllSettled;
    NoSelfDelta(Apply(m, p), ext, k, e, d, n);
    x := if p[n].bra == j then p[n].ket else p[n].bra;
    SettledAt(p, ext, m, n);
    assert Apply(m, p)[n] == ApplyTo(m, p[n]);
  }

  lemma SettledAt(p: seq<Factor>, ext: set<Index>, m: map<Index, Index>, n: nat)
    requires AllSettled(p, ext, m) && n < |p| && p[n].Delta?
    ensures Settled(ext, m, p[n].bra, p[n].ket)
  {
    assert Delta(p[n].bra, p[n].ket) in p;
  }

  lemma SoundKeys(p: seq<Factor>, ext: set<Index>, m: map<Index, Index>)
    requires Sound(p, ext, m)
    ensures m.Keys !! ext
  {
  }

  lemma RemovableIsContested(p: seq<Factor>, ext: set<Index>, first: nat, less: Order, r: Rules, k: nat, e: Index, d: Index)
    requires LabelsBelow(p, ext, first) && Collect(p, ext, first, less) == Collected(r)
    requires AllSettled(p, ext, r.dst) && r.dst.Keys !! ext && Tidy(Apply(r.dst, p), ext)
    requires k < |p| && Removable(Apply(r.dst, p)[k], ext, e, d)
    ensures OtherSpace(Apply(r.dst, p), ext, d, e.space)
  {
    hide LabelsBelow, Collect, AllSettled, Tidy;
    var q := Apply(r.dst, p);
    var c := Class(r.dst, d);
    var i := MixedBefore(p, ext, r.dst, k, e, d);
    if !OtherSpace(q, ext, d, e.space) {
      forall n, j | 0 <= n < |p| && j in c && Mentions(p[n], j) ensures MixedWith(p[n], ext, j, e.space) {
        var x := OnlyMixed(p, ext, r.dst, k, e, d, n, j);
        assert Mixed(q[n], ext, x, d);
      }
      AllAsExpected(p, p, ext, first, less, c, e.space);
      NotAsExpected(r.dst, ext, c, e.space, i);
    }
  }

  lemma NotAsExpected(m: map<Index, Index>, ext: set<Index>, c: set<Index>, space: Space, i: Index)
    requires i in c && i in m && m[i] !in ext && space <= m[i].space
    ensures !AllExpected(m, ext, c, space)
  {
    assert !Expected(ext, space, i, m[i]);
  }

  /** What a pass leaves if nothing folds after it. */
  lemma PassReduces(p: seq<Factor>, ext: set<Index>, first: nat, less: Order, r: Rules)
    requires LabelsBelow(p, ext, first) && Collect(p, ext, first, less) == Collected(r) && Tidy(Apply(r.dst, p), ext)
    ensures Reduced(Apply(r.dst, p), ext)
  {
    hide LabelsBelow, Collect, Sound, Tidy, AllSettled, OtherSpace;
    CollectSound(p, p, ext, first, less);
    SoundKeys(p, ext, r.dst);
    AppliedPairs(p, ext, r.dst);
    var q := Apply(r.dst, p);
    forall k, e, d | 0 <= k < |q| && Removable(q[k], ext, e, d) ensures OtherSpace(q, ext, d, e.space) {
      RemovableIsContested(p, ext, first, less, r, k, e, d);
    }
  }

  lemma {:induction false} AppliedCount(m: map<Index, Index>, p: seq<Factor>)
    ensures DeltaCount(Apply(m, p)) == DeltaCount(p)
  {
    if p != [] {
      AppliedCount(m, Init(p));
      assert Init(Apply(m, p)) == Apply(m, Init(p));
    }
  }

  /** The labels after a pass stay below the next fresh one. */
  lemma LabelsAfter(p: seq<Factor>, q: seq<Factor>, ext: set<Index>, first: nat, r: Rules)
    requires LabelsBelow(p, ext, first) && Inv(p, ext, first, r) && Folded(Apply(r.dst, p), q, ext)
    ensures LabelsBelow(q, ext, r.next)
  {
    AppliedIndices(r.dst, p);
    forall i | i in Indices(q) + ext ensures i.id < r.next {
      if i in ext {
        assert i in Indices(p) + ext;
      } else {
        assert i in Indices(q) - ext;
        assert i in Indices(Apply(r.dst, p));
        var j :| j in Indices(p) && i == Rename(r.dst, j);
        assert j in Indices(p) + ext;
      }
    }
  }

  // ---- A pass that folds nothing ----

  ghost predicate FreshAt(ext: set<Index>, r: Rules) {
    forall i: Index :: i.id == r.next ==> i !in ext && i !in r.dst.Values
  }

  lemma NextIsFresh(p: seq<Factor>, ext: set<Index>, first: nat, r: Rules)
    requires LabelsBelow(p, ext, first) && Inv(p, ext, first, r)
    ensures FreshAt(ext, r) && Inv(p, ext, first, r.(next := r.next + 1))
  {
    hide LabelsBelow, Sound;
    FreshDestination(p, ext, first, r, {});
    forall i: Index | i.id == r.next ensures i !in ext && i !in r.dst.Values {
      FreshDestination(p, ext, first, r, i.space);
      assert i == Index(r.next, i.space);
    }
  }

  /** An external destination is an old one, or that of the delta's own dummy. */
  ghost predicate Inherited(ext: set<Index>, m: map<Index, Index>, n: map<Index, Index>, f: Factor, e: Index) {
    || (exists k :: k in m && k in n && m[k] == e && n[k] == e)
    || exists j :: Mixed(f, ext, e, j) && j in n && n[j] == e
  }

  ghost predicate AllInherited(ext: set<Index>, m: map<Index, Index>, n: map<Index, Index>, f: Factor) {
    forall i :: i in n && n[i] in ext ==> Inherited(ext, m, n, f, n[i])
  }

  lemma SameInherits(ext: set<Index>, m: map<Index, Index>, f: Factor)
    ensures AllInherited(ext, m, m, f)
  {
  }

  lemma UpdateInherits(ext: set<Index>, r: Rules, src: Index, dst: Index, f: Factor)
    requires src in r.dst && FreshAt(ext, r)
    ensures match UpdateRule(r, src, dst)
            case Zero => true
            case Collected(n) => AllInherited(ext, r.dst, n.dst, f)
  {
  }

  lemma AddInherits(ext: set<Index>, r: Rules, src: Index, dst: Index, f: Factor)
    requires src !in r.dst && (dst in ext ==> Mixed(f, ext, dst, src))
    ensures AllInherited(ext, r.dst, Redirect(r.dst, {src}, dst), f)
  {
  }

  /** A second source that follows a first one. */
  lemma FollowInherits(ext: set<Index>, r: Rules, o: Outcome, leader: Index, src: Index, f: Factor)
    requires src !in r.dst && (o.Collected? ==> AllInherited(ext, r.dst, o.rules.dst, f) && o.rules.dst.Keys == r.dst.Keys)
    ensures match Following(o, leader, src)
            case Zero => true
            case Collected(n) => AllInherited(ext, r.dst, n.dst, f)
  {
    if o.Collected? && leader in o.rules.dst {
      var m := o.rules.dst;
      var n := Redirect(m, {src}, m[leader]);
      forall i | i in n && n[i] in ext ensures Inherited(ext, r.dst, n, f, n[i]) {
        var l := if i == src then leader else i;
        assert n[i] == m[l];
        assert Inherited(ext, r.dst, m, f, m[l]);
      }
    }
  }

  lemma MergeInherits(ext: set<Index>, r: Rules, a: Index, b: Index, dst: Index, less: Order, f: Factor)
    requires a in r.dst && b in r.dst && FreshAt(ext, r) && dst !in ext
    ensures match AddOrUpdateRules(r, a, b, dst, less)
            case Zero => true
            case Collected(n) => AllInherited(ext, r.dst, n.dst, f)
  {
    hide Merged;
    MergedChoice(r.dst[a], r.dst[b], dst, MergedSpace(r.dst[a], r.dst[b], dst), r.next, less);
  }

  lemma ProcessInherits(ext: set<Index>, r: Rules, f: Factor, less: Order)
    requires f.Delta? && FreshAt(ext, r) && FreshAt(ext, r.(next := r.next + 1))
    ensures match Process(r, ext, f.bra, f.ket, less)
            case Zero => true
            case Collected(n) => AllInherited(ext, r.dst, n.dst, f)
  {
    hide Inherited, AllInherited, UpdateRule, Merged;
    var bra, ket, more := f.bra, f.ket, r.(next := r.next + 1);
    var d := Index(r.next, bra.space * ket.space);
    SameInherits(ext, r.dst, f);
    if bra != ket && bra.space * ket.space != {} {
      if bra !in ext && ket !in ext {
        PairInherits(ext, more, bra, ket, d, less, f);
      } else if ket !in ext {
        if bra.space <= ket.space { OneInherits(ext, r, ket, bra, f); } else { OneInherits(ext, more, ket, d, f); }
      } else if bra !in ext {
        if ket.space <= bra.space { OneInherits(ext, r, bra, ket, f); } else { OneInherits(ext, more, bra, d, f); }
      }
    }
  }

  lemma OneInherits(ext: set<Index>, r: Rules, src: Index, dst: Index, f: Factor)
    requires FreshAt(ext, r) && (dst in ext ==> Mixed(f, ext, dst, src))
    ensures match AddOrUpdateRule(r, src, dst)
            case Zero => true
            case Collected(n) => AllInherited(ext, r.dst, n.dst, f)
  {
    hide AllInherited, UpdateRule;
    if src in r.dst { UpdateInherits(ext, r, src, dst, f); } else { AddInherits(ext, r, src, dst, f); }
  }

  lemma UpdateKeys(r: Rules, src: Index, dst: Index)
    requires src in r.dst
    ensures UpdateRule(r, src, dst).Collected? ==> UpdateRule(r, src, dst).rules.dst.Keys == r.dst.Keys
  {
  }

  lemma PairInherits(ext: set<Index>, r: Rules, a: Index, b: Index, dst: Index, less: Order, f: Factor)
    requires FreshAt(ext, r) && dst !in ext
    ensures match AddOrUpdateRules(r, a, b, dst, less)
            case Zero => true
            case Collected(n) => AllInherited(ext, r.dst, n.dst, f)
  {
    hide UpdateRule, Merged;
    if a !in r.dst && b !in r.dst {
      BothInherit(ext, r.dst, a, b, dst, f);
    } else if b !in r.dst {
      UpdateInherits(ext, r, a, dst, f);
      UpdateKeys(r, a, dst);
      FollowInherits(ext, r, UpdateRule(r, a, dst), a, b, f);
    } else if a !in r.dst {
      UpdateInherits(ext, r, b, dst, f);
      UpdateKeys(r, b, dst);
      FollowInherits(ext, r, UpdateRule(r, b, dst), b, a, f);
    } else {
      MergeInherits(ext, r, a, b, dst, less, f);
    }
  }

  lemma BothInherit(ext: set<Index>, m: map<Index, Index>, a: Index, b: Index, dst: Index, f: Factor)
    requires a !in m && b !in m && dst !in ext
    ensures AllInherited(ext, m, Redirect(Redirect(m, {a}, dst), {b}, dst), f)
  {
  }

  /** Every external that is a destination is that of a delta it has with one of its sources. */
  ghost predicate Rooted(q: seq<Factor>, ext: set<Index>, m: map<Index, Index>) {
    forall i :: i in m && m[i] in ext ==> RootedAt(q, ext, m, m[i])
  }

  ghost predicate RootedAt(q: seq<Factor>, ext: set<Index>, m: map<Index, Index>, e: Index) {
    exists n, j :: 0 <= n < |q| && Mixed(q[n], ext, e, j) && j in m && m[j] == e
  }

  lemma RootedStep(q: seq<Factor>, f: Factor, ext: set<Index>, m: map<Index, Index>, n: map<Index, Index>)
    requires Rooted(q, ext, m) && Extends(m, n) && AllInherited(ext, m, n, f)
    ensures Rooted(q + [f], ext, n)
  {
    var t := q + [f];
    forall i | i in n && n[i] in ext ensures RootedAt(t, ext, n, n[i]) {
      var e := n[i];
      assert Inherited(ext, m, n, f, e);
      if k :| k in m && k in n && m[k] == e && n[k] == e {
        assert RootedAt(q, ext, m, m[k]);
        var h, j :| 0 <= h < |q| && Mixed(q[h], ext, e, j) && j in m && m[j] == e;
        assert t[h] == q[h] && n[j] == n[k];
      } else {
        var j :| Mixed(f, ext, e, j) && j in n && n[j] == e;
        assert t[|q|] == f;
      }
    }
  }

  lemma {:induction false} CollectRooted(p: seq<Factor>, q: seq<Factor>, ext: set<Index>, first: nat, less: Order)
    requires LabelsBelow(p, ext, first) && q <= p
    ensures match Collect(q, ext, first, less)
            case Zero => true
            case Collected(r) => Rooted(q, ext, r.dst)
    decreases |q|
  {
    hide LabelsBelow, Inv, Rooted, Process, AllInherited, FreshAt, Extends;
    if q == [] {
      NothingRooted(ext);
    } else {
      var f, n := Last(q), |q| - 1;
      assert q == Init(q) + [f] && f == p[n];
      CollectRooted(p, Init(q), ext, first, less);
      CollectSound(p, Init(q), ext, first, less);
      var o := Collect(Init(q), ext, first, less);
      if o.Collected? {
        if f.Delta? {
          SlotsAreIndices(p, n);
          assert f.bra in Slots(f) && f.ket in Slots(f) && f in p;
          ProcessSound(p, ext, first, o.rules, f.bra, f.ket, less);
          NextIsFresh(p, ext, first, o.rules);
          NextIsFresh(p, ext, first, o.rules.(next := o.rules.next + 1));
          ProcessInherits(ext, o.rules, f, less);
          var s := Process(o.rules, ext, f.bra, f.ket, less);
          if s.Collected? { RootedStep(Init(q), f, ext, o.rules.dst, s.rules.dst); }
        } else {
          SameInherits(ext, o.rules.dst, f);
          ExtendsSelf(o.rules.dst);
          RootedStep(Init(q), f, ext, o.rules.dst, o.rules.dst);
        }
      }
    }
  }

  lemma ExtendsSelf(m: map<Index, Index>)
    ensures Extends(m, m)
  {
  }

  lemma NothingRooted(ext: set<Index>)
    ensures Rooted([], ext, map[])
  {
  }

  /** A pass after which nothing folds has only renamed dummies to fresh ones. */
  lemma IdlePassRenames(p: seq<Factor>, ext: set<Index>, first: nat, less: Order, r: Rules)
    requires LabelsBelow(p, ext, first) && Collect(p, ext, first, less) == Collected(r) && Tidy(Apply(r.dst, p), ext)
    ensures forall i :: i in r.dst ==> r.dst[i] !in ext && r.dst[i] !in Indices(p)
  {
    hide LabelsBelow, Collect, Tidy, Apply;
    CollectSound(p, p, ext, first, less);
    CollectRooted(p, p, ext, first, less);
    var q := Apply(r.dst, p);
    forall i | i in r.dst ensures r.dst[i] !in ext && r.dst[i] !in Indices(p) {
      assert Suits(p, ext, i, r.dst[i]);
      if r.dst[i] in ext { SelfDeltaFolds(p, ext, r.dst, r.dst[i]); }
    }
  }

  lemma SelfDeltaFolds(p: seq<Factor>, ext: set<Index>, m: map<Index, Index>, e: Index)
    requires e in ext && m.Keys !! ext && RootedAt(p, ext, m, e)
    ensures !Tidy(Apply(m, p), ext)
  {
    var n, j :| 0 <= n < |p| && Mixed(p[n], ext, e, j) && j in m && m[j] == e;
    assert Apply(m, p)[n] == Delta(e, e);
    assert !Lone(Apply(m, p), ext, n);
  }
}
