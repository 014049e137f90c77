/**
 The replacement rules that the deltas of a product imply, as a map from dummy
 indices to their destinations, and why they are sound.
 */
module DeltaRules {
  import opened Sequences
  import opened DeltaValues
  import opened DeltaSubstitution

  /** The rules, and the label of the next fresh index. */
  datatype Rules = Rules(dst: map<Index, Index>, next: nat)

  /** Zero: the product vanishes. */
  datatype Outcome = Zero | Collected(rules: Rules)

  /** The order of indices by which a destination is preferred. */
  type Order = (Index, Index) -> bool

  /** The sources of destination d. */
  function Class(m: map<Index, Index>, d: Index): set<Index> {
    set i | i in m && m[i] == d
  }

  function Redirect(m: map<Index, Index>, sources: set<Index>, d: Index): (r: map<Index, Index>)
    ensures r.Keys == m.Keys + sources
    ensures forall i :: i in r ==> r[i] == if i in sources then d else m[i]
  {
    map i | i in m.Keys + sources :: if i in sources then d else m[i]
  }

  /** update_rule: the destination of src narrows to its intersection with dst. */
  function UpdateRule(r: Rules, src: Index, dst: Index): Outcome
    requires src in r.dst
  {
    var now := r.dst[src];
    if dst.space == now.space then Collected(r)
    else if now.space * dst.space == {} then Zero
    else Collected(Rules(Redirect(r.dst, Class(r.dst, now), Index(r.next, now.space * dst.space)), r.next + 1))
  }

  /** add_or_update_rule. */
  function AddOrUpdateRule(r: Rules, src: Index, dst: Index): Outcome {
    if src in r.dst then UpdateRule(r, src, dst)
    else Collected(r.(dst := Redirect(r.dst, {src}, dst)))
  }

  /** The destination of two merged classes: one of the three if its space will do. */
  function Merged(d1: Index, d2: Index, dst: Index, space: Space, next: nat, less: Order): Index {
    if space == d1.space then
      var c := if space == d2.space && less(d2, d1) then d2 else d1;
      if space == dst.space && less(dst, c) then dst else c
    else if space == d2.space then
      if space == dst.space && less(dst, d2) then dst else d2
    else if space == dst.space then dst
    else Index(next, space)
  }

  ghost predicate StrictOrder(less: Order) {
    && (forall a, b :: less(a, b) ==> !less(b, a))
    && forall a, b, c :: less(a, b) && less(b, c) ==> less(a, c)
  }

  /** Merging invents no index if one of the three has the merged space, and then takes the least one that has. */
  lemma MergedIsLeast(d1: Index, d2: Index, dst: Index, space: Space, next: nat, less: Order, d: Index)
    requires StrictOrder(less) && d in {d1, d2, dst} && d.space == space
    ensures var c := Merged(d1, d2, dst, space, next, less);
            c in {d1, d2, dst} && c.space == space && !less(d, c)
  {
  }

  function MergedSpace(d1: Index, d2: Index, dst: Index): Space {
    if dst.space != d1.space || dst.space != d2.space then d1.space * d2.space * dst.space else dst.space
  }

  /** add_or_update_rules. */
  function AddOrUpdateRules(r: Rules, src1: Index, src2: Index, dst: Index, less: Order): Outcome {
    if src1 !in r.dst && src2 !in r.dst then
      Collected(r.(dst := Redirect(Redirect(r.dst, {src1}, dst), {src2}, dst)))
    else if src2 !in r.dst then
      Following(UpdateRule(r, src1, dst), src1, src2)
    else if src1 !in r.dst then
      Following(UpdateRule(r, src2, dst), src2, src1)
    else
      var d1, d2 := r.dst[src1], r.dst[src2];
      var space := MergedSpace(d1, d2, dst);
      if space == {} then Zero
      else
        var d := Merged(d1, d2, dst, space, r.next, less);
        Collected(Rules(Redirect(r.dst, Class(r.dst, d1) + Class(r.dst, d2), d), if d.id == r.next then r.next + 1 else r.next))
  }

  /** src gets the destination that leader has. */
  function Following(o: Outcome, leader: Index, src: Index): Outcome {
    match o
    case Zero => Zero
    case Collected(r) =>
      if leader in r.dst then Collected(r.(dst := Redirect(r.dst, {src}, r.dst[leader]))) else Collected(r)
  }

  /** The rules that one delta implies. */
  function Process(r: Rules, ext: set<Index>, bra: Index, ket: Index, less: Order): Outcome {
    var space := bra.space * ket.space;
    if bra == ket then Collected(r)
    else if space == {} then Zero
    else if bra !in ext && ket !in ext then
      AddOrUpdateRules(r.(next := r.next + 1), bra, ket, Index(r.next, space), less)
    else if ket !in ext then
      if bra.space <= ket.space then AddOrUpdateRule(r, ket, bra)
      else AddOrUpdateRule(r.(next := r.next + 1), ket, Index(r.next, space))
    else if bra !in ext then
      if ket.space <= bra.space then AddOrUpdateRule(r, bra, ket)
      else AddOrUpdateRule(r.(next := r.next + 1), bra, Index(r.next, space))
    else Collected(r)
  }

  /** compute_index_replacement_rules on the factors q. */
  function Collect(q: seq<Factor>, ext: set<Index>, first: nat, less: Order): Outcome {
    if q == [] then Collected(Rules(map[], first))
    else
      match Collect(Init(q), ext, first, less)
      case Zero => Zero
      case Collected(r) => if Last(q).Delta? then Process(r, ext, Last(q).bra, Last(q).ket, less) else Collected(r)
  }

  // ---- Soundness ----

  /** All indices have labels below first. */
  ghost predicate LabelsBelow(p: seq<Factor>, ext: set<Index>, first: nat) {
    forall i :: i in Indices(p) + ext ==> i.id < first
  }

  /** What holds of the rules after any number of deltas of p. */
  ghost predicate Inv(p: seq<Factor>, ext: set<Index>, first: nat, r: Rules) {
    && Sound(p, ext, r.dst) && first <= r.next
    && forall i :: i in r.dst ==> r.dst[i] in ext || first <= r.dst[i].id < r.next
  }

  /** Later rules keep sources and keep equal destinations equal. */
  ghost predicate Extends(m: map<Index, Index>, n: map<Index, Index>) {
    && m.Keys <= n.Keys
    && forall i, j :: i in m && j in m && m[i] == m[j] ==> n[i] == n[j]
  }

  lemma CoversMoves(p: seq<Factor>, i: Index, j: Index, space: Space)
    requires Bound(p, i, j) && Covers(p, i, space)
    ensures Covers(p, j, space)
  {
    forall v: int | InAll(p, j, v) ensures v in space {
      forall k: Index | Bound(p, i, k) ensures v in k.space {
        BoundSymmetric(p, i, j);
        BoundTransitive(p, j, i, k);
      }
      assert InAll(p, i, v);
    }
  }

  lemma CoversBound(p: seq<Factor>, i: Index, j: Index)
    requires Bound(p, i, j)
    ensures Covers(p, i, j.space)
  {
  }

  lemma CoversBoth(p: seq<Factor>, i: Index, a: Space, b: Space)
    requires Covers(p, i, a) && Covers(p, i, b)
    ensures Covers(p, i, a * b)
  {
  }

  /** d may become the destination of sources bound to c. */
  ghost predicate Fits(p: seq<Factor>, ext: set<Index>, m: map<Index, Index>, sources: set<Index>, c: Index, d: Index) {
    && c in sources && sources <= Indices(p) - ext
    && (forall k :: k in sources ==> Bound(p, c, k) && d.space <= k.space)
    && Covers(p, c, d.space)
    && (if d in ext then Bound(p, c, d) else d !in Indices(p))
    && forall i :: i in m && i !in sources && m[i] == d ==> Bound(p, i, c)
  }

  lemma RedirectSound(p: seq<Factor>, ext: set<Index>, m: map<Index, Index>, sources: set<Index>, c: Index, d: Index)
    requires Sound(p, ext, m) && Fits(p, ext, m, sources, c, d)
    ensures Sound(p, ext, Redirect(m, sources, d))
  {
    var n := Redirect(m, sources, d);
    hide Bound, Covers, Redirect;
    forall i | i in n ensures Suits(p, ext, i, n[i]) && (n[i] == d ==> Bound(p, i, c)) {
      if i in sources {
        BoundSymmetric(p, c, i);
        CoversMoves(p, c, i, d.space);
        if d in ext { BoundTransitive(p, i, c, d); }
      }
    }
    forall i, j | i in n && j in n && n[i] == n[j] ensures Bound(p, i, j) {
      if n[i] == d {
        BoundSymmetric(p, j, c);
        BoundTransitive(p, i, c, j);
      }
    }
  }

  /** The classes of destinations d1 and d2, which hold c and a k bound to it. */
  lemma ClassesFit(p: seq<Factor>, ext: set<Index>, m: map<Index, Index>, c: Index, k: Index, d: Index)
    requires Sound(p, ext, m) && c in m && k in m && Bound(p, c, k)
    requires d.space <= m[c].space && d.space <= m[k].space && Covers(p, c, d.space)
    requires d == m[c] || d == m[k] || (d !in ext && d !in Indices(p) && d !in m.Values)
    ensures Fits(p, ext, m, Class(m, m[c]) + Class(m, m[k]), c, d)
  {
    hide Covers, Bound;
    var sources := Class(m, m[c]) + Class(m, m[k]);
    assert Suits(p, ext, c, m[c]) && Suits(p, ext, k, m[k]);
    forall i | i in sources ensures Bound(p, c, i) && d.space <= i.space {
      assert Suits(p, ext, i, m[i]);
      if i !in Class(m, m[c]) { BoundTransitive(p, c, k, i); }
    }
    if d == m[k] && d in ext { BoundTransitive(p, c, k, d); }
    assert forall i :: i in m ==> m[i] in m.Values;
  }

  lemma FreshDestination(p: seq<Factor>, ext: set<Index>, first: nat, r: Rules, space: Space)
    requires LabelsBelow(p, ext, first) && Inv(p, ext, first, r)
    ensures var d := Index(r.next, space); d !in ext && d !in Indices(p) && d !in r.dst.Values
    ensures Inv(p, ext, first, r.(next := r.next + 1))
  {
    hide Sound;
    var d := Index(r.next, space);
    if d in ext || d in Indices(p) { assert d in Indices(p) + ext; }
  }

  lemma UpdateSound(p: seq<Factor>, ext: set<Index>, first: nat, r: Rules, src: Index, dst: Index)
    requires LabelsBelow(p, ext, first) && Inv(p, ext, first, r) && src in r.dst && Covers(p, src, dst.space)
    ensures match UpdateRule(r, src, dst)
            case Zero => src in Indices(p) && Covers(p, src, {})
            case Collected(n) => Inv(p, ext, first, n) && Extends(r.dst, n.dst) && r.next <= n.next
                                 && n.dst.Keys == r.dst.Keys && n.dst[src].space <= dst.space
  {
    hide Covers, LabelsBelow, Redirect;
    var now := r.dst[src];
    assert Suits(p, ext, src, now);
    var space := now.space * dst.space;
    CoversBoth(p, src, now.space, dst.space);
    if dst.space != now.space && space != {} {
      FreshDestination(p, ext, first, r, space);
      var d := Index(r.next, space);
      BoundSelf(p, src);
      ClassesFit(p, ext, r.dst, src, src, d);
      assert Class(r.dst, now) + Class(r.dst, now) == Class(r.dst, now);
      RedirectSound(p, ext, r.dst, Class(r.dst, now), src, d);
    }
  }

  lemma AddSound(p: seq<Factor>, ext: set<Index>, first: nat, r: Rules, src: Index, dst: Index)
    requires Inv(p, ext, first, r) && src in Indices(p) - ext && src !in r.dst
    requires Suits(p, ext, src, dst) && (dst in ext || first <= dst.id < r.next)
    requires forall i :: i in r.dst && r.dst[i] == dst ==> Bound(p, i, src)
    ensures Inv(p, ext, first, r.(dst := Redirect(r.dst, {src}, dst))) && Extends(r.dst, Redirect(r.dst, {src}, dst))
  {
    BoundSelf(p, src);
    hide Covers, Bound, Redirect;
    RedirectSound(p, ext, r.dst, {src}, src, dst);
  }

  /** Two dummies bound to one external are bound. */
  lemma SharedExternal(p: seq<Factor>, ext: set<Index>, m: map<Index, Index>, src: Index, e: Index)
    requires Sound(p, ext, m) && e in ext && Bound(p, src, e)
    ensures forall i :: i in m && m[i] == e ==> Bound(p, i, src)
  {
    BoundSymmetric(p, src, e);
    forall i | i in m && m[i] == e ensures Bound(p, i, src) {
      assert Suits(p, ext, i, m[i]);
      BoundTransitive(p, i, e, src);
    }
  }

  lemma AddOrUpdateSound(p: seq<Factor>, ext: set<Index>, first: nat, r: Rules, src: Index, dst: Index)
    requires LabelsBelow(p, ext, first) && Inv(p, ext, first, r) && src in Indices(p) - ext && Suits(p, ext, src, dst)
    requires dst in ext || (first <= dst.id < r.next && dst !in r.dst.Values)
    ensures match AddOrUpdateRule(r, src, dst)
            case Zero => Covers(p, src, {})
            case Collected(n) => Inv(p, ext, first, n) && Extends(r.dst, n.dst) && src in n.dst
  {
    hide Covers, Bound, LabelsBelow, Redirect;
    if src in r.dst {
      UpdateSound(p, ext, first, r, src, dst);
    } else {
      if dst in ext {
        SharedExternal(p, ext, r.dst, src, dst);
      } else {
        assert forall i :: i in r.dst ==> r.dst[i] in r.dst.Values;
      }
      AddSound(p, ext, first, r, src, dst);
    }
  }

  lemma FollowingSound(p: seq<Factor>, ext: set<Index>, first: nat, r: Rules, leader: Index, src: Index)
    requires Inv(p, ext, first, r) && leader in r.dst && src in Indices(p) - ext && src !in r.dst
    requires Bound(p, leader, src) && r.dst[leader].space <= src.space
    ensures var n := Redirect(r.dst, {src}, r.dst[leader]);
            Inv(p, ext, first, r.(dst := n)) && Extends(r.dst, n)
  {
    hide Covers, Bound, Redirect;
    var d := r.dst[leader];
    assert Suits(p, ext, leader, d);
    BoundSymmetric(p, leader, src);
    CoversMoves(p, leader, src, d.space);
    if d in ext { BoundTransitive(p, src, leader, d); }
    forall i | i in r.dst && r.dst[i] == d ensures Bound(p, i, src) {
      BoundTransitive(p, i, leader, src);
    }
    AddSound(p, ext, first, r, src, d);
  }

  /** What holds after the rules of two dummies have been brought together. */
  ghost predicate Together(p: seq<Factor>, ext: set<Index>, first: nat, r: Rules, a: Index, b: Index, o: Outcome) {
    match o
    case Zero => Covers(p, a, {})
    case Collected(n) => Inv(p, ext, first, n) && Extends(r.dst, n.dst) && a in n.dst && b in n.dst && n.dst[a] == n.dst[b]
  }

  lemma BothNewSound(p: seq<Factor>, ext: set<Index>, first: nat, r: Rules, a: Index, b: Index, dst: Index)
    requires Inv(p, ext, first, r) && a in Indices(p) - ext && b in Indices(p) - ext && a != b && Bound(p, a, b)
    requires a !in r.dst && b !in r.dst && Covers(p, a, dst.space) && dst.space <= a.space && dst.space <= b.space
    requires dst !in ext && dst !in Indices(p) && dst !in r.dst.Values && first <= dst.id < r.next
    ensures Together(p, ext, first, r, a, b, Collected(r.(dst := Redirect(Redirect(r.dst, {a}, dst), {b}, dst))))
  {
    hide Covers, Bound, Redirect;
    assert forall i :: i in r.dst ==> r.dst[i] in r.dst.Values;
    AddSound(p, ext, first, r, a, dst);
    var n := r.(dst := Redirect(r.dst, {a}, dst));
    FollowingSound(p, ext, first, n, a, b);
  }

  lemma MergeSound(p: seq<Factor>, ext: set<Index>, first: nat, r: Rules, a: Index, b: Index, dst: Index, less: Order)
    requires LabelsBelow(p, ext, first) && Inv(p, ext, first, r) && Bound(p, a, b) && a in r.dst && b in r.dst
    requires Covers(p, a, dst.space) && dst !in ext && dst !in Indices(p) && dst !in r.dst.Values && first <= dst.id < r.next
    ensures Together(p, ext, first, r, a, b, AddOrUpdateRules(r, a, b, dst, less))
  {
    hide Covers, Bound, LabelsBelow, Redirect, Merged;
    var d1, d2 := r.dst[a], r.dst[b];
    assert Suits(p, ext, a, d1) && Suits(p, ext, b, d2);
    BoundSymmetric(p, a, b);
    CoversMoves(p, b, a, d2.space);
    CoversBoth(p, a, d1.space, d2.space);
    CoversBoth(p, a, d1.space * d2.space, dst.space);
    var space := MergedSpace(d1, d2, dst);
    if space != {} {
      FreshDestination(p, ext, first, r, space);
      var d := Merged(d1, d2, dst, space, r.next, less);
      MergedChoice(d1, d2, dst, space, r.next, less);
      ClassesFit(p, ext, r.dst, a, b, d);
      RedirectSound(p, ext, r.dst, Class(r.dst, d1) + Class(r.dst, d2), a, d);
    }
  }

  lemma MergedChoice(d1: Index, d2: Index, dst: Index, space: Space, next: nat, less: Order)
    ensures var d := Merged(d1, d2, dst, space, next, less);
            d.space == space && (d == d1 || d == d2 || d == dst || d == Index(next, space))
  {
  }

  lemma AddOrUpdateBothSound(p: seq<Factor>, ext: set<Index>, first: nat, r: Rules, a: Index, b: Index, dst: Index, less: Order)
    requires LabelsBelow(p, ext, first) && Inv(p, ext, first, r) && Bound(p, a, b) && a != b
    requires a in Indices(p) - ext && b in Indices(p) - ext && dst.space == a.space * b.space && first <= dst.id < r.next
    requires dst !in ext && dst !in Indices(p) && dst !in r.dst.Values
    ensures Together(p, ext, first, r, a, b, AddOrUpdateRules(r, a, b, dst, less))
  {
    BoundSelf(p, a);
    CoversBound(p, a, a);
    CoversBound(p, a, b);
    hide Covers, Bound, LabelsBelow, Redirect, Merged, Inv;
    BoundSymmetric(p, a, b);
    CoversBoth(p, a, a.space, b.space);
    CoversMoves(p, a, b, dst.space);
    if a !in r.dst && b !in r.dst {
      BothNewSound(p, ext, first, r, a, b, dst);
    } else if b !in r.dst {
      UpdateSound(p, ext, first, r, a, dst);
      var o := UpdateRule(r, a, dst);
      if o.Collected? { FollowingSound(p, ext, first, o.rules, a, b); }
    } else if a !in r.dst {
      UpdateSound(p, ext, first, r, b, dst);
      var o := UpdateRule(r, b, dst);
      if o.Zero? { CoversMoves(p, b, a, {}); } else { FollowingSound(p, ext, first, o.rules, b, a); }
    } else {
      MergeSound(p, ext, first, r, a, b, dst, less);
    }
  }

  // ---- All deltas ----

  /** What processing a delta between bra and ket achieves. */
  ghost predicate Processed(p: seq<Factor>, ext: set<Index>, first: nat, r: Rules, bra: Index, ket: Index, o: Outcome) {
    match o
    case Zero => Covers(p, bra, {})
    case Collected(n) =>
      && Inv(p, ext, first, n) && Extends(r.dst, n.dst) && Settled(ext, n.dst, bra, ket)
  }

  /** A delta between two dummies gives them one destination, one with a single dummy gives it a destination. */
  ghost predicate Settled(ext: set<Index>, m: map<Index, Index>, bra: Index, ket: Index) {
    bra != ket ==>
      && (bra !in ext ==> bra in m) && (ket !in ext ==> ket in m)
      && (bra !in ext && ket !in ext ==> m[bra] == m[ket])
  }

  /** A destination for a dummy bound to an external: the external if it fits, else a fresh index. */
  lemma DestinationSuits(p: seq<Factor>, ext: set<Index>, first: nat, r: Rules, e: Index, i: Index)
    requires LabelsBelow(p, ext, first) && Inv(p, ext, first, r) && e in ext && Bound(p, i, e)
    ensures e.space <= i.space ==> Suits(p, ext, i, e)
    ensures Suits(p, ext, i, Index(r.next, e.space * i.space)) && Suits(p, ext, i, Index(r.next, i.space * e.space))
  {
    BoundSelf(p, i);
    CoversBound(p, i, i);
    CoversBound(p, i, e);
    CoversBoth(p, i, e.space, i.space);
    FreshDestination(p, ext, first, r, e.space * i.space);
    hide Covers, Bound, Inv, LabelsBelow;
    assert i.space * e.space == e.space * i.space;
  }

  /** A delta of a dummy and an external. */
  lemma MixedSound(p: seq<Factor>, ext: set<Index>, first: nat, r: Rules, e: Index, i: Index, space: Space)
    requires LabelsBelow(p, ext, first) && Inv(p, ext, first, r) && e in ext && i in Indices(p) - ext && Bound(p, i, e)
    requires space == e.space * i.space
    ensures var o := if e.space <= i.space then AddOrUpdateRule(r, i, e)
                     else AddOrUpdateRule(r.(next := r.next + 1), i, Index(r.next, space));
            match o
            case Zero => Covers(p, i, {})
            case Collected(n) => Inv(p, ext, first, n) && Extends(r.dst, n.dst) && i in n.dst
  {
    hide Covers, Bound, LabelsBelow, Redirect, Sound;
    DestinationSuits(p, ext, first, r, e, i);
    if e.space <= i.space {
      AddOrUpdateSound(p, ext, first, r, i, e);
    } else {
      FreshDestination(p, ext, first, r, space);
      AddOrUpdateSound(p, ext, first, r.(next := r.next + 1), i, Index(r.next, space));
    }
  }

  lemma DisjointIsZero(p: seq<Factor>, a: Index, b: Index)
    requires Bound(p, a, b) && a.space * b.space == {}
    ensures Covers(p, a, {})
  {
    BoundSelf(p, a);
    CoversBound(p, a, a);
    CoversBound(p, a, b);
    CoversBoth(p, a, a.space, b.space);
  }

  lemma ProcessSound(p: seq<Factor>, ext: set<Index>, first: nat, r: Rules, bra: Index, ket: Index, less: Order)
    requires LabelsBelow(p, ext, first) && Inv(p, ext, first, r) && Delta(bra, ket) in p
    requires bra in Indices(p) && ket in Indices(p)
    ensures Processed(p, ext, first, r, bra, ket, Process(r, ext, bra, ket, less))
  {
    hide Covers, Bound, LabelsBelow, Redirect, Inv, AddOrUpdateRule, AddOrUpdateRules;
    assert Joined(p, bra, ket);
    BoundJoined(p, bra, ket);
    var space := bra.space * ket.space;
    if bra != ket && space != {} {
      FreshDestination(p, ext, first, r, space);
      if bra !in ext && ket !in ext {
        NextAbove(p, ext, first, r);
        AddOrUpdateBothSound(p, ext, first, r.(next := r.next + 1), bra, ket, Index(r.next, space), less);
      } else if ket !in ext {
        MixedSound(p, ext, first, r, bra, ket, space);
        CoversBack(p, ket, bra);
      } else if bra !in ext {
        assert space == ket.space * bra.space;
        MixedSound(p, ext, first, r, ket, bra, space);
      }
    } else if bra != ket {
      DisjointIsZero(p, bra, ket);
    }
  }

  lemma CoversBack(p: seq<Factor>, i: Index, j: Index)
    requires Bound(p, i, j)
    ensures Covers(p, i, {}) ==> Covers(p, j, {})
  {
    if Covers(p, i, {}) { CoversMoves(p, i, j, {}); }
  }

  lemma NextAbove(p: seq<Factor>, ext: set<Index>, first: nat, r: Rules)
    requires Inv(p, ext, first, r)
    ensures first <= r.next
  {
  }

  /** Every delta of q is settled by m. */
  ghost predicate AllSettled(q: seq<Factor>, ext: set<Index>, m: map<Index, Index>) {
    forall bra, ket :: Delta(bra, ket) in q ==> Settled(ext, m, bra, ket)
  }

  lemma SettledStays(ext: set<Index>, m: map<Index, Index>, n: map<Index, Index>, bra: Index, ket: Index)
    requires Settled(ext, m, bra, ket) && Extends(m, n)
    ensures Settled(ext, n, bra, ket)
  {
  }

  /** The rules collected from the first factors of p are sound and settle their deltas; Zero means that p is zero. */
  lemma {:induction false} CollectSound(p: seq<Factor>, q: seq<Factor>, ext: set<Index>, first: nat, less: Order)
    requires LabelsBelow(p, ext, first) && q <= p
    ensures match Collect(q, ext, first, less)
            case Zero => exists i :: i in Indices(p) && Covers(p, i, {})
            case Collected(r) => Inv(p, ext, first, r) && AllSettled(q, ext, r.dst)
    decreases |q|
  {
    hide Covers, LabelsBelow, Sound, Process, Bound;
    if q == [] {
      assert Sound(p, ext, map[]) by { NoRulesSound(p, ext); }
    } else {
      var f := Last(q);
      CollectSound(p, Init(q), ext, first, less);
      var o := Collect(Init(q), ext, first, less);
      assert q == Init(q) + [f];
      if o.Collected? {
        if f.Delta? {
          assert f == p[|q| - 1];
          SlotsAreIndices(p, |q| - 1);
          assert f.bra in Slots(f) && f.ket in Slots(f);
          ProcessSound(p, ext, first, o.rules, f.bra, f.ket, less);
          var n := Process(o.rules, ext, f.bra, f.ket, less);
          if n.Collected? {
            forall bra, ket | Delta(bra, ket) in q ensures Settled(ext, n.rules.dst, bra, ket) {
              if Delta(bra, ket) in Init(q) { SettledStays(ext, o.rules.dst, n.rules.dst, bra, ket); }
            }
          }
        }
      }
    }
  }

  lemma NoRulesSound(p: seq<Factor>, ext: set<Index>)
    ensures Sound(p, ext, map[])
  {
  }
}
