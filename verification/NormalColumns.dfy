/** After normal ordering, partner indices that can share a column do. */
module NormalColumns {
  import opened Sequences
  import opened Parity
  import opened WickProblem
  import opened RangeNest
  import opened NormalOrder

  ghost predicate DistinctIds(ops: seq<Op>) {
    forall i, j :: 0 <= i < j < |ops| ==> ops[i].id != ops[j].id
  }

  /** No index has two partners on either side. */
  ghost predicate OnePartner(pairs: seq<(nat, nat)>) {
    forall i, j :: 0 <= i < j < |pairs| ==> pairs[i].0 != pairs[j].0 && pairs[i].1 != pairs[j].1
  }

  ghost predicate HasId(ops: seq<Op>, id: nat) {
    exists k :: 0 <= k < |ops| && ops[k].id == id
  }

  /** The partner of fixed[k], if among the moved operators, is in column k. */
  ghost predicate InColumn(fixed: seq<Op>, moved: seq<Op>, pairs: seq<(nat, nat)>, k: nat, extra: nat)
    requires k < |fixed| && k + extra < |moved|
  {
    var c := FindPair(pairs, fixed[k].id);
    c < |pairs| && HasId(moved, pairs[c].1) ==> moved[k + extra].id == pairs[c].1
  }

  ghost predicate ColumnsDone(fixed: seq<Op>, moved: seq<Op>, pairs: seq<(nat, nat)>, n: nat, extra: nat)
    requires |fixed| + extra <= |moved|
  {
    forall k :: n <= k < |fixed| ==> InColumn(fixed, moved, pairs, k, extra)
  }

  /** Swapping keeps the indices distinct and present. */
  lemma SwapIds(ops: seq<Op>, i: nat, j: nat)
    requires i < |ops| && j < |ops| && DistinctIds(ops)
    ensures DistinctIds(Swap(ops, i, j))
    ensures forall id :: HasId(Swap(ops, i, j), id) <==> HasId(ops, id)
  {
    var t := Swap(ops, i, j);
    forall id ensures HasId(t, id) <==> HasId(ops, id) {
      if HasId(t, id) {
        var k :| 0 <= k < |t| && t[k].id == id;
        assert ops[if k == i then j else if k == j then i else k].id == id;
      }
      if HasId(ops, id) {
        var k :| 0 <= k < |ops| && ops[k].id == id;
        assert t[if k == i then j else if k == j then i else k].id == id;
      }
    }
  }

  /** Aligning column n leaves the later columns alone. */
  lemma ColumnStep(fixed: seq<Op>, moved: seq<Op>, pairs: seq<(nat, nat)>, n: nat, extra: nat)
    requires n < |fixed| && |fixed| + extra <= |moved|
    requires DistinctIds(fixed) && DistinctIds(moved) && OnePartner(pairs)
    requires ColumnsDone(fixed, moved, pairs, n + 1, extra)
    ensures var r := AlignColumn(fixed, moved, pairs, n, extra);
            && DistinctIds(r) && ColumnsDone(fixed, r, pairs, n, extra)
            && forall id :: HasId(r, id) <==> HasId(moved, id)
  {
    hide FindPair, FindOp;
    var r := AlignColumn(fixed, moved, pairs, n, extra);
    var c := FindPair(pairs, fixed[n].id);
    var s := if c < |pairs| then FindOp(moved, pairs[c].1) else |moved|;
    if s < |moved| { SwapIds(moved, s, n + extra); }
    forall k | n <= k < |fixed| ensures InColumn(fixed, r, pairs, k, extra) {
      if k > n {
        assert InColumn(fixed, moved, pairs, k, extra);
        assert FindPair(pairs, fixed[k].id) != c || c == |pairs|;
      }
    }
  }

  lemma {:induction false} AllColumns(fixed: seq<Op>, moved: seq<Op>, pairs: seq<(nat, nat)>, n: nat, extra: nat)
    requires n <= |fixed| && |fixed| + extra <= |moved|
    requires DistinctIds(fixed) && DistinctIds(moved) && OnePartner(pairs)
    requires ColumnsDone(fixed, moved, pairs, n, extra)
    ensures var r := Align(fixed, moved, pairs, n, extra);
            ColumnsDone(fixed, r, pairs, 0, extra) && forall id :: HasId(r, id) <==> HasId(moved, id)
    decreases n
  {
    hide ColumnsDone, AlignColumn, DistinctIds, OnePartner;
    if n > 0 {
      ColumnStep(fixed, moved, pairs, n - 1, extra);
      AllColumns(fixed, AlignColumn(fixed, moved, pairs, n - 1, extra), pairs, n - 1, extra);
    }
  }

  /** Two operators act on the same particle: columns are counted from the right. */
  ghost predicate ShareColumn(cre: seq<Op>, ann: seq<Op>, i: nat, j: nat) {
    exists a, b :: 0 <= a < |cre| && 0 <= b < |ann| && Same(cre, ann, a, b, i, j)
  }

  ghost predicate Same(cre: seq<Op>, ann: seq<Op>, a: int, b: int, i: nat, j: nat)
    requires 0 <= a < |cre| && 0 <= b < |ann|
  {
    cre[a].id == i && ann[b].id == j && |cre| - a == |ann| - b
  }

  lemma PairIsFound(pairs: seq<(nat, nat)>, c: nat)
    requires OnePartner(pairs) && c < |pairs|
    ensures FindPair(pairs, pairs[c].0) == c
  {
  }

  /** Every target pair with both operators left shares a column. */
  lemma PartnersShareColumns(nest: seq<seq<Op>>, pairs: seq<(nat, nat)>, c: nat)
    requires OnePartner(pairs) && c < |pairs|
    requires DistinctIds(Creators(Flatten(nest))) && DistinctIds(Reversed(Flatten(Groups(nest))))
    requires HasId(Creators(Flatten(nest)), pairs[c].0) && HasId(Reversed(Flatten(Groups(nest))), pairs[c].1)
    ensures var (cre, ann) := NormalOrdered(nest, pairs);
            ShareColumn(cre, ann, pairs[c].0, pairs[c].1)
  {
    hide Flatten, Creators, Groups, Reversed, Align, DistinctIds;
    var cre, ann := Creators(Flatten(nest)), Reversed(Flatten(Groups(nest)));
    if |cre| <= |ann| {
      CreatorsFixed(cre, ann, pairs, c);
    } else {
      AnnihilatorsFixed(cre, ann, pairs, c);
    }
  }

  lemma CreatorsFixed(cre: seq<Op>, ann: seq<Op>, pairs: seq<(nat, nat)>, c: nat)
    requires OnePartner(pairs) && c < |pairs| && |cre| <= |ann| && DistinctIds(cre) && DistinctIds(ann)
    requires HasId(cre, pairs[c].0) && HasId(ann, pairs[c].1)
    ensures ShareColumn(cre, Align(cre, ann, pairs, |cre|, |ann| - |cre|), pairs[c].0, pairs[c].1)
  {
    hide Align, FindPair, DistinctIds, OnePartner;
    var extra := |ann| - |cre|;
    AllColumns(cre, ann, pairs, |cre|, extra);
    var r := Align(cre, ann, pairs, |cre|, extra);
    var a :| 0 <= a < |cre| && cre[a].id == pairs[c].0;
    PairIsFound(pairs, c);
    assert InColumn(cre, r, pairs, a, extra);
    assert Same(cre, r, a, a + extra, pairs[c].0, pairs[c].1);
  }

  lemma FlippedOnePartner(pairs: seq<(nat, nat)>)
    requires OnePartner(pairs)
    ensures OnePartner(Flipped(pairs))
    ensures forall c :: 0 <= c < |pairs| ==> Flipped(pairs)[c] == (pairs[c].1, pairs[c].0)
  {
  }

  lemma AnnihilatorsFixed(cre: seq<Op>, ann: seq<Op>, pairs: seq<(nat, nat)>, c: nat)
    requires OnePartner(pairs) && c < |pairs| && |ann| < |cre| && DistinctIds(cre) && DistinctIds(ann)
    requires HasId(cre, pairs[c].0) && HasId(ann, pairs[c].1)
    ensures ShareColumn(Align(ann, cre, Flipped(pairs), |ann|, |cre| - |ann|), ann, pairs[c].0, pairs[c].1)
  {
    hide Align, FindPair, DistinctIds, OnePartner, Flipped;
    FlippedOnePartner(pairs);
    var extra, flipped := |cre| - |ann|, Flipped(pairs);
    assert flipped[c] == (pairs[c].1, pairs[c].0);
    AllColumns(ann, cre, flipped, |ann|, extra);
    var r := Align(ann, cre, flipped, |ann|, extra);
    var b :| 0 <= b < |ann| && ann[b].id == pairs[c].1;
    PairIsFound(flipped, c);
    assert InColumn(ann, r, flipped, b, extra);
    assert Same(r, ann, b + extra, b, pairs[c].0, pairs[c].1);
  }

  // ---- The order before the swaps ----

  function CollectedAnnihilators(nest: seq<seq<Op>>): seq<Op> {
    Reversed(Flatten(Groups(nest)))
  }

  /** x stands in an earlier normal operator than y, or later in the same one. */
  ghost predicate Before(ord: map<Op, nat>, nest: seq<seq<Op>>, x: Op, y: Op) {
    forall g, h :: 0 <= g < |nest| && 0 <= h < |nest| && x in nest[g] && y in nest[h] ==>
      g < h || (g == h && x in ord && y in ord && ord[x] > ord[y])
  }

  lemma GroupsSnoc(nest: seq<seq<Op>>)
    requires nest != []
    ensures CollectedAnnihilators(nest) == CollectedAnnihilators(Init(nest)) + Reversed(Annihilators(Last(nest)))
  {
    hide Flatten, Annihilators, Reversed;
    assert Groups(nest)[0] == Annihilators(Last(nest)) && Groups(nest)[1..] == Groups(Init(nest));
    FlattenFirst(Groups(nest));
    ReversedConcat(Annihilators(Last(nest)), Flatten(Groups(Init(nest))));
  }

  lemma {:induction false} OfKind(ord: map<Op, nat>, u: seq<Op>)
    requires Numbers(ord, u)
    ensures Numbers(ord, Creators(u)) && Numbers(ord, Annihilators(u))
    ensures forall o :: o in Creators(u) <==> o in u && o.action == Create
    ensures forall o :: o in Annihilators(u) <==> o in u && o.action == Annihilate
  {
    if u != [] {
      var v, x := Init(u), Last(u);
      assert u == v + [x];
      PartNumbers(ord, v, [x]);
      OfKind(ord, v);
      MoreNumbers(ord, v, x, Creators(v));
      MoreNumbers(ord, v, x, Annihilators(v));
      hide Numbers;
      CreatorsSnoc(v, x);
      assert Creators(v) + [] == Creators(v) && Annihilators(v) + [] == Annihilators(v);
    }
  }

  lemma PartNumbers(ord: map<Op, nat>, v: seq<Op>, w: seq<Op>)
    requires Numbers(ord, v + w)
    ensures Numbers(ord, v) && Numbers(ord, w)
  {
    LabelsConcat(ord, v, w);
    var l := Labels(ord, v + w);
    forall i, j | 0 <= i < j < |w| ensures Labels(ord, w)[i] < Labels(ord, w)[j] {
      assert l[|v| + i] < l[|v| + j];
    }
    forall i, j | 0 <= i < j < |v| ensures Labels(ord, v)[i] < Labels(ord, v)[j] {
      assert l[i] < l[j];
    }
  }

  lemma MoreNumbers(ord: map<Op, nat>, v: seq<Op>, x: Op, s: seq<Op>)
    requires Numbers(ord, v + [x]) && Numbers(ord, s) && forall o :: o in s ==> o in v
    ensures Numbers(ord, s + [x])
  {
    var l := Labels(ord, v + [x]);
    assert (v + [x])[|v|] == x;
    forall o | o in v ensures o in ord && ord[o] < ord[x] {
      var k :| 0 <= k < |v| && v[k] == o;
      assert (v + [x])[k] == o && l[k] < l[|v|];
    }
    var m := Labels(ord, s + [x]);
    forall i, j | 0 <= i < j < |m| ensures m[i] < m[j] {
      if j < |s| { assert Labels(ord, s)[i] < Labels(ord, s)[j]; } else { assert (s + [x])[i] in v; }
    }
  }

  lemma ReversedIs(s: seq<Op>)
    ensures forall k :: 0 <= k < |s| ==> Reversed(s)[k] == s[|s| - 1 - k]
    ensures forall o :: o in Reversed(s) <==> o in s
  {
    hide Reversed;
    var r := Reversed(s);
    forall k | 0 <= k < |s| ensures r[k] == s[|s| - 1 - k] { ReversedAt(s, k); }
    forall o | o in s ensures o in r {
      var k :| 0 <= k < |s| && s[k] == o;
      assert r[|s| - 1 - k] == o;
    }
  }

  lemma ReversedFalls(ord: map<Op, nat>, s: seq<Op>)
    requires Numbers(ord, s)
    ensures forall o :: o in Reversed(s) <==> o in s
    ensures forall i, j :: 0 <= i < j < |s| ==> ord[Reversed(s)[i]] > ord[Reversed(s)[j]]
  {
    hide Reversed, Labels;
    ReversedIs(s);
    var r := Reversed(s);
    forall i, j | 0 <= i < j < |s| ensures ord[r[i]] > ord[r[j]] { NumbersRise(ord, s, |s| - 1 - j, |s| - 1 - i); }
  }

  lemma NumbersRise(ord: map<Op, nat>, s: seq<Op>, i: nat, j: nat)
    requires Numbers(ord, s) && i < j < |s|
    ensures ord[s[i]] < ord[s[j]]
  {
    assert Labels(ord, s)[i] < Labels(ord, s)[j];
  }

  /**
   Before partners are aligned, creators come in input order, and annihilators, column by column, by normal operator and
   each group from its last to its first.
   */
  lemma {:induction false} CollectedOrder(ord: map<Op, nat>, nest: seq<seq<Op>>)
    requires Numbers(ord, Flatten(nest))
    ensures Numbers(ord, Creators(Flatten(nest)))
    ensures forall o :: o in Creators(Flatten(nest)) <==> o in Flatten(nest) && o.action == Create
    ensures var ann := CollectedAnnihilators(nest);
            && (forall o :: o in ann <==> o in Flatten(nest) && o.action == Annihilate)
            && forall i, j :: 0 <= i < j < |ann| ==> Before(ord, nest, ann[i], ann[j])
  {
    hide Numbers, Creators, Annihilators, Reversed, Groups, Before;
    OfKind(ord, Flatten(nest));
    if nest == [] {
      NothingCollected();
    } else {
      var u, w := Init(nest), Last(nest);
      PartNumbers(ord, Flatten(u), w);
      CollectedOrder(ord, u);
      OfKind(ord, w);
      GroupsSnoc(nest);
      ReversedFalls(ord, Annihilators(w));
      hide CollectedAnnihilators;
      var a, r := CollectedAnnihilators(u), Reversed(Annihilators(w));
      forall i, j | 0 <= i < j < |a + r| ensures Before(ord, nest, (a + r)[i], (a + r)[j]) {
        if j < |a| {
          BeforeMore(ord, nest, a[i], a[j]);
        } else if i < |a| {
          BeforeLast(ord, nest, a[i], r[j - |a|]);
        } else {
          BothLast(ord, nest, r[i - |a|], r[j - |a|]);
        }
      }
    }
  }

  lemma NothingCollected()
    ensures CollectedAnnihilators([]) == []
  {
  }

  lemma {:induction false} InRangeOfNest(nest: seq<seq<Op>>, x: Op)
    ensures x in Flatten(nest) <==> exists g :: 0 <= g < |nest| && x in nest[g]
  {
    if nest != [] { InRangeOfNest(Init(nest), x); }
  }

  lemma NotTwice(u: seq<Op>, w: seq<Op>, x: Op)
    requires NoDup(u + w) && x in u
    ensures x !in w
  {
    var i :| 0 <= i < |u| && u[i] == x;
    forall j | 0 <= j < |w| ensures w[j] != x { assert (u + w)[i] != (u + w)[|u| + j]; }
  }

  /** What stands before the last normal operator does not stand in it. */
  lemma Elsewhere(ord: map<Op, nat>, nest: seq<seq<Op>>, x: Op)
    requires nest != [] && Numbers(ord, Flatten(nest))
    ensures x in Flatten(Init(nest)) ==> x !in Last(nest)
    ensures x in Last(nest) ==> forall g :: 0 <= g < |nest| - 1 ==> x !in nest[g]
  {
    NumbersDistinct(ord, Flatten(nest));
    hide Numbers, NoDup;
    if x in Flatten(Init(nest)) { NotTwice(Flatten(Init(nest)), Last(nest), x); }
    InRangeOfNest(Init(nest), x);
    hide Flatten;
    assert forall g :: 0 <= g < |nest| - 1 ==> nest[g] == Init(nest)[g];
  }

  lemma BeforeMore(ord: map<Op, nat>, nest: seq<seq<Op>>, x: Op, y: Op)
    requires nest != [] && Numbers(ord, Flatten(nest)) && x in Flatten(Init(nest)) && y in Flatten(Init(nest))
    requires Before(ord, Init(nest), x, y)
    ensures Before(ord, nest, x, y)
  {
    hide Numbers, Flatten;
    Elsewhere(ord, nest, x);
    Elsewhere(ord, nest, y);
    assert forall g :: 0 <= g < |nest| - 1 ==> nest[g] == Init(nest)[g];
  }

  lemma BeforeLast(ord: map<Op, nat>, nest: seq<seq<Op>>, x: Op, y: Op)
    requires nest != [] && Numbers(ord, Flatten(nest)) && x in Flatten(Init(nest)) && y in Last(nest)
    ensures Before(ord, nest, x, y)
  {
    hide Numbers, Flatten;
    Elsewhere(ord, nest, x);
    Elsewhere(ord, nest, y);
  }

  lemma BothLast(ord: map<Op, nat>, nest: seq<seq<Op>>, x: Op, y: Op)
    requires nest != [] && Numbers(ord, Flatten(nest)) && x in Last(nest) && y in Last(nest)
    requires x in ord && y in ord && ord[x] > ord[y]
    ensures Before(ord, nest, x, y)
  {
    hide Numbers, Flatten;
    Elsewhere(ord, nest, x);
    Elsewhere(ord, nest, y);
  }
}
