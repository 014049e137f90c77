/**
 Normal ordering of what the contractions leave: creators to the left,
 annihilators of later normal operators first, then pairs of partner indices
 aligned in columns. The sign is that of the permutation performed.
 */
module NormalOrder {
  import opened Sequences
  import opened Parity
  import opened WickProblem
  import opened RangeNest

  // ---- Orders ----

  function Creators(u: seq<Op>): seq<Op> {
    if u == [] then [] else Creators(Init(u)) + (if Last(u).action == Create then [Last(u)] else [])
  }

  function Annihilators(u: seq<Op>): seq<Op> {
    if u == [] then [] else Annihilators(Init(u)) + (if Last(u).action == Annihilate then [Last(u)] else [])
  }

  /** Annihilators by normal operator, the last one first. */
  function Groups(nest: seq<seq<Op>>): seq<seq<Op>> {
    seq(|nest|, g requires 0 <= g < |nest| => Annihilators(nest[|nest| - 1 - g]))
  }

  function Reversed<T>(s: seq<T>): (r: seq<T>)
    ensures |r| == |s|
  {
    if s == [] then [] else Reversed(s[1..]) + [s[0]]
  }

  lemma {:induction false} ReversedConcat<T>(a: seq<T>, b: seq<T>)
    ensures Reversed(a + b) == Reversed(b) + Reversed(a)
  {
    if a == [] {
      assert a + b == b;
    } else {
      ReversedConcat(a[1..], b);
      assert (a + b)[1..] == a[1..] + b;
    }
  }

  lemma {:induction false} ReversedAt<T>(s: seq<T>, k: nat)
    requires k < |s|
    ensures Reversed(s)[k] == s[|s| - 1 - k]
  {
    if k < |s| - 1 { ReversedAt(s[1..], k); }
  }

  /** The operators of a NormalOperator, given its creators and annihilators in particle order. */
  function Storage(cre: seq<Op>, ann: seq<Op>): seq<Op> {
    cre + Reversed(ann)
  }

  /** Input positions of operators. */
  ghost function Labels(ord: map<Op, nat>, s: seq<Op>): (q: seq<nat>)
    requires forall o :: o in s ==> o in ord
    ensures |q| == |s|
  {
    seq(|s|, k requires 0 <= k < |s| => ord[s[k]])
  }

  /** ord numbers the operators of u in order. */
  ghost predicate Numbers(ord: map<Op, nat>, u: seq<Op>) {
    (forall o :: o in u ==> o in ord) && Increasing(Labels(ord, u))
  }

  /** The sign of the permutation from the numbered order to s. */
  ghost function SignOfOrder(ord: map<Op, nat>, s: seq<Op>): int {
    if forall o :: o in s ==> o in ord then Sign(Parity.Inversions(Labels(ord, s))) else 0
  }

  lemma NumbersDistinct(ord: map<Op, nat>, u: seq<Op>)
    requires Numbers(ord, u)
    ensures NoDup(u)
  {
    forall i, j | 0 <= i < j < |u| ensures u[i] != u[j] {
      assert Labels(ord, u)[i] < Labels(ord, u)[j];
    }
  }

  // ---- Collecting creators and annihilators ----

  lemma LabelsConcat(ord: map<Op, nat>, a: seq<Op>, b: seq<Op>)
    requires forall o :: o in a + b ==> o in ord
    ensures (forall o :: o in a ==> o in ord) && (forall o :: o in b ==> o in ord)
    ensures Labels(ord, a + b) == Labels(ord, a) + Labels(ord, b)
  {
    assert forall o :: o in a || o in b ==> o in a + b;
    var l, m := Labels(ord, a + b), Labels(ord, a) + Labels(ord, b);
    forall k | 0 <= k < |l| ensures l[k] == m[k] {}
  }

  lemma LabelsConcat4(ord: map<Op, nat>, a: seq<Op>, b: seq<Op>, c: seq<Op>, d: seq<Op>)
    requires forall o :: o in a + b + c + d ==> o in ord
    ensures (forall o :: o in a ==> o in ord) && (forall o :: o in b ==> o in ord)
    ensures (forall o :: o in c ==> o in ord) && (forall o :: o in d ==> o in ord)
    ensures Labels(ord, a + b + c + d) == Labels(ord, a) + Labels(ord, b) + Labels(ord, c) + Labels(ord, d)
  {
    hide Labels;
    LabelsConcat(ord, a + b + c, d);
    LabelsConcat(ord, a + b, c);
    LabelsConcat(ord, a, b);
  }

  /** One annihilator moves right past everything not yet collected and the annihilators of its own group. */
  lemma CollectSign(ord: map<Op, nat>, u: seq<Op>, a: seq<Op>, x: Op, b: seq<Op>, c: seq<Op>)
    requires Numbers(ord, u) && multiset(a + [x] + b + c) == multiset(u)
    ensures multiset(a + b + [x] + c) == multiset(u)
    ensures SignOfOrder(ord, a + b + [x] + c) == SignOfOrder(ord, a + [x] + b + c) * Sign(|b|)
  {
    hide Numbers, Labels, Parity.Inversions;
    var s, t := a + [x] + b + c, a + b + [x] + c;
    assert multiset(t) == multiset(s);
    PermutedNumbers(ord, u, s);
    PermutedNumbers(ord, u, t);
    LabelsConcat4(ord, a, [x], b, c);
    LabelsConcat4(ord, a, b, [x], c);
    SingleLabel(ord, x);
    NotAmong(Labels(ord, a), ord[x], Labels(ord, b), Labels(ord, c));
    MovedLabels(Labels(ord, a), ord[x], Labels(ord, b), Labels(ord, c));
  }

  lemma NotAmong(a: seq<nat>, x: nat, b: seq<nat>, c: seq<nat>)
    requires NoDup(a + [x] + b + c)
    ensures x !in b
  {
    var q := a + [x] + b + c;
    forall k | 0 <= k < |b| ensures b[k] != x {
      assert q[|a|] == x && q[|a| + 1 + k] == b[k];
    }
  }

  lemma MovedLabels(a: seq<nat>, x: nat, b: seq<nat>, c: seq<nat>)
    requires x !in b
    ensures Sign(Parity.Inversions(a + b + [x] + c)) == Sign(Parity.Inversions(a + [x] + b + c)) * Sign(|b|)
  {
    hide Parity.Inversions, Sign;
    MoveRight(a, x, b, c);
    SignSum(Parity.Inversions(a + b + [x] + c), |b|);
    SignTwice(|b|);
  }

  lemma SignTwice(n: int)
    ensures Sign(n) * Sign(n) == 1
  {
  }

  lemma SingleLabel(ord: map<Op, nat>, x: Op)
    requires x in ord
    ensures Labels(ord, [x]) == [ord[x]]
  {
  }

  lemma SameMembers<T>(s: seq<T>, u: seq<T>)
    requires multiset(s) == multiset(u)
    ensures forall o :: o in s <==> o in u
  {
    forall o ensures o in s <==> o in u {
      assert o in s <==> o in multiset(s);
      assert o in u <==> o in multiset(u);
    }
  }

  /** Every arrangement of distinctly numbered operators has distinct labels. */
  lemma PermutedNumbers(ord: map<Op, nat>, u: seq<Op>, s: seq<Op>)
    requires Numbers(ord, u) && multiset(s) == multiset(u)
    ensures (forall o :: o in s ==> o in ord) && NoDup(Labels(ord, s)) && NoDup(s)
  {
    SameMembers(s, u);
    NumbersDistinct(ord, u);
    PermutedDistinct(s, u);
    forall i, j | 0 <= i < j < |s| ensures Labels(ord, s)[i] != Labels(ord, s)[j] {
      assert s[i] in u && s[j] in u;
      var k :| 0 <= k < |u| && u[k] == s[i];
      var l :| 0 <= l < |u| && u[l] == s[j];
      assert k != l;
      assert Labels(ord, u)[k] != Labels(ord, u)[l];
    }
  }

  lemma PermutedDistinct<T>(s: seq<T>, u: seq<T>)
    requires multiset(s) == multiset(u) && NoDup(u)
    ensures NoDup(s)
  {
    forall i, j | 0 <= i < j < |s| ensures s[i] != s[j] {
      if s[i] == s[j] {
        var x := s[i];
        assert s == s[..i] + [x] + s[i + 1..j] + [x] + s[j + 1..];
        assert multiset(u)[x] >= 2;
        SingleOccurrence(u, x);
      }
    }
  }

  lemma {:induction false} SingleOccurrence<T>(u: seq<T>, x: T)
    requires NoDup(u)
    ensures multiset(u)[x] <= 1
  {
    if u != [] {
      assert u == [u[0]] + u[1..];
      SingleOccurrence(u[1..], x);
      if u[0] == x { assert x !in u[1..]; }
    }
  }

  // ---- Aligning partners ----

  /** Position of the pair with the given first index. */
  function FindPair(pairs: seq<(nat, nat)>, index: nat): (k: nat)
    ensures k <= |pairs| && (k < |pairs| ==> pairs[k].0 == index)
    ensures forall i :: 0 <= i < k ==> pairs[i].0 != index
  {
    if pairs == [] || pairs[0].0 == index then 0 else 1 + FindPair(pairs[1..], index)
  }

  function FindOp(ops: seq<Op>, index: nat): (k: nat)
    ensures k <= |ops| && (k < |ops| ==> ops[k].id == index)
    ensures forall i :: 0 <= i < k ==> ops[i].id != index
  {
    if ops == [] || ops[0].id == index then 0 else 1 + FindOp(ops[1..], index)
  }

  /** The partner of fixed[k], if it has one among moved, is swapped into column k. */
  function AlignColumn(fixed: seq<Op>, moved: seq<Op>, pairs: seq<(nat, nat)>, k: nat, extra: nat): (r: seq<Op>)
    requires k < |fixed| && k + extra < |moved|
    ensures |r| == |moved|
  {
    var c := FindPair(pairs, fixed[k].id);
    if c == |pairs| then moved
    else
      var s := FindOp(moved, pairs[c].1);
      if s == |moved| then moved else Swap(moved, s, k + extra)
  }

  /** Columns n - 1 down to 0 aligned. */
  function Align(fixed: seq<Op>, moved: seq<Op>, pairs: seq<(nat, nat)>, n: nat, extra: nat): (r: seq<Op>)
    requires n <= |fixed| && n + extra <= |moved|
    ensures |r| == |moved|
    decreases n
  {
    if n == 0 then moved
    else Align(fixed, AlignColumn(fixed, moved, pairs, n - 1, extra), pairs, n - 1, extra)
  }

  lemma AlignStep(fixed: seq<Op>, moved: seq<Op>, pairs: seq<(nat, nat)>, n: nat, extra: nat)
    requires 0 < n <= |fixed| && n + extra <= |moved|
    ensures Align(fixed, moved, pairs, n, extra)
            == Align(fixed, AlignColumn(fixed, moved, pairs, n - 1, extra), pairs, n - 1, extra)
  {
  }

  lemma AlignNone(fixed: seq<Op>, moved: seq<Op>, pairs: seq<(nat, nat)>, extra: nat)
    requires extra <= |moved|
    ensures Align(fixed, moved, pairs, 0, extra) == moved
  {
  }

  function Flipped(pairs: seq<(nat, nat)>): (r: seq<(nat, nat)>)
    ensures |r| == |pairs|
  {
    seq(|pairs|, k requires 0 <= k < |pairs| => (pairs[k].1, pairs[k].0))
  }

  /** Creators and annihilators in particle order, partners aligned. */
  function NormalOrdered(nest: seq<seq<Op>>, pairs: seq<(nat, nat)>): (seq<Op>, seq<Op>) {
    var cre, ann := Creators(Flatten(nest)), Reversed(Flatten(Groups(nest)));
    if |cre| <= |ann| then (cre, Align(cre, ann, pairs, |cre|, |ann| - |cre|))
    else (Align(ann, cre, Flipped(pairs), |ann|, |cre| - |ann|), ann)
  }

  lemma SwapMembers<T>(q: seq<T>, i: nat, j: nat)
    requires i < |q| && j < |q|
    ensures multiset(Swap(q, i, j)) == multiset(q)
  {
  }

  /** Swapping two annihilators is swapping two operators of the normal operator. */
  lemma StorageSwap(cre: seq<Op>, ann: seq<Op>, i: nat, j: nat)
    requires i < |ann| && j < |ann|
    ensures Storage(cre, Swap(ann, i, j))
            == Swap(Storage(cre, ann), |cre| + |ann| - 1 - i, |cre| + |ann| - 1 - j)
  {
    var b, s, n := Swap(ann, i, j), Storage(cre, ann), |cre| + |ann|;
    var t := Swap(s, n - 1 - i, n - 1 - j);
    forall k | 0 <= k < n ensures Storage(cre, b)[k] == t[k] {
      if k >= |cre| {
        ReversedAt(b, k - |cre|);
        ReversedAt(ann, k - |cre|);
      }
      ReversedAt(ann, |ann| - 1 - i);
      ReversedAt(ann, |ann| - 1 - j);
    }
  }

  lemma SwapOrderSign(ord: map<Op, nat>, u: seq<Op>, s: seq<Op>, i: nat, j: nat)
    requires Numbers(ord, u) && multiset(s) == multiset(u) && i < |s| && j < |s| && i != j
    ensures multiset(Swap(s, i, j)) == multiset(u)
    ensures SignOfOrder(ord, Swap(s, i, j)) == -SignOfOrder(ord, s)
  {
    SwapMembers(s, i, j);
    SameMembers(s, u);
    SameMembers(Swap(s, i, j), u);
    PermutedNumbers(ord, u, s);
    SwapAtSign(Labels(ord, s), i, j);
    assert Labels(ord, Swap(s, i, j)) == Swap(Labels(ord, s), i, j);
  }

  // ---- The operation ----

  /** s rearranges the operators of u, and phase is the sign of the rearrangement (1 for bosons). */
  ghost predicate Arrangement(ord: map<Op, nat>, fermi: bool, phase: int, u: seq<Op>, s: seq<Op>) {
    multiset(s) == multiset(u) && phase == if fermi then SignOfOrder(ord, s) else 1
  }

  lemma SwapArrangement(ord: map<Op, nat>, fermi: bool, phase: int, u: seq<Op>, s: seq<Op>, i: nat, j: nat)
    requires Numbers(ord, u) && Arrangement(ord, fermi, phase, u, s) && i < |s| && j < |s| && i != j
    ensures Arrangement(ord, fermi, if fermi then phase * -1 else phase, u, Swap(s, i, j))
  {
    hide Numbers, SignOfOrder, Swap;
    SwapOrderSign(ord, u, s, i, j);
  }

  method Normalize(opseq: seq<seq<Op>>, pairs: seq<(nat, nat)>, fermi: bool, ghost ord: map<Op, nat>)
      returns (phase: int, cre: seq<Op>, ann: seq<Op>)
    requires opseq != [] && Numbers(ord, Flatten(opseq))
    ensures (cre, ann) == NormalOrdered(opseq, pairs)
    ensures multiset(Storage(cre, ann)) == multiset(Flatten(opseq))
    ensures phase == if fermi then SignOfOrder(ord, Storage(cre, ann)) else 1
  {
    hide Numbers, Storage, Align, Flatten, Creators, SignOfOrder;
    phase, cre, ann := Collect(opseq, fermi, ord);
    ghost var u := Flatten(opseq);
    if pairs != [] {
      if |cre| <= |ann| {
        phase, ann := AlignAnnihilators(u, cre, ann, pairs, phase, fermi, ord);
      } else {
        phase, cre := AlignCreators(u, cre, ann, pairs, phase, fermi, ord);
      }
    } else {
      if |cre| <= |ann| { NothingToAlign(cre, ann, |cre|); } else { NothingToAlign(ann, cre, |ann|); }
      assert Flipped(pairs) == [];
    }
  }

  /** As many annihilators as creators or more: moves each creator's partner into its column. */
  method AlignAnnihilators(ghost u: seq<Op>, cre: seq<Op>, before: seq<Op>, pairs: seq<(nat, nat)>, sign: int, fermi: bool,
                           ghost ord: map<Op, nat>) returns (phase: int, ann: seq<Op>)
    requires Numbers(ord, u) && |cre| <= |before| && Arrangement(ord, fermi, sign, u, Storage(cre, before))
    ensures ann == Align(cre, before, pairs, |cre|, |before| - |cre|)
    ensures Arrangement(ord, fermi, phase, u, Storage(cre, ann))
  {
    hide Numbers, Storage, Arrangement, Align, FindPair, FindOp;
    phase, ann := sign, before;
    var extra := |ann| - |cre|;
    var p: nat := |cre|;
    while p > 0
      invariant p <= |cre| && |ann| == |before|
      invariant Align(cre, ann, pairs, p, extra) == Align(cre, before, pairs, |cre|, extra)
      invariant Arrangement(ord, fermi, phase, u, Storage(cre, ann))
    {
      AlignStep(cre, ann, pairs, p, extra);
      p := p - 1;
      var c := FindPair(pairs, cre[p].id);
      if c < |pairs| {
        var s := FindOp(ann, pairs[c].1);
        if s < |ann| {
          var t := p + extra;
          assert s == t ==> Swap(ann, s, t) == ann;
          if t != s {
            SwapAnnihilators(ord, fermi, phase, u, cre, ann, s, t);
            if fermi { phase := phase * -1; }
          }
          ann := ann[s := ann[t]][t := ann[s]];
        }
      }
    }
    AlignNone(cre, ann, pairs, extra);
  }

  lemma SwapAnnihilators(ord: map<Op, nat>, fermi: bool, phase: int, u: seq<Op>, cre: seq<Op>, ann: seq<Op>, s: nat, t: nat)
    requires Numbers(ord, u) && Arrangement(ord, fermi, phase, u, Storage(cre, ann)) && s < |ann| && t < |ann| && s != t
    ensures Arrangement(ord, fermi, if fermi then phase * -1 else phase, u, Storage(cre, Swap(ann, s, t)))
  {
    hide Numbers, Arrangement, Reversed, Swap;
    assert |Storage(cre, ann)| == |cre| + |ann|;
    hide Storage;
    var n := |cre| + |ann| - 1;
    StorageSwap(cre, ann, s, t);
    SwapArrangement(ord, fermi, phase, u, Storage(cre, ann), n - s, n - t);
  }

  /** More creators than annihilators: moves each annihilator's partner into its column. */
  method AlignCreators(ghost u: seq<Op>, before: seq<Op>, ann: seq<Op>, pairs: seq<(nat, nat)>, sign: int, fermi: bool,
                       ghost ord: map<Op, nat>) returns (phase: int, cre: seq<Op>)
    requires Numbers(ord, u) && |ann| <= |before| && Arrangement(ord, fermi, sign, u, Storage(before, ann))
    ensures cre == Align(ann, before, Flipped(pairs), |ann|, |before| - |ann|)
    ensures Arrangement(ord, fermi, phase, u, Storage(cre, ann))
  {
    hide Numbers, Storage, Arrangement, Align, FindPair, FindOp;
    phase, cre := sign, before;
    var extra := |cre| - |ann|;
    var p: nat := |ann|;
    while p > 0
      invariant p <= |ann| && |cre| == |before|
      invariant Align(ann, cre, Flipped(pairs), p, extra) == Align(ann, before, Flipped(pairs), |ann|, extra)
      invariant Arrangement(ord, fermi, phase, u, Storage(cre, ann))
    {
      AlignStep(ann, cre, Flipped(pairs), p, extra);
      p := p - 1;
      var c := FindPair(Flipped(pairs), ann[p].id);
      if c < |pairs| {
        var s := FindOp(cre, pairs[c].0);
        if s < |cre| {
          var t := p + extra;
          assert s == t ==> Swap(cre, s, t) == cre;
          if s != t {
            SwapCreators(ord, fermi, phase, u, cre, ann, s, t);
            if fermi { phase := phase * -1; }
          }
          cre := cre[s := cre[t]][t := cre[s]];
        }
      }
    }
    AlignNone(ann, cre, Flipped(pairs), extra);
  }

  lemma SwapCreators(ord: map<Op, nat>, fermi: bool, phase: int, u: seq<Op>, cre: seq<Op>, ann: seq<Op>, s: nat, t: nat)
    requires Numbers(ord, u) && Arrangement(ord, fermi, phase, u, Storage(cre, ann)) && s < |cre| && t < |cre| && s != t
    ensures Arrangement(ord, fermi, if fermi then phase * -1 else phase, u, Storage(Swap(cre, s, t), ann))
  {
    hide Numbers, Arrangement, Reversed;
    assert Storage(Swap(cre, s, t), ann) == Swap(Storage(cre, ann), s, t);
    SwapArrangement(ord, fermi, phase, u, Storage(cre, ann), s, t);
  }

  lemma {:induction false} NothingToAlign(fixed: seq<Op>, moved: seq<Op>, n: nat)
    requires n <= |fixed| <= |moved|
    ensures Align(fixed, moved, [], n, |moved| - |fixed|) == moved
  {
    if n > 0 { NothingToAlign(fixed, moved, n - 1); }
  }

  /** The first pass: creators in order, annihilators by group, each with the sign of its move. */
  method Collect(opseq: seq<seq<Op>>, fermi: bool, ghost ord: map<Op, nat>)
      returns (phase: int, cre: seq<Op>, ann: seq<Op>)
    requires opseq != [] && Numbers(ord, Flatten(opseq))
    ensures cre == Creators(Flatten(opseq)) && ann == Reversed(Flatten(Groups(opseq)))
    ensures Arrangement(ord, fermi, phase, Flatten(opseq), Storage(cre, ann))
  {
    hide Numbers, GroupsAt, Arrangement, Annihilators, Storage, IsPosition, Flatten, Creators, SignOfOrder;
    ghost var u := Flatten(opseq);
    var nops, nnops := |Flatten(opseq)|, |opseq|;
    phase, cre := 1, [];
    var groups: seq<seq<Op>> := seq(nnops, _ => []);
    var pos := 0;
    var it := new Cursor<Op>.Begin(opseq);
    StartOfCollect(ord, fermi, opseq, groups);
    while it.rangeIter < nnops
      invariant it.PointsInto(opseq) && it.ordinal == pos <= nops && |groups| == nnops
      invariant it.rangeIter == nnops ==> pos == nops
      invariant cre == Creators(u[..pos]) && GroupsAt(opseq, pos, groups)
      invariant Arrangement(ord, fermi, phase, u, cre + u[pos..] + Flatten(groups))
      decreases nops - pos
    {
      ElementAt(opseq, it.rangeIter, it.elemIter, it.ordinal);
      PositionInRange(opseq, it.rangeIter, it.elemIter, pos);
      CollectOne(ord, fermi, phase, opseq, u, cre, it.rangeIter, it.elemIter, pos, groups);
      var op := opseq[it.rangeIter][it.elemIter];
      if op.action == Create {
        cre := cre + [op];
      } else {
        var distanceToEnd := nops - pos - 1;
        var group := nnops - it.rangeIter - 1;
        var total := distanceToEnd + |groups[group]|;
        groups := groups[group := groups[group] + [op]];
        if fermi && total % 2 == 1 { phase := phase * -1; }
      }
      pos := pos + 1;
      it.Next(opseq);
    }
    GroupsEnd(opseq, groups);
    ann := ReverseGroups(groups);
    EndOfCollect(ord, fermi, phase, u, cre, groups);
  }

  lemma PositionInRange(nest: seq<seq<Op>>, r: nat, e: nat, k: nat)
    requires IsPosition(nest, r, e, k)
    ensures r < |nest| && e < |nest[r]|
  {
  }

  lemma EndOfCollect(ord: map<Op, nat>, fermi: bool, phase: int, u: seq<Op>, cre: seq<Op>, groups: seq<seq<Op>>)
    requires Arrangement(ord, fermi, phase, u, cre + u[|u|..] + Flatten(groups))
    ensures Arrangement(ord, fermi, phase, u, Storage(cre, Reversed(Flatten(groups))))
    ensures u[..|u|] == u
  {
    ReversedTwice(Flatten(groups));
    assert cre + u[|u|..] + Flatten(groups) == cre + Flatten(groups);
  }

  lemma FlattenFirst(nest: seq<seq<Op>>)
    requires nest != []
    ensures Flatten(nest) == nest[0] + Flatten(nest[1..])
  {
    FlattenAround(nest, 0);
    assert nest[..0] == [];
  }

  /** Concatenates the groups from back to front, each backwards. */
  method ReverseGroups(groups: seq<seq<Op>>) returns (ann: seq<Op>)
    ensures ann == Reversed(Flatten(groups))
  {
    ann := [];
    var n, g := |groups|, 0;
    while g < n
      invariant g <= n && ann == Reversed(Flatten(groups[n - g..]))
    {
      FlattenFirst(groups[n - g - 1..]);
      assert groups[n - g - 1..][1..] == groups[n - g..];
      ReversedConcat(groups[n - g - 1], Flatten(groups[n - g..]));
      ann := ann + Reversed(groups[n - g - 1]);
      g := g + 1;
    }
    assert groups[0..] == groups;
  }

  lemma {:induction false} ReversedTwice<T>(s: seq<T>)
    ensures Reversed(Reversed(s)) == s
  {
    if s != [] {
      ReversedTwice(s[1..]);
      ReversedConcat(Reversed(s[1..]), [s[0]]);
    }
  }

  lemma CreatorsSnoc(u: seq<Op>, op: Op)
    ensures Creators(u + [op]) == Creators(u) + (if op.action == Create then [op] else [])
    ensures Annihilators(u + [op]) == Annihilators(u) + (if op.action == Annihilate then [op] else [])
  {
    assert Init(u + [op]) == u;
  }

  /** How many of range q are among the first k elements. */
  ghost function Taken(nest: seq<seq<Op>>, q: nat, k: nat): (e: nat)
    requires q < |nest|
    ensures e <= |nest[q]|
  {
    if k <= Offset(nest, q) then 0
    else if k >= Offset(nest, q) + |nest[q]| then |nest[q]|
    else k - Offset(nest, q)
  }

  /** The groups when the first k operators are collected. */
  ghost predicate GroupsAt(nest: seq<seq<Op>>, k: nat, groups: seq<seq<Op>>) {
    |groups| == |nest|
    && forall q :: 0 <= q < |nest| ==> groups[|nest| - 1 - q] == Annihilators(nest[q][..Taken(nest, q, k)])
  }

  lemma {:induction false} OffsetOrder(nest: seq<seq<Op>>, q: nat, r: nat)
    requires q < r <= |nest|
    ensures Offset(nest, q) + |nest[q]| <= Offset(nest, r)
    decreases r
  {
    OffsetStep(nest, r - 1);
    if q < r - 1 { OffsetOrder(nest, q, r - 1); }
  }

  lemma TakenStep(nest: seq<seq<Op>>, r: nat, e: nat, k: nat, q: nat)
    requires IsPosition(nest, r, e, k) && q < |nest|
    ensures q == r ==> Taken(nest, q, k) == e && Taken(nest, q, k + 1) == e + 1
    ensures q != r ==> Taken(nest, q, k + 1) == Taken(nest, q, k)
    ensures q > r ==> Taken(nest, q, k) == 0
  {
    if q < r { OffsetOrder(nest, q, r); }
    if q > r { OffsetOrder(nest, r, q); }
  }

  /** Collecting the operator at (r, e) adds it to its group if it is an annihilator. */
  lemma GroupsStep(nest: seq<seq<Op>>, r: nat, e: nat, k: nat, groups: seq<seq<Op>>)
    requires IsPosition(nest, r, e, k) && GroupsAt(nest, k, groups)
    ensures var op, g := nest[r][e], |nest| - 1 - r;
            GroupsAt(nest, k + 1, if op.action == Annihilate then groups[g := groups[g] + [op]] else groups)
  {
    var op, g := nest[r][e], |nest| - 1 - r;
    var after := if op.action == Annihilate then groups[g := groups[g] + [op]] else groups;
    forall q | 0 <= q < |nest| ensures after[|nest| - 1 - q] == Annihilators(nest[q][..Taken(nest, q, k + 1)]) {
      TakenStep(nest, r, e, k, q);
      if q == r {
        assert nest[r][..e + 1] == nest[r][..e] + [op];
        CreatorsSnoc(nest[r][..e], op);
      }
    }
  }

  lemma GroupsEnd(nest: seq<seq<Op>>, groups: seq<seq<Op>>)
    requires GroupsAt(nest, |Flatten(nest)|, groups)
    ensures groups == Groups(nest)
  {
    forall g | 0 <= g < |nest| ensures groups[g] == Groups(nest)[g] {
      var q := |nest| - 1 - g;
      OffsetStep(nest, q);
      OffsetBound(nest, q + 1);
      assert nest[q][..|nest[q]|] == nest[q];
      assert groups[|nest| - 1 - q] == Annihilators(nest[q][..Taken(nest, q, |Flatten(nest)|)]);
    }
  }

  lemma {:induction false} FlattenEmpty(nest: seq<seq<Op>>)
    requires forall q :: 0 <= q < |nest| ==> nest[q] == []
    ensures Flatten(nest) == []
  {
    if nest != [] { FlattenEmpty(Init(nest)); }
  }

  lemma StartOfCollect(ord: map<Op, nat>, fermi: bool, nest: seq<seq<Op>>, groups: seq<seq<Op>>)
    requires Numbers(ord, Flatten(nest)) && |groups| == |nest| && forall g :: 0 <= g < |groups| ==> groups[g] == []
    ensures Arrangement(ord, fermi, 1, Flatten(nest), [] + Flatten(nest)[0..] + Flatten(groups)) && GroupsAt(nest, 0, groups)
    ensures Creators(Flatten(nest)[..0]) == []
  {
    hide GroupsAt, Labels, Parity.Inversions, Flatten;
    FlattenEmpty(groups);
    var u := Flatten(nest);
    assert [] + u[0..] + Flatten(groups) == u;
    IncreasingHasNoInversions(Labels(ord, u));
    NothingCollected(nest, groups);
  }

  lemma NothingCollected(nest: seq<seq<Op>>, groups: seq<seq<Op>>)
    requires |groups| == |nest| && forall g :: 0 <= g < |groups| ==> groups[g] == []
    ensures GroupsAt(nest, 0, groups)
  {
  }

  /** Collecting the operator at (r, e), the k-th. */
  lemma CollectOne(ord: map<Op, nat>, fermi: bool, phase: int, nest: seq<seq<Op>>, u: seq<Op>, cre: seq<Op>, r: nat, e: nat, k: nat,
                   groups: seq<seq<Op>>)
    requires u == Flatten(nest) && Numbers(ord, u)
    requires r < |nest| && e < |nest[r]| && IsPosition(nest, r, e, k) && k < |u| && u[k] == nest[r][e]
    requires |groups| == |nest| && GroupsAt(nest, k, groups) && cre == Creators(u[..k])
    requires Arrangement(ord, fermi, phase, u, cre + u[k..] + Flatten(groups))
    ensures u[k].action == Create ==>
              && cre + [u[k]] == Creators(u[..k + 1]) && GroupsAt(nest, k + 1, groups)
              && Arrangement(ord, fermi, phase, u, cre + [u[k]] + u[k + 1..] + Flatten(groups))
    ensures u[k].action == Annihilate ==>
              var g := |nest| - 1 - r;
              var flip := fermi && (|u| - k - 1 + |groups[g]|) % 2 == 1;
              var after := groups[g := groups[g] + [u[k]]];
              && cre == Creators(u[..k + 1]) && GroupsAt(nest, k + 1, after)
              && Arrangement(ord, fermi, if flip then phase * -1 else phase, u, cre + u[k + 1..] + Flatten(after))
  {
    hide IsPosition, Arrangement, Numbers, GroupsAt, Flatten, Annihilators;
    GroupsStep(nest, r, e, k, groups);
    assert u[..k + 1] == u[..k] + [u[k]];
    CreatorsSnoc(u[..k], u[k]);
    hide Creators;
    if u[k].action == Create {
      CreatorStays(cre, u, k, Flatten(groups));
    } else {
      var g := |nest| - 1 - r;
      LaterGroupsEmpty(nest, r, e, k, groups);
      FlattenGroup(groups, g, groups[g] + [u[k]]);
      CollectStep(ord, fermi, phase, u, cre, k, groups[g], Flatten(groups[g + 1..]));
    }
  }

  lemma CreatorStays(cre: seq<Op>, u: seq<Op>, k: nat, rest: seq<Op>)
    requires k < |u|
    ensures (cre + [u[k]]) + u[k + 1..] + rest == cre + u[k..] + rest
  {
    assert u[k..] == [u[k]] + u[k + 1..];
  }

  /** An annihilator moves past the operators not collected yet and those of its group. */
  lemma CollectStep(ord: map<Op, nat>, fermi: bool, phase: int, u: seq<Op>, cre: seq<Op>, k: nat, own: seq<Op>, later: seq<Op>)
    requires Numbers(ord, u) && k < |u| && Arrangement(ord, fermi, phase, u, cre + u[k..] + (own + later))
    ensures Arrangement(ord, fermi, if fermi && (|u| - k - 1 + |own|) % 2 == 1 then phase * -1 else phase, u,
                        cre + u[k + 1..] + (own + [u[k]] + later))
  {
    hide SignOfOrder, Numbers, Arrangement;
    Shuffle(cre, u, k, own, later);
    MoveArrangement(ord, fermi, phase, u, cre, u[k], u[k + 1..] + own, later);
  }

  lemma MoveArrangement(ord: map<Op, nat>, fermi: bool, phase: int, u: seq<Op>, a: seq<Op>, x: Op, b: seq<Op>, c: seq<Op>)
    requires Numbers(ord, u) && Arrangement(ord, fermi, phase, u, a + [x] + b + c)
    ensures Arrangement(ord, fermi, if fermi && |b| % 2 == 1 then phase * -1 else phase, u, a + b + [x] + c)
  {
    hide SignOfOrder, Numbers;
    CollectSign(ord, u, a, x, b, c);
  }

  lemma FlattenGroup(groups: seq<seq<Op>>, g: nat, grown: seq<Op>)
    requires g < |groups| && Flatten(groups[..g]) == []
    ensures Flatten(groups) == groups[g] + Flatten(groups[g + 1..])
    ensures Flatten(groups[g := grown]) == grown + Flatten(groups[g + 1..])
  {
    var after := groups[g := grown];
    FlattenAround(groups, g);
    FlattenAround(after, g);
    assert after[..g] == groups[..g] && after[g + 1..] == groups[g + 1..];
  }

  lemma Shuffle(cre: seq<Op>, u: seq<Op>, k: nat, own: seq<Op>, later: seq<Op>)
    requires k < |u|
    ensures cre + u[k..] + (own + later) == cre + [u[k]] + (u[k + 1..] + own) + later
    ensures cre + u[k + 1..] + ((own + [u[k]]) + later) == cre + (u[k + 1..] + own) + [u[k]] + later
  {
    assert u[k..] == [u[k]] + u[k + 1..];
  }

  /** No later normal operator has been reached. */
  lemma LaterGroupsEmpty(nest: seq<seq<Op>>, r: nat, e: nat, k: nat, groups: seq<seq<Op>>)
    requires IsPosition(nest, r, e, k) && GroupsAt(nest, k, groups)
    ensures Flatten(groups[..|nest| - 1 - r]) == []
  {
    var g := |nest| - 1 - r;
    forall f | 0 <= f < g ensures groups[..g][f] == [] {
      TakenStep(nest, r, e, k, |nest| - 1 - f);
      assert groups[|nest| - 1 - (|nest| - 1 - f)] == [];
    }
    FlattenEmpty(groups[..g]);
  }

  // ---- Normal ordering rearranges the operators ----

  lemma {:induction false} SplitMembers(u: seq<Op>)
    ensures multiset(Creators(u)) + multiset(Annihilators(u)) == multiset(u)
  {
    hide Creators, Annihilators;
    if u == [] {
      NothingSplit();
    } else {
      var v, x := Init(u), Last(u);
      SplitMembers(v);
      CreatorsSnoc(v, x);
      assert u == v + [x];
      var c, a := Creators(v), Annihilators(v);
      assert multiset(u) == multiset(v) + multiset{x};
      if x.action == Create {
        assert Creators(u) == c + [x] && Annihilators(u) == a + [] == a;
      } else {
        assert Creators(u) == c + [] == c && Annihilators(u) == a + [x];
      }
    }
  }

  lemma NothingSplit()
    ensures Creators([]) == [] && Annihilators([]) == []
  {
  }

  lemma {:induction false} CreatorsConcat(a: seq<Op>, b: seq<Op>)
    ensures Creators(a + b) == Creators(a) + Creators(b)
    ensures Annihilators(a + b) == Annihilators(a) + Annihilators(b)
  {
    hide Creators, Annihilators;
    if b == [] {
      NothingSplit();
      assert a + b == a;
    } else {
      var v, x := Init(b), Last(b);
      CreatorsConcat(a, v);
      CreatorsSnoc(a + v, x);
      CreatorsSnoc(v, x);
      assert a + b == (a + v) + [x] && b == v + [x];
    }
  }

  /** The groups hold the annihilators. */
  lemma {:induction false} GroupMembers(nest: seq<seq<Op>>)
    ensures multiset(Flatten(Groups(nest))) == multiset(Annihilators(Flatten(nest)))
  {
    if nest != [] {
      hide Annihilators, Creators, Groups, Flatten;
      GroupMembers(Init(nest));
      LastGroupFirst(nest);
      CreatorsConcat(Flatten(Init(nest)), Last(nest));
    }
  }

  lemma LastGroupFirst(nest: seq<seq<Op>>)
    requires nest != []
    ensures Flatten(nest) == Flatten(Init(nest)) + Last(nest)
    ensures Flatten(Groups(nest)) == Annihilators(Last(nest)) + Flatten(Groups(Init(nest)))
  {
    hide Annihilators;
    var groups := Groups(nest);
    assert groups[0] == Annihilators(Last(nest)) && groups[1..] == Groups(Init(nest));
    FlattenFirst(groups);
  }

  lemma {:induction false} ReversedMembers<T>(s: seq<T>)
    ensures multiset(Reversed(s)) == multiset(s)
  {
    if s != [] {
      ReversedMembers(s[1..]);
      assert s == [s[0]] + s[1..];
    }
  }

  lemma {:induction false} AlignMembers(fixed: seq<Op>, moved: seq<Op>, pairs: seq<(nat, nat)>, n: nat, extra: nat)
    requires n <= |fixed| && n + extra <= |moved|
    ensures multiset(Align(fixed, moved, pairs, n, extra)) == multiset(moved)
    decreases n
  {
    hide AlignColumn;
    if n > 0 {
      AlignColumnMembers(fixed, moved, pairs, n - 1, extra);
      AlignMembers(fixed, AlignColumn(fixed, moved, pairs, n - 1, extra), pairs, n - 1, extra);
    }
  }

  lemma AlignColumnMembers(fixed: seq<Op>, moved: seq<Op>, pairs: seq<(nat, nat)>, k: nat, extra: nat)
    requires k < |fixed| && k + extra < |moved|
    ensures multiset(AlignColumn(fixed, moved, pairs, k, extra)) == multiset(moved)
  {
    hide FindPair, FindOp, Swap;
    var c := FindPair(pairs, fixed[k].id);
    if c < |pairs| {
      var s := FindOp(moved, pairs[c].1);
      if s < |moved| { SwapMembers(moved, s, k + extra); }
    }
  }

  lemma NormalOrderedMembers(nest: seq<seq<Op>>, pairs: seq<(nat, nat)>)
    ensures var (cre, ann) := NormalOrdered(nest, pairs);
            multiset(Storage(cre, ann)) == multiset(Flatten(nest))
  {
    hide Flatten, Creators, Annihilators, Groups, Align, Reversed, Flipped;
    var u := Flatten(nest);
    SplitMembers(u);
    GroupMembers(nest);
    var cre, ann := Creators(u), Reversed(Flatten(Groups(nest)));
    ReversedMembers(Flatten(Groups(nest)));
    if |cre| <= |ann| {
      AlignMembers(cre, ann, pairs, |cre|, |ann| - |cre|);
    } else {
      AlignMembers(ann, cre, Flipped(pairs), |ann|, |cre| - |ann|);
    }
    ReversedMembers(NormalOrdered(nest, pairs).1);
  }
}
