/**
 Without topological pruning the search emits every admissible set of
 contractions exactly once: the contraction theorem, with required and
 avoided connections.
 */
module WickMatchings {
  import opened Sequences
  import opened WickProblem
  import opened WickSearch

  // ---- Admissible sets of contractions, independent of any order ----

  ghost function Pairs(s: seq<Pair>): set<Pair> {
    set e | e in s
  }

  ghost predicate Touches(e: Pair, o: nat) {
    e.0 == o || e.1 == o
  }

  ghost predicate Covers(m: set<Pair>, o: nat) {
    exists e :: e in m && Touches(e, o)
  }

  ghost predicate Apart(e: Pair, f: Pair) {
    e.0 != f.0 && e.0 != f.1 && e.1 != f.0 && e.1 != f.1
  }

  /** Contractions that are each allowed, share no operator and, for full contractions, use every operator. */
  ghost predicate Admissible(p: Problem, m: set<Pair>) {
    && (forall e :: e in m ==> PairOk(p, e))
    && (forall e, f :: e in m && f in m && e != f ==> Apart(e, f))
    && (p.full ==> forall o: nat :: o < p.N() ==> Covers(m, o))
  }

  ghost predicate Joined(p: Problem, m: set<Pair>, x: nat, y: nat) {
    exists e :: e in m && Links(p, e, x, y)
  }

  /** Normal operator x takes part in some contraction of m. */
  ghost predicate Active(p: Problem, m: set<Pair>, x: nat) {
    exists e :: e in m && e.0 < p.N() && e.1 < p.N() && (p.Nop(e.0) == x || p.Nop(e.1) == x)
  }

  ghost function UnmetBy(p: Problem, m: set<Pair>, x: nat): set<nat> {
    set y | y in p.Required(x) && !Joined(p, m, x, y)
  }

  ghost function FreeBy(p: Problem, m: set<Pair>, x: nat): set<nat> {
    set o: nat | o < p.N() && p.Nop(o) == x && !Covers(m, o)
  }

  /**
   What required connections demand of an emitted set: each contracted normal
   operator could still make its missing connections with its free operators.
   */
  ghost predicate Connectable(p: Problem, m: set<Pair>) {
    p.Targets() != [] ==>
      forall x :: Active(p, m, x) ==> |UnmetBy(p, m, x)| <= |FreeBy(p, m, x)|
  }

  // ---- Lists and sets ----

  lemma {:induction false} EndsCovered(s: seq<Pair>)
    ensures forall o: nat :: o in Ends(s) <==> Covers(Pairs(s), o)
  {
    if s != [] {
      EndsCovered(Init(s));
      forall o: nat ensures o in Ends(s) <==> Covers(Pairs(s), o) {
        if o in Ends(s) {
          if o in Ends(Init(s)) {
            var e :| e in Pairs(Init(s)) && Touches(e, o);
            assert e in Pairs(s);
          } else {
            assert Last(s) in Pairs(s) && Touches(Last(s), o);
          }
        }
        if Covers(Pairs(s), o) {
          var e :| e in Pairs(s) && Touches(e, o);
          assert e == Last(s) || e in Pairs(Init(s)) by { InitMembers(s, e); }
        }
      }
    }
  }

  lemma InitMembers(s: seq<Pair>, e: Pair)
    requires s != []
    ensures e in s <==> e in Init(s) || e == Last(s)
  {
    assert s == Init(s) + [Last(s)];
  }

  lemma ListView(p: Problem, s: seq<Pair>, x: nat)
    ensures Unmet(p, s, x) == UnmetBy(p, Pairs(s), x)
    ensures Free(p, s, x) == FreeBy(p, Pairs(s), x)
  {
    EndsCovered(s);
    forall y: nat ensures Connected(p, s, x, y) <==> Joined(p, Pairs(s), x, y) {
      if Connected(p, s, x, y) {
        var k :| 0 <= k < |s| && Links(p, s[k], x, y);
        assert s[k] in Pairs(s);
      }
    }
  }

  /** A list of contractions that share no operator, ordered by left operator. */
  ghost predicate Ordered(p: Problem, s: seq<Pair>) {
    && (forall k :: 0 <= k < |s| ==> PairOk(p, s[k]))
    && (forall i, j :: 0 <= i < j < |s| ==> s[i].0 < s[j].0 && Apart(s[i], s[j]))
  }

  lemma {:induction false} RunIsOrdered(p: Problem, s: seq<Pair>)
    requires WellFormed(p) && IsRun(p, s)
    ensures Ordered(p, s)
  {
    LeftsIncrease(p, s);
    forall k | 0 <= k < |s| ensures PairOk(p, s[k]) { RunStep(p, s, k); }
    forall i, j | 0 <= i < j < |s| ensures Apart(s[i], s[j]) {
      RunStep(p, s, j);
      EndsMono(s[..j], i);
      assert s[..j][i] == s[i];
    }
  }

  lemma {:induction false} OrderedUnique(p: Problem, s: seq<Pair>, t: seq<Pair>)
    requires Ordered(p, s) && Ordered(p, t) && Pairs(s) == Pairs(t)
    ensures s == t
  {
    hide PairOk, Apart;
    assert s == [] || s[0] in Pairs(s);
    assert t == [] || t[0] in Pairs(t);
    if s != [] {
      var k :| 0 <= k < |t| && t[k] == s[0];
      assert t[0] in Pairs(s);
      var l :| 0 <= l < |s| && s[l] == t[0];
      assert k == 0 && l == 0;
      forall e: Pair ensures e in Pairs(s[1..]) <==> e in Pairs(t[1..]) {
        TailMembers(p, s, e);
        TailMembers(p, t, e);
        assert e in Pairs(s) <==> e in Pairs(t);
      }
      OrderedUnique(p, s[1..], t[1..]);
    }
  }

  lemma TailMembers(p: Problem, s: seq<Pair>, e: Pair)
    requires Ordered(p, s) && s != []
    ensures e in s[1..] <==> e in s && e != s[0]
  {
    assert s == [s[0]] + s[1..];
  }

  /** Every admissible set is the set of an ordered list. */
  lemma {:induction false} OrderedList(p: Problem, m: set<Pair>) returns (s: seq<Pair>)
    requires forall e :: e in m ==> PairOk(p, e)
    requires forall e, f :: e in m && f in m && e != f ==> Apart(e, f)
    ensures Ordered(p, s) && Pairs(s) == m
    decreases |m|
  {
    hide PairOk;
    if m == {} {
      s := [];
    } else {
      var e := LastLeft(m);
      LeftsBelow(p, m, e);
      s := OrderedList(p, m - {e});
      OrderedSnoc(p, s, e);
      s := s + [e];
    }
  }

  lemma OrderedSnoc(p: Problem, s: seq<Pair>, e: Pair)
    requires Ordered(p, s) && PairOk(p, e)
    requires forall f :: f in Pairs(s) ==> f.0 < e.0 && Apart(f, e)
    ensures Ordered(p, s + [e]) && Pairs(s + [e]) == Pairs(s) + {e}
  {
    hide PairOk;
    assert forall i :: 0 <= i < |s| ==> s[i] in Pairs(s);
    assert (s + [e])[|s|] == e;
  }

  lemma LeftsBelow(p: Problem, m: set<Pair>, e: Pair)
    requires e in m && forall f :: f in m ==> f.0 <= e.0
    requires forall e, f :: e in m && f in m && e != f ==> Apart(e, f)
    ensures forall f :: f in m - {e} ==> f.0 < e.0 && Apart(f, e)
  {
  }

  lemma {:induction false} LastLeft(m: set<Pair>) returns (e: Pair)
    requires m != {}
    ensures e in m && forall f :: f in m ==> f.0 <= e.0
    decreases |m|
  {
    e :| e in m;
    if m != {e} {
      var d := LastLeft(m - {e});
      if e.0 < d.0 { e := d; }
    }
  }

  // ---- Connections still possible never grow ----

  lemma ConnectedSnoc(p: Problem, s: seq<Pair>, e: Pair, x: nat, y: nat)
    ensures Connected(p, s + [e], x, y) <==> Connected(p, s, x, y) || Links(p, e, x, y)
  {
    hide Links;
    var t := s + [e];
    if Connected(p, s, x, y) {
      var k :| 0 <= k < |s| && Links(p, s[k], x, y);
      assert t[k] == s[k];
    }
    if Links(p, e, x, y) { assert t[|s|] == e; }
  }

  lemma UnmetSnoc(p: Problem, s: seq<Pair>, e: Pair, x: nat)
    requires e.0 < p.N() && e.1 < p.N()
    ensures p.Nop(e.0) != x && p.Nop(e.1) != x ==> Unmet(p, s + [e], x) == Unmet(p, s, x)
    ensures p.Nop(e.0) == x ==> Unmet(p, s, x) <= Unmet(p, s + [e], x) + {p.Nop(e.1)}
    ensures p.Nop(e.1) == x ==> Unmet(p, s, x) <= Unmet(p, s + [e], x) + {p.Nop(e.0)}
  {
    forall y: nat ensures Connected(p, s + [e], x, y) <==> Connected(p, s, x, y) || Links(p, e, x, y) {
      ConnectedSnoc(p, s, e, x, y);
    }
    hide Connected;
  }

  lemma FreeSnoc(p: Problem, s: seq<Pair>, e: Pair, x: nat)
    requires PairOk(p, e) && e.0 !in Ends(s) && e.1 !in Ends(s)
    ensures p.Nop(e.0) != x && p.Nop(e.1) != x ==> Free(p, s + [e], x) == Free(p, s, x)
    ensures p.Nop(e.0) == x ==> |Free(p, s, x)| == |Free(p, s + [e], x)| + 1
    ensures p.Nop(e.1) == x ==> |Free(p, s, x)| == |Free(p, s + [e], x)| + 1
  {
    EndsSnoc(s, e);
    hide Ends;
    if p.Nop(e.0) == x {
      assert Free(p, s, x) == Free(p, s + [e], x) + {e.0};
    } else if p.Nop(e.1) == x {
      assert Free(p, s, x) == Free(p, s + [e], x) + {e.1};
    }
  }

  /** One more contraction never raises the operators to spare of any normal operator. */
  lemma SlackSnoc(p: Problem, s: seq<Pair>, e: Pair, x: nat)
    requires PairOk(p, e) && e.0 !in Ends(s) && e.1 !in Ends(s)
    ensures |Free(p, s + [e], x)| - |Unmet(p, s + [e], x)| <= |Free(p, s, x)| - |Unmet(p, s, x)|
    ensures p.Nop(e.0) != x && p.Nop(e.1) != x ==>
              Free(p, s + [e], x) == Free(p, s, x) && Unmet(p, s + [e], x) == Unmet(p, s, x)
  {
    hide Free, Unmet, Ends;
    FreeSnoc(p, s, e, x);
    UnmetSnoc(p, s, e, x);
    if p.Nop(e.0) == x {
      SubsetSize(Unmet(p, s, x), Unmet(p, s + [e], x) + {p.Nop(e.1)});
    } else if p.Nop(e.1) == x {
      SubsetSize(Unmet(p, s, x), Unmet(p, s + [e], x) + {p.Nop(e.0)});
    }
  }

  lemma {:induction false} PrefixFeasible(p: Problem, s: seq<Pair>, k: nat, x: nat)
    requires Ordered(p, s) && k <= |s| && NopFeasible(p, s, x)
    ensures NopFeasible(p, s[..k], x)
    decreases |s|
  {
    hide PairOk, Free, Unmet, Ends, Ordered;
    if k == |s| {
      assert s[..k] == s;
    } else {
      OrderedInit(p, s);
      SlackSnoc(p, Init(s), Last(s), x);
      PrefixFeasible(p, Init(s), k, x);
      assert Init(s)[..k] == s[..k];
    }
  }

  lemma OrderedInit(p: Problem, s: seq<Pair>)
    requires Ordered(p, s) && s != []
    ensures Ordered(p, Init(s)) && s == Init(s) + [Last(s)] && PairOk(p, Last(s))
    ensures Last(s).0 !in Ends(Init(s)) && Last(s).1 !in Ends(Init(s))
  {
    hide PairOk, Ends;
    OrderedFresh(p, s, |s| - 1);
    assert s[..|s| - 1] == Init(s);
  }

  lemma OrderedFresh(p: Problem, s: seq<Pair>, k: nat)
    requires Ordered(p, s) && k < |s|
    ensures s[k].0 !in Ends(s[..k]) && s[k].1 !in Ends(s[..k])
  {
    EndsCovered(s[..k]);
  }

  // ---- Runs are exactly the ordered lists of admissible sets ----

  lemma {:induction false} RunConnectable(p: Problem, s: seq<Pair>, x: nat)
    requires WellFormed(p) && IsRun(p, s) && p.Targets() != [] && Active(p, Pairs(s), x)
    ensures NopFeasible(p, s, x)
  {
    hide WellFormed, TopologicallyUnique;
    assert s != [] by { var e :| e in Pairs(s); }
    var u, e := Init(s), Last(s);
    assert u + [e] == s;
    hide IsRun, CanExtend, ConnectOk;
    if p.Nop(e.0) != x && p.Nop(e.1) != x {
      ActiveBefore(p, u, e, x);
      RunConnectable(p, u, x);
      SlackSnoc(p, u, e, x);
    }
  }

  lemma ActiveBefore(p: Problem, u: seq<Pair>, e: Pair, x: nat)
    requires Active(p, Pairs(u + [e]), x)
    requires e.0 < p.N() && e.1 < p.N() && p.Nop(e.0) != x && p.Nop(e.1) != x
    ensures Active(p, Pairs(u), x)
  {
    var s := u + [e];
    var f :| f in Pairs(s) && f.0 < p.N() && f.1 < p.N() && (p.Nop(f.0) == x || p.Nop(f.1) == x);
    InitMembers(s, f);
    assert Init(s) == u;
  }

  lemma RunIsAdmissible(p: Problem, s: seq<Pair>)
    requires WellFormed(p) && IsRun(p, s) && Complete(p, s)
    ensures Admissible(p, Pairs(s)) && Connectable(p, Pairs(s))
  {
    hide WellFormed, IsRun, PairOk;
    RunIsOrdered(p, s);
    EndsCovered(s);
    forall e, f | e in Pairs(s) && f in Pairs(s) && e != f ensures Apart(e, f) {
      var i :| 0 <= i < |s| && s[i] == e;
      var j :| 0 <= j < |s| && s[j] == f;
      assert i < j || j < i;
    }
    if p.Targets() != [] {
      forall x | Active(p, Pairs(s), x) ensures |UnmetBy(p, Pairs(s), x)| <= |FreeBy(p, Pairs(s), x)| {
        RunConnectable(p, s, x);
        ListView(p, s, x);
      }
    }
  }

  lemma {:induction false} AdmissibleIsRun(p: Problem, s: seq<Pair>, k: nat)
    requires WellFormed(p) && !p.topology
    requires Ordered(p, s) && Admissible(p, Pairs(s)) && Connectable(p, Pairs(s)) && k <= |s|
    ensures IsRun(p, s[..k])
  {
    hide WellFormed, CanExtend, Ordered, Admissible, Connectable;
    if k > 0 {
      AdmissibleIsRun(p, s, k - 1);
      AdmissibleExtends(p, s, k - 1);
      assert s[..k] == s[..k - 1] + [s[k - 1]];
      RunSnoc(p, s[..k - 1], s[k - 1]);
    }
  }

  lemma AdmissibleExtends(p: Problem, s: seq<Pair>, k: nat)
    requires WellFormed(p) && !p.topology
    requires Ordered(p, s) && Admissible(p, Pairs(s)) && Connectable(p, Pairs(s)) && k < |s|
    ensures CanExtend(p, s[..k], s[k])
  {
    hide WellFormed, NopFeasible, Connectable, Admissible, Ends;
    var u, e := s[..k], s[k];
    OrderedFresh(p, s, k);
    EarlierTaken(p, s, k);
    if p.Targets() != [] {
      AdmissibleFeasible(p, s, k, p.Nop(e.0));
      AdmissibleFeasible(p, s, k, p.Nop(e.1));
    }
  }

  /** In a full contraction what precedes the next left operator is contracted already. */
  lemma EarlierTaken(p: Problem, s: seq<Pair>, k: nat)
    requires Ordered(p, s) && Admissible(p, Pairs(s)) && k < |s|
    ensures PairOk(p, s[k]) && (k > 0 ==> Last(s[..k]).0 < s[k].0)
    ensures p.full ==> forall o: nat :: o < s[k].0 ==> o in Ends(s[..k])
  {
    hide Ends;
    assert s[k] in Pairs(s);
    if p.full {
      forall o: nat | o < s[k].0 ensures o in Ends(s[..k]) {
        assert Covers(Pairs(s), o);
        var f :| f in Pairs(s) && Touches(f, o);
        var j :| 0 <= j < |s| && s[j] == f;
        assert j < k;
        EndsMono(s[..k], j);
        assert s[..k][j] == f;
      }
    }
  }

  lemma AdmissibleFeasible(p: Problem, s: seq<Pair>, k: nat, x: nat)
    requires Ordered(p, s) && Connectable(p, Pairs(s)) && k < |s| && p.Targets() != []
    requires PairOk(p, s[k]) && (p.Nop(s[k].0) == x || p.Nop(s[k].1) == x)
    ensures NopFeasible(p, s[..k] + [s[k]], x)
  {
    hide Ordered;
    assert s[k] in Pairs(s);
    assert Active(p, Pairs(s), x);
    ListView(p, s, x);
    PrefixFeasible(p, s, k + 1, x);
    assert s[..k + 1] == s[..k] + [s[k]];
  }

  /**
   The contraction theorem: the emitted lists are exactly the admissible sets
   whose connections can be completed, each emitted once (the empty one only
   if no connection is required).
   */
  lemma EmittedOncePerAdmissibleSet(p: Problem)
    requires WellFormed(p) && !p.topology && (p.full ==> p.N() > 0)
    ensures forall t :: t in Emitted(p) ==> Admissible(p, Pairs(t)) && Connectable(p, Pairs(t))
    ensures forall m :: Admissible(p, m) && Connectable(p, m) && (m == {} ==> p.Unconstrained()) ==>
              exists t :: t in Emitted(p) && Pairs(t) == m
    ensures forall i, j :: 0 <= i < j < |Emitted(p)| ==> Pairs(Emitted(p)[i]) != Pairs(Emitted(p)[j])
  {
    hide WellFormed, IsRun, Complete, Admissible, Connectable, Emitted;
    EmittedAreRuns(p);
    forall t | t in Emitted(p) ensures Admissible(p, Pairs(t)) && Connectable(p, Pairs(t)) {
      RunIsAdmissible(p, t);
    }
    forall m | Admissible(p, m) && Connectable(p, m) && (m == {} ==> p.Unconstrained())
      ensures exists t :: t in Emitted(p) && Pairs(t) == m
    {
      var t := AdmissibleList(p, m);
      assert t in Emitted(p);
    }
    forall i, j | 0 <= i < j < |Emitted(p)| ensures Pairs(Emitted(p)[i]) != Pairs(Emitted(p)[j]) {
      var s, t := Emitted(p)[i], Emitted(p)[j];
      RunIsOrdered(p, s);
      RunIsOrdered(p, t);
      if Pairs(s) == Pairs(t) { OrderedUnique(p, s, t); }
    }
  }

  lemma AdmissibleList(p: Problem, m: set<Pair>) returns (t: seq<Pair>)
    requires WellFormed(p) && !p.topology
    requires Admissible(p, m) && Connectable(p, m)
    ensures IsRun(p, t) && Complete(p, t) && Pairs(t) == m && (t == [] <==> m == {})
  {
    t := OrderedList(p, m);
    AdmissibleIsRun(p, t, |t|);
    assert t[..|t|] == t;
    EndsCovered(t);
    if t != [] { assert t[0] in Pairs(t); }
  }

  // ---- Required connections ----

  /** Normal operator x has operators. */
  ghost predicate Inhabited(p: Problem, x: nat) {
    exists o: nat :: o < p.N() && p.Nop(o) == x
  }

  /**
   For full contractions the pruning is exact: the surviving sets are those
   that join every required pair, except pairs of two operator-free normal
   operators, which nothing can join and the search never looks at.
   */
  lemma FullRequirements(p: Problem, m: set<Pair>)
    requires WellFormed(p) && p.full && Admissible(p, m)
    ensures Connectable(p, m) <==>
            forall x, y :: y in p.Required(x) && (Inhabited(p, x) || Inhabited(p, y)) ==> Joined(p, m, x, y)
  {
    hide WellFormed;
    FullLeavesNone(p, m);
    hide Admissible, FreeBy, Active, Inhabited;
    if Connectable(p, m) {
      forall x, y | y in p.Required(x) && (Inhabited(p, x) || Inhabited(p, y)) ensures Joined(p, m, x, y) {
        RequiredSymmetric(p, x, y);
        var z, w := if Inhabited(p, x) then x else y, if Inhabited(p, x) then y else x;
        assert w !in UnmetBy(p, m, z);
        var e :| e in m && Links(p, e, z, w);
        assert Links(p, e, x, y);
      }
    }
  }

  lemma RequiredSymmetric(p: Problem, x: nat, y: nat)
    requires WellFormed(p) && y in p.Required(x)
    ensures x in p.Required(y)
  {
    hide PartitionsCover, SameOp;
    assert ReverseMask(p.required, p.nnops);
    MaskSymmetric(p.required, p.nnops, x, y);
  }

  lemma MaskSymmetric(mask: seq<set<nat>>, n: nat, x: nat, y: nat)
    requires ReverseMask(mask, n) && x < |mask| && y in Flip(mask[x])
    ensures y < |mask| && x in Flip(mask[y])
  {
  }

  lemma FullLeavesNone(p: Problem, m: set<Pair>)
    requires p.full && Admissible(p, m)
    ensures forall x :: FreeBy(p, m, x) == {}
    ensures forall x :: Active(p, m, x) <==> Inhabited(p, x)
  {
    forall x ensures Active(p, m, x) <==> Inhabited(p, x) {
      if Inhabited(p, x) {
        var o: nat :| o < p.N() && p.Nop(o) == x;
        assert Covers(m, o);
        var e :| e in m && Touches(e, o);
        assert PairOk(p, e);
      }
    }
  }

  /** Two normal operators with one operator each, and two empty ones that must be connected. */
  function EmptyPairProblem(): Problem {
    var ops := [Op(0, Annihilate, 0), Op(1, Create, 1)];
    Problem(ops, 4, true, false, true, {ops[0]}, {(ops[0], ops[1])}, true, 1,
            [Flip({}), Flip({}), Flip({3}), Flip({2})], [], [[0], [1]], [0, 1])
  }

  lemma EmptyPairMasks()
    ensures var p := EmptyPairProblem();
            && p.Required(0) == {} && p.Required(1) == {} && p.Required(2) == {3} && p.Required(3) == {2}
            && ReverseMask(p.required, 4) && ReverseMask(p.avoided, 4)
  {
    var p := EmptyPairProblem();
    FlipTwice({});
    FlipTwice({2});
    FlipTwice({3});
    hide Flip;
    forall x, y | 0 <= x < 4 && y in Flip(p.required[x]) ensures y < 4 && x in Flip(p.required[y]) {
      assert x == 0 || x == 1 || x == 2 || x == 3;
    }
  }

  lemma EmptyPairPartitions()
    ensures var p := EmptyPairProblem(); PartitionsCover(p.partitions, p.partitionOf, 2)
  {
    hide Flip;
  }

  lemma EmptyPairWellFormed()
    ensures WellFormed(EmptyPairProblem())
  {
    hide Flip, ReverseMask;
    EmptyPairMasks();
    EmptyPairPartitions();
  }

  lemma EmptyPairAccepted()
    ensures WellFormed(EmptyPairProblem()) && CanExtend(EmptyPairProblem(), [], (0, 1)) && Complete(EmptyPairProblem(), [(0, 1)])
  {
    EmptyPairWellFormed();
    EmptyPairMasks();
    hide WellFormed, Flip, ReverseMask;
    var p, t: seq<Pair> := EmptyPairProblem(), [(0, 1)];
    assert Init(t) == [] && [] + [(0, 1)] == t;
    assert Unmet(p, t, 0) == {} && Unmet(p, t, 1) == {};
  }

  /** A full contraction is reported although two empty normal operators, which nothing can connect, were to be connected. */
  lemma EmptyPairSurvives()
    ensures var p := EmptyPairProblem();
            && WellFormed(p) && p.full && 3 in p.Required(2) && [(0, 1)] in Emitted(p)
            && !Inhabited(p, 2) && !Inhabited(p, 3) && !Joined(p, Pairs([(0, 1)]), 2, 3)
  {
    hide WellFormed, CanExtend, Emitted, Complete, IsRun, Flip;
    var p, t: seq<Pair> := EmptyPairProblem(), [(0, 1)];
    EmptyPairAccepted();
    EmptyPairMasks();
    RunSnoc(p, [], (0, 1));
    assert IsRun(p, []) by { StartIsRun(p); }
    assert [] + [(0, 1)] == t;
    EmittedAreRuns(p);
  }

  lemma StartIsRun(p: Problem)
    requires WellFormed(p)
    ensures IsRun(p, [])
  {
  }

  /** Three normal operators {0 1} {2} {3}, of which 0 and 2 must be connected. */
  function LooseProblem(): Problem {
    var ops := [Op(0, Annihilate, 0), Op(1, Annihilate, 0), Op(2, Create, 1), Op(3, Create, 2)];
    Problem(ops, 3, false, false, true, {ops[0], ops[1]}, {(ops[0], ops[2])}, true, 1,
            [Flip({2}), Flip({}), Flip({0})], [], [[0], [1], [2], [3]], [0, 1, 2, 3])
  }

  lemma FlipTwice(m: set<nat>)
    requires forall y :: y in m ==> y < MAX_INPUT_SIZE
    ensures Flip(Flip(m)) == m
  {
  }

  lemma LooseMasks()
    ensures var p := LooseProblem();
            p.Required(0) == {2} && p.Required(1) == {} && p.Required(2) == {0} && ReverseMask(p.required, 3)
    ensures ReverseMask(LooseProblem().avoided, 3)
  {
    hide Flip;
    var p := LooseProblem();
    FlipTwice({2});
    FlipTwice({});
    FlipTwice({0});
    forall x, y | 0 <= x < 3 && y in Flip(p.required[x]) ensures y < 3 && x in Flip(p.required[y]) {
      assert x == 0 || x == 1 || x == 2;
    }
  }

  lemma LooseProblemWellFormed()
    ensures WellFormed(LooseProblem())
    ensures var p := LooseProblem(); p.Required(0) == {2} && p.Required(1) == {} && p.Required(2) == {0}
  {
    hide Flip, ReverseMask, PartitionsCover;
    LooseMasks();
    LoosePartitions();
  }

  lemma LoosePartitions()
    ensures var p := LooseProblem(); PartitionsCover(p.partitions, p.partitionOf, 4)
  {
    hide Flip;
  }

  lemma LooseContractionAccepted()
    ensures WellFormed(LooseProblem()) && CanExtend(LooseProblem(), [], (0, 2))
  {
    hide WellFormed;
    LooseProblemWellFormed();
    var p := LooseProblem();
    var t: seq<Pair> := [(0, 2)];
    assert Init(t) == [] && [] + [(0, 2)] == t;
    assert Unmet(p, t, 0) <= {2};
    SubsetSize(Unmet(p, t, 0), {2});
    assert 1 in Free(p, t, 0);
    assert Free(p, t, 0) != {};
    assert Unmet(p, t, 1) == {};
  }

  /** For partial contractions a term may be emitted while a required pair is not connected. */
  lemma PartialTermMayMissRequiredPair()
    ensures var p := LooseProblem();
            && WellFormed(p) && !p.full && 2 in p.Required(0)
            && [(0, 2)] in Emitted(p) && !Joined(p, Pairs([(0, 2)]), 0, 2)
  {
    LooseContractionAccepted();
    LooseProblemWellFormed();
    var p, t: seq<Pair> := LooseProblem(), [(0, 2)];
    assert !p.full && !Joined(p, Pairs(t), 0, 2);
    LooseRun(p, t);
  }

  lemma LooseRun(p: Problem, t: seq<Pair>)
    requires WellFormed(p) && !p.full && |t| == 1 && CanExtend(p, [], t[0])
    ensures t in Emitted(p)
  {
    hide WellFormed, CanExtend, Emitted;
    RunSnoc(p, [], t[0]);
    assert [] + [t[0]] == t;
    EmittedAreRuns(p);
  }

  /** Every required pair of normal operators is joined. */
  ghost predicate JoinsAll(p: Problem, m: set<Pair>) {
    forall x, y :: y in p.Required(x) ==> Joined(p, m, x, y)
  }

  lemma MoreJoins(p: Problem, m: set<Pair>, n: set<Pair>)
    requires m <= n && JoinsAll(p, m)
    ensures JoinsAll(p, n)
  {
    forall x, y | y in p.Required(x) ensures Joined(p, n, x, y) {
      assert Joined(p, m, x, y);
      var e :| e in m && Links(p, e, x, y);
      assert e in n;
    }
  }

  /**
   When partial contractions are wanted, all terms join all required pairs exactly if every contraction that may
   come first already does, and no pair is required if the term without contractions is wanted.
   */
  lemma PartialRequirements(p: Problem)
    requires WellFormed(p) && !p.full
    ensures (forall t :: t in Emitted(p) ==> JoinsAll(p, Pairs(t))) <==>
            (forall e :: CanExtend(p, [], e) ==> JoinsAll(p, {e})) && (p.Unconstrained() ==> JoinsAll(p, {}))
  {
    hide WellFormed, CanExtend, IsRun, JoinsAll, Emitted;
    EmittedAreRuns(p);
    assert IsRun(p, []) by { StartIsRun(p); }
    if forall t :: t in Emitted(p) ==> JoinsAll(p, Pairs(t)) {
      forall e | CanExtend(p, [], e) ensures JoinsAll(p, {e}) {
        LooseRun(p, [e]);
        assert Pairs([e]) == {e};
      }
      if p.Unconstrained() {
        assert [] in Emitted(p);
        assert Pairs([]) == {};
      }
    }
    if (forall e :: CanExtend(p, [], e) ==> JoinsAll(p, {e})) && (p.Unconstrained() ==> JoinsAll(p, {})) {
      forall t | t in Emitted(p) ensures JoinsAll(p, Pairs(t)) {
        if t == [] {
          assert Pairs(t) == {};
        } else {
          RunStep(p, t, 0);
          assert t[..0] == [] && t[0] in Pairs(t);
          MoreJoins(p, {t[0]}, Pairs(t));
        }
      }
    }
  }
}
