/**
 The search tree of recursive_nontensor_wick, and the proof that the list of
 contraction sets it emits is exactly the list of nonempty runs, each once.
 */
module WickSearch {
  import opened Sequences
  import opened WickProblem

  ghost predicate InRange(p: Problem, rem: seq<nat>) {
    forall k :: 0 <= k < |rem| ==> rem[k] < p.N()
  }

  // ---- The tree, in the order the nested loops walk it ----

  /** What one activation emits: rem are the remaining operators, off the first left one to try. */
  ghost function Search(p: Problem, s: seq<Pair>, rem: seq<nat>, off: nat): seq<seq<Pair>>
    requires WellFormed(p) && off <= |rem|
    requires InRange(p, rem)
    requires p.full ==> off == 0 && rem != []
    decreases |rem|, |rem| + 2
  {
    if p.full && p.ops[rem[off]] !in p.qpAnnihilators then []
    else LeftLoop(p, s, rem, off, if p.full then off + 1 else |rem|)
  }

  ghost function LeftLoop(p: Problem, s: seq<Pair>, rem: seq<nat>, i: nat, fence: nat): seq<seq<Pair>>
    requires WellFormed(p) && i <= fence <= |rem|
    requires InRange(p, rem)
    requires p.full ==> i == 0 || i == fence
    decreases |rem|, |rem| - i, |rem| + 1
  {
    if i == fence then []
    else if p.full then RightLoop(p, s, rem, i, i + 1)
    else RightLoop(p, s, rem, i, i + 1) + LeftLoop(p, s, rem, i + 1, fence)
  }

  ghost function RightLoop(p: Problem, s: seq<Pair>, rem: seq<nat>, i: nat, j: nat): seq<seq<Pair>>
    requires WellFormed(p) && i < j <= |rem|
    requires InRange(p, rem)
    requires p.full ==> i == 0
    decreases |rem|, |rem| - i, |rem| - j, 1
  {
    if j == |rem| then []
    else
      (if Accepts(p, s, rem[i], rem[j]) then Visit(p, s, rem, i, j) else [])
      + RightLoop(p, s, rem, i, j + 1)
  }

  /** The tests made before a contraction is carried out. */
  ghost predicate Accepts(p: Problem, s: seq<Pair>, l: nat, r: nat)
    requires WellFormed(p) && l < p.N() && r < p.N()
  {
    && p.Nop(l) != p.Nop(r)
    && (p.ops[l], p.ops[r]) in p.contractible
    && TopologicallyUnique(p, s, (l, r))
    && ConnectOk(p, s, (l, r))
  }

  /** Emission after the contraction, then the recursive call. */
  ghost function Visit(p: Problem, s: seq<Pair>, rem: seq<nat>, i: nat, j: nat): seq<seq<Pair>>
    requires WellFormed(p) && i < j < |rem|
    requires InRange(p, rem)
    requires p.full ==> i == 0
    decreases |rem|, |rem| - i, |rem| - j, 0
  {
    var s' := s + [(rem[i], rem[j])];
    var rem' := Erase(Erase(rem, j), i);
    assert InRange(p, rem');
    (if !p.full || rem' == [] then [s'] else [])
    + (if rem' != [] then Search(p, s', rem', i) else [])
  }

  // ---- The invariant between the contractions made and the loop bounds ----

  /** s is a run, rem what it leaves, and off the first remaining operator right of its last left one. */
  ghost predicate AtNode(p: Problem, s: seq<Pair>, rem: seq<nat>, off: nat)
    requires WellFormed(p)
  {
    && IsRun(p, s)
    && rem == Remaining(p, s)
    && off <= |rem|
    && (p.full ==> off == 0)
    && (forall k :: 0 <= k < |rem| ==> (k >= off <==> (s == [] || Last(s).0 < rem[k])))
  }

  /** For the operators at positions i < j, CanExtend is what the loops and Accepts test. */
  lemma ExtendIffAccepts(p: Problem, s: seq<Pair>, rem: seq<nat>, off: nat, i: nat, j: nat)
    requires WellFormed(p) && AtNode(p, s, rem, off)
    requires off <= i < j < |rem| && (p.full ==> i == 0)
    ensures rem[i] < rem[j] < p.N()
    ensures CanExtend(p, s, (rem[i], rem[j])) <==> Accepts(p, s, rem[i], rem[j])
  {
    hide WellFormed, IsRun, TopologicallyUnique, NopFeasible;
    RemainingBelowProps(s, p.N());
    assert rem[i] in rem && rem[j] in rem;
    FirstIsLeast(rem);
  }

  /** The invariant holds again for the recursive call. */
  lemma NodeStep(p: Problem, s: seq<Pair>, rem: seq<nat>, off: nat, i: nat, j: nat)
    requires WellFormed(p) && AtNode(p, s, rem, off)
    requires off <= i < j < |rem| && (p.full ==> i == 0)
    requires rem[i] < p.N() && rem[j] < p.N() && CanExtend(p, s, (rem[i], rem[j]))
    ensures AtNode(p, s + [(rem[i], rem[j])], Erase(Erase(rem, j), i), i)
  {
    hide WellFormed, IsRun, TopologicallyUnique, ConnectOk;
    var s' := s + [(rem[i], rem[j])];
    RemainingBelowProps(s, p.N());
    RemainingSnoc(p, s, i, j);
    RunSnoc(p, s, (rem[i], rem[j]));
    var rem' := Erase(Erase(rem, j), i);
    assert Last(s').0 == rem[i];
    forall k | 0 <= k < |rem'| ensures k >= i <==> rem[i] < rem'[k] {
      assert rem'[k] == rem[if k < i then k else if k + 1 < j then k + 1 else k + 2];
    }
  }

  lemma RemainingInRange(p: Problem, s: seq<Pair>)
    ensures InRange(p, Remaining(p, s))
    ensures Remaining(p, s) == [] <==> AllTaken(s, p.N())
  {
    var rem := Remaining(p, s);
    forall k | 0 <= k < |rem| ensures rem[k] < p.N() && rem[k] !in Ends(s) {
      IsRemaining(p, s, rem[k]);
    }
    if rem == [] {
      forall x: nat | x < p.N() ensures x in Ends(s) { IsRemaining(p, s, x); }
    } else {
      NotAllTaken(s, p.N(), rem[0]);
    }
  }

  lemma NotAllTaken(s: seq<Pair>, n: nat, x: nat)
    requires x < n && x !in Ends(s)
    ensures !AllTaken(s, n)
  {
  }

  lemma IsRemaining(p: Problem, s: seq<Pair>, x: nat)
    ensures x in Remaining(p, s) <==> x < p.N() && x !in Ends(s)
  {
    RemainingBelowProps(s, p.N());
  }

  lemma NoExtension(p: Problem, s: seq<Pair>, e: Pair)
    requires WellFormed(p) && CanExtend(p, s, e)
    ensures Remaining(p, s) != []
  {
    RemainingBelowProps(s, p.N());
    assert e.0 in Remaining(p, s);
  }

  // ---- Membership ----

  /** t is an emitted extension of s: a run, complete if only full contractions are wanted. */
  ghost predicate Emits(p: Problem, s: seq<Pair>, t: seq<Pair>)
    requires WellFormed(p)
  {
    IsRun(p, t) && Complete(p, t) && |s| < |t| && t[..|s|] == s
  }

  /** The next contraction of t pairs an operator of ls with one of rs. */
  ghost predicate NextIn(s: seq<Pair>, t: seq<Pair>, ls: seq<nat>, rs: seq<nat>) {
    |s| < |t| && t[|s|].0 in ls && t[|s|].1 in rs
  }

  lemma {:induction false} SearchMembers(p: Problem, s: seq<Pair>, rem: seq<nat>, off: nat, t: seq<Pair>)
    requires WellFormed(p) && AtNode(p, s, rem, off)
    requires InRange(p, rem)
    requires p.full ==> rem != []
    ensures t in Search(p, s, rem, off) <==> Emits(p, s, t)
    decreases |rem|, |rem| + 2
  {
    hide WellFormed, IsRun, CanExtend, TopologicallyUnique, ConnectOk, Complete;
    if Emits(p, s, t) {
      RunStep(p, t, |s|);
      NextIsRemaining(p, s, rem, off, t[|s|]);
    }
    if !(p.full && p.ops[rem[off]] !in p.qpAnnihilators) {
      var fence := if p.full then 1 else |rem|;
      LeftMembers(p, s, rem, off, off, fence, t);
      assert rem[off..fence] == if p.full then [rem[0]] else rem[off..];
    }
  }

  /** An extension pairs operators at positions off <= i < j, with i = off for full contractions. */
  lemma NextIsRemaining(p: Problem, s: seq<Pair>, rem: seq<nat>, off: nat, e: Pair)
    requires WellFormed(p) && AtNode(p, s, rem, off) && CanExtend(p, s, e)
    ensures e.0 in rem[off..] && (p.full ==> |rem| > 0 && e.0 == rem[0])
    ensures e.1 in rem
    ensures e.0 < p.N() && p.ops[e.0] in p.qpAnnihilators
    ensures forall i :: 0 <= i < |rem| && rem[i] == e.0 ==> e.1 in rem[i + 1..]
  {
    hide IsRun, WellFormed, CanExtend, Remaining;
    ExtensionIsLater(p, s, e);
    RemainingBelowProps(s, p.N());
    LaterPosition(rem, e.0, e.1);
    var i :| 0 <= i < |rem| && rem[i] == e.0;
    assert i >= off;
    assert rem[off..][i - off] == e.0;
    if p.full { FirstIsNext(p, s, e); }
  }

  lemma ExtensionIsLater(p: Problem, s: seq<Pair>, e: Pair)
    requires WellFormed(p) && CanExtend(p, s, e)
    ensures e.0 < e.1 && e.0 < p.N() && p.ops[e.0] in p.qpAnnihilators && (s != [] ==> Last(s).0 < e.0)
    ensures e.0 in Remaining(p, s) && e.1 in Remaining(p, s) && Increasing(Remaining(p, s))
  {
    IsRemaining(p, s, e.0);
    IsRemaining(p, s, e.1);
    RemainingBelowProps(s, p.N());
  }

  lemma FirstIsNext(p: Problem, s: seq<Pair>, e: Pair)
    requires WellFormed(p) && CanExtend(p, s, e) && p.full
    ensures Remaining(p, s) != [] && Remaining(p, s)[0] == e.0
  {
    hide WellFormed, TopologicallyUnique, ConnectOk;
    var rem := Remaining(p, s);
    ExtensionIsLater(p, s, e);
    IsRemaining(p, s, rem[0]);
  }

  lemma LaterPosition(rem: seq<nat>, a: nat, b: nat)
    requires Increasing(rem) && b in rem && a < b
    ensures forall i :: 0 <= i < |rem| && rem[i] == a ==> b in rem[i + 1..]
  {
    var j :| 0 <= j < |rem| && rem[j] == b;
    forall i | 0 <= i < |rem| && rem[i] == a ensures b in rem[i + 1..] { assert rem[i + 1..][j - i - 1] == b; }
  }

  lemma {:induction false} LeftMembers(p: Problem, s: seq<Pair>, rem: seq<nat>, off: nat, i: nat, fence: nat, t: seq<Pair>)
    requires WellFormed(p) && AtNode(p, s, rem, off)
    requires InRange(p, rem)
    requires off <= i <= fence <= |rem| && (p.full ==> i == 0 || i == fence) && (p.full ==> fence == 1)
    ensures t in LeftLoop(p, s, rem, i, fence) <==>
            Emits(p, s, t) && NextIn(s, t, rem[i..fence], rem)
    decreases |rem|, |rem| - i, |rem| + 1
  {
    hide WellFormed, IsRun, CanExtend, TopologicallyUnique, ConnectOk, Complete;
    if i < fence {
      RightMembers(p, s, rem, off, i, i + 1, t);
      assert rem[i..fence] == [rem[i]] + rem[i + 1..fence];
      if !p.full {
        LeftMembers(p, s, rem, off, i + 1, fence, t);
      }
      if Emits(p, s, t) {
        RunStep(p, t, |s|);
        NextIsRemaining(p, s, rem, off, t[|s|]);
      }
      var js := rem[i + 1..];
      assert forall x :: x in js ==> x in rem;
    }
  }

  lemma NotEmitted(p: Problem, s: seq<Pair>, e: Pair, t: seq<Pair>)
    requires WellFormed(p) && !CanExtend(p, s, e)
    ensures Emits(p, s, t) ==> t[|s|] != e
  {
    hide WellFormed, CanExtend, IsRun;
    if Emits(p, s, t) { RunStep(p, t, |s|); }
  }

  lemma {:induction false} RightMembers(p: Problem, s: seq<Pair>, rem: seq<nat>, off: nat, i: nat, j: nat, t: seq<Pair>)
    requires WellFormed(p) && AtNode(p, s, rem, off)
    requires InRange(p, rem)
    requires off <= i < j <= |rem| && (p.full ==> i == 0)
    ensures t in RightLoop(p, s, rem, i, j) <==>
            Emits(p, s, t) && NextIn(s, t, [rem[i]], rem[j..])
    decreases |rem|, |rem| - i, |rem| - j, 1
  {
    hide WellFormed, IsRun, CanExtend, TopologicallyUnique, ConnectOk, Complete, AtNode;
    if j < |rem| {
      RightMembers(p, s, rem, off, i, j + 1, t);
      ExtendIffAccepts(p, s, rem, off, i, j);
      assert rem[j..] == [rem[j]] + rem[j + 1..];
      if Accepts(p, s, rem[i], rem[j]) {
        VisitMembers(p, s, rem, off, i, j, t);
      } else {
        NotEmitted(p, s, (rem[i], rem[j]), t);
      }
    }
  }

  lemma {:induction false} VisitMembers(p: Problem, s: seq<Pair>, rem: seq<nat>, off: nat, i: nat, j: nat, t: seq<Pair>)
    requires WellFormed(p) && AtNode(p, s, rem, off)
    requires InRange(p, rem)
    requires off <= i < j < |rem| && (p.full ==> i == 0)
    requires CanExtend(p, s, (rem[i], rem[j]))
    ensures t in Visit(p, s, rem, i, j) <==> Emits(p, s, t) && t[|s|] == (rem[i], rem[j])
    decreases |rem|, |rem| - i, |rem| - j, 0
  {
    hide WellFormed, IsRun, CanExtend, TopologicallyUnique, ConnectOk, AllTaken;
    var e := (rem[i], rem[j]);
    var s' := s + [e];
    var rem' := Erase(Erase(rem, j), i);
    NodeStep(p, s, rem, off, i, j);
    RemainingInRange(p, s');
    if rem' != [] { SearchMembers(p, s', rem', i, t); }
    EmitsNext(p, s, e, t);
  }

  /** What is emitted after s + [e]: that list itself if it is complete, and what continues it if anything is left. */
  lemma EmitsNext(p: Problem, s: seq<Pair>, e: Pair, t: seq<Pair>)
    requires WellFormed(p) && CanExtend(p, s, e) && IsRun(p, s + [e])
    ensures Emits(p, s, t) && t[|s|] == e <==>
            (t == s + [e] && Complete(p, t)) || (Remaining(p, s + [e]) != [] && Emits(p, s + [e], t))
  {
    hide WellFormed, IsRun, CanExtend, Complete;
    var s' := s + [e];
    assert s'[..|s|] == s;
    if Emits(p, s, t) && t[|s|] == e {
      assert t[..|s'|] == s';
      if |t| > |s'| {
        RunStep(p, t, |s'|);
        NoExtension(p, s', t[|s'|]);
      } else {
        assert t == s';
      }
    }
    if Emits(p, s', t) {
      assert t[..|s|] == t[..|s'|][..|s|] == s;
      assert t[|s|] == t[..|s'|][|s|];
    }
  }

  // ---- No contraction set is emitted twice ----

  lemma NotLater(p: Problem, s: seq<Pair>, k: nat)
    requires k < |Remaining(p, s)|
    ensures forall m :: k < m < |Remaining(p, s)| ==> Remaining(p, s)[m] != Remaining(p, s)[k]
  {
    RemainingBelowProps(s, p.N());
  }

  lemma {:induction false} SearchNoDup(p: Problem, s: seq<Pair>, rem: seq<nat>, off: nat)
    requires WellFormed(p) && AtNode(p, s, rem, off)
    requires InRange(p, rem)
    requires p.full ==> rem != []
    ensures NoDup(Search(p, s, rem, off))
    decreases |rem|, |rem| + 2
  {
    hide WellFormed, IsRun, CanExtend, TopologicallyUnique, ConnectOk, Complete;
    if !(p.full && p.ops[rem[off]] !in p.qpAnnihilators) {
      LeftNoDup(p, s, rem, off, off, if p.full then off + 1 else |rem|);
    }
  }

  lemma {:induction false} LeftNoDup(p: Problem, s: seq<Pair>, rem: seq<nat>, off: nat, i: nat, fence: nat)
    requires WellFormed(p) && AtNode(p, s, rem, off)
    requires InRange(p, rem)
    requires off <= i <= fence <= |rem| && (p.full ==> i == 0 || i == fence) && (p.full ==> fence == 1)
    ensures NoDup(LeftLoop(p, s, rem, i, fence))
    decreases |rem|, |rem| - i, |rem| + 1
  {
    hide WellFormed, IsRun, CanExtend, TopologicallyUnique, ConnectOk, Complete;
    if i < fence {
      RightNoDup(p, s, rem, off, i, i + 1);
      if !p.full {
        LeftNoDup(p, s, rem, off, i + 1, fence);
        var a, b := RightLoop(p, s, rem, i, i + 1), LeftLoop(p, s, rem, i + 1, fence);
        forall t | t in a ensures t !in b { LeftOperatorsDiffer(p, s, rem, off, i, fence, t); }
        NoDupConcat(a, b);
      }
    }
  }

  lemma LeftOperatorsDiffer(p: Problem, s: seq<Pair>, rem: seq<nat>, off: nat, i: nat, fence: nat, t: seq<Pair>)
    requires WellFormed(p) && AtNode(p, s, rem, off) && InRange(p, rem) && !p.full
    requires off <= i < fence <= |rem| && t in RightLoop(p, s, rem, i, i + 1)
    ensures t !in LeftLoop(p, s, rem, i + 1, fence)
  {
    hide WellFormed, IsRun, CanExtend, TopologicallyUnique, ConnectOk, Complete, LeftLoop, RightLoop;
    NotLater(p, s, i);
    RightMembers(p, s, rem, off, i, i + 1, t);
    LeftMembers(p, s, rem, off, i + 1, fence, t);
  }

  lemma {:induction false} RightNoDup(p: Problem, s: seq<Pair>, rem: seq<nat>, off: nat, i: nat, j: nat)
    requires WellFormed(p) && AtNode(p, s, rem, off)
    requires InRange(p, rem)
    requires off <= i < j <= |rem| && (p.full ==> i == 0)
    ensures NoDup(RightLoop(p, s, rem, i, j))
    decreases |rem|, |rem| - i, |rem| - j, 1
  {
    hide WellFormed, IsRun, CanExtend, TopologicallyUnique, ConnectOk, Complete, AtNode, InRange;
    if j < |rem| {
      RightNoDup(p, s, rem, off, i, j + 1);
      ExtendIffAccepts(p, s, rem, off, i, j);
      if Accepts(p, s, rem[i], rem[j]) {
        VisitNoDup(p, s, rem, off, i, j);
        var a, b := Visit(p, s, rem, i, j), RightLoop(p, s, rem, i, j + 1);
        forall t | t in a ensures t !in b { PairsDiffer(p, s, rem, off, i, j, t); }
        NoDupConcat(a, b);
      }
    }
  }

  lemma PairsDiffer(p: Problem, s: seq<Pair>, rem: seq<nat>, off: nat, i: nat, j: nat, t: seq<Pair>)
    requires WellFormed(p) && AtNode(p, s, rem, off) && InRange(p, rem)
    requires off <= i < j < |rem| && (p.full ==> i == 0) && CanExtend(p, s, (rem[i], rem[j]))
    requires t in Visit(p, s, rem, i, j)
    ensures t !in RightLoop(p, s, rem, i, j + 1)
  {
    hide WellFormed, IsRun, CanExtend, TopologicallyUnique, ConnectOk, Complete, Visit, RightLoop;
    NotLater(p, s, j);
    VisitMembers(p, s, rem, off, i, j, t);
    RightMembers(p, s, rem, off, i, j + 1, t);
  }

  lemma {:induction false} VisitNoDup(p: Problem, s: seq<Pair>, rem: seq<nat>, off: nat, i: nat, j: nat)
    requires WellFormed(p) && AtNode(p, s, rem, off)
    requires InRange(p, rem)
    requires off <= i < j < |rem| && (p.full ==> i == 0)
    requires CanExtend(p, s, (rem[i], rem[j]))
    ensures NoDup(Visit(p, s, rem, i, j))
    decreases |rem|, |rem| - i, |rem| - j, 0
  {
    hide WellFormed, IsRun, CanExtend, TopologicallyUnique, ConnectOk, Complete;
    var s' := s + [(rem[i], rem[j])];
    var rem' := Erase(Erase(rem, j), i);
    NodeStep(p, s, rem, off, i, j);
    RemainingInRange(p, s');
    if rem' != [] {
      SearchNoDup(p, s', rem', i);
      SearchMembers(p, s', rem', i, s');
    }
  }

  // ---- The whole search ----

  /** What compute_nontensor_wick emits: the search from the untouched input, then the contraction-free term. */
  ghost function Emitted(p: Problem): seq<seq<Pair>>
    requires WellFormed(p)
    requires p.full ==> p.N() > 0
  {
    (RemainingInRange(p, []);
    Search(p, [], Remaining(p, []), 0))
    + (if !p.full && p.Unconstrained() then [[]] else [])
  }

  /**
   Every emitted list is a run, complete for full contractions, and nonempty
   unless no connection is required; every such run is emitted; none twice.
   */
  lemma EmittedAreRuns(p: Problem)
    requires WellFormed(p)
    requires p.full ==> p.N() > 0
    ensures NoDup(Emitted(p))
    ensures forall t :: t in Emitted(p) <==>
              IsRun(p, t) && Complete(p, t) && (t == [] ==> p.Unconstrained())
  {
    var rem := Remaining(p, []);
    RemainingBelowProps([], p.N());
    RemainingInRange(p, []);
    assert AtNode(p, [], rem, 0);
    if p.full { assert 0 !in Ends([]); }
    SearchNoDup(p, [], rem, 0);
    var a := Search(p, [], rem, 0);
    forall t ensures t in a <==> IsRun(p, t) && Complete(p, t) && t != [] {
      SearchMembers(p, [], rem, 0, t);
    }
    if !p.full && p.Unconstrained() { NoDupConcat(a, [[]]); }
    assert 0 !in Ends([]);
  }
}
