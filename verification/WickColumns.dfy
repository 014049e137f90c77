/** What becomes of partner indices in a reported term: those left share columns, the others close to cycles. */
module WickColumns {
  import opened Sequences
  import opened WickProblem
  import opened WickSearch
  import opened WickMatchings
  import opened WickState
  import opened WickTerms
  import WickTheorem
  import RangeNest
  import NormalOrder
  import opened NormalColumns
  import PartnerIndices
  import PartnerCycles

  /** Contractions join a creator and an annihilator. */
  ghost predicate Opposite(p: Problem) {
    forall a, b :: (a, b) in p.contractible ==> a.action != b.action
  }

  ghost predicate HasOp(p: Problem, id: nat, action: Action) {
    exists o: nat :: o < p.N() && p.ops[o].id == id && p.ops[o].action == action
  }

  /** The partner pairs pair up the creators and the annihilators of the input. */
  ghost predicate Partnered(i: Input) {
    && PartnerIndices.DistinctPairs(i.partners)
    && (forall e :: e in i.partners ==> HasOp(i.problem, e.0, Create) && HasOp(i.problem, e.1, Annihilate))
    && (forall o :: 0 <= o < i.problem.N() && i.problem.ops[o].action == Create ==>
          i.problem.ops[o].id in PartnerIndices.Creators(Elems(i.partners)))
    && (forall o :: 0 <= o < i.problem.N() && i.problem.ops[o].action == Annihilate ==>
          i.problem.ops[o].id in PartnerIndices.Annihilators(Elems(i.partners)))
  }

  /** Operators of one kind are told apart by their indices. */
  lemma SameIdSameOp(p: Problem, a: nat, b: nat)
    requires WellFormed(p) && a < p.N() && b < p.N() && p.ops[a].id == p.ops[b].id && p.ops[a].action == p.ops[b].action
    ensures a == b
  {
    assert a < b ==> !SameOp(p.ops[a], p.ops[b]);
    assert b < a ==> !SameOp(p.ops[b], p.ops[a]);
  }

  // ---- The contractions of a term ----

  lemma {:induction false} ContractionsAre(p: Problem, t: seq<Pair>)
    requires forall k :: 0 <= k < |t| ==> t[k].0 < p.N() && t[k].1 < p.N()
    ensures |ContractionOps(p, t)| == |t|
    ensures forall k :: 0 <= k < |t| ==> ContractionOps(p, t)[k] == (p.ops[t[k].0], p.ops[t[k].1])
  {
    if t != [] { ContractionsAre(p, Init(t)); }
  }

  /** The ordinals of the annihilator and the creator of a contraction. */
  function AnnihilatorEnd(p: Problem, e: Pair): nat {
    if e.0 < p.N() && p.ops[e.0].action == Annihilate then e.0 else e.1
  }

  function CreatorEnd(p: Problem, e: Pair): nat {
    if e.0 < p.N() && p.ops[e.0].action == Create then e.0 else e.1
  }

  ghost predicate GoodPairs(p: Problem, t: seq<Pair>) {
    && (forall k :: 0 <= k < |t| ==> t[k].0 < p.N() && t[k].1 < p.N() && p.ops[t[k].0].action != p.ops[t[k].1].action)
    && forall j, k :: 0 <= j < k < |t| ==> Apart(t[j], t[k])
  }

  lemma RunIsGood(p: Problem, t: seq<Pair>)
    requires WellFormed(p) && IsRun(p, t) && Opposite(p)
    ensures GoodPairs(p, t)
  {
    hide WellFormed, IsRun;
    RunIsOrdered(p, t);
  }

  lemma BondsAre(p: Problem, t: seq<Pair>)
    requires GoodPairs(p, t)
    ensures forall c :: c in ContractionOps(p, t) ==> PartnerIndices.Proper(c)
    ensures var bonds := PartnerIndices.Bonds(ContractionOps(p, t));
            && |bonds| == |t|
            && forall k :: 0 <= k < |t| ==>
                 && AnnihilatorEnd(p, t[k]) < p.N() && p.ops[AnnihilatorEnd(p, t[k])].action == Annihilate
                 && CreatorEnd(p, t[k]) < p.N() && p.ops[CreatorEnd(p, t[k])].action == Create
                 && bonds[k] == (p.ops[AnnihilatorEnd(p, t[k])].id, p.ops[CreatorEnd(p, t[k])].id)
  {
    ContractionsAre(p, t);
  }

  lemma BondsDistinct(p: Problem, t: seq<Pair>)
    requires WellFormed(p) && GoodPairs(p, t)
    ensures PartnerIndices.DistinctBonds(PartnerIndices.Bonds(ContractionOps(p, t)))
  {
    BondsAre(p, t);
    var bonds := PartnerIndices.Bonds(ContractionOps(p, t));
    hide WellFormed, PartnerIndices.Bonds;
    forall j, k | 0 <= j < k < |bonds| ensures bonds[j].0 != bonds[k].0 && bonds[j].1 != bonds[k].1 {
      assert Apart(t[j], t[k]);
      if bonds[j].0 == bonds[k].0 { SameIdSameOp(p, AnnihilatorEnd(p, t[j]), AnnihilatorEnd(p, t[k])); }
      if bonds[j].1 == bonds[k].1 { SameIdSameOp(p, CreatorEnd(p, t[j]), CreatorEnd(p, t[k])); }
    }
  }

  /** The factor of a spin-free term is 2 to the number of its cycles. */
  lemma TermCycles(i: Input, t: seq<Pair>)
    requires WellFormed(i.problem) && IsRun(i.problem, t) && Opposite(i.problem) && PartnerIndices.DistinctPairs(i.partners)
    ensures var cycles := PartnerCycles.Cycles(Elems(i.partners), PartnerIndices.Bonds(ContractionOps(i.problem, t)));
            CycleFactor(i, t) == if i.spinfree && (i.problem.fermi || !i.problem.full) then Pow2(|cycles|) else 1
  {
    hide WellFormed, IsRun;
    RunIsGood(i.problem, t);
    BondsAre(i.problem, t);
    BondsDistinct(i.problem, t);
    PartnerCycles.CyclesCounted(i.partners, ContractionOps(i.problem, t));
  }

  // ---- The operators that are left ----

  lemma MoreThanOnce<T>(s: seq<T>, i: nat, j: nat)
    requires i < j < |s| && s[i] == s[j]
    ensures multiset(s)[s[i]] >= 2
  {
    assert s == s[..j] + [s[j]] + s[j + 1..];
    assert s[..j][i] == s[i] && s[i] in multiset(s[..j]);
    assert multiset(s) == multiset(s[..j]) + multiset{s[j]} + multiset(s[j + 1..]);
  }

  lemma {:induction false} AtMostOnce<T>(s: seq<T>, x: T)
    requires NoDup(s)
    ensures multiset(s)[x] <= 1
  {
    if s != [] {
      assert s == [s[0]] + s[1..];
      AtMostOnce(s[1..], x);
      assert multiset(s) == multiset{s[0]} + multiset(s[1..]);
      assert s[0] !in s[1..];
    }
  }

  /** No operator is left twice. */
  lemma LeftOnce(p: Problem, t: seq<Pair>)
    requires WellFormed(p) && InRange(p, Remaining(p, t))
    ensures NoDup(OpsAt(p, Remaining(p, t)))
  {
    RemainingBelowProps(t, p.N());
    var rem := Remaining(p, t);
    var ops := OpsAt(p, rem);
    hide WellFormed;
    forall i, j | 0 <= i < j < |ops| ensures ops[i] != ops[j] {
      if ops[i] == ops[j] { SameIdSameOp(p, rem[i], rem[j]); }
    }
  }

  /** A selection of the operators left, all of one kind, has distinct indices. */
  lemma DistinctOfKind(p: Problem, t: seq<Pair>, s: seq<Op>, action: Action)
    requires WellFormed(p) && InRange(p, Remaining(p, t)) && multiset(s) <= multiset(OpsAt(p, Remaining(p, t)))
    requires forall k :: 0 <= k < |s| ==> s[k].action == action
    ensures DistinctIds(s)
  {
    LeftOnce(p, t);
    var rem := Remaining(p, t);
    var ops := OpsAt(p, rem);
    hide WellFormed, NoDup, Remaining;
    forall i, j | 0 <= i < j < |s| ensures s[i].id != s[j].id {
      if s[i].id == s[j].id {
        var a := PositionOf(s, i, ops);
        var b := PositionOf(s, j, ops);
        SameIdSameOp(p, rem[a], rem[b]);
        MoreThanOnce(s, i, j);
        AtMostOnce(ops, s[i]);
      }
    }
  }

  lemma PositionOf(s: seq<Op>, i: nat, ops: seq<Op>) returns (k: nat)
    requires i < |s| && multiset(s) <= multiset(ops)
    ensures k < |ops| && ops[k] == s[i]
  {
    assert s[i] in multiset(s) && s[i] in multiset(ops);
    k :| 0 <= k < |ops| && ops[k] == s[i];
  }

  lemma {:induction false} KindOf(u: seq<Op>)
    ensures forall k :: 0 <= k < |NormalOrder.Creators(u)| ==> NormalOrder.Creators(u)[k].action == Create
    ensures forall k :: 0 <= k < |NormalOrder.Annihilators(u)| ==> NormalOrder.Annihilators(u)[k].action == Annihilate
  {
    if u != [] { KindOf(Init(u)); }
  }

  /** The operators left, before they are aligned. */
  ghost function LeftCreators(p: Problem, t: seq<Pair>): seq<Op>
    requires InRange(p, Remaining(p, t))
  {
    NormalOrder.Creators(RangeNest.Flatten(NestOf(p, Remaining(p, t))))
  }

  ghost function LeftAnnihilators(p: Problem, t: seq<Pair>): seq<Op>
    requires InRange(p, Remaining(p, t))
  {
    NormalOrder.Reversed(RangeNest.Flatten(NormalOrder.Groups(NestOf(p, Remaining(p, t)))))
  }

  lemma LeftAre(p: Problem, t: seq<Pair>)
    requires WellFormed(p) && InRange(p, Remaining(p, t))
    ensures multiset(LeftCreators(p, t)) + multiset(LeftAnnihilators(p, t)) == multiset(OpsAt(p, Remaining(p, t)))
    ensures forall k :: 0 <= k < |LeftCreators(p, t)| ==> LeftCreators(p, t)[k].action == Create
    ensures forall k :: 0 <= k < |LeftAnnihilators(p, t)| ==> LeftAnnihilators(p, t)[k].action == Annihilate
  {
    WickTheorem.NopsInRange(p);
    hide WellFormed, Remaining, RangeNest.Flatten, NormalOrder.Creators, NormalOrder.Annihilators, NormalOrder.Groups, NormalOrder.Reversed;
    var nest := NestOf(p, Remaining(p, t));
    var u := RangeNest.Flatten(nest);
    WickTheorem.NestMembers(p, Remaining(p, t));
    NormalOrder.SplitMembers(u);
    NormalOrder.GroupMembers(nest);
    NormalOrder.ReversedMembers(RangeNest.Flatten(NormalOrder.Groups(nest)));
    KindOf(u);
    SameKind(LeftAnnihilators(p, t), NormalOrder.Annihilators(u));
  }

  lemma SameKind(s: seq<Op>, t: seq<Op>)
    requires multiset(s) == multiset(t) && forall k :: 0 <= k < |t| ==> t[k].action == Annihilate
    ensures forall k :: 0 <= k < |s| ==> s[k].action == Annihilate
  {
    forall k | 0 <= k < |s| ensures s[k].action == Annihilate {
      var j := PositionOf(s, k, t);
    }
  }

  lemma LeftDistinct(p: Problem, t: seq<Pair>)
    requires WellFormed(p) && InRange(p, Remaining(p, t))
    ensures DistinctIds(LeftCreators(p, t)) && DistinctIds(LeftAnnihilators(p, t))
  {
    hide WellFormed, Remaining, LeftCreators, LeftAnnihilators;
    LeftAre(p, t);
    DistinctOfKind(p, t, LeftCreators(p, t), Create);
    DistinctOfKind(p, t, LeftAnnihilators(p, t), Annihilate);
  }

  /** An uncontracted operator is among those left. */
  lemma LeftHasId(p: Problem, t: seq<Pair>, o: nat)
    requires WellFormed(p) && InRange(p, Remaining(p, t)) && o < p.N() && o !in Ends(t)
    ensures if p.ops[o].action == Create then HasId(LeftCreators(p, t), p.ops[o].id) else HasId(LeftAnnihilators(p, t), p.ops[o].id)
  {
    RemainingBelowProps(t, p.N());
    var rem := Remaining(p, t);
    assert o in rem;
    var k :| 0 <= k < |rem| && rem[k] == o;
    assert OpsAt(p, rem)[k] == p.ops[o];
    hide WellFormed, Remaining, LeftCreators, LeftAnnihilators;
    LeftAre(p, t);
    var c, a := LeftCreators(p, t), LeftAnnihilators(p, t);
    assert p.ops[o] in multiset(OpsAt(p, rem));
    assert p.ops[o] in multiset(c) || p.ops[o] in multiset(a);
    if p.ops[o] in c {
      var j :| 0 <= j < |c| && c[j] == p.ops[o];
    } else {
      var j :| 0 <= j < |a| && a[j] == p.ops[o];
    }
  }

  // ---- Partners that are left ----

  /** A contracted operator is an end of a bond. */
  lemma EndIsBonded(p: Problem, t: seq<Pair>, o: nat)
    requires GoodPairs(p, t) && o in Ends(t) && o < p.N()
    ensures var bonds := PartnerIndices.Bonds(ContractionOps(p, t));
            exists c :: c in bonds && p.ops[o].id == if p.ops[o].action == Annihilate then c.0 else c.1
  {
    BondsAre(p, t);
    EndsCovered(t);
    var e :| e in Pairs(t) && Touches(e, o);
    var k :| 0 <= k < |t| && t[k] == e;
    var bonds := PartnerIndices.Bonds(ContractionOps(p, t));
    assert bonds[k] in bonds;
  }

  lemma BondsPartnered(i: Input, t: seq<Pair>)
    requires Partnered(i) && GoodPairs(i.problem, t)
    ensures forall c :: c in PartnerIndices.Bonds(ContractionOps(i.problem, t)) ==>
              c.0 in PartnerIndices.Annihilators(Elems(i.partners)) && c.1 in PartnerIndices.Creators(Elems(i.partners))
  {
    BondsAre(i.problem, t);
    hide PartnerIndices.Annihilators, PartnerIndices.Creators, PartnerIndices.Bonds, HasOp;
  }

  lemma PairEnds(m: set<(nat, nat)>, e: (nat, nat))
    requires e in m
    ensures e.0 in PartnerIndices.Creators(m) && e.1 in PartnerIndices.Annihilators(m)
  {
  }

  /** A pair that is left has no contracted operator. */
  ghost predicate Uncontracted(m: set<(nat, nat)>, bonds: seq<(nat, nat)>, e: (nat, nat)) {
    && e.0 in PartnerIndices.Creators(m) && e.1 in PartnerIndices.Annihilators(m)
    && forall c :: c in bonds ==> c.1 != e.0 && c.0 != e.1
  }

  /** As many pairs are left as there are contractions fewer than pairs, and they have no contracted operator. */
  lemma OpenLeft(q: PartnerIndices.Paths, bonds: seq<(nat, nat)>, e: (nat, nat))
    requires PartnerIndices.Matching(q.open) && PartnerIndices.DistinctBonds(bonds)
    requires forall c :: c in bonds ==> c.0 in PartnerIndices.Annihilators(q.open) && c.1 in PartnerIndices.Creators(q.open)
    ensures |PartnerIndices.JoinAll(q, bonds).open| + |bonds| == |q.open|
    ensures e in PartnerIndices.JoinAll(q, bonds).open ==> Uncontracted(q.open, bonds, e)
  {
    hide PartnerIndices.Annihilators, PartnerIndices.Creators, PartnerIndices.JoinAll;
    PartnerIndices.PairsLeft(q, bonds);
    if e in PartnerIndices.JoinAll(q, bonds).open { PairEnds(PartnerIndices.JoinAll(q, bonds).open, e); }
  }

  lemma TargetsLeft(i: Input, t: seq<Pair>, e: (nat, nat))
    requires WellFormed(i.problem) && GoodPairs(i.problem, t) && Partnered(i)
    ensures var targets := PartnerIndices.Joined(i.partners, ContractionOps(i.problem, t)).0;
            && PartnerIndices.DistinctPairs(targets) && |Elems(targets)| + |t| == |Elems(i.partners)|
            && (e in targets ==> Uncontracted(Elems(i.partners), PartnerIndices.Bonds(ContractionOps(i.problem, t)), e))
  {
    hide WellFormed, GoodPairs, PartnerIndices.Bonds, PartnerIndices.Matching, PartnerIndices.DistinctBonds, PartnerIndices.DistinctPairs,
         PartnerIndices.Annihilators, PartnerIndices.Creators, PartnerIndices.JoinAll, PartnerIndices.Joined, HasOp, Uncontracted;
    BondsAre(i.problem, t);
    BondsDistinct(i.problem, t);
    BondsPartnered(i, t);
    var contractions := ContractionOps(i.problem, t);
    PartnerIndices.TargetsArePaths(i.partners, contractions);
    PartnerIndices.DistinctIsMatching(i.partners);
    OpenLeft(PartnerIndices.View(i.partners, 0), PartnerIndices.Bonds(contractions), e);
  }

  lemma PartnerOp(i: Input, a: nat, b: nat)
    requires Partnered(i) && a in PartnerIndices.Creators(Elems(i.partners)) && b in PartnerIndices.Annihilators(Elems(i.partners))
    ensures HasOp(i.problem, a, Create) && HasOp(i.problem, b, Annihilate)
  {
    var e :| e in Elems(i.partners) && e.0 == a;
    var f :| f in Elems(i.partners) && f.1 == b;
  }

  /** The term keeps the operator. */
  ghost predicate Remains(p: Problem, t: seq<Pair>, id: nat, action: Action) {
    exists o: nat :: o < p.N() && p.ops[o].id == id && p.ops[o].action == action && o !in Ends(t)
  }

  /** If every operator has a partner, both operators of a pair that is left are left. */
  lemma TargetOps(i: Input, t: seq<Pair>, e: (nat, nat))
    requires WellFormed(i.problem) && IsRun(i.problem, t) && Opposite(i.problem) && Partnered(i)
    requires e in PartnerIndices.Joined(i.partners, ContractionOps(i.problem, t)).0
    ensures Remains(i.problem, t, e.0, Create) && Remains(i.problem, t, e.1, Annihilate)
  {
    var p := i.problem;
    RunIsGood(p, t);
    TargetsLeft(i, t, e);
    PartnerOp(i, e.0, e.1);
    hide WellFormed, IsRun, Opposite, Partnered, GoodPairs, PartnerIndices.Joined, PartnerIndices.Bonds;
    var a: nat :| a < p.N() && p.ops[a].id == e.0 && p.ops[a].action == Create;
    var b: nat :| b < p.N() && p.ops[b].id == e.1 && p.ops[b].action == Annihilate;
    if a in Ends(t) { EndIsBonded(p, t, a); }
    if b in Ends(t) { EndIsBonded(p, t, b); }
  }

  /** If every operator has a partner, as many pairs are left as there are pairs less contractions, and none has a contracted operator. */
  lemma TermPairs(i: Input, t: seq<Pair>)
    requires WellFormed(i.problem) && (i.problem.full ==> i.problem.N() > 0) && t in Emitted(i.problem)
    requires Opposite(i.problem) && Partnered(i)
    ensures var targets := PartnerIndices.Joined(i.partners, ContractionOps(i.problem, t)).0;
            && |Elems(targets)| + |t| == |Elems(i.partners)|
            && forall e :: e in targets ==> Remains(i.problem, t, e.0, Create) && Remains(i.problem, t, e.1, Annihilate)
  {
    hide WellFormed, Emitted, Opposite, Partnered, GoodPairs, IsRun, PartnerIndices.Joined, Remains, PartnerIndices.DistinctPairs;
    EmittedAreRuns(i.problem);
    RunIsGood(i.problem, t);
    TargetsLeft(i, t, (0, 0));
    forall e | e in PartnerIndices.Joined(i.partners, ContractionOps(i.problem, t)).0
      ensures Remains(i.problem, t, e.0, Create) && Remains(i.problem, t, e.1, Annihilate)
    {
      TargetOps(i, t, e);
    }
  }

  lemma RemainingHasId(p: Problem, t: seq<Pair>, id: nat, action: Action)
    requires WellFormed(p) && InRange(p, Remaining(p, t)) && Remains(p, t, id, action)
    ensures if action == Create then HasId(LeftCreators(p, t), id) else HasId(LeftAnnihilators(p, t), id)
  {
    hide WellFormed, Remaining, LeftCreators, LeftAnnihilators, HasId;
    var o: nat :| o < p.N() && p.ops[o].id == id && p.ops[o].action == action && o !in Ends(t);
    LeftHasId(p, t, o);
  }

  lemma TargetsDistinct(i: Input, t: seq<Pair>)
    requires GoodPairs(i.problem, t) && PartnerIndices.DistinctPairs(i.partners)
    ensures PartnerIndices.DistinctPairs(PartnerIndices.Joined(i.partners, ContractionOps(i.problem, t)).0)
  {
    hide GoodPairs, PartnerIndices.Joined, PartnerIndices.DistinctPairs, PartnerIndices.Bonds, PartnerIndices.JoinAll;
    BondsAre(i.problem, t);
    PartnerIndices.TargetsArePaths(i.partners, ContractionOps(i.problem, t));
  }

  /**
   In every term of a partial contraction, a partner pair that its contractions leave and both of whose operators
   the term keeps shares a column.
   */
  lemma TermColumns(i: Input, t: seq<Pair>, c: nat)
    requires WellFormed(i.problem) && !i.problem.full && t in Emitted(i.problem)
    requires Opposite(i.problem) && PartnerIndices.DistinctPairs(i.partners)
    requires c < |PartnerIndices.Joined(i.partners, ContractionOps(i.problem, t)).0|
    ensures var (creator, annihilator) := PartnerIndices.Joined(i.partners, ContractionOps(i.problem, t)).0[c];
            Remains(i.problem, t, creator, Create) && Remains(i.problem, t, annihilator, Annihilate) ==>
              ShareColumn(TermOf(i, t).cre, TermOf(i, t).ann, creator, annihilator)
  {
    hide WellFormed, Emitted, Opposite, GoodPairs, IsRun, Remaining, PartnerIndices.Joined, ShareColumn, TermOf, HasId,
         LeftCreators, LeftAnnihilators, DistinctIds, PartnerIndices.DistinctPairs, Remains;
    var p := i.problem;
    EmittedAreRuns(p);
    RunIsGood(p, t);
    RemainingInRange(p, t);
    TargetsDistinct(i, t);
    LeftDistinct(p, t);
    var (creator, annihilator) := PartnerIndices.Joined(i.partners, ContractionOps(p, t)).0[c];
    if Remains(p, t, creator, Create) && Remains(p, t, annihilator, Annihilate) {
      RemainingHasId(p, t, creator, Create);
      RemainingHasId(p, t, annihilator, Annihilate);
      ColumnOf(i, t, c);
    }
  }

  lemma ColumnOf(i: Input, t: seq<Pair>, c: nat)
    requires WellFormed(i.problem) && !i.problem.full && InRange(i.problem, Remaining(i.problem, t))
    requires var targets := PartnerIndices.Joined(i.partners, ContractionOps(i.problem, t)).0;
             && PartnerIndices.DistinctPairs(targets) && c < |targets|
             && DistinctIds(LeftCreators(i.problem, t)) && DistinctIds(LeftAnnihilators(i.problem, t))
             && HasId(LeftCreators(i.problem, t), targets[c].0) && HasId(LeftAnnihilators(i.problem, t), targets[c].1)
    ensures var targets := PartnerIndices.Joined(i.partners, ContractionOps(i.problem, t)).0;
            ShareColumn(TermOf(i, t).cre, TermOf(i, t).ann, targets[c].0, targets[c].1)
  {
    hide WellFormed, Remaining, NormalOrder.NormalOrdered, DistinctIds, HasId, PartnerIndices.Joined, ShareColumn, Scaled, Weight, CycleFactor, NormalSign;
    var targets := PartnerIndices.Joined(i.partners, ContractionOps(i.problem, t)).0;
    SamePartners(targets);
    PartnersShareColumns(NestOf(i.problem, Remaining(i.problem, t)), targets, c);
  }

  lemma SamePartners(s: seq<(nat, nat)>)
    requires PartnerIndices.DistinctPairs(s)
    ensures OnePartner(s)
  {
  }
}
