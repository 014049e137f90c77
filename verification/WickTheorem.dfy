/**
 The theorem as a whole: what compute_nontensor_wick returns, and what its terms
 are worth.
 */
module WickTheorem {
  import opened Sequences
  import opened Parity
  import opened WickProblem
  import opened WickSearch
  import opened WickMatchings
  import opened WickClasses
  import opened WickState
  import opened WickTerms
  import opened WickEngine
  import WickPhase
  import WickWeights
  import PartnerIndices
  import NormalOrder
  import Factorials
  import RangeNest
  import NopPartitions

  datatype Outcome = Terms(terms: seq<Term>) | Count(count: nat)

  /** The ordinals of the operators, as init_input numbers them. */
  method NumberOperators(p: Problem) returns (ordinals: map<Op, nat>)
    requires WellFormed(p)
    ensures ordinals == OrdinalOf(p)
  {
    hide WellFormed, OrdinalOf, Numbered;
    ordinals := map[];
    NoneNumbered(p.ops);
    for k := 0 to |p.ops|
      invariant Numbered(p.ops, ordinals, k)
    {
      NewOperator(p, k);
      OneNumbered(p.ops, ordinals, k);
      if p.ops[k] !in ordinals {
        ordinals := ordinals[p.ops[k] := k];
      }
    }
    AllNumbered(p, ordinals);
  }

  /** The first k operators have their positions for ordinals. */
  ghost predicate Numbered(ops: seq<Op>, ordinals: map<Op, nat>, k: nat)
    requires k <= |ops|
  {
    && (forall o :: o in ordinals <==> o in ops[..k])
    && forall i :: 0 <= i < k ==> ops[i] in ordinals && ordinals[ops[i]] == i
  }

  lemma NoneNumbered(ops: seq<Op>)
    ensures Numbered(ops, map[], 0)
  {
  }

  lemma OneNumbered(ops: seq<Op>, ordinals: map<Op, nat>, k: nat)
    requires k < |ops| && Numbered(ops, ordinals, k) && ops[k] !in ops[..k]
    ensures ops[k] !in ordinals && Numbered(ops, ordinals[ops[k] := k], k + 1)
  {
    assert ops[..k + 1] == ops[..k] + [ops[k]];
  }

  lemma AllNumbered(p: Problem, ordinals: map<Op, nat>)
    requires WellFormed(p) && Numbered(p.ops, ordinals, |p.ops|)
    ensures ordinals == OrdinalOf(p)
  {
    hide WellFormed;
    assert p.ops[..|p.ops|] == p.ops;
  }

  lemma NewOperator(p: Problem, k: nat)
    requires WellFormed(p) && k < |p.ops|
    ensures p.ops[k] !in p.ops[..k]
  {
  }

  /** compute_nontensor_wick. */
  method ComputeNontensorWick(input: Input, opseq: seq<seq<Op>>, countOnly: bool) returns (outcome: Outcome)
    requires WellFormed(input.problem) && input.problem.N() > 0
    requires NestAt(input.problem, Remaining(input.problem, []), opseq)
    requires NopPartitions.Assigned(input.nopPartitionOf, input.nopNPartitions, input.problem.nnops)
    ensures outcome == if countOnly then Count(|Emitted(input.problem)|)
                       else Outcome.Terms(WickTerms.Terms(input, Emitted(input.problem)))
    ensures !countOnly ==> |outcome.terms| == |Emitted(input.problem)|
                           && forall k :: 0 <= k < |outcome.terms| ==> outcome.terms[k] == TermOf(input, Emitted(input.problem)[k])
  {
    hide WellFormed, NestAt, Remaining, Search, WickTerms.Terms, OrdinalOf, IsRun, CountersAt, ProductOf, NormalOrder.NormalOrdered,
         NormalOrder.Numbers, NormalOrder.Storage, NormalOrder.SignOfOrder, RangeNest.Flatten;
    ghost var p := input.problem;
    StartOfSearch(p);
    var ordinals := NumberOperators(input.problem);
    var state := new NontensorWickState(input, opseq, ordinals, countOnly);
    state.RecursiveNontensorWick([]);
    EmittedIs(p);
    if countOnly {
      var count := state.count;
      if !input.problem.full && input.problem.Unconstrained() {
        count := count + 1;
      }
      outcome := Count(count);
    } else {
      var terms := state.result;
      if !input.problem.full && input.problem.Unconstrained() {
        NormalReady(p, [], opseq);
        ContractionFree(input, opseq);
        var phase, cre, ann := NormalOrder.Normalize(opseq, input.partners, input.problem.fermi, OrdinalOf(p));
        TermsSnoc(input, state.reported, []);
        terms := terms + [Term(phase as real, [], cre, ann)];
      }
      TermsInOrder(input, Emitted(p));
      outcome := Outcome.Terms(terms);
    }
  }

  lemma TermsInOrder(i: Input, ts: seq<seq<Pair>>)
    requires WellFormed(i.problem)
    ensures forall k :: 0 <= k < |ts| ==> WickTerms.Terms(i, ts)[k] == TermOf(i, ts[k])
  {
    hide WellFormed, TermOf;
  }

  lemma StartOfSearch(p: Problem)
    requires WellFormed(p) && p.N() > 0
    ensures Remaining(p, []) != [] && InRange(p, Remaining(p, [])) && AtNode(p, [], Remaining(p, []), 0)
  {
    RemainingBelowProps([], p.N());
    RemainingInRange(p, []);
    assert 0 !in Ends([]);
  }

  lemma EmittedIs(p: Problem)
    requires WellFormed(p) && p.N() > 0
    ensures InRange(p, Remaining(p, [])) && (p.full ==> Remaining(p, []) != [])
    ensures var found := [] + Search(p, [], Remaining(p, []), 0);
            Emitted(p) == if !p.full && p.Unconstrained() then found + [[]] else found
  {
    hide Search;
    StartOfSearch(p);
    assert [] + Search(p, [], Remaining(p, []), 0) == Search(p, [], Remaining(p, []), 0);
  }

  lemma TermsSnoc(i: Input, ts: seq<seq<Pair>>, t: seq<Pair>)
    requires WellFormed(i.problem)
    ensures WickTerms.Terms(i, ts + [t]) == WickTerms.Terms(i, ts) + [TermOf(i, t)]
  {
  }

  /** The term without contractions has weight 1. */
  lemma ContractionFree(i: Input, nest: seq<seq<Op>>)
    requires WellFormed(i.problem) && !i.problem.full && NestAt(i.problem, Remaining(i.problem, []), nest)
    ensures var (cre, ann) := NormalOrder.NormalOrdered(nest, i.partners);
            TermOf(i, []) == Term(NormalSign(i.problem, cre, ann) as real, [], cre, ann)
  {
    hide WellFormed, NormalOrder.NormalOrdered, Weight, NormalSign, NestAt;
    PartialTermIs(i, [], nest);
    NoWeight(i.problem);
    assert PartnerIndices.Joined(i.partners, []) == (i.partners, 0);
  }

  lemma NoWeight(p: Problem)
    requires WellFormed(p)
    ensures Weight(p, []) == 1.0
  {
    hide WellFormed;
    Factorials.FactMatrixEmpty(|p.partitions|, |p.partitions|);
    assert WickWeights.Uncontracted(p, []) == WickWeights.PartitionSizes(p);
    assert WickWeights.Denominator(p, []) == Factorials.FactVec(WickWeights.PartitionSizes(p));
    Quotient(1, WickWeights.Denominator(p, []), Factorials.FactVec(WickWeights.PartitionSizes(p)));
  }

  // ---- What a term is worth ----

  /** The weight is the number of plain terms with the degrees of the term, whether or not topology is used. */
  lemma WeightIsClassSize(p: Problem, t: seq<Pair>)
    requires WellFormed(p) && Equivalences(p) && p.N() > 0 && t in Emitted(p)
    ensures Weight(p, t) == |WickWeights.Class(p, t)| as real
  {
    hide WellFormed, IsRun, Equivalences, WickWeights.Class, WickWeights.Denominator;
    EmittedAreRuns(p);
    PlainRun(p, t);
    assert Complete(Plain(p), t) by { PlainComplete(p, t); }
    WickWeights.ClassSize(p, t);
    Quotient(|WickWeights.Class(p, t)|, WickWeights.Denominator(p, t), Factorials.FactVec(WickWeights.PartitionSizes(p)));
  }

  lemma PlainComplete(p: Problem, t: seq<Pair>)
    requires Complete(p, t)
    ensures Complete(Plain(p), t)
  {
  }

  lemma Quotient(q: nat, d: nat, n: nat)
    requires d > 0 && q * d == n
    ensures n as real / d as real == q as real
  {
  }

  lemma KeptMembers(i: Input, t: seq<Pair>)
    requires WellFormed(i.problem) && (i.problem.full ==> Remaining(i.problem, t) == [])
    ensures InRange(i.problem, Remaining(i.problem, t))
    ensures multiset(NormalOrder.Storage(TermOf(i, t).cre, TermOf(i, t).ann)) == multiset(OpsAt(i.problem, Remaining(i.problem, t)))
  {
    hide WellFormed, Remaining, NormalOrder.NormalOrdered, NormalOrder.Storage, Weight, CycleFactor, NormalSign;
    var p := i.problem;
    RemainingInRange(p, t);
    if p.full {
      assert NormalOrder.Storage([], []) == [] by { EmptyStorage(); }
    } else {
      var pairs := PartnerIndices.Joined(i.partners, ContractionOps(p, t)).0;
      NormalOrder.NormalOrderedMembers(NestOf(p, Remaining(p, t)), pairs);
      NopsInRange(p);
      NestMembers(p, Remaining(p, t));
    }
  }

  lemma NopsInRange(p: Problem)
    requires WellFormed(p)
    ensures forall k :: 0 <= k < p.N() ==> p.ops[k].nop < p.nnops
  {
  }

  lemma EmptyStorage()
    ensures NormalOrder.Storage([], []) == []
  {
  }

  /** The nest built range by range holds the remaining operators. */
  lemma NestMembers(p: Problem, rem: seq<nat>)
    requires InRange(p, rem) && forall k :: 0 <= k < p.N() ==> p.ops[k].nop < p.nnops
    ensures multiset(RangeNest.Flatten(NestOf(p, rem))) == multiset(OpsAt(p, rem))
  {
    var ops := OpsAt(p, rem);
    forall k | 0 <= k < |ops| ensures ops[k].nop < p.nnops {}
    RangesMembers(ops, p.nnops);
    assert Ranges(ops, p.nnops) == NestOf(p, rem);
  }

  ghost function Below(ops: seq<Op>, n: nat): seq<Op> {
    if ops == [] then [] else Below(Init(ops), n) + (if Last(ops).nop < n then [Last(ops)] else [])
  }

  lemma {:induction false} BelowAll(ops: seq<Op>, n: nat)
    requires AllBelow(ops, n)
    ensures Below(ops, n) == ops
  {
    hide AllBelow, Below;
    BelowStep(ops, n);
    if ops != [] {
      BelowAll(Init(ops), n);
      assert ops == Init(ops) + [Last(ops)];
    }
  }

  lemma BelowStep(ops: seq<Op>, n: nat)
    requires AllBelow(ops, n)
    ensures ops == [] ==> Below(ops, n) == []
    ensures ops != [] ==> AllBelow(Init(ops), n) && Below(ops, n) == Below(Init(ops), n) + [Last(ops)]
  {
  }

  ghost predicate AllBelow(ops: seq<Op>, n: nat) {
    forall k :: 0 <= k < |ops| ==> ops[k].nop < n
  }

  lemma {:induction false} BelowNext(ops: seq<Op>, n: nat)
    ensures multiset(Below(ops, n + 1)) == multiset(Below(ops, n)) + multiset(OpsWith(ops, n))
  {
    if ops != [] { BelowNext(Init(ops), n); }
  }

  lemma {:induction false} BelowNone(ops: seq<Op>)
    ensures Below(ops, 0) == []
  {
    if ops != [] { BelowNone(Init(ops)); }
  }

  ghost function Ranges(ops: seq<Op>, n: nat): seq<seq<Op>> {
    seq(n, x requires 0 <= x < n => OpsWith(ops, x))
  }

  lemma {:induction false} RangesBelow(ops: seq<Op>, n: nat)
    ensures multiset(RangeNest.Flatten(Ranges(ops, n))) == multiset(Below(ops, n))
  {
    if n == 0 {
      BelowNone(ops);
    } else {
      RangesBelow(ops, n - 1);
      assert Init(Ranges(ops, n)) == Ranges(ops, n - 1);
      BelowNext(ops, n - 1);
    }
  }

  lemma RangesMembers(ops: seq<Op>, n: nat)
    requires AllBelow(ops, n)
    ensures multiset(RangeNest.Flatten(Ranges(ops, n))) == multiset(ops)
  {
    RangesBelow(ops, n);
    BelowAll(ops, n);
  }

  /**
   Every reported term keeps the uncontracted operators, and its scalar is the
   number of contraction sets it stands for, times the factor of its cycles,
   times, for fermions, the sign of the permutation from the input to
   [contracted pairs][normal-ordered rest].
   */
  lemma TermIsSignedClassSize(i: Input, t: seq<Pair>)
    requires WellFormed(i.problem) && Equivalences(i.problem) && i.problem.N() > 0 && t in Emitted(i.problem)
    ensures var p, kept := i.problem, NormalOrder.Storage(TermOf(i, t).cre, TermOf(i, t).ann);
            && InRange(p, Remaining(p, t))
            && multiset(kept) == multiset(OpsAt(p, Remaining(p, t)))
            && (forall o :: o in kept ==> o in OrdinalOf(p))
            && TermOf(i, t).scalar
               == |WickWeights.Class(p, t)| as real * CycleFactor(i, t) as real
                  * (if p.fermi then Sign(Parity.Inversions(WickPhase.Flatten(t) + NormalOrder.Labels(OrdinalOf(p), kept))) else 1) as real
  {
    hide WellFormed, Equivalences, IsRun, Emitted, WickWeights.Class, Weight, CycleFactor, Remaining, NormalOrder.Storage,
         NormalOrder.Labels, Parity.Inversions, Sign, WickPhase.Separate, WickPhase.Phase, TermOf, OrdinalOf, Ordinals, Scaled;
    var p, kept := i.problem, NormalOrder.Storage(TermOf(i, t).cre, TermOf(i, t).ann);
    EmittedAreRuns(p);
    NothingRemains(p, t);
    KeptMembers(i, t);
    WeightIsClassSize(p, t);
    OrdinalLabels(p, OrdinalOf(p), Remaining(p, t));
    NormalOrder.SameMembers(kept, OpsAt(p, Remaining(p, t)));
    if p.fermi {
      WickPhase.RunIsSeparate(p, t);
      TermSign(p, t, OrdinalOf(p), kept);
    }
    TermScalar(i, t);
    ScaledIs(|WickWeights.Class(p, t)|, CycleFactor(i, t),
             if p.fermi then Sign(Parity.Inversions(WickPhase.Flatten(t) + NormalOrder.Labels(OrdinalOf(p), kept))) else 1);
  }

  lemma ScaledIs(weight: nat, cycles: nat, sign: int)
    ensures Scaled(weight as real, cycles, sign) == weight as real * cycles as real * sign as real
  {
  }

  lemma NothingRemains(p: Problem, t: seq<Pair>)
    requires Complete(p, t)
    ensures p.full ==> Remaining(p, t) == []
  {
    RemainingInRange(p, t);
  }

  lemma TermScalar(i: Input, t: seq<Pair>)
    requires WellFormed(i.problem) && (i.problem.full ==> Remaining(i.problem, t) == [])
    ensures TermOf(i, t).scalar
            == Scaled(Weight(i.problem, t), CycleFactor(i, t),
                      if i.problem.fermi
                      then WickPhase.Phase(i.problem, t)
                           * NormalOrder.SignOfOrder(OrdinalOf(i.problem), NormalOrder.Storage(TermOf(i, t).cre, TermOf(i, t).ann))
                      else 1)
  {
    hide WellFormed, Weight, CycleFactor, Scaled, Remaining, Normal, OrdinalOf;
    EmptyStorage();
    assert NormalOrder.SignOfOrder(OrdinalOf(i.problem), []) == 1;
    if !i.problem.fermi { BosonPhase(i.problem, t); }
  }

  lemma {:induction false} BosonPhase(p: Problem, s: seq<Pair>)
    requires !p.fermi
    ensures WickPhase.Phase(p, s) == 1
  {
    if s != [] { BosonPhase(p, Init(s)); }
  }
}
