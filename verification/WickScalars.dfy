/** What compute_nontensor_wick reports for a set of contractions, written out in terms of the input alone. */
module WickScalars {
  import opened Sequences
  import opened Parity
  import opened WickProblem
  import opened WickMatchings
  import opened WickSearch
  import opened WickState
  import opened WickTerms
  import opened WickColumns
  import WickPhase
  import WickTheorem
  import WickWeights
  import NormalOrder
  import PartnerCycles
  import PartnerIndices
  import RangeNest

  // ---- Creators and annihilators ----

  lemma NormalKinds(nest: seq<seq<Op>>, pairs: seq<(nat, nat)>)
    ensures var (cre, ann) := NormalOrder.NormalOrdered(nest, pairs);
            && multiset(cre) == multiset(NormalOrder.Creators(RangeNest.Flatten(nest)))
            && multiset(ann) == multiset(NormalOrder.Annihilators(RangeNest.Flatten(nest)))
  {
    hide RangeNest.Flatten, NormalOrder.Creators, NormalOrder.Annihilators, NormalOrder.Groups, NormalOrder.Align, NormalOrder.Reversed,
         NormalOrder.Flipped;
    NormalOrder.GroupMembers(nest);
    var cre, ann := NormalOrder.Creators(RangeNest.Flatten(nest)), NormalOrder.Reversed(RangeNest.Flatten(NormalOrder.Groups(nest)));
    NormalOrder.ReversedMembers(RangeNest.Flatten(NormalOrder.Groups(nest)));
    if |cre| <= |ann| {
      NormalOrder.AlignMembers(cre, ann, pairs, |cre|, |ann| - |cre|);
    } else {
      NormalOrder.AlignMembers(ann, cre, NormalOrder.Flipped(pairs), |ann|, |cre| - |ann|);
    }
  }

  lemma TermKinds(i: Input, t: seq<Pair>)
    requires WellFormed(i.problem)
    ensures forall o :: o in TermOf(i, t).cre ==> o.action == Create
    ensures forall o :: o in TermOf(i, t).ann ==> o.action == Annihilate
  {
    hide WellFormed, Weight, CycleFactor, NormalSign, WickPhase.Phase, Scaled, NormalOrder.NormalOrdered, RangeNest.Flatten,
         NormalOrder.Creators, NormalOrder.Annihilators, PartnerIndices.Joined, Remaining;
    if !i.problem.full {
      RemainingInRange(i.problem, t);
      var nest := NestOf(i.problem, Remaining(i.problem, t));
      var u := RangeNest.Flatten(nest);
      NormalKinds(nest, PartnerIndices.Joined(i.partners, ContractionOps(i.problem, t)).0);
      KindOf(u);
      NormalOrder.SameMembers(TermOf(i, t).cre, NormalOrder.Creators(u));
      NormalOrder.SameMembers(TermOf(i, t).ann, NormalOrder.Annihilators(u));
    }
  }

  // ---- The operators kept ----

  /** The positions of the operators kept, in the order of the term. */
  lemma KeptPositions(p: Problem, t: seq<Pair>, kept: seq<Op>) returns (ks: seq<nat>)
    requires WellFormed(p) && InRange(p, Remaining(p, t)) && multiset(kept) == multiset(OpsAt(p, Remaining(p, t)))
    requires forall o :: o in kept ==> o in OrdinalOf(p)
    ensures ks == NormalOrder.Labels(OrdinalOf(p), kept) && multiset(ks) == multiset(Remaining(p, t))
    ensures InRange(p, ks) && kept == OpsAt(p, ks)
  {
    hide WellFormed, Remaining, Ordinals;
    ks := NormalOrder.Labels(OrdinalOf(p), kept);
    OrdinalLabels(p, OrdinalOf(p), Remaining(p, t));
    LabelsPermuted(OrdinalOf(p), OpsAt(p, Remaining(p, t)), kept);
    forall k | 0 <= k < |kept| ensures ks[k] < p.N() && p.ops[ks[k]] == kept[k] { OrdinalNames(p, kept[k]); }
  }

  lemma OrdinalNames(p: Problem, o: Op)
    requires WellFormed(p) && o in OrdinalOf(p)
    ensures OrdinalOf(p)[o] < p.N() && p.ops[OrdinalOf(p)[o]] == o
  {
    hide WellFormed;
  }

  /**
   The term reported for t: its contractions; the creators and the annihilators that are left; and for its scalar the
   number of plain terms with the degrees of t, times 2 for each closed cycle if cycles count, times, for fermions, the
   sign of the permutation from the input to the contracted pairs followed by creators and reversed annihilators.
   */
  lemma TermWrittenOut(i: Input, t: seq<Pair>) returns (ks: seq<nat>)
    requires WellFormed(i.problem) && Equivalences(i.problem) && i.problem.N() > 0 && t in Emitted(i.problem)
    requires Opposite(i.problem) && PartnerIndices.DistinctPairs(i.partners)
    ensures var p, term := i.problem, TermOf(i, t);
            var cycles := PartnerCycles.Cycles(Elems(i.partners), PartnerIndices.Bonds(term.factors));
            && |term.factors| == |t|
            && (forall k :: 0 <= k < |t| ==> t[k].0 < p.N() && t[k].1 < p.N() && term.factors[k] == (p.ops[t[k].0], p.ops[t[k].1]))
            && (forall o :: o in term.cre ==> o.action == Create) && (forall o :: o in term.ann ==> o.action == Annihilate)
            && InRange(p, ks) && OpsAt(p, ks) == term.cre + NormalOrder.Reversed(term.ann)
            && NoDup(ks) && AreLeft(ks, t, p.N())
            && term.scalar == |WickWeights.Class(p, t)| as real
                              * (if i.spinfree && (p.fermi || !p.full) then Pow2(|cycles|) else 1) as real
                              * (if p.fermi then Sign(Inversions(WickPhase.Flatten(t) + ks)) else 1) as real
  {
    hide WellFormed, Equivalences, Emitted, IsRun, Opposite, Ends, GoodPairs, OrdinalOf, Remaining, Inversions, Sign, CycleFactor,
         PartnerCycles.Cycles, PartnerIndices.DistinctPairs, PartnerIndices.Bonds, WickWeights.Class, TermOf, NormalOrder.Labels,
         NormalOrder.Reversed, Pow2, WickPhase.Flatten;
    var p := i.problem;
    EmittedAreRuns(p);
    RunIsGood(p, t);
    TermFactors(i, t);
    TermKinds(i, t);
    WickTheorem.TermIsSignedClassSize(i, t);
    TermCycles(i, t);
    ks := KeptPositions(p, t, NormalOrder.Storage(TermOf(i, t).cre, TermOf(i, t).ann));
    PositionsLeft(p, t, ks);
  }

  lemma TermFactors(i: Input, t: seq<Pair>)
    requires WellFormed(i.problem) && GoodPairs(i.problem, t)
    ensures var p, factors := i.problem, TermOf(i, t).factors;
            && factors == ContractionOps(p, t) && |factors| == |t|
            && forall k :: 0 <= k < |t| ==> t[k].0 < p.N() && t[k].1 < p.N() && factors[k] == (p.ops[t[k].0], p.ops[t[k].1])
  {
    hide WellFormed, Weight, CycleFactor, NormalSign, WickPhase.Phase, Scaled, Normal;
    ContractionsAre(i.problem, t);
  }

  /** ks holds the positions that t does not contract. */
  ghost predicate AreLeft(ks: seq<nat>, t: seq<Pair>, n: nat) {
    forall o: nat :: o in ks <==> o < n && o !in Ends(t)
  }

  /** The positions kept are those that are not contracted, each once. */
  lemma PositionsLeft(p: Problem, t: seq<Pair>, ks: seq<nat>)
    requires multiset(ks) == multiset(Remaining(p, t))
    ensures NoDup(ks) && AreLeft(ks, t, p.N())
  {
    hide Remaining;
    RemainingBelowIs(p, t);
    forall o: nat ensures o in ks <==> o < p.N() && o !in Ends(t) {
      IsRemaining(p, t, o);
      assert o in ks <==> o in multiset(ks);
      assert o in Remaining(p, t) <==> o in multiset(Remaining(p, t));
    }
    forall j, k | 0 <= j < k < |ks| ensures ks[j] != ks[k] {
      AtMostOnce(Remaining(p, t), ks[j]);
      if ks[j] == ks[k] { MoreThanOnce(ks, j, k); }
    }
  }

  lemma RemainingBelowIs(p: Problem, t: seq<Pair>)
    ensures NoDup(Remaining(p, t))
  {
    RemainingBelowProps(t, p.N());
  }
}
