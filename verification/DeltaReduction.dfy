/**
 Reduction of a product: rules are collected from its deltas and applied, and
 deltas folded, until a pass folds nothing. The value of the product is kept
 throughout, and what remains cannot be reduced by the same means.
 */
module DeltaReduction {
  import opened Options
  import opened DeltaValues
  import opened DeltaSubstitution
  import opened DeltaRules
  import opened DeltaFold
  import opened DeltaPasses
  import opened DeltaTable
  import opened DeltaZeros

  /** q has the value of p for all values of the externals and all tensors. */
  ghost predicate SameValue(p: seq<Factor>, q: seq<Factor>, ext: set<Index>) {
    forall t: Meaning, env: Assignment :: Proper(env) && env.Keys == ext ==> Value(t, q, env) == Value(t, p, env)
  }

  ghost predicate Vanishes(p: seq<Factor>, ext: set<Index>) {
    forall t: Meaning, env: Assignment :: Proper(env) && env.Keys == ext ==> Value(t, p, env) == 0.0
  }

  /** apply_index_replacement_rules, factor by factor in place. */
  method ApplyRules(product: array<Factor>, rules: map<Index, Index>)
    modifies product
    ensures product[..] == Apply(rules, old(product[..]))
  {
    for k := 0 to product.Length
      invariant forall j :: 0 <= j < k ==> product[j] == ApplyTo(rules, old(product[j]))
      invariant forall j :: k <= j < product.Length ==> product[j] == old(product[j])
    {
      product[k] := ApplyTo(rules, product[k]);
    }
  }

  // ---- The passes ----

  lemma PassKeepsValue(p: seq<Factor>, q: seq<Factor>, ext: set<Index>, m: map<Index, Index>)
    requires Sound(p, ext, m) && Folded(Apply(m, p), q, ext)
    ensures SameValue(p, q, ext)
  {
    hide Sound, Folded, Apply, Value;
    forall t: Meaning, env: Assignment | Proper(env) && env.Keys == ext ensures Value(t, q, env) == Value(t, p, env) {
      ApplyKeepsValue(t, p, env, m);
      FoldKeepsValue(t, Apply(m, p), q, env);
    }
  }

  lemma ZeroVanishes(p: seq<Factor>, ext: set<Index>, i: Index)
    requires i in Indices(p) && Covers(p, i, {})
    ensures Vanishes(p, ext)
  {
    hide Covers, Value;
    forall t: Meaning, env: Assignment | Proper(env) && env.Keys == ext ensures Value(t, p, env) == 0.0 {
      EmptyIsZero(t, p, env, i);
    }
  }

  lemma FoldIsFolded(p: seq<Factor>, ext: set<Index>)
    ensures Folded(p, Fold(p, ext), ext) && Tidy(Fold(p, ext), ext)
    ensures DeltaCount(Fold(p, ext)) <= DeltaCount(p) && (Fold(p, ext) != p ==> DeltaCount(Fold(p, ext)) < DeltaCount(p))
  {
    hide FoldSteps, DeltaCount, Tidy, Folded;
    var q := Fold(p, ext);
    StepsFold(p, q, ext, |p|);
    assert q[..|p|] == q;
    EndOfFold(p, q, ext);
    FewerDeltas(p, q);
  }

  /** What the passes make of a product: nothing if it vanishes. */
  ghost function Reduction(p: seq<Factor>, ext: set<Index>, first: nat, less: Order): Option<seq<Factor>>
    decreases DeltaCount(p)
  {
    match Collect(p, ext, first, less)
    case Zero => None
    case Collected(r) =>
      var applied := Apply(r.dst, p);
      var q := Fold(applied, ext);
      AppliedCount(r.dst, p);
      FoldIsFolded(applied, ext);
      if q == applied then Some(q) else Reduction(q, ext, r.next, less)
  }

  // ---- Zero ----

  /** What one pass makes of a product that is not found to be zero. */
  lemma PassMeets(p: seq<Factor>, ext: set<Index>, first: nat, less: Order)
    requires LabelsBelow(p, ext, first) && Collect(p, ext, first, less).Collected?
    ensures var r := Collect(p, ext, first, less).rules;
            var q := Fold(Apply(r.dst, p), ext);
            && Met(q, ext) && LabelsBelow(q, ext, r.next)
            && DeltaCount(Apply(r.dst, p)) == DeltaCount(p)
            && (q != Apply(r.dst, p) ==> DeltaCount(q) < DeltaCount(p))
  {
    hide LabelsBelow, Collect, Fold, Folded, Tidy, Met, DeltaCount, AllTight, AllSettled, NoneEmpty, Apply;
    var r := Collect(p, ext, first, less).rules;
    CollectTight(p, ext, first, less);
    CollectSound(p, p, ext, first, less);
    AppliedMet(p, ext, r.dst);
    AppliedCount(r.dst, p);
    FoldIsFolded(Apply(r.dst, p), ext);
    FoldedMet(Apply(r.dst, p), Fold(Apply(r.dst, p), ext), ext);
    LabelsAfter(p, Fold(Apply(r.dst, p), ext), ext, first, r);
  }

  /** A product whose deltas all join spaces that meet is never found to be zero. */
  lemma {:induction false} MetReduces(p: seq<Factor>, ext: set<Index>, first: nat, less: Order)
    requires LabelsBelow(p, ext, first) && Met(p, ext)
    ensures Reduction(p, ext, first, less).Some? && Met(Reduction(p, ext, first, less).value, ext)
    decreases DeltaCount(p)
  {
    hide LabelsBelow, Collect, Fold, Met, DeltaCount, Apply;
    MetCollects(p, ext, first, less);
    PassMeets(p, ext, first, less);
    var r := Collect(p, ext, first, less).rules;
    var q := Fold(Apply(r.dst, p), ext);
    if q != Apply(r.dst, p) { MetReduces(q, ext, r.next, less); }
  }

  /** Whether a product is zero is decided by the first pass; else what is left joins spaces that meet. */
  lemma ZeroAtOnce(p: seq<Factor>, ext: set<Index>, first: nat, less: Order)
    requires LabelsBelow(p, ext, first)
    ensures Reduction(p, ext, first, less) == None <==> Collect(p, ext, first, less) == Zero
    ensures Reduction(p, ext, first, less).Some? ==> Met(Reduction(p, ext, first, less).value, ext)
  {
    hide LabelsBelow, Collect, Fold, Met, DeltaCount, Apply;
    if Collect(p, ext, first, less).Collected? {
      PassMeets(p, ext, first, less);
      var r := Collect(p, ext, first, less).rules;
      MetReduces(Fold(Apply(r.dst, p), ext), ext, r.next, less);
    }
  }

  /**
   A product is reported as zero if a delta joins different indices of disjoint spaces, or if a dummy has no value that
   is in the spaces of all that chains of deltas through dummies lead to from it.
   */
  lemma ZeroIsFound(p: seq<Factor>, ext: set<Index>, first: nat, less: Order)
    requires LabelsBelow(p, ext, first)
    ensures (exists f :: f in p && Impossible(f)) ==> Reduction(p, ext, first, less) == None
    ensures (exists d :: d !in ext && d.space != {} && Starved(p, ext, d)) ==> Reduction(p, ext, first, less) == None
  {
    hide LabelsBelow, Collect, Reduction, Starved, Impossible;
    MustBeZero(p, ext, first, less);
    ZeroAtOnce(p, ext, first, less);
  }

  /** reduce_wick_impl: false if the product is zero. */
  method Reduce(product: array<Factor>, ext: set<Index>, first: nat, less: Order) returns (nonzero: bool)
    requires LabelsBelow(product[..], ext, first)
    modifies product
    ensures nonzero ==> SameValue(old(product[..]), product[..], ext) && Reduced(product[..], ext)
    ensures !nonzero ==> Vanishes(old(product[..]), ext)
    ensures nonzero ==> Met(product[..], ext) && forall f :: f in old(product[..]) ==> !Impossible(f)
    ensures Reduction(old(product[..]), ext, first, less) == if nonzero then Some(product[..]) else None
  {
    hide LabelsBelow, Sound, Tidy, Folded, Collect, SameValue, Vanishes, Reduced, Apply, Covers, Fold, DeltaCount, Met, Impossible, Starved;
    ghost var p := product[..];
    var unused := first;
    var mutated := true;
    SameSelf(p, ext);
    while mutated
      invariant LabelsBelow(product[..], ext, unused) && SameValue(p, product[..], ext)
      invariant !mutated ==> Reduced(product[..], ext)
      invariant Reduction(p, ext, first, less) == if mutated then Reduction(product[..], ext, unused, less) else Some(product[..])
      decreases DeltaCount(product[..]), mutated
    {
      ghost var before := product[..];
      var outcome := ComputeRules(product[..], ext, unused, less);
      CollectSound(before, before, ext, unused, less);
      if outcome.Zero? {
        ghost var i :| i in Indices(before) && Covers(before, i, {});
        ZeroVanishes(before, ext, i);
        SameVanishes(p, before, ext);
        return false;
      }
      var rules := outcome.rules;
      ApplyRules(product, rules.dst);
      ghost var applied := product[..];
      AppliedCount(rules.dst, before);
      var folded;
      folded, mutated := FoldDeltas(product[..], ext);
      FoldedLength(applied, folded, ext);
      if !mutated { PassReduces(before, ext, unused, less, rules); }
      PassKeepsValue(before, folded, ext, rules.dst);
      SameValueTransitive(p, before, folded, ext);
      LabelsAfter(before, folded, ext, unused, rules);
      for k := 0 to product.Length
        invariant product[..k] == folded[..k]
      {
        product[k] := folded[k];
      }
      assert product[..] == folded;
      unused := rules.next;
    }
    nonzero := true;
    ZeroIsFound(p, ext, first, less);
    ZeroAtOnce(p, ext, first, less);
  }

  lemma FoldedLength(p: seq<Factor>, q: seq<Factor>, ext: set<Index>)
    requires Folded(p, q, ext)
    ensures |q| == |p|
  {
  }

  lemma SameSelf(p: seq<Factor>, ext: set<Index>)
    ensures SameValue(p, p, ext)
  {
  }

  lemma SameValueTransitive(p: seq<Factor>, q: seq<Factor>, r: seq<Factor>, ext: set<Index>)
    requires SameValue(p, q, ext) && SameValue(q, r, ext)
    ensures SameValue(p, r, ext)
  {
    hide Value;
    forall t: Meaning, env: Assignment | Proper(env) && env.Keys == ext ensures Value(t, r, env) == Value(t, p, env) {
      assert Value(t, q, env) == Value(t, p, env);
    }
  }

  lemma SameVanishes(p: seq<Factor>, q: seq<Factor>, ext: set<Index>)
    requires SameValue(p, q, ext) && Vanishes(q, ext)
    ensures Vanishes(p, ext)
  {
    hide Value;
    forall t: Meaning, env: Assignment | Proper(env) && env.Keys == ext ensures Value(t, p, env) == 0.0 {
      assert Value(t, q, env) == Value(t, p, env);
    }
  }
}
