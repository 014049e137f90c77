/** The lists of required and avoided pairs of normal operators, from what is given to what is reported. */
module WickConnections {
  import opened WickProblem
  import opened WickMatchings
  import opened WickSearch
  import opened WickMasks

  /** The masks of the problem record these lists; no list leaves no mask. */
  ghost predicate RecordsPairs(p: Problem, required: seq<(int, int)>, avoided: seq<(int, int)>) {
    && AllWithin(required, p.nnops) && AllWithin(avoided, p.nnops)
    && p.required == (if required == [] then [] else MaskOf(required, p.nnops))
    && p.avoided == (if avoided == [] then [] else MaskOf(avoided, p.nnops))
  }

  /** The search rejects exactly the avoided pairs, and asks exactly for the required ones unless the vacuum is multi-product. */
  lemma PairsEnforced(p: Problem, required: seq<(int, int)>, avoided: seq<(int, int)>)
    requires p.nnops <= MAX_INPUT_SIZE && RecordsPairs(p, required, avoided)
    ensures forall x: nat, y: nat :: x < p.nnops && y < p.nnops ==> (p.Allowed(x, y) <==> !Named(avoided, x, y))
    ensures forall x: nat, y: nat :: y in p.Required(x) <==> p.pairwise && Named(required, x, y)
  {
    hide MaskOf, Flip, Named;
    MaskNames(required, p.nnops);
    MaskNames(avoided, p.nnops);
    NothingNamed();
    forall x: nat, y: nat | x < p.nnops && y < p.nnops ensures p.Allowed(x, y) <==> !Named(avoided, x, y) {
      if avoided != [] { FlippedBit(p.avoided[x], y); }
    }
    forall x: nat, y: nat ensures y in p.Required(x) <==> p.pairwise && Named(required, x, y) {
      if Named(required, x, y) { NamedWithin(required, p.nnops, x, y); }
    }
  }

  lemma FlippedBit(mask: set<nat>, y: nat)
    requires y < MAX_INPUT_SIZE
    ensures y in Flip(mask) <==> y !in mask
  {
  }

  lemma NothingNamed()
    ensures forall x: nat, y: nat :: !Named([], x, y)
  {
  }

  /**
   For full contractions without topology, a set of contractions is reported exactly if it joins operators of different
   normal operators that can be contracted and are not to be avoided, uses every operator once, and, where pairs are
   enforced, joins every required pair.
   */
  lemma FullTermsOfPairs(p: Problem, required: seq<(int, int)>, avoided: seq<(int, int)>, m: set<Pair>)
    requires WellFormed(p) && p.full && !p.topology && p.N() > 0 && RecordsPairs(p, required, avoided)
    requires forall x: nat, y: nat :: Named(required, x, y) ==> Inhabited(p, x) || Inhabited(p, y)
    ensures (exists t :: t in Emitted(p) && WickMatchings.Pairs(t) == m) <==>
              && (forall e :: e in m ==> e.0 < e.1 < p.N() && p.Nop(e.0) != p.Nop(e.1) && (p.ops[e.0], p.ops[e.1]) in p.contractible
                                         && !Named(avoided, p.Nop(e.0), p.Nop(e.1)))
              && (forall e, f :: e in m && f in m && e != f ==> Apart(e, f))
              && (forall o: nat :: o < p.N() ==> Covers(m, o))
              && (p.pairwise ==> forall x: nat, y: nat :: Named(required, x, y) ==> Joined(p, m, x, y))
  {
    hide WellFormed, Emitted, Connectable, Joined, Named, Inhabited, RecordsPairs;
    NopsBelow(p);
    PairsEnforced(p, required, avoided);
    EmittedOncePerAdmissibleSet(p);
    if Admissible(p, m) { FullRequirements(p, m); }
    if forall o: nat :: o < p.N() ==> Covers(m, o) { assert Covers(m, 0); }
  }

  /** The same where no pair is required, for full and partial contractions. */
  lemma FreeTermsOfPairs(p: Problem, avoided: seq<(int, int)>, m: set<Pair>)
    requires WellFormed(p) && !p.topology && (p.full ==> p.N() > 0) && RecordsPairs(p, [], avoided) && p.nConnections == 0
    ensures (exists t :: t in Emitted(p) && WickMatchings.Pairs(t) == m) <==>
              && (forall e :: e in m ==> e.0 < e.1 < p.N() && p.Nop(e.0) != p.Nop(e.1) && (p.ops[e.0], p.ops[e.1]) in p.contractible
                                         && !Named(avoided, p.Nop(e.0), p.Nop(e.1)))
              && (forall e, f :: e in m && f in m && e != f ==> Apart(e, f))
              && (p.full ==> forall o: nat :: o < p.N() ==> Covers(m, o))
  {
    hide WellFormed, Emitted, Named, RecordsPairs;
    NopsBelow(p);
    PairsEnforced(p, [], avoided);
    EmittedOncePerAdmissibleSet(p);
    NothingRequired(p, avoided, m);
  }

  lemma NothingRequired(p: Problem, avoided: seq<(int, int)>, m: set<Pair>)
    requires RecordsPairs(p, [], avoided)
    ensures Connectable(p, m)
  {
  }

  /** The term without contractions is reported for partial contractions without enforced pairs, and only then. */
  lemma EmptyTerm(p: Problem)
    requires WellFormed(p) && (p.full ==> p.N() > 0)
    ensures [] in Emitted(p) <==> !p.full && (p.nConnections == 0 || !p.pairwise)
  {
    hide WellFormed;
    EmittedAreRuns(p);
  }

  lemma NopsBelow(p: Problem)
    requires WellFormed(p)
    ensures p.nnops <= MAX_INPUT_SIZE && forall o :: 0 <= o < p.N() ==> p.Nop(o) < p.nnops
  {
  }
}
