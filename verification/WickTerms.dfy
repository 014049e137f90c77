/**
 What is reported for a set of contractions: a weight, a sign, the contractions
 and the normal-ordered rest; and what the sign and the weight mean.
 */
module WickTerms {
  import opened Sequences
  import opened Parity
  import opened WickProblem
  import opened WickMatchings
  import opened WickSearch
  import opened WickState
  import WickPhase
  import WickWeights
  import Factorials
  import PartnerIndices
  import opened NormalOrder

  /**
   The input of compute_nontensor_wick: spinfree says that the vacuum is a single product and the basis spin-free, so
   that closed cycles count twice, in full contractions only those of fermions. The partitions of
   equivalent normal operators are kept up to date by the engine, but decide nothing.
   */
  datatype Input = Input(problem: Problem, partners: seq<(nat, nat)>, spinfree: bool, nopPartitionOf: seq<nat>, nopNPartitions: nat)

  datatype Term = Term(scalar: real, factors: seq<(Op, Op)>, cre: seq<Op>, ann: seq<Op>)

  function Pow2(n: nat): nat {
    if n == 0 then 1 else 2 * Pow2(n - 1)
  }

  /** op_to_input_ordinal_. */
  ghost function OrdinalOf(p: Problem): (ord: map<Op, nat>)
    requires WellFormed(p)
    ensures Ordinals(p, ord)
  {
    map k: nat | k < |p.ops| :: p.ops[k] := k
  }

  /** The multiplicity of the class that t stands for. */
  ghost function Weight(p: Problem, t: seq<Pair>): real {
    Factorials.FactVec(WickWeights.PartitionSizes(p)) as real / WickWeights.Denominator(p, t) as real
  }

  ghost function NormalSign(p: Problem, cre: seq<Op>, ann: seq<Op>): int
    requires WellFormed(p)
  {
    if p.fermi then SignOfOrder(OrdinalOf(p), Storage(cre, ann)) else 1
  }

  /** The uncontracted operators in normal order. */
  ghost function Normal(i: Input, t: seq<Pair>): (seq<Op>, seq<Op>)
    requires WellFormed(i.problem)
  {
    var p := i.problem;
    RemainingInRange(p, t);
    NormalOrdered(NestOf(p, Remaining(p, t)), PartnerIndices.Joined(i.partners, ContractionOps(p, t)).0)
  }

  predicate CountsCycles(i: Input) {
    i.spinfree && (i.problem.fermi || !i.problem.full)
  }

  ghost function CycleFactor(i: Input, t: seq<Pair>): nat {
    if CountsCycles(i) then Pow2(PartnerIndices.Joined(i.partners, ContractionOps(i.problem, t)).1) else 1
  }

  function Scaled(weight: real, cycles: nat, sign: int): real {
    weight * cycles as real * sign as real
  }

  /** What the search adds to the result for t. */
  ghost function TermOf(i: Input, t: seq<Pair>): Term
    requires WellFormed(i.problem)
  {
    var p := i.problem;
    var (cre, ann) := if p.full then ([], []) else Normal(i, t);
    var sign := if p.full then 1 else NormalSign(p, cre, ann);
    Term(Scaled(Weight(p, t), CycleFactor(i, t), WickPhase.Phase(p, t) * sign), ContractionOps(p, t), cre, ann)
  }

  ghost function Terms(i: Input, ts: seq<seq<Pair>>): (r: seq<Term>)
    requires WellFormed(i.problem)
    ensures |r| == |ts|
  {
    seq(|ts|, k requires 0 <= k < |ts| => TermOf(i, ts[k]))
  }

  lemma {:induction false} LabelsPermuted(ord: map<Op, nat>, s: seq<Op>, t: seq<Op>)
    requires multiset(s) == multiset(t) && forall o :: o in s ==> o in ord
    ensures forall o :: o in t ==> o in ord
    ensures multiset(Labels(ord, s)) == multiset(Labels(ord, t))
    decreases |s|
  {
    hide Labels;
    SameMembers(s, t);
    if s == [] {
      assert |t| == |multiset(t)| == 0;
    } else {
      assert s[0] in multiset(t);
      var k :| 0 <= k < |t| && t[k] == s[0];
      RemovedOp(s, t, k);
      LabelsPermuted(ord, s[1..], Erase(t, k));
      LabelSplit(ord, s, 0);
      LabelSplit(ord, t, k);
      Restored(Labels(ord, s), Labels(ord, t), k);
    }
  }

  lemma RemovedOp(s: seq<Op>, t: seq<Op>, k: nat)
    requires s != [] && k < |t| && t[k] == s[0] && multiset(s) == multiset(t)
    ensures multiset(s[1..]) == multiset(Erase(t, k))
    ensures forall o :: o in s[1..] || o in Erase(t, k) ==> o in s || o in t
  {
    assert s == [s[0]] + s[1..];
    assert t == t[..k] + [t[k]] + t[k + 1..];
    assert multiset(s[1..]) == multiset(s) - multiset{s[0]};
    assert multiset(Erase(t, k)) == multiset(t) - multiset{t[k]};
  }

  lemma LabelSplit(ord: map<Op, nat>, s: seq<Op>, k: nat)
    requires k < |s| && forall o :: o in s ==> o in ord
    ensures forall o :: o in Erase(s, k) ==> o in ord
    ensures Labels(ord, Erase(s, k)) == Erase(Labels(ord, s), k) && Labels(ord, s)[k] == ord[s[k]]
    ensures k == 0 ==> Erase(s, k) == s[1..] && Erase(Labels(ord, s), k) == Labels(ord, s)[1..]
  {
    assert forall o :: o in Erase(s, k) ==> o in s;
  }

  lemma Restored(l: seq<nat>, m: seq<nat>, k: nat)
    requires l != [] && k < |m| && l[0] == m[k] && multiset(l[1..]) == multiset(Erase(m, k))
    ensures multiset(l) == multiset(m)
  {
    assert l == [l[0]] + l[1..];
    assert m == m[..k] + [m[k]] + m[k + 1..];
  }

  /** ord names the operators of the input by position. */
  ghost predicate Ordinals(p: Problem, ord: map<Op, nat>) {
    forall k :: 0 <= k < p.N() ==> p.ops[k] in ord && ord[p.ops[k]] == k
  }

  lemma OrdinalLabels(p: Problem, ord: map<Op, nat>, ks: seq<nat>)
    requires Ordinals(p, ord) && InRange(p, ks)
    ensures forall o :: o in OpsAt(p, ks) ==> o in ord
    ensures Labels(ord, OpsAt(p, ks)) == ks
  {
    var rest := OpsAt(p, ks);
    forall o | o in rest ensures o in ord {
      var k :| 0 <= k < |rest| && rest[k] == o;
      assert p.ops[ks[k]] in ord;
    }
  }

  /**
   Contraction signs times the sign of normal ordering is the sign of the
   permutation from the input to [contracted pairs][normal-ordered rest].
   */
  lemma TermSign(p: Problem, s: seq<Pair>, ord: map<Op, nat>, kept: seq<Op>)
    requires p.fermi && WickPhase.Separate(s, p.N()) && Ordinals(p, ord)
    requires InRange(p, Remaining(p, s))
    requires multiset(kept) == multiset(OpsAt(p, Remaining(p, s)))
    ensures forall o :: o in kept ==> o in ord
    ensures WickPhase.Phase(p, s) * SignOfOrder(ord, kept)
            == Sign(Parity.Inversions(WickPhase.Flatten(s) + Labels(ord, kept)))
  {
    hide WickPhase.Separate, WickPhase.Phase, Parity.Inversions, Sign, Labels, OpsAt, Ordinals, RemainingBelow;
    var rem := Remaining(p, s);
    RemainingBelowProps(s, p.N());
    var rest := OpsAt(p, rem);
    OrdinalLabels(p, ord, rem);
    SameMembers(kept, rest);
    LabelsPermuted(ord, rest, kept);
    WickPhase.PhaseIsPermutationSign(p, s);
    CombineSigns(WickPhase.Flatten(s), rem, Labels(ord, kept));
  }

  lemma CombineSigns(a: seq<nat>, b: seq<nat>, c: seq<nat>)
    requires Increasing(b) && multiset(b) == multiset(c)
    ensures Sign(Parity.Inversions(a + b)) * Sign(Parity.Inversions(c)) == Sign(Parity.Inversions(a + c))
  {
    hide Sign, Parity.Inversions, CrossBelow;
    IncreasingHasNoInversions(b);
    InversionsConcat(a, b);
    InversionsConcat(a, c);
    CrossBelowPermuted(a, b, c);
    SignSum(Parity.Inversions(a + b), Parity.Inversions(c));
  }
}
