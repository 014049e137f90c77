/**
 The input of the Wick contraction engine and what an admissible set of
 contractions is. Operators are named by their ordinal in the flattened input.
 */
module WickProblem {
  import opened Sequences

  datatype Action = Create | Annihilate

  datatype Op = Op(id: nat, action: Action, nop: nat)

  /** How the engine compares operators. */
  predicate SameOp(a: Op, b: Op) {
    a.id == b.id && a.action == b.action
  }

  /** A contraction: the ordinals of its left and right operators. */
  type Pair = (nat, nat)

  /** Width of the connection bitmasks. */
  const MAX_INPUT_SIZE: nat := 32

  /**
   The fields of WickTheorem that the search reads. A bitmask is the set of its
   set bits; required and avoided are reverse masks (a clear bit names a pair)
   and are empty if no pair was ever given; nConnections is the number of required
   pairs given last. Partitions are numbered from 0.
   */
  datatype Problem = Problem(
    ops: seq<Op>,
    nnops: nat,
    full: bool,
    topology: bool,
    fermi: bool,
    qpAnnihilators: set<Op>,
    contractible: set<(Op, Op)>,
    pairwise: bool,
    nConnections: nat,
    required: seq<set<nat>>,
    avoided: seq<set<nat>>,
    partitions: seq<seq<nat>>,
    partitionOf: seq<nat>)
  {
    function N(): nat { |ops| }

    function Nop(o: nat): nat
      requires o < N()
    {
      ops[o].nop
    }

    /** The masks the search enforces; required pairs are ignored when a cumulant may connect operators later. */
    function Targets(): seq<set<nat>> {
      if pairwise then required else []
    }

    /** The normal operators that x must be connected to. */
    function Required(x: nat): set<nat> {
      if x < |Targets()| then Flip(Targets()[x]) else {}
    }

    /** Whether the term without contractions is wanted. */
    predicate Unconstrained() {
      nConnections == 0 || !pairwise
    }

    predicate Allowed(x: nat, y: nat) {
      avoided == [] || (x < |avoided| && y in avoided[x])
    }

    /** Position of operator o in its partition. */
    function Rank(o: nat): nat
      requires o < |partitionOf| && partitionOf[o] < |partitions|
    {
      IndexIn(partitions[partitionOf[o]], o)
    }
  }

  /** A single contraction that nothing forbids. */
  predicate PairOk(p: Problem, e: Pair) {
    && e.0 < e.1 < p.N()
    && p.Nop(e.0) != p.Nop(e.1)
    && (p.ops[e.0], p.ops[e.1]) in p.contractible
    && p.Allowed(p.Nop(e.0), p.Nop(e.1))
  }

  ghost predicate WellFormed(p: Problem) {
    && (forall k :: 0 <= k < p.N() ==> p.ops[k].nop < p.nnops)
    && (forall i, j :: 0 <= i < j < p.N() ==> p.ops[i].nop <= p.ops[j].nop && !SameOp(p.ops[i], p.ops[j]))
    && p.nnops <= MAX_INPUT_SIZE
    && (forall a, b :: (a, b) in p.contractible ==> a in p.qpAnnihilators)
    && ReverseMask(p.required, p.nnops)
    && ReverseMask(p.avoided, p.nnops)
    && PartitionsCover(p.partitions, p.partitionOf, p.N())
    && (forall i, j :: 0 <= i < j < p.N() && p.partitionOf[i] == p.partitionOf[j] ==> p.Nop(i) == p.Nop(j))
  }

  /** What use of topology assumes: operators of a partition contract alike. */
  ghost predicate Equivalences(p: Problem)
    requires WellFormed(p)
  {
    forall i, j, k, l | 0 <= i < p.N() && 0 <= j < p.N() && 0 <= k < p.N() && 0 <= l < p.N() ::
      (p.partitionOf[i] == p.partitionOf[k] && p.partitionOf[j] == p.partitionOf[l]
       && (p.ops[i], p.ops[j]) in p.contractible) ==> (p.ops[k], p.ops[l]) in p.contractible
  }

  function Flip(mask: set<nat>): set<nat> {
    set y: nat | y < MAX_INPUT_SIZE && y !in mask
  }

  ghost predicate ReverseMask(mask: seq<set<nat>>, n: nat) {
    mask == [] || (
      && |mask| == n
      && (forall x, y {:trigger y in Flip(mask[x])} :: 0 <= x < n && y in Flip(mask[x]) ==> y < n && x in Flip(mask[y])))
  }

  function IndexIn(s: seq<nat>, x: nat): (k: nat)
    ensures k <= |s|
    ensures k < |s| ==> s[k] == x
    ensures x in s ==> k < |s|
    ensures forall i :: 0 <= i < k ==> s[i] != x
  {
    if s == [] || s[0] == x then 0 else 1 + IndexIn(s[1..], x)
  }

  /** Partitions are increasing sequences; each operator is in the one partitionOf names. */
  ghost predicate PartitionsCover(partitions: seq<seq<nat>>, partitionOf: seq<nat>, n: nat) {
    && |partitionOf| == n
    && (forall o :: 0 <= o < n ==> partitionOf[o] < |partitions| && o in partitions[partitionOf[o]])
    && (forall a, k :: 0 <= a < |partitions| && 0 <= k < |partitions[a]| ==>
          partitions[a][k] < n && partitionOf[partitions[a][k]] == a)
    && (forall a :: 0 <= a < |partitions| ==> partitions[a] != [] && Increasing(partitions[a]))
    && (forall a, b :: 0 <= a < b < |partitions| ==> partitions[a][0] < partitions[b][0])
  }

  // ---- Lists of contractions ----

  /** Ordinals of the contracted operators. */
  ghost function Ends(s: seq<Pair>): set<nat> {
    if s == [] then {} else Ends(Init(s)) + {Last(s).0, Last(s).1}
  }

  ghost predicate Connected(p: Problem, s: seq<Pair>, x: nat, y: nat) {
    exists k :: 0 <= k < |s| && Links(p, s[k], x, y)
  }

  /** Contraction e joins normal operators x and y. */
  predicate Links(p: Problem, e: Pair, x: nat, y: nat) {
    && e.0 < p.N() && e.1 < p.N()
    && ((p.Nop(e.0) == x && p.Nop(e.1) == y) || (p.Nop(e.0) == y && p.Nop(e.1) == x))
  }

  /** Required partners of x that s does not connect it to. */
  ghost function Unmet(p: Problem, s: seq<Pair>, x: nat): set<nat> {
    set y | y in p.Required(x) && !Connected(p, s, x, y)
  }

  /** Operators of x that s leaves uncontracted. */
  ghost function Free(p: Problem, s: seq<Pair>, x: nat): set<nat> {
    set o: nat | o < p.N() && p.Nop(o) == x && o !in Ends(s)
  }

  /** x has enough uncontracted operators for the connections it still needs. */
  ghost predicate NopFeasible(p: Problem, s: seq<Pair>, x: nat) {
    |Unmet(p, s, x)| <= |Free(p, s, x)|
  }

  /** Number of contracted operators in partition a, given the partition of each operator. */
  ghost function Contracted(part: seq<nat>, s: seq<Pair>, a: nat): nat {
    if s == [] then 0
    else Contracted(part, Init(s), a) + EndsIn(part, Last(s), a)
  }

  function EndsIn(part: seq<nat>, e: Pair, a: nat): nat {
    (if e.0 < |part| && part[e.0] == a then 1 else 0) + (if e.1 < |part| && part[e.1] == a then 1 else 0)
  }

  /** The contraction-degree matrix: how many contractions join each pair of partitions. */
  ghost function Degrees(part: seq<nat>, s: seq<Pair>): multiset<Pair> {
    if s == [] then multiset{}
    else Degrees(part, Init(s)) + multiset{Key(part, Last(s))}
  }

  /** Partitions of the two operators of e. */
  function Key(part: seq<nat>, e: Pair): Pair {
    (if e.0 < |part| then part[e.0] else 0, if e.1 < |part| then part[e.1] else 0)
  }

  // ---- What the search accepts ----

  ghost predicate ConnectOk(p: Problem, s: seq<Pair>, e: Pair)
    requires WellFormed(p) && e.0 < p.N() && e.1 < p.N()
  {
    && p.Allowed(p.Nop(e.0), p.Nop(e.1))
    && (p.Targets() != [] ==>
          NopFeasible(p, s + [e], p.Nop(e.0)) && NopFeasible(p, s + [e], p.Nop(e.1)))
  }

  /** The pruning rule of is_topologically_unique. */
  ghost predicate TopologicallyUnique(p: Problem, s: seq<Pair>, e: Pair)
    requires WellFormed(p) && e.0 < p.N() && e.1 < p.N()
  {
    var a, b := p.partitionOf[e.0], p.partitionOf[e.1];
    p.topology ==>
      && (!p.full ==> Contracted(p.partitionOf, s, a) == p.Rank(e.0))
      && (forall q :: b < q < |p.partitions| ==> Degrees(p.partitionOf, s)[(a, q)] == 0)
      && Contracted(p.partitionOf, s, b) == p.Rank(e.1)
  }

  ghost predicate CanExtend(p: Problem, s: seq<Pair>, e: Pair)
    requires WellFormed(p)
  {
    && PairOk(p, e)
    && e.0 !in Ends(s) && e.1 !in Ends(s)
    && (s != [] ==> Last(s).0 < e.0)
    && (p.full ==> forall x: nat :: x < e.0 ==> x in Ends(s))
    && TopologicallyUnique(p, s, e)
    && ConnectOk(p, s, e)
  }

  /** A path of the search tree: every contraction was accepted after those before it. */
  ghost predicate IsRun(p: Problem, s: seq<Pair>)
    requires WellFormed(p)
  {
    s == [] || (IsRun(p, Init(s)) && CanExtend(p, Init(s), Last(s)))
  }

  ghost predicate AllTaken(s: seq<Pair>, n: nat) {
    forall x: nat :: x < n ==> x in Ends(s)
  }

  ghost predicate Complete(p: Problem, s: seq<Pair>) {
    p.full ==> AllTaken(s, p.N())
  }

  // ---- The uncontracted operators ----

  /** Uncontracted operators below n, in input order. */
  ghost function RemainingBelow(s: seq<Pair>, n: nat): seq<nat> {
    if n == 0 then []
    else RemainingBelow(s, n - 1) + (if n - 1 in Ends(s) then [] else [n - 1])
  }

  ghost function Remaining(p: Problem, s: seq<Pair>): seq<nat> {
    RemainingBelow(s, p.N())
  }

  lemma {:induction false} RemainingBelowProps(s: seq<Pair>, n: nat)
    ensures Increasing(RemainingBelow(s, n))
    ensures forall x: nat :: x in RemainingBelow(s, n) <==> x < n && x !in Ends(s)
  {
    if n > 0 {
      RemainingBelowProps(s, n - 1);
      var r, t := RemainingBelow(s, n - 1), RemainingBelow(s, n);
      forall k | 0 <= k < |r| ensures r[k] < n - 1 { assert r[k] in r; }
      forall x: nat ensures x in t <==> x < n && x !in Ends(s) {
        if x in r { var k :| 0 <= k < |r| && r[k] == x; assert t[k] == x; }
        if x in t { var k :| 0 <= k < |t| && t[k] == x; assert k < |r| ==> r[k] == x; }
        if x == n - 1 && x !in Ends(s) { assert t[|r|] == x; }
      }
    }
  }

  lemma EndsSnoc(s: seq<Pair>, e: Pair)
    ensures Ends(s + [e]) == Ends(s) + {e.0, e.1}
  {
    assert Init(s + [e]) == s;
  }

  /** Contracting the operators at positions i < j erases them from the remaining ones. */
  lemma RemainingSnoc(p: Problem, s: seq<Pair>, i: nat, j: nat)
    requires i < j < |Remaining(p, s)|
    ensures var rem := Remaining(p, s);
            Remaining(p, s + [(rem[i], rem[j])]) == Erase(Erase(rem, j), i)
  {
    var rem := Remaining(p, s);
    var e := (rem[i], rem[j]);
    RemainingBelowProps(s, p.N());
    RemainingBelowProps(s + [e], p.N());
    EndsSnoc(s, e);
    EraseIncreasing(rem, j);
    assert Erase(rem, j)[i] == rem[i];
    EraseIncreasing(Erase(rem, j), i);
    IncreasingUnique(Remaining(p, s + [e]), Erase(Erase(rem, j), i));
  }

  lemma {:induction false} RunPrefix(p: Problem, s: seq<Pair>, n: nat)
    requires WellFormed(p) && IsRun(p, s) && n <= |s|
    ensures IsRun(p, s[..n])
    decreases |s|
  {
    hide WellFormed, CanExtend;
    if n == |s| {
      assert s[..n] == s;
    } else {
      RunPrefix(p, Init(s), n);
      assert Init(s)[..n] == s[..n];
    }
  }

  lemma RunStep(p: Problem, s: seq<Pair>, n: nat)
    requires WellFormed(p) && IsRun(p, s) && n < |s|
    ensures IsRun(p, s[..n]) && CanExtend(p, s[..n], s[n])
  {
    hide WellFormed, CanExtend;
    RunPrefix(p, s, n + 1);
    RunPrefix(p, s, n);
    assert Init(s[..n + 1]) == s[..n] && Last(s[..n + 1]) == s[n];
  }

  lemma RunSnoc(p: Problem, s: seq<Pair>, e: Pair)
    requires WellFormed(p)
    ensures IsRun(p, s + [e]) <==> IsRun(p, s) && CanExtend(p, s, e)
  {
    assert Init(s + [e]) == s && Last(s + [e]) == e;
  }

  lemma {:induction false} EndsMono(s: seq<Pair>, n: nat)
    requires n <= |s|
    ensures Ends(s[..n]) <= Ends(s)
    ensures forall k :: n <= k < |s| ==> s[k].0 in Ends(s) && s[k].1 in Ends(s)
    decreases |s|
  {
    if n == |s| {
      assert s[..n] == s;
    } else {
      EndsMono(Init(s), n);
      assert Init(s)[..n] == s[..n];
      forall k | n <= k < |s| ensures s[k].0 in Ends(s) && s[k].1 in Ends(s) {
        if k < |s| - 1 { assert s[k] == Init(s)[k]; }
      }
    }
  }

  lemma {:induction false} LeftsIncrease(p: Problem, s: seq<Pair>)
    requires WellFormed(p) && IsRun(p, s)
    ensures forall i, j :: 0 <= i < j < |s| ==> s[i].0 < s[j].0
  {
    if s != [] {
      LeftsIncrease(p, Init(s));
      forall i, j | 0 <= i < j < |s| ensures s[i].0 < s[j].0 {
        if j == |s| - 1 {
          if i < j - 1 { assert Init(s)[i].0 < Init(s)[j - 1].0; }
          assert Last(Init(s)) == s[j - 1];
        } else {
          assert Init(s)[i].0 < Init(s)[j].0;
        }
      }
    }
  }
}
