/**
 Topological pruning keeps exactly one contraction set of each class: among the
 leaves of the unpruned search with a given degree matrix, the pruned search
 reaches exactly one.
 */
module WickRepresentatives {
  import opened Sequences
  import opened WickProblem
  import opened WickSearch
  import opened WickMatchings
  import opened WickDegrees
  import opened WickClasses

  // ---- Pruned runs contract every partition from its first operator on ----

  ghost predicate Segment(p: Problem, s: seq<Pair>, a: nat)
    requires a < |p.partitions|
  {
    forall k :: 0 <= k < |p.partitions[a]| ==>
      (p.partitions[a][k] in Ends(s) <==> k < Contracted(p.partitionOf, s, a))
  }

  ghost predicate Segments(p: Problem, s: seq<Pair>) {
    forall a :: 0 <= a < |p.partitions| ==> Segment(p, s, a)
  }

  lemma RankOf(p: Problem, o: nat)
    requires WellFormed(p) && o < p.N()
    ensures p.partitionOf[o] < |p.partitions|
    ensures p.Rank(o) < |p.partitions[p.partitionOf[o]]| && p.partitions[p.partitionOf[o]][p.Rank(o)] == o
  {
  }

  lemma PartitionFacts(p: Problem, a: nat)
    requires WellFormed(p) && a < |p.partitions|
    ensures Increasing(p.partitions[a])
    ensures forall k :: 0 <= k < |p.partitions[a]| ==>
              p.partitions[a][k] < p.N() && p.partitionOf[p.partitions[a][k]] == a
  {
  }

  /** An uncontracted operator before which its whole partition is contracted is the next of its partition. */
  lemma NextInPartition(p: Problem, s: seq<Pair>, o: nat)
    requires WellFormed(p) && o < p.N() && o !in Ends(s)
    requires p.partitionOf[o] < |p.partitions| && Segment(p, s, p.partitionOf[o])
    requires forall x: nat :: x < o && p.partitionOf[x] == p.partitionOf[o] ==> x in Ends(s)
    ensures Contracted(p.partitionOf, s, p.partitionOf[o]) == p.Rank(o)
  {
    var a := p.partitionOf[o];
    RankOf(p, o);
    PartitionFacts(p, a);
    hide WellFormed, Ends, Contracted;
    var c := Contracted(p.partitionOf, s, a);
    if c < |p.partitions[a]| { IncreasingOrder(p.partitions[a], c, p.Rank(o)); }
  }

  lemma LeftRank(p: Problem, s: seq<Pair>, e: Pair)
    requires WellFormed(p) && p.topology && Segments(p, s) && CanExtend(p, s, e)
    ensures Contracted(p.partitionOf, s, p.partitionOf[e.0]) == p.Rank(e.0)
  {
    if p.full {
      RankOf(p, e.0);
      NextInPartition(p, s, e.0);
    }
  }

  lemma SegmentSnoc(p: Problem, s: seq<Pair>, e: Pair, a: nat)
    requires WellFormed(p) && a < |p.partitions| && Segment(p, s, a)
    requires e.0 < p.N() && e.1 < p.N() && p.partitionOf[e.0] != p.partitionOf[e.1]
    requires p.partitionOf[e.0] == a ==> Contracted(p.partitionOf, s, a) == p.Rank(e.0)
    requires p.partitionOf[e.1] == a ==> Contracted(p.partitionOf, s, a) == p.Rank(e.1)
    ensures Segment(p, s + [e], a)
  {
    hide WellFormed, Ends, Contracted, Degrees;
    PartsInRange(p);
    RankOf(p, e.0);
    RankOf(p, e.1);
    PartitionFacts(p, a);
    EndsSnoc(s, e);
    DegreesSnoc(p.partitionOf, s, e);
    var q, c := p.partitions[a], Contracted(p.partitionOf, s, a);
    forall k | 0 <= k < |q| ensures q[k] in Ends(s + [e]) <==> k < Contracted(p.partitionOf, s + [e], a) {
      assert p.partitionOf[q[k]] == a;
      if p.partitionOf[e.0] == a || p.partitionOf[e.1] == a { IncreasingOrder(q, k, c); }
    }
  }

  lemma PairPartitions(p: Problem, s: seq<Pair>, e: Pair)
    requires WellFormed(p) && CanExtend(p, s, e)
    ensures PairOk(p, e) && |p.partitionOf| == p.N() && p.partitionOf[e.0] != p.partitionOf[e.1]
  {
    NopOfMember(p, e.0);
    NopOfMember(p, e.1);
  }

  lemma {:induction false} RunSegments(p: Problem, s: seq<Pair>)
    requires WellFormed(p) && p.topology && IsRun(p, s)
    ensures Segments(p, s)
  {
    hide WellFormed, CanExtend;
    if s != [] {
      var u, e := Init(s), Last(s);
      assert u + [e] == s;
      RunSegments(p, u);
      LeftRank(p, u, e);
      PairPartitions(p, u, e);
      RightRank(p, u, e);
      forall a | 0 <= a < |p.partitions| ensures Segment(p, s, a) {
        assert Segment(p, u, a);
        SegmentSnoc(p, u, e, a);
      }
    } else {
      forall a | 0 <= a < |p.partitions| ensures Segment(p, s, a) {}
    }
  }

  lemma RightRank(p: Problem, s: seq<Pair>, e: Pair)
    requires WellFormed(p) && p.topology && CanExtend(p, s, e)
    ensures Contracted(p.partitionOf, s, p.partitionOf[e.1]) == p.Rank(e.1)
  {
  }

  // ---- At most one ----

  /** Two pruned leaves with the same degrees cannot part. */
  lemma {:induction false} SamePrefix(p: Problem, s: seq<Pair>, t: seq<Pair>, k: nat)
    requires WellFormed(p) && p.topology && IsRun(p, s) && IsRun(p, t)
    requires Degrees(p.partitionOf, s) == Degrees(p.partitionOf, t)
    requires k <= |s| && |s| == |t| && s[..k] == t[..k]
    ensures s == t
    decreases |s| - k
  {
    hide WellFormed, IsRun;
    if k == |s| {
      assert s == s[..k] && t == t[..k];
    } else {
      var u := s[..k];
      LeftsAgree(p, s, t, k);
      LeftsAgree(p, t, s, k);
      RightsAgree(p, s, t, k);
      assert s[..k + 1] == u + [s[k]] && t[..k + 1] == u + [t[k]];
      SamePrefix(p, s, t, k + 1);
    }
  }

  /** A left operator that one leaf contracts cannot be passed over by another with the same degrees. */
  lemma LeftsAgree(p: Problem, s: seq<Pair>, t: seq<Pair>, k: nat)
    requires WellFormed(p) && p.topology && IsRun(p, s) && IsRun(p, t)
    requires Degrees(p.partitionOf, s) == Degrees(p.partitionOf, t)
    requires k < |s| && k < |t| && s[..k] == t[..k]
    ensures s[k].0 >= t[k].0
  {
    hide WellFormed, IsRun, CanExtend, Degrees, Ends;
    RunStep(p, s, k);
    RunStep(p, t, k);
    var u, e := s[..k], s[k];
    ExtensionFacts(p, u, e);
    ExtensionFacts(p, u, t[k]);
    if e.0 < t[k].0 {
      NotLaterEnd(p, t, k, e.0);
      SharedKeyLater(p, s, t, k);
      var n := LaterKey(p.partitionOf, t, k, Key(p.partitionOf, e));
      RunStep(p, t, n);
      ExtensionFacts(p, t[..n], t[n]);
      LeftsIncrease(p, t);
      SegmentCovers(p, t, n, e.0);
    }
  }

  lemma ExtensionFacts(p: Problem, s: seq<Pair>, e: Pair)
    requires WellFormed(p) && CanExtend(p, s, e)
    ensures e.0 < e.1 < p.N() == |p.partitionOf| && e.0 !in Ends(s) && e.1 !in Ends(s)
    ensures s != [] ==> Last(s).0 < e.0
    ensures p.full ==> forall x: nat :: x < e.0 ==> x in Ends(s)
  {
  }

  /** The rest of a run touches only operators right of its next left one. */
  lemma NotLaterEnd(p: Problem, t: seq<Pair>, k: nat, o: nat)
    requires WellFormed(p) && IsRun(p, t) && k < |t| && o < t[k].0 && o !in Ends(t[..k])
    ensures o !in Ends(t)
  {
    hide WellFormed, IsRun, CanExtend, Ends;
    EndsCovered(t);
    LeftsIncrease(p, t);
    forall m | 0 <= m < |t| ensures !Touches(t[m], o) {
      RunStep(p, t, m);
      ExtensionFacts(p, t[..m], t[m]);
      if m < k {
        EndsMono(t[..k], m);
        assert t[..k][m] == t[m];
      }
    }
  }

  lemma SharedKeyLater(p: Problem, s: seq<Pair>, t: seq<Pair>, k: nat)
    requires Degrees(p.partitionOf, s) == Degrees(p.partitionOf, t)
    requires k < |s| && k <= |t| && s[..k] == t[..k]
    ensures Degrees(p.partitionOf, t[..k])[Key(p.partitionOf, s[k])] < Degrees(p.partitionOf, t)[Key(p.partitionOf, s[k])]
  {
    DegreesSnoc(p.partitionOf, s[..k], s[k]);
    assert s[..k + 1] == s[..k] + [s[k]];
    DegreesPrefix(p.partitionOf, s, k + 1);
  }

  /** If a leaf contracts an operator, it contracts those before it in the same partition. */
  lemma SegmentCovers(p: Problem, t: seq<Pair>, n: nat, o: nat)
    requires WellFormed(p) && p.topology && IsRun(p, t) && n < |t| && t[n].0 < p.N() == |p.partitionOf|
    requires o < t[n].0 && p.partitionOf[o] == p.partitionOf[t[n].0]
    ensures o in Ends(t)
  {
    RunSegments(p, t);
    EndsMono(t, n);
    RankOf(p, o);
    RankOf(p, t[n].0);
    var a := p.partitionOf[o];
    PartitionFacts(p, a);
    hide WellFormed, IsRun, Ends, Contracted;
    assert Segment(p, t, a);
    var q := p.partitions[a];
    IncreasingOrder(q, p.Rank(o), p.Rank(t[n].0));
    assert q[p.Rank(t[n].0)] in Ends(t);
  }

  lemma RightsAgree(p: Problem, s: seq<Pair>, t: seq<Pair>, k: nat)
    requires WellFormed(p) && p.topology && IsRun(p, s) && IsRun(p, t)
    requires Degrees(p.partitionOf, s) == Degrees(p.partitionOf, t)
    requires k < |s| && k < |t| && s[..k] == t[..k] && s[k].0 == t[k].0
    ensures s[k] == t[k]
  {
    RunStep(p, s, k);
    RunStep(p, t, k);
    var u, e, f := s[..k], s[k], t[k];
    ExtensionFacts(p, u, e);
    ExtensionFacts(p, u, f);
    RankOf(p, e.1);
    RankOf(p, f.1);
    RightRank(p, u, e);
    RightRank(p, u, f);
    hide WellFormed, IsRun, CanExtend;
    RightOrder(p, s, t, k);
    RightOrder(p, t, s, k);
  }

  /** Once a partition is joined to a later one it cannot return to an earlier one that it still needs. */
  lemma RightOrder(p: Problem, s: seq<Pair>, t: seq<Pair>, k: nat)
    requires WellFormed(p) && p.topology && IsRun(p, s) && IsRun(p, t)
    requires Degrees(p.partitionOf, s) == Degrees(p.partitionOf, t)
    requires k < |s| && k < |t| && s[..k] == t[..k] && s[k].0 == t[k].0
    requires s[k].0 < p.N() && s[k].1 < p.N() && t[k].1 < p.N()
    ensures p.partitionOf[s[k].1] >= p.partitionOf[t[k].1]
  {
    hide WellFormed, IsRun, CanExtend, Degrees;
    var part, e, f := p.partitionOf, s[k], t[k];
    PartsInRange(p);
    if part[e.1] < part[f.1] {
      SharedKeyLater(p, s, t, k);
      var n := LaterKey(part, t, k, Key(part, e));
      RunStep(p, t, n);
      var v := t[..n];
      ExtensionFacts(p, v, t[n]);
      assert v[k] == f;
      DegreesMember(part, v, k);
      RowClosed(p, v, t[n], part[f.1]);
    }
  }

  lemma RowClosed(p: Problem, s: seq<Pair>, e: Pair, q: nat)
    requires WellFormed(p) && p.topology && CanExtend(p, s, e)
    requires p.partitionOf[e.1] < q < |p.partitions|
    ensures Degrees(p.partitionOf, s)[(p.partitionOf[e.0], q)] == 0
  {
  }

  // ---- At least one ----

  /** Partitions still needed have no uncontracted operator before i. */
  ghost predicate Tight(p: Problem, w: seq<Pair>, s: seq<Pair>, i: nat) {
    forall o: nat :: o < i && o < |p.partitionOf| && RestDegree(p, w, s, p.partitionOf[o]) > 0 ==> o in Ends(s)
  }

  /** No partition has been joined to one past those its row still needs. */
  ghost predicate RowsInOrder(p: Problem, w: seq<Pair>, s: seq<Pair>) {
    forall a, b, c :: b < c && Rest(p, w, s)[(a, b)] > 0 ==> Degrees(p.partitionOf, s)[(a, c)] == 0
  }

  /** What the scan keeps besides the budget, so that the next contraction passes the pruning rule. */
  ghost predicate Ready(p: Problem, w: seq<Pair>, s: seq<Pair>, i: nat) {
    |p.partitionOf| == p.N() && Tight(p, w, s, i) && RowsInOrder(p, w, s)
  }

  /** Scanning the operators, contract each with the first partition its row still needs. */
  lemma {:induction false} Representative(p: Problem, w: seq<Pair>, s: seq<Pair>, i: nat) returns (t: seq<Pair>)
    requires WellFormed(p) && PlainLeaf(p, w) && Equivalences(p) && p.topology
    requires IsRun(p, s) && (s != [] ==> Last(s).0 < i) && Budget(p, w, s, i) && Ready(p, w, s, i)
    ensures IsRun(p, t) && Complete(p, t) && Degrees(p.partitionOf, t) == Degrees(p.partitionOf, w)
    decreases p.N() - i
  {
    hide PlainLeaf, Equivalences, IsRun, WellFormed, Ready, Fits, Within, Degrees;
    if i == p.N() {
      t := s;
      ScanDone(p, w, s);
    } else if i in Ends(s) {
      BudgetTaken(p, w, s, i);
      ReadyTaken(p, w, s, i);
      t := Representative(p, w, s, i + 1);
    } else {
      PartsInRange(p);
      var j := NextContraction(p, w, s, i);
      if j <= i {
        ReadySkip(p, w, s, i);
        t := Representative(p, w, s, i + 1);
      } else {
        RunSnoc(p, s, (i, j));
        t := Representative(p, w, s + [(i, j)], i + 1);
      }
    }
  }

  lemma ReadyTaken(p: Problem, w: seq<Pair>, s: seq<Pair>, i: nat)
    requires Ready(p, w, s, i) && i in Ends(s)
    ensures Ready(p, w, s, i + 1)
  {
    hide Rest, RestDegree, Degrees;
  }

  lemma ReadySkip(p: Problem, w: seq<Pair>, s: seq<Pair>, i: nat)
    requires PlainLeaf(p, w) && Budget(p, w, s, i) && Ready(p, w, s, i) && i < p.N() && i !in Ends(s) && !p.full
    requires RestDegree(p, w, s, p.partitionOf[i]) == 0
    ensures Budget(p, w, s, i + 1) && Ready(p, w, s, i + 1)
  {
    PartsInRange(p);
    FreeSkip(p, s, p.partitionOf[i], i);
    BudgetSkip(p, w, s, i);
    hide PlainLeaf, Rest, RestDegree, Degrees, Budget;
  }

  /** The first entry of row a. */
  lemma {:induction false} FirstEntry(m: multiset<Pair>, a: nat, k: nat) returns (b: nat)
    requires RowSum(m, a, k) > 0
    ensures b < k && m[(a, b)] > 0 && forall c :: 0 <= c < b ==> m[(a, c)] == 0
  {
    if RowSum(m, a, k - 1) > 0 {
      b := FirstEntry(m, a, k - 1);
    } else {
      b := k - 1;
      forall c | 0 <= c < b ensures m[(a, c)] == 0 {
        SumsBound(m, a, c, k - 1);
      }
    }
  }

  /** The operator to contract with i, or 0 if i stays uncontracted. */
  lemma NextContraction(p: Problem, w: seq<Pair>, s: seq<Pair>, i: nat) returns (j: nat)
    requires i < p.N() == |p.partitionOf| && i !in Ends(s)
    requires PlainLeaf(p, w) && Equivalences(p) && p.topology && IsRun(p, s) && (s != [] ==> Last(s).0 < i)
    requires Budget(p, w, s, i) && Ready(p, w, s, i)
    ensures j <= i ==> !p.full && RestDegree(p, w, s, p.partitionOf[i]) == 0
    ensures j > i ==> j < p.N() && CanExtend(p, s, (i, j)) && Budget(p, w, s + [(i, j)], i + 1)
                      && Ready(p, w, s + [(i, j)], i + 1)
  {
    hide Equivalences, IsRun, Complete, Degrees, RowSum, ColSum, WellFormed;
    var a, k, m := p.partitionOf[i], |p.partitions|, Rest(p, w, s);
    NoColumnLeft(p, w, s, i);
    PartsInRange(p);
    if RowSum(m, a, k) == 0 {
      j := 0;
      FreeSkip(p, s, a, i);
    } else {
      var b := FirstEntry(m, a, k);
      j := NextOperator(p, w, s, i, b);
      ContractNext(p, w, s, i, j);
    }
  }

  /** The first free operator of partition b. */
  lemma NextOperator(p: Problem, w: seq<Pair>, s: seq<Pair>, i: nat, b: nat) returns (j: nat)
    requires PlainLeaf(p, w) && Equivalences(p) && p.topology && IsRun(p, s) && Budget(p, w, s, i) && i < p.N()
    requires |p.partitionOf| == p.N() && b < |p.partitions| && Rest(p, w, s)[(p.partitionOf[i], b)] > 0
    ensures i < j < p.N() && j !in Ends(s) && p.partitionOf[j] == b
    ensures p.Rank(j) == Contracted(p.partitionOf, s, b)
  {
    RightPartitionFree(p, w, s, i, b);
    RunSegments(p, s);
    PartitionFacts(p, b);
    assert Segment(p, s, b);
    assert FreeIn(p.partitionOf, s, b, i) != {};
    var o :| o in FreeIn(p.partitionOf, s, b, i);
    RankOf(p, o);
    var c := Contracted(p.partitionOf, s, b);
    assert c <= p.Rank(o);
    j := p.partitions[b][c];
    RankOf(p, j);
    hide WellFormed, IsRun, Complete, Ends, Contracted;
    assert p.Rank(j) == c;
  }

  lemma ContractNext(p: Problem, w: seq<Pair>, s: seq<Pair>, i: nat, j: nat)
    requires i < j < p.N() == |p.partitionOf| && p.partitionOf[j] < |p.partitions|
    requires i !in Ends(s) && j !in Ends(s) && (s != [] ==> Last(s).0 < i)
    requires p.Rank(j) == Contracted(p.partitionOf, s, p.partitionOf[j])
    requires Rest(p, w, s)[(p.partitionOf[i], p.partitionOf[j])] > 0
    requires forall c :: 0 <= c < p.partitionOf[j] ==> Rest(p, w, s)[(p.partitionOf[i], c)] == 0
    requires Budget(p, w, s, i) && Ready(p, w, s, i)
    requires PlainLeaf(p, w) && Equivalences(p) && p.topology && IsRun(p, s)
    ensures CanExtend(p, s, (i, j)) && Budget(p, w, s + [(i, j)], i + 1) && Ready(p, w, s + [(i, j)], i + 1)
  {
    hide IsRun, Complete, Equivalences, Fits;
    PlainRun(p, s);
    ClassExtends(p, w, s, i, j);
    BudgetPair(p, w, s, i, j);
    RunSegments(p, s);
    PassesRule(p, w, s, i, j);
    PlainExtends(p, s, (i, j));
    ReadyPair(p, w, s, i, j);
  }

  lemma PassesRule(p: Problem, w: seq<Pair>, s: seq<Pair>, i: nat, j: nat)
    requires i < j < p.N() == |p.partitionOf| && p.partitionOf[j] < |p.partitions| && i !in Ends(s)
    requires p.Rank(j) == Contracted(p.partitionOf, s, p.partitionOf[j])
    requires Rest(p, w, s)[(p.partitionOf[i], p.partitionOf[j])] > 0
    requires WellFormed(p) && Segments(p, s) && Ready(p, w, s, i)
    ensures TopologicallyUnique(p, s, (i, j))
  {
    PartsInRange(p);
    var a := p.partitionOf[i];
    SumsBound(Rest(p, w, s), a, p.partitionOf[j], |p.partitions|);
    assert RestDegree(p, w, s, a) > 0;
    NextInPartition(p, s, i);
    hide WellFormed, Degrees, Contracted, Rest, RestDegree;
  }

  lemma ReadyPair(p: Problem, w: seq<Pair>, s: seq<Pair>, i: nat, j: nat)
    requires i < j < p.N() == |p.partitionOf| && Ready(p, w, s, i) && Within(p, w, s)
    requires Rest(p, w, s)[(p.partitionOf[i], p.partitionOf[j])] > 0
    requires forall c :: 0 <= c < p.partitionOf[j] ==> Rest(p, w, s)[(p.partitionOf[i], c)] == 0
    requires PartsBelow(p.partitionOf, |p.partitions|)
    ensures Ready(p, w, s + [(i, j)], i + 1)
  {
    hide Degrees, Ends, Rest, Within, RowsInOrder;
    var e, t := (i, j), s + [(i, j)];
    RestSnoc(p, w, s, e);
    EndsSnoc(s, e);
    OrderAfterPair(p, w, s, e);
    forall o: nat | o < i + 1 && RestDegree(p, w, t, p.partitionOf[o]) > 0 ensures o in Ends(t) {
      DegreeAdd(Rest(p, w, t), Key(p.partitionOf, e), p.partitionOf[o], |p.partitions|);
    }
  }

  lemma OrderAfterPair(p: Problem, w: seq<Pair>, s: seq<Pair>, e: Pair)
    requires RowsInOrder(p, w, s) && Within(p, w, s) && Rest(p, w, s)[Key(p.partitionOf, e)] > 0
    requires forall c :: 0 <= c < Key(p.partitionOf, e).1 ==> Rest(p, w, s)[(Key(p.partitionOf, e).0, c)] == 0
    ensures RowsInOrder(p, w, s + [e])
  {
    hide Degrees, Rest, Within;
    RestSnoc(p, w, s, e);
    DegreesSnoc(p.partitionOf, s, e);
  }

  // ---- Exactly one ----

  /** The pruned search emits one and only one member of each class of the unpruned search, and nothing else. */
  lemma OneRepresentativePerClass(p: Problem)
    requires WellFormed(p) && Equivalences(p) && p.topology && (p.full ==> p.N() > 0)
    ensures WellFormed(Plain(p))
    ensures forall t :: t in Emitted(p) ==> t in Emitted(Plain(p))
    ensures forall s, t | s in Emitted(p) && t in Emitted(p) ::
              Degrees(p.partitionOf, s) == Degrees(p.partitionOf, t) ==> s == t
    ensures forall w :: w in Emitted(Plain(p)) ==>
              exists t :: t in Emitted(p) && Degrees(p.partitionOf, t) == Degrees(p.partitionOf, w)
  {
    PlainWellFormed(p);
    hide WellFormed, Equivalences, IsRun, Emitted, Degrees;
    EmittedAreRuns(p);
    EmittedAreRuns(Plain(p));
    forall t | t in Emitted(p) ensures t in Emitted(Plain(p)) {
      PlainRun(p, t);
      assert Complete(Plain(p), t);
    }
    forall s, t | s in Emitted(p) && t in Emitted(p) && Degrees(p.partitionOf, s) == Degrees(p.partitionOf, t)
      ensures s == t
    {
      DegreesSize(p.partitionOf, s);
      DegreesSize(p.partitionOf, t);
      SamePrefix(p, s, t, 0);
    }
    forall w | w in Emitted(Plain(p))
      ensures exists t :: t in Emitted(p) && Degrees(p.partitionOf, t) == Degrees(p.partitionOf, w)
    {
      assert Complete(p, w);
      var t := LeafRepresentative(p, w);
      assert t in Emitted(p);
    }
  }

  lemma LeafRepresentative(p: Problem, w: seq<Pair>) returns (t: seq<Pair>)
    requires PlainLeaf(p, w) && Equivalences(p) && p.topology
    ensures IsRun(p, t) && Complete(p, t) && Degrees(p.partitionOf, t) == Degrees(p.partitionOf, w)
    ensures t == [] <==> w == []
  {
    BudgetStart(p, w);
    PartsInRange(p);
    hide PlainLeaf, Equivalences, Budget;
    t := Representative(p, w, [], 0);
    DegreesSize(p.partitionOf, t);
    DegreesSize(p.partitionOf, w);
  }
}
