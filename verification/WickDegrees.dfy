/**
 Contraction-degree matrices: how many operators of a partition or of a normal
 operator a matrix contracts, and why whether connections can be completed
 depends on the matrix alone.
 */
module WickDegrees {
  import opened Sequences
  import opened WickProblem
  import opened WickMatchings
  import opened WickPhase

  // ---- Row and column sums ----

  ghost function RowSum(d: multiset<Pair>, a: nat, k: nat): nat {
    if k == 0 then 0 else RowSum(d, a, k - 1) + d[(a, k - 1)]
  }

  ghost function ColSum(d: multiset<Pair>, a: nat, k: nat): nat {
    if k == 0 then 0 else ColSum(d, a, k - 1) + d[(k - 1, a)]
  }

  /** Number of operators of partition a that the matrix d contracts, of k partitions. */
  ghost function Degree(d: multiset<Pair>, a: nat, k: nat): nat {
    RowSum(d, a, k) + ColSum(d, a, k)
  }

  lemma {:induction false} SumsAdd(d: multiset<Pair>, e: Pair, a: nat, k: nat)
    ensures RowSum(d + multiset{e}, a, k) == RowSum(d, a, k) + (if e.0 == a && e.1 < k then 1 else 0)
    ensures ColSum(d + multiset{e}, a, k) == ColSum(d, a, k) + (if e.1 == a && e.0 < k then 1 else 0)
  {
    if k > 0 {
      SumsAdd(d, e, a, k - 1);
      assert (a, k - 1) == e <==> e.0 == a && e.1 == k - 1;
      assert (k - 1, a) == e <==> e.1 == a && e.0 == k - 1;
    }
  }

  lemma DegreeAdd(d: multiset<Pair>, e: Pair, a: nat, k: nat)
    requires e.0 < k && e.1 < k
    ensures Degree(d + multiset{e}, a, k) ==
            Degree(d, a, k) + (if e.0 == a then 1 else 0) + (if e.1 == a then 1 else 0)
  {
    SumsAdd(d, e, a, k);
  }

  lemma {:induction false} SumsBound(d: multiset<Pair>, a: nat, b: nat, k: nat)
    requires b < k
    ensures d[(a, b)] <= RowSum(d, a, k) && d[(b, a)] <= ColSum(d, a, k)
  {
    if b < k - 1 { SumsBound(d, a, b, k - 1); }
  }

  lemma {:induction false} ColSumZero(d: multiset<Pair>, a: nat, k: nat)
    requires forall b :: 0 <= b < k ==> d[(b, a)] == 0
    ensures ColSum(d, a, k) == 0
  {
    if k > 0 { ColSumZero(d, a, k - 1); }
  }

  // ---- Degrees of lists ----

  lemma DegreesSnoc(part: seq<nat>, s: seq<Pair>, e: Pair)
    ensures Degrees(part, s + [e]) == Degrees(part, s) + multiset{Key(part, e)}
    ensures forall a :: Contracted(part, s + [e], a) == Contracted(part, s, a) + EndsIn(part, e, a)
  {
    assert Init(s + [e]) == s;
  }

  lemma {:induction false} DegreesPrefix(part: seq<nat>, s: seq<Pair>, n: nat)
    requires n <= |s|
    ensures Degrees(part, s[..n]) <= Degrees(part, s)
    decreases |s|
  {
    if n == |s| {
      assert s[..n] == s;
    } else {
      DegreesPrefix(part, Init(s), n);
      assert Init(s)[..n] == s[..n];
    }
  }

  lemma {:induction false} DegreesMember(part: seq<nat>, s: seq<Pair>, n: nat)
    requires n < |s|
    ensures Degrees(part, s)[Key(part, s[n])] > 0
  {
    if n < |s| - 1 {
      DegreesMember(part, Init(s), n);
      assert Init(s)[n] == s[n];
    }
  }

  lemma {:induction false} DegreesSize(part: seq<nat>, s: seq<Pair>)
    ensures |Degrees(part, s)| == |s|
  {
    if s != [] { DegreesSize(part, Init(s)); }
  }

  /** A key counted more often by s than by its prefix of length n occurs after it. */
  lemma {:induction false} LaterKey(part: seq<nat>, s: seq<Pair>, n: nat, key: Pair) returns (k: nat)
    requires n <= |s| && Degrees(part, s[..n])[key] < Degrees(part, s)[key]
    ensures n <= k < |s| && Key(part, s[k]) == key
    decreases |s|
  {
    assert s[..|s|] == s;
    assert n < |s|;
    if Key(part, Last(s)) == key {
      k := |s| - 1;
    } else {
      assert Init(s)[..n] == s[..n];
      k := LaterKey(part, Init(s), n, key);
      assert Init(s)[k] == s[k];
    }
  }

  ghost predicate PartsBelow(part: seq<nat>, k: nat) {
    forall o :: 0 <= o < |part| ==> part[o] < k
  }

  lemma {:induction false} ContractedIsDegree(part: seq<nat>, s: seq<Pair>, a: nat, k: nat)
    requires PartsBelow(part, k) && Separate(s, |part|)
    ensures Contracted(part, s, a) == Degree(Degrees(part, s), a, k)
  {
    if s == [] {
      EmptySums(a, k);
    } else {
      SeparateInit(s, |part|);
      ContractedIsDegree(part, Init(s), a, k);
      DegreeAdd(Degrees(part, Init(s)), Key(part, Last(s)), a, k);
    }
  }

  lemma {:induction false} EmptySums(a: nat, k: nat)
    ensures RowSum(multiset{}, a, k) == 0 && ColSum(multiset{}, a, k) == 0
  {
    if k > 0 { EmptySums(a, k - 1); }
  }

  /** The contracted operators of partition a. */
  ghost function ContractedSet(part: seq<nat>, s: seq<Pair>, a: nat): set<nat> {
    set o | o in Ends(s) && o < |part| && part[o] == a
  }

  lemma {:induction false} ContractedSize(part: seq<nat>, s: seq<Pair>, a: nat)
    requires Separate(s, |part|)
    ensures |ContractedSet(part, s, a)| == Contracted(part, s, a)
  {
    hide Separate;
    if s == [] {
      assert ContractedSet(part, s, a) == {};
    } else {
      hide ContractedSet;
      SeparateInit(s, |part|);
      LastInRange(s, |part|);
      ContractedSize(part, Init(s), a);
      assert Init(s) + [Last(s)] == s;
      ContractedSnoc(part, Init(s), Last(s), a);
    }
  }

  lemma ContractedSnoc(part: seq<nat>, s: seq<Pair>, e: Pair, a: nat)
    requires e.0 < e.1 < |part| && e.0 !in Ends(s) && e.1 !in Ends(s)
    ensures |ContractedSet(part, s + [e], a)| == |ContractedSet(part, s, a)| + EndsIn(part, e, a)
  {
    EndsSnoc(s, e);
    hide Ends;
    var c := ContractedSet(part, s, a);
    var c0 := if part[e.0] == a then c + {e.0} else c;
    assert ContractedSet(part, s + [e], a) == if part[e.1] == a then c0 + {e.1} else c0;
  }

  /** Uncontracted operators of partition a at or after i. */
  ghost function FreeIn(part: seq<nat>, s: seq<Pair>, a: nat, i: nat): set<nat> {
    set o: nat | i <= o < |part| && part[o] == a && o !in Ends(s)
  }

  // ---- Connections depend on the degrees only ----

  ghost function NopOf(p: Problem, a: nat): nat
    requires WellFormed(p) && a < |p.partitions|
  {
    p.Nop(p.partitions[a][0])
  }

  lemma NopOfMember(p: Problem, o: nat)
    requires WellFormed(p) && o < p.N()
    ensures p.partitionOf[o] < |p.partitions| && NopOf(p, p.partitionOf[o]) == p.Nop(o)
  {
    var a := p.partitionOf[o];
    assert p.partitionOf[p.partitions[a][0]] == a;
  }

  /** Number of operators of normal operator x that the matrix contracts, over the first k partitions. */
  ghost function NopDegree(p: Problem, d: multiset<Pair>, x: nat, k: nat): nat
    requires WellFormed(p) && k <= |p.partitions|
  {
    if k == 0 then 0
    else NopDegree(p, d, x, k - 1) + (if NopOf(p, k - 1) == x then Degree(d, k - 1, |p.partitions|) else 0)
  }

  ghost predicate KeyLinks(p: Problem, key: Pair, x: nat, y: nat)
    requires WellFormed(p)
  {
    && key.0 < |p.partitions| && key.1 < |p.partitions|
    && ((NopOf(p, key.0) == x && NopOf(p, key.1) == y) || (NopOf(p, key.0) == y && NopOf(p, key.1) == x))
  }

  ghost function UnmetDegrees(p: Problem, d: multiset<Pair>, x: nat): set<nat>
    requires WellFormed(p)
  {
    set y | y in p.Required(x) && !exists key :: key in d && KeyLinks(p, key, x, y)
  }

  /** Operators of x that d uses or that its missing connections still need. */
  ghost function Load(p: Problem, d: multiset<Pair>, x: nat): nat
    requires WellFormed(p)
  {
    NopDegree(p, d, x, |p.partitions|) + |UnmetDegrees(p, d, x)|
  }

  ghost function OpsOf(p: Problem, x: nat): set<nat> {
    set o: nat | o < p.N() && p.Nop(o) == x
  }

  /** A key of two partitions in different normal operators. */
  ghost predicate ProperKey(p: Problem, key: Pair)
    requires WellFormed(p)
  {
    key.0 < |p.partitions| && key.1 < |p.partitions| && NopOf(p, key.0) != NopOf(p, key.1)
  }

  lemma {:induction false} NopDegreeAdd(p: Problem, d: multiset<Pair>, e: Pair, x: nat, k: nat)
    requires WellFormed(p) && k <= |p.partitions| && ProperKey(p, e)
    ensures NopDegree(p, d + multiset{e}, x, k) == NopDegree(p, d, x, k)
              + (if e.0 < k && NopOf(p, e.0) == x then 1 else 0) + (if e.1 < k && NopOf(p, e.1) == x then 1 else 0)
  {
    hide WellFormed;
    if k > 0 {
      NopDegreeAdd(p, d, e, x, k - 1);
      DegreeAdd(d, e, k - 1, |p.partitions|);
    }
  }

  lemma LoadAdd(p: Problem, d: multiset<Pair>, e: Pair, x: nat)
    requires WellFormed(p) && ProperKey(p, e)
    ensures Load(p, d, x) <= Load(p, d + multiset{e}, x)
  {
    NopDegreeAdd(p, d, e, x, |p.partitions|);
    hide WellFormed, NopDegree, NopOf;
    var y := if NopOf(p, e.0) == x then NopOf(p, e.1) else NopOf(p, e.0);
    var u, v := UnmetDegrees(p, d, x), UnmetDegrees(p, d + multiset{e}, x);
    forall z | z in u && z !in v ensures z == y && (NopOf(p, e.0) == x || NopOf(p, e.1) == x) {
      assert exists key :: key in d + multiset{e} && KeyLinks(p, key, x, z);
    }
    assert u <= v + (if NopOf(p, e.0) == x || NopOf(p, e.1) == x then {y} else {});
    SubsetSize(u, v + (if NopOf(p, e.0) == x || NopOf(p, e.1) == x then {y} else {}));
  }

  lemma {:induction false} LoadMonotone(p: Problem, d: multiset<Pair>, d': multiset<Pair>, x: nat)
    requires WellFormed(p) && d <= d' && forall key :: key in d' ==> ProperKey(p, key)
    ensures Load(p, d, x) <= Load(p, d', x)
    decreases |d'| - |d|
  {
    hide WellFormed, Load, ProperKey;
    var rest := d' - d;
    assert d' == d + rest;
    if rest != multiset{} {
      var e :| e in rest;
      assert e in d';
      LoadAdd(p, d, e, x);
      assert d + multiset{e} <= d';
      LoadMonotone(p, d + multiset{e}, d', x);
    } else {
      assert d == d';
    }
  }

  /** A list of allowed contractions. */
  lemma {:induction false} KeysProper(p: Problem, s: seq<Pair>)
    requires WellFormed(p) && Ordered(p, s)
    ensures forall key :: key in Degrees(p.partitionOf, s) ==> ProperKey(p, key)
  {
    if s != [] {
      KeysProper(p, Init(s));
      var e := Last(s);
      NopOfMember(p, e.0);
      NopOfMember(p, e.1);
    }
  }

  lemma {:induction false} FreeByDegrees(p: Problem, s: seq<Pair>, x: nat)
    requires WellFormed(p) && Ordered(p, s)
    ensures |Free(p, s, x)| + NopDegree(p, Degrees(p.partitionOf, s), x, |p.partitions|) == |OpsOf(p, x)|
    ensures Unmet(p, s, x) == UnmetDegrees(p, Degrees(p.partitionOf, s), x)
  {
    hide WellFormed, NopDegree, UnmetDegrees, NopOf;
    if s == [] {
      NopDegreeEmpty(p, x, |p.partitions|);
      assert Free(p, s, x) == OpsOf(p, x);
      UnmetEmpty(p, x);
    } else {
      assert Init(s) + [Last(s)] == s;
      OrderedFresh(p, s, |s| - 1);
      FreeByDegrees(p, Init(s), x);
      FreeByDegreesSnoc(p, Init(s), Last(s), x);
    }
  }

  lemma UnmetEmpty(p: Problem, x: nat)
    requires WellFormed(p)
    ensures Unmet(p, [], x) == UnmetDegrees(p, multiset{}, x)
  {
  }

  lemma FreeByDegreesSnoc(p: Problem, u: seq<Pair>, e: Pair, x: nat)
    requires WellFormed(p) && PairOk(p, e) && e.0 !in Ends(u) && e.1 !in Ends(u)
    requires |Free(p, u, x)| + NopDegree(p, Degrees(p.partitionOf, u), x, |p.partitions|) == |OpsOf(p, x)|
    requires Unmet(p, u, x) == UnmetDegrees(p, Degrees(p.partitionOf, u), x)
    ensures var s := u + [e];
            && |Free(p, s, x)| + NopDegree(p, Degrees(p.partitionOf, s), x, |p.partitions|) == |OpsOf(p, x)|
            && Unmet(p, s, x) == UnmetDegrees(p, Degrees(p.partitionOf, s), x)
  {
    NopOfMember(p, e.0);
    NopOfMember(p, e.1);
    assert p.Nop(e.0) != p.Nop(e.1);
    hide Free, Unmet, UnmetDegrees, NopOf;
    var d := Degrees(p.partitionOf, u);
    DegreesSnoc(p.partitionOf, u, e);
    NopDegreeAdd(p, d, Key(p.partitionOf, e), x, |p.partitions|);
    FreeSnoc(p, u, e, x);
    UnmetSnoc(p, u, e, x, d);
  }

  lemma {:induction false} NopDegreeEmpty(p: Problem, x: nat, k: nat)
    requires WellFormed(p) && k <= |p.partitions|
    ensures NopDegree(p, multiset{}, x, k) == 0
  {
    if k > 0 {
      NopDegreeEmpty(p, x, k - 1);
      EmptySums(k - 1, |p.partitions|);
    }
  }

  lemma FreeSnoc(p: Problem, s: seq<Pair>, e: Pair, x: nat)
    requires e.0 < e.1 < p.N() && p.Nop(e.0) != p.Nop(e.1) && e.0 !in Ends(s) && e.1 !in Ends(s)
    ensures |Free(p, s + [e], x)| + (if p.Nop(e.0) == x || p.Nop(e.1) == x then 1 else 0) == |Free(p, s, x)|
  {
    hide Ends;
    EndsSnoc(s, e);
    if p.Nop(e.0) == x || p.Nop(e.1) == x {
      var o := if p.Nop(e.0) == x then e.0 else e.1;
      assert Free(p, s, x) == Free(p, s + [e], x) + {o};
    } else {
      assert Free(p, s, x) == Free(p, s + [e], x);
    }
  }

  lemma UnmetSnoc(p: Problem, s: seq<Pair>, e: Pair, x: nat, d: multiset<Pair>)
    requires WellFormed(p) && PairOk(p, e)
    requires Unmet(p, s, x) == UnmetDegrees(p, d, x)
    ensures Unmet(p, s + [e], x) == UnmetDegrees(p, d + multiset{Key(p.partitionOf, e)}, x)
  {
    var t, key := s + [e], Key(p.partitionOf, e);
    NopOfMember(p, e.0);
    NopOfMember(p, e.1);
    hide WellFormed, NopOf;
    forall y | y in p.Required(x)
      ensures Connected(p, t, x, y) <==> exists k :: k in d + multiset{key} && KeyLinks(p, k, x, y)
    {
      assert Links(p, e, x, y) <==> KeyLinks(p, key, x, y);
      assert Connected(p, s, x, y) <==> y !in Unmet(p, s, x);
      ConnectedSnoc(p, s, e, x, y);
      if Connected(p, t, x, y) {
        if Links(p, e, x, y) {
          assert key in d + multiset{key};
        } else {
          var k :| k in d && KeyLinks(p, k, x, y);
          assert k in d + multiset{key};
        }
      }
    }
  }

  lemma ConnectedSnoc(p: Problem, s: seq<Pair>, e: Pair, x: nat, y: nat)
    ensures Connected(p, s + [e], x, y) <==> Connected(p, s, x, y) || Links(p, e, x, y)
  {
    var t := s + [e];
    if Connected(p, s, x, y) {
      var k :| 0 <= k < |s| && Links(p, s[k], x, y);
      assert t[k] == s[k];
    }
    if Links(p, e, x, y) { assert t[|s|] == e; }
  }

  /** A contraction list whose degrees a feasible one contains is feasible. */
  lemma FeasibleBelow(p: Problem, s: seq<Pair>, t: seq<Pair>, x: nat)
    requires WellFormed(p) && Ordered(p, s) && Ordered(p, t)
    requires Degrees(p.partitionOf, s) <= Degrees(p.partitionOf, t) && NopFeasible(p, t, x)
    ensures NopFeasible(p, s, x)
  {
    hide WellFormed, Ordered;
    KeysProper(p, t);
    FreeByDegrees(p, s, x);
    FreeByDegrees(p, t, x);
    LoadMonotone(p, Degrees(p.partitionOf, s), Degrees(p.partitionOf, t), x);
  }
}
