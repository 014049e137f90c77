/**
 Two operators of one partition may change places in a contraction set: the result is another leaf of
 the unpruned search with the same degrees. So a class has one member only if nothing it contracts can
 be exchanged.
 */
module WickExchanges {
  import opened Sequences
  import opened WickProblem
  import opened WickMatchings
  import opened WickDegrees
  import opened WickClasses
  import opened WickWeights

  /** What takes the place of o when a and b change places. */
  function Swapped(a: nat, b: nat, o: nat): nat {
    if o == a then b else if o == b then a else o
  }

  function SwappedPair(a: nat, b: nat, e: Pair): Pair {
    (Swapped(a, b, e.0), Swapped(a, b, e.1))
  }

  ghost function SwappedList(a: nat, b: nat, s: seq<Pair>): (u: seq<Pair>)
    ensures |u| == |s|
  {
    seq(|s|, k requires 0 <= k < |s| => SwappedPair(a, b, s[k]))
  }

  /** a and b are different operators of the same partition. */
  ghost predicate Twins(p: Problem, a: nat, b: nat) {
    a < p.N() && b < p.N() && a != b && |p.partitionOf| == p.N() && p.partitionOf[a] == p.partitionOf[b]
  }

  lemma SwappedKey(p: Problem, a: nat, b: nat, e: Pair)
    requires Twins(p, a, b) && e.0 < p.N() && e.1 < p.N()
    ensures var f := SwappedPair(a, b, e);
            f.0 < p.N() && f.1 < p.N() && Key(p.partitionOf, f) == Key(p.partitionOf, e)
  {
  }

  lemma SwappedNops(p: Problem, a: nat, b: nat, e: Pair)
    requires WellFormed(p) && Twins(p, a, b) && e.0 < p.N() && e.1 < p.N()
    ensures var f := SwappedPair(a, b, e);
            f.0 < p.N() && f.1 < p.N() && p.Nop(f.0) == p.Nop(e.0) && p.Nop(f.1) == p.Nop(e.1)
  {
    SamePartition(p, a, b);
  }

  lemma SwappedApart(a: nat, b: nat, e: Pair, f: Pair)
    requires Apart(e, f)
    ensures Apart(SwappedPair(a, b, e), SwappedPair(a, b, f))
  {
  }

  lemma SwappedTwice(a: nat, b: nat, o: nat)
    ensures Swapped(a, b, Swapped(a, b, o)) == o
  {
  }

  lemma {:induction false} SwappedDegrees(p: Problem, a: nat, b: nat, s: seq<Pair>)
    requires Twins(p, a, b) && forall k :: 0 <= k < |s| ==> s[k].0 < p.N() && s[k].1 < p.N()
    ensures Degrees(p.partitionOf, SwappedList(a, b, s)) == Degrees(p.partitionOf, s)
  {
    hide Twins;
    if s != [] {
      SwappedDegrees(p, a, b, Init(s));
      assert Init(SwappedList(a, b, s)) == SwappedList(a, b, Init(s));
      SwappedKey(p, a, b, Last(s));
    }
  }

  // ---- The degrees of a list are those of its set ----

  lemma {:induction false} DegreesErase(part: seq<nat>, s: seq<Pair>, k: nat)
    requires k < |s|
    ensures Degrees(part, s) == Degrees(part, Erase(s, k)) + multiset{Key(part, s[k])}
  {
    if k == |s| - 1 {
      assert Erase(s, k) == Init(s);
    } else {
      DegreesErase(part, Init(s), k);
      EraseBeforeLast(s, k);
      hide Erase;
    }
  }

  lemma EraseBeforeLast(s: seq<Pair>, k: nat)
    requires k < |s| - 1
    ensures Erase(s, k) != [] && Init(Erase(s, k)) == Erase(Init(s), k) && Last(Erase(s, k)) == Last(s)
  {
  }

  lemma EraseMembers(s: seq<Pair>, k: nat)
    requires NoDup(s) && k < |s|
    ensures NoDup(Erase(s, k)) && Pairs(Erase(s, k)) == Pairs(s) - {s[k]}
  {
    var r := Erase(s, k);
    assert forall i :: 0 <= i < |r| ==> r[i] == s[if i < k then i else i + 1];
    forall e | e in Pairs(s) - {s[k]} ensures e in r {
      var i :| 0 <= i < |s| && s[i] == e;
      assert r[if i < k then i else i - 1] == e;
    }
  }

  lemma NoMembers(s: seq<Pair>)
    ensures s == [] <==> Pairs(s) == {}
  {
    if s != [] { assert s[0] in Pairs(s); }
  }

  lemma {:induction false} SameSetSameDegrees(part: seq<nat>, s: seq<Pair>, t: seq<Pair>)
    requires NoDup(s) && NoDup(t) && Pairs(s) == Pairs(t)
    ensures Degrees(part, s) == Degrees(part, t)
    decreases |s|
  {
    NoMembers(s);
    NoMembers(t);
    if s != [] {
      var j := |s| - 1;
      assert s[j] in Pairs(s);
      var k :| 0 <= k < |t| && t[k] == s[j];
      EraseMembers(s, j);
      EraseMembers(t, k);
      hide NoDup;
      SameSetSameDegrees(part, Erase(s, j), Erase(t, k));
      DegreesErase(part, s, j);
      DegreesErase(part, t, k);
    }
  }

  lemma OrderedNoDup(p: Problem, s: seq<Pair>)
    requires Ordered(p, s)
    ensures NoDup(s)
  {
    hide PairOk;
  }

  // ---- The exchange ----

  ghost predicate AllApart(s: seq<Pair>) {
    forall i, j :: 0 <= i < j < |s| ==> Apart(s[i], s[j])
  }

  ghost predicate AllOk(p: Problem, s: seq<Pair>) {
    forall k :: 0 <= k < |s| ==> PairOk(p, s[k])
  }

  lemma ExchangedList(p: Problem, t: seq<Pair>, a: nat, b: nat)
    requires WellFormed(p) && Equivalences(p) && Ordered(p, t) && Twins(p, a, b)
    ensures AllOk(p, SwappedList(a, b, t)) && AllApart(SwappedList(a, b, t))
  {
    var u := SwappedList(a, b, t);
    hide WellFormed, Equivalences, Twins, Apart, PairOk;
    forall k | 0 <= k < |u| ensures PairOk(p, u[k]) {
      OkInRange(p, t[k]);
      SwappedKey(p, a, b, t[k]);
      ContractAlike(p, t[k], u[k]);
    }
    forall i, j | 0 <= i < j < |u| ensures Apart(u[i], u[j]) {
      SwappedApart(a, b, t[i], t[j]);
    }
  }

  lemma OkInRange(p: Problem, e: Pair)
    requires PairOk(p, e)
    ensures e.0 < e.1 < p.N() && p.Nop(e.0) != p.Nop(e.1)
  {
  }

  lemma ApartMembers(s: seq<Pair>)
    requires AllApart(s)
    ensures forall e, f :: e in Pairs(s) && f in Pairs(s) && e != f ==> Apart(e, f)
  {
    forall e, f | e in Pairs(s) && f in Pairs(s) && e != f ensures Apart(e, f) {
      var i :| 0 <= i < |s| && s[i] == e;
      var j :| 0 <= j < |s| && s[j] == f;
      assert i < j || j < i;
    }
  }

  lemma ApartNoDup(s: seq<Pair>)
    requires AllApart(s)
    ensures NoDup(s)
  {
  }

  /** The members of t with a and b exchanged, in the order of the search. */
  lemma Rearranged(p: Problem, t: seq<Pair>, a: nat, b: nat) returns (w: seq<Pair>)
    requires WellFormed(p) && Equivalences(p) && Ordered(p, t) && Twins(p, a, b)
    ensures Ordered(p, w) && Pairs(w) == Pairs(SwappedList(a, b, t))
    ensures forall e, f :: e in Pairs(w) && f in Pairs(w) && e != f ==> Apart(e, f)
    ensures Degrees(p.partitionOf, w) == Degrees(p.partitionOf, t)
  {
    hide WellFormed, Equivalences, Twins, SwappedList, AllApart, NoDup, Apart, PairOk, Degrees;
    var u := SwappedList(a, b, t);
    ExchangedList(p, t, a, b);
    ApartMembers(u);
    ApartNoDup(u);
    w := OrderedList(p, Pairs(u));
    OrderedNoDup(p, w);
    SameSetSameDegrees(p.partitionOf, w, u);
    forall k | 0 <= k < |t| ensures t[k].0 < p.N() && t[k].1 < p.N() { OkInRange(p, t[k]); }
    SwappedDegrees(p, a, b, t);
  }

  lemma SwappedMember(a: nat, b: nat, t: seq<Pair>, e: Pair)
    ensures e in Pairs(SwappedList(a, b, t)) <==> SwappedPair(a, b, e) in Pairs(t)
  {
    var u := SwappedList(a, b, t);
    SwappedTwice(a, b, e.0);
    SwappedTwice(a, b, e.1);
    if e in Pairs(u) {
      var k :| 0 <= k < |u| && u[k] == e;
      SwappedTwice(a, b, t[k].0);
      SwappedTwice(a, b, t[k].1);
      assert t[k] == SwappedPair(a, b, e);
    }
    if SwappedPair(a, b, e) in Pairs(t) {
      var k :| 0 <= k < |t| && t[k] == SwappedPair(a, b, e);
      assert u[k] == e;
    }
  }

  /** An operator is contracted after the exchange if what stood in its place was. */
  lemma SwappedCovers(p: Problem, t: seq<Pair>, w: seq<Pair>, a: nat, b: nat, o: nat)
    requires Pairs(w) == Pairs(SwappedList(a, b, t)) && Swapped(a, b, o) in Ends(t)
    ensures o in Ends(w)
  {
    EndsCovered(t);
    EndsCovered(w);
    var e :| e in Pairs(t) && Touches(e, Swapped(a, b, o));
    var f := SwappedPair(a, b, e);
    SwappedTwice(a, b, o);
    SwappedTwice(a, b, e.0);
    SwappedTwice(a, b, e.1);
    SwappedMember(a, b, t, f);
    assert f in Pairs(w) && Touches(f, o);
  }

  lemma SwappedComplete(p: Problem, t: seq<Pair>, w: seq<Pair>, a: nat, b: nat)
    requires Complete(p, t) && Pairs(w) == Pairs(SwappedList(a, b, t)) && Twins(p, a, b)
    ensures Complete(p, w)
  {
    if p.full {
      forall o: nat | o < p.N() ensures o in Ends(w) { SwappedCovers(p, t, w, a, b, o); }
    }
  }

  lemma SwappedActive(p: Problem, t: seq<Pair>, w: seq<Pair>, a: nat, b: nat, x: nat)
    requires WellFormed(p) && Twins(p, a, b) && Ordered(p, t) && Pairs(w) == Pairs(SwappedList(a, b, t))
    requires Active(p, Pairs(w), x)
    ensures Active(p, Pairs(t), x)
  {
    hide WellFormed, Twins;
    var e :| e in Pairs(w) && e.0 < p.N() && e.1 < p.N() && (p.Nop(e.0) == x || p.Nop(e.1) == x);
    SwappedMember(a, b, t, e);
    SwappedNops(p, a, b, e);
    assert SwappedPair(a, b, e) in Pairs(t);
  }

  lemma ActivePlain(p: Problem, m: set<Pair>, x: nat)
    ensures Active(Plain(p), m, x) <==> Active(p, m, x)
  {
    if Active(p, m, x) {
      var e :| e in m && e.0 < p.N() && e.1 < p.N() && (p.Nop(e.0) == x || p.Nop(e.1) == x);
      assert e.0 < Plain(p).N() && e.1 < Plain(p).N() && (Plain(p).Nop(e.0) == x || Plain(p).Nop(e.1) == x);
    }
    if Active(Plain(p), m, x) {
      var e :| e in m && e.0 < Plain(p).N() && e.1 < Plain(p).N() && (Plain(p).Nop(e.0) == x || Plain(p).Nop(e.1) == x);
      assert e.0 < p.N() && e.1 < p.N() && (p.Nop(e.0) == x || p.Nop(e.1) == x);
    }
  }

  lemma PlainOrdered(p: Problem, s: seq<Pair>)
    requires Ordered(p, s)
    ensures Ordered(Plain(p), s)
  {
    forall k | 0 <= k < |s| ensures PairOk(Plain(p), s[k]) { assert PairOk(p, s[k]); }
  }

  /** An ordered list with the degrees of a leaf, on the same normal operators, is connectable. */
  lemma SameDegreesFeasible(p: Problem, t: seq<Pair>, w: seq<Pair>, x: nat)
    requires PlainLeaf(p, t) && Ordered(p, w) && Degrees(p.partitionOf, w) == Degrees(p.partitionOf, t)
    requires Active(p, Pairs(t), x) && p.Targets() != []
    ensures |UnmetBy(Plain(p), Pairs(w), x)| <= |FreeBy(Plain(p), Pairs(w), x)|
  {
    hide WellFormed, IsRun, Ordered, Degrees;
    LeafKeys(p, t);
    ActivePlain(p, Pairs(t), x);
    RunConnectable(Plain(p), t, x);
    PlainFeasible(p, t, x);
    FeasibleBelow(p, w, t, x);
    PlainFeasible(p, w, x);
    ListView(Plain(p), w, x);
  }

  /** Exchanging a contracted operator with another of its partition gives another leaf with the same degrees. */
  lemma Exchange(p: Problem, t: seq<Pair>, a: nat, b: nat) returns (w: seq<Pair>)
    requires PlainLeaf(p, t) && Equivalences(p) && Twins(p, a, b) && a in Ends(t)
    ensures PlainLeaf(p, w) && Degrees(p.partitionOf, w) == Degrees(p.partitionOf, t)
    ensures Pairs(w) == Pairs(SwappedList(a, b, t)) && w != t
  {
    hide WellFormed, IsRun, Equivalences, Ordered, Twins, Complete, Degrees, SwappedList, Apart;
    LeafKeys(p, t);
    w := Rearranged(p, t, a, b);
    SwappedComplete(p, t, w, a, b);
    ExchangedIsRun(p, t, w, a, b);
    Differs(p, t, w, a, b);
  }

  lemma ExchangedIsRun(p: Problem, t: seq<Pair>, w: seq<Pair>, a: nat, b: nat)
    requires PlainLeaf(p, t) && Ordered(p, t) && Ordered(p, w) && Twins(p, a, b) && Complete(p, w)
    requires Pairs(w) == Pairs(SwappedList(a, b, t)) && Degrees(p.partitionOf, w) == Degrees(p.partitionOf, t)
    requires forall e, f :: e in Pairs(w) && f in Pairs(w) && e != f ==> Apart(e, f)
    ensures IsRun(Plain(p), w)
  {
    hide WellFormed, IsRun, Twins, Degrees, SwappedList, Apart, UnmetBy, FreeBy;
    PlainOrdered(p, w);
    AdmissiblePlain(p, w);
    if p.Targets() != [] {
      forall x | Active(Plain(p), Pairs(w), x) ensures |UnmetBy(Plain(p), Pairs(w), x)| <= |FreeBy(Plain(p), Pairs(w), x)| {
        ActivePlain(p, Pairs(w), x);
        SwappedActive(p, t, w, a, b, x);
        SameDegreesFeasible(p, t, w, x);
      }
    }
    hide Ordered, Admissible, Active;
    assert Connectable(Plain(p), Pairs(w)) by { assert Plain(p).Targets() == p.Targets(); }
    AdmissibleIsRun(Plain(p), w, |w|);
    assert w[..|w|] == w;
  }

  lemma AdmissiblePlain(p: Problem, w: seq<Pair>)
    requires Ordered(p, w) && Complete(p, w)
    requires forall e, f :: e in Pairs(w) && f in Pairs(w) && e != f ==> Apart(e, f)
    ensures Admissible(Plain(p), Pairs(w))
  {
    hide Apart;
    PlainOrdered(p, w);
    EndsCovered(w);
    hide PairOk;
  }

  /** The pair that held a now holds b, and shares its other operator with the pair it was. */
  lemma Replaced(p: Problem, a: nat, b: nat, e: Pair)
    requires WellFormed(p) && Twins(p, a, b) && PairOk(p, e) && Touches(e, a)
    ensures SwappedPair(a, b, e) != e && !Apart(e, SwappedPair(a, b, e))
  {
    SamePartition(p, a, b);
  }

  lemma Differs(p: Problem, t: seq<Pair>, w: seq<Pair>, a: nat, b: nat)
    requires WellFormed(p) && Ordered(p, t) && Twins(p, a, b) && a in Ends(t)
    requires Pairs(w) == Pairs(SwappedList(a, b, t))
    ensures w != t
  {
    hide SwappedList, WellFormed, Twins, PairOk, Apart, Ends;
    EndsCovered(t);
    var e :| e in Pairs(t) && Touches(e, a);
    assert PairOk(p, e);
    var f := SwappedPair(a, b, e);
    Replaced(p, a, b, e);
    SwappedTwice(a, b, e.0);
    SwappedTwice(a, b, e.1);
    SwappedMember(a, b, t, f);
    if w == t { DifferentApart(p, t, e, f); }
  }

  lemma DifferentApart(p: Problem, t: seq<Pair>, e: Pair, f: Pair)
    requires Ordered(p, t) && e in t && f in t && e != f
    ensures Apart(e, f)
  {
    hide PairOk;
    var i :| 0 <= i < |t| && t[i] == e;
    var j :| 0 <= j < |t| && t[j] == f;
    assert i < j || j < i;
  }

  // ---- Classes with one member ----

  /** o is the only operator of its partition. */
  ghost predicate Alone(p: Problem, o: nat) {
    o < |p.partitionOf| && p.partitionOf[o] < |p.partitions| && |p.partitions[p.partitionOf[o]]| == 1
  }

  lemma AloneUnique(p: Problem, o: nat, o': nat)
    requires WellFormed(p) && o < p.N() && o' < p.N() && Alone(p, o) && p.partitionOf[o] == p.partitionOf[o']
    ensures o == o'
  {
  }

  lemma HasTwin(p: Problem, a: nat) returns (b: nat)
    requires WellFormed(p) && a < p.N() && !Alone(p, a)
    ensures Twins(p, a, b)
  {
    var q := p.partitions[p.partitionOf[a]];
    assert a in q;
    assert |q| >= 2;
    assert q[0] < q[1];
    b := if q[0] == a then q[1] else q[0];
  }

  lemma LeafEndsInRange(p: Problem, t: seq<Pair>, o: nat)
    requires Ordered(p, t) && o in Ends(t)
    ensures o < p.N()
  {
    EndsCovered(t);
    var e :| e in Pairs(t) && Touches(e, o);
    OkInRange(p, e);
  }

  /** If nothing contracted can be exchanged, a list with the same degrees has no other members. */
  lemma SameMember(p: Problem, t: seq<Pair>, w: seq<Pair>, e: Pair)
    requires WellFormed(p) && Ordered(p, t) && Ordered(p, w) && Degrees(p.partitionOf, w) == Degrees(p.partitionOf, t)
    requires (forall o :: o in Ends(t) ==> Alone(p, o)) && e in w
    ensures e in t
  {
    hide WellFormed, Alone;
    var i :| 0 <= i < |w| && w[i] == e;
    DegreesMember(p.partitionOf, w, i);
    assert t[..0] == [];
    var k := LaterKey(p.partitionOf, t, 0, Key(p.partitionOf, e));
    OkInRange(p, t[k]);
    OkInRange(p, e);
    PartsInRange(p);
    EndsMono(t, 0);
    AloneUnique(p, t[k].0, e.0);
    AloneUnique(p, t[k].1, e.1);
  }

  lemma OnlyMember(p: Problem, t: seq<Pair>, w: seq<Pair>)
    requires WellFormed(p) && Ordered(p, t) && Ordered(p, w) && Degrees(p.partitionOf, w) == Degrees(p.partitionOf, t)
    requires forall o :: o in Ends(t) ==> Alone(p, o)
    ensures w == t
  {
    hide WellFormed, Alone, Ordered;
    forall e | e in Pairs(w) ensures e in Pairs(t) { SameMember(p, t, w, e); }
    OrderedNoDup(p, t);
    OrderedNoDup(p, w);
    hide NoDup;
    DegreesSize(p.partitionOf, t);
    DegreesSize(p.partitionOf, w);
    NoDupSize(t);
    NoDupSize(w);
    assert Elems(w) == Pairs(w) && Elems(t) == Pairs(t);
    SubsetSize(Pairs(w), Pairs(t));
    OrderedUnique(p, w, t);
  }

  lemma ClassOfFixed(p: Problem, t: seq<Pair>)
    requires WellFormed(p) && PlainLeaf(p, t) && Ordered(p, t) && (p.full ==> p.N() > 0)
    requires forall o :: o in Ends(t) ==> Alone(p, o)
    ensures Class(p, t) == {t}
  {
    hide WellFormed, PlainLeaf, Class, Alone, Ordered, Ends;
    ClassMember(p, t, t);
    forall w | w in Class(p, t) ensures w == t {
      ClassMember(p, t, w);
      LeafKeys(p, w);
      OnlyMember(p, t, w);
    }
  }

  lemma ClassOfMovable(p: Problem, t: seq<Pair>, a: nat)
    requires WellFormed(p) && PlainLeaf(p, t) && Equivalences(p) && Ordered(p, t) && (p.full ==> p.N() > 0)
    requires a in Ends(t) && !Alone(p, a)
    ensures |Class(p, t)| > 1
  {
    hide WellFormed, PlainLeaf, Equivalences, Class, Alone, Ordered, Ends, Twins;
    LeafEndsInRange(p, t, a);
    var b := HasTwin(p, a);
    var w := Exchange(p, t, a, b);
    ClassMember(p, t, t);
    ClassMember(p, t, w);
    SubsetSize({t, w}, Class(p, t));
  }

  /** A leaf is the only one of its class if and only if every operator it contracts is alone in its partition. */
  lemma ClassIsSingle(p: Problem, t: seq<Pair>)
    requires WellFormed(p) && PlainLeaf(p, t) && Equivalences(p) && (p.full ==> p.N() > 0)
    ensures t in Class(p, t)
    ensures |Class(p, t)| == 1 <==> forall o :: o in Ends(t) ==> Alone(p, o)
  {
    hide WellFormed, PlainLeaf, Equivalences, Class, Alone, Ordered, Ends;
    LeafKeys(p, t);
    ClassMember(p, t, t);
    if o: nat :| o in Ends(t) && !Alone(p, o) {
      ClassOfMovable(p, t, o);
    } else {
      ClassOfFixed(p, t);
    }
  }
}
