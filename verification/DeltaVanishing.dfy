/**
 When a product vanishes for all tensors and all values of its externals: exactly if some index has no possible value. The
 reduction finds that out whenever no external is joined with two other indices; through an external it may miss it.
 */
module DeltaVanishing {
  import opened Options
  import opened Sequences
  import opened DeltaValues
  import opened DeltaSubstitution
  import opened DeltaRules
  import opened DeltaZeros
  import opened DeltaReduction

  // ---- A product all of whose indices have possible values does not vanish ----

  /** The values that the deltas leave to i. */
  ghost function Left(p: seq<Factor>, i: Index): set<int> {
    set v: int | v in i.space && InAll(p, i, v)
  }

  lemma LeftAlike(p: seq<Factor>, i: Index, j: Index)
    requires Bound(p, i, j)
    ensures Left(p, i) == Left(p, j)
  {
    hide Bound;
    BoundSymmetric(p, i, j);
    forall v: int ensures v in Left(p, i) <==> v in Left(p, j) {
      if InAll(p, i, v) { AllMoves(p, i, j, v); }
      if InAll(p, j, v) { AllMoves(p, j, i, v); }
    }
  }

  lemma AllMoves(p: seq<Factor>, i: Index, j: Index, v: int)
    requires Bound(p, i, j) && InAll(p, i, v)
    ensures InAll(p, j, v) && v in i.space && v in j.space
  {
    hide Bound;
    BoundSelf(p, i);
    forall k | Bound(p, j, k) ensures v in k.space { BoundTransitive(p, i, j, k); }
  }

  lemma SomethingLeft(p: seq<Factor>, i: Index)
    requires !Covers(p, i, {})
    ensures Left(p, i) != {}
  {
    hide Bound;
    var v: int :| InAll(p, i, v) && v !in {};
    BoundSelf(p, i);
    assert v in Left(p, i);
  }

  ghost function Pick<T>(s: set<T>): T
    requires s != {}
  {
    var v :| v in s; v
  }

  /** One possible value for each index, the same for indices that deltas bind. */
  ghost function Chosen(p: seq<Factor>, on: set<Index>): Assignment {
    map i | i in on :: if Left(p, i) == {} then 0 else Pick(Left(p, i))
  }

  /** Every tensor is 1 everywhere. */
  ghost const UNIT: Meaning := (name: nat, values: seq<int>) => 1.0

  lemma {:induction false} UnitProduct(p: seq<Factor>, a: Assignment)
    requires Indices(p) <= a.Keys
    ensures ProductValue(UNIT, p, a) >= 0.0
    ensures Satisfies(p, a) ==> ProductValue(UNIT, p, a) == 1.0
  {
    if p != [] {
      var u, f := Init(p), Last(p);
      assert p == u + [f];
      UnitProduct(u, a);
      UnitFactor(f, a);
      if Satisfies(p, a) {
        assert Satisfies(u, a);
        if f.Delta? { assert Delta(f.bra, f.ket) in p; }
      }
    }
  }

  lemma UnitFactor(f: Factor, a: Assignment)
    requires Elems(Slots(f)) <= a.Keys
    ensures FactorValue(UNIT, f, a) == 0.0 || FactorValue(UNIT, f, a) == 1.0
    ensures f.Delta? ==> f.bra in a && f.ket in a && (a[f.bra] == a[f.ket] ==> FactorValue(UNIT, f, a) == 1.0)
    ensures !f.Delta? ==> FactorValue(UNIT, f, a) == 1.0
  {
    if f.Delta? { assert f.bra in Slots(f) && f.ket in Slots(f); }
  }

  lemma {:induction false} UnitSum(p: seq<Factor>, env: Assignment, on: set<Assignment>)
    ensures SumOver(UNIT, p, env, on) >= 0.0
    decreases |on|
  {
    if on != {} {
      var s :| s in on;
      SumPick(UNIT, p, env, on, s);
      if Indices(p) <= (env + s).Keys { UnitProduct(p, env + s); }
      UnitSum(p, env, on - {s});
    }
  }

  /** If something is left to every index, the sum is positive for some values of the externals and tensors that are 1. */
  lemma NotVanishing(p: seq<Factor>, ext: set<Index>)
    requires forall i :: i in Indices(p) + ext ==> Left(p, i) != {}
    ensures !Vanishes(p, ext)
  {
    hide Left, Indices, Satisfies, Summand, SumOver, Assignments, ProductValue;
    var c := Chosen(p, Indices(p) + ext);
    var env := map e | e in ext :: c[e];
    var s := map i | i in Indices(p) - ext :: c[i];
    forall i | i in c ensures c[i] in i.space { ChosenInSpace(p, Indices(p) + ext, i); }
    AssignmentsRange(Indices(p) - ext, s);
    ChosenSatisfies(p, Indices(p) + ext, env + s);
    UnitProduct(p, env + s);
    var on := Assignments(Indices(p) - env.Keys);
    assert env.Keys == ext;
    SumPick(UNIT, p, env, on, s);
    UnitSum(p, env, on - {s});
    PositiveSummand(p, env, s);
    assert Value(UNIT, p, env) > 0.0;
  }

  lemma PositiveSummand(p: seq<Factor>, env: Assignment, s: Assignment)
    requires Indices(p) <= (env + s).Keys && ProductValue(UNIT, p, env + s) == 1.0
    ensures Summand(UNIT, p, env, s) == 1.0
  {
  }

  lemma ChosenInSpace(p: seq<Factor>, on: set<Index>, i: Index)
    requires i in on && Left(p, i) != {}
    ensures Chosen(p, on)[i] in Left(p, i) && Chosen(p, on)[i] in i.space
  {
    hide InAll;
  }

  lemma ChosenSatisfies(p: seq<Factor>, on: set<Index>, a: Assignment)
    requires Indices(p) <= on && a.Keys == on && forall i :: i in on ==> a[i] == Chosen(p, on)[i]
    ensures Satisfies(p, a)
  {
    hide Left, Bound, Indices;
    forall i, j | Delta(i, j) in p ensures i in a && j in a && a[i] == a[j] {
      var k :| 0 <= k < |p| && p[k] == Delta(i, j);
      SlotsAreIndices(p, k);
      assert i in Slots(p[k]) && j in Slots(p[k]);
      assert Joined(p, i, j);
      BoundJoined(p, i, j);
      LeftAlike(p, i, j);
    }
  }

  /** An external that is not in the product keeps its values. */
  lemma AbsentKeeps(p: seq<Factor>, e: Index)
    requires e !in Indices(p) && e.space != {}
    ensures Left(p, e) != {}
  {
    hide Indices;
    var v := ValueIn(e.space);
    forall k | Bound(p, e, k) ensures v in k.space {
      var path :| Connects(p, path, e, k);
      if |path| > 1 {
        assert Joined(p, path[0], path[1]);
        JoinedIsIndex(p, path[1], e);
      }
    }
    assert v in Left(p, e);
  }

  /** A product vanishes exactly if the deltas leave one of its indices no value. */
  lemma VanishesIff(p: seq<Factor>, ext: set<Index>)
    requires forall e :: e in ext ==> e.space != {}
    ensures Vanishes(p, ext) <==> exists i :: i in Indices(p) && Covers(p, i, {})
  {
    hide Vanishes, Covers, Left, Indices;
    if i :| i in Indices(p) && Covers(p, i, {}) {
      ZeroVanishes(p, ext, i);
    } else {
      forall i | i in Indices(p) + ext ensures Left(p, i) != {} {
        if i in Indices(p) { SomethingLeft(p, i); } else { AbsentKeeps(p, i); }
      }
      NotVanishing(p, ext);
    }
  }

  // ---- When it is found out ----

  /** No external is joined with two other indices. */
  ghost predicate OneNeighbour(p: seq<Factor>, ext: set<Index>) {
    forall e, a, b :: e in ext && Joined(p, e, a) && Joined(p, e, b) && a != e && b != e ==> a == b
  }

  lemma ReachesNext(p: seq<Factor>, ext: set<Index>, d: Index, u: Index, k: Index)
    requires Reaches(p, ext, d, u) && u !in ext && Joined(p, u, k)
    ensures Reaches(p, ext, d, k)
  {
    var x :| Leads(p, ext, x, d, u);
    var y := x + [k];
    forall n | 0 <= n < |y| - 1 ensures Joined(p, y[n], y[n + 1]) && y[n] !in ext {
      if n < |x| - 1 { assert Joined(p, x[n], x[n + 1]); } else { assert y[n] == u; }
    }
    assert Leads(p, ext, y, d, k);
  }

  /** The dummy from which an external is reached. */
  lemma ReachedFrom(p: seq<Factor>, ext: set<Index>, d: Index, u: Index) returns (w: Index)
    requires Reaches(p, ext, d, u) && d !in ext && u in ext
    ensures Reaches(p, ext, d, w) && w !in ext && Joined(p, w, u)
  {
    var x :| Leads(p, ext, x, d, u);
    w := x[|x| - 2];
    var y := Init(x);
    forall n | 0 <= n < |y| - 1 ensures Joined(p, y[n], y[n + 1]) && y[n] !in ext { assert Joined(p, x[n], x[n + 1]); }
    assert Leads(p, ext, y, d, w);
    assert Joined(p, x[|x| - 2], x[|x| - 1]);
  }

  /** A chain through an external leads back where it came from. */
  lemma {:induction false} BoundReaches(p: seq<Factor>, ext: set<Index>, path: seq<Index>, d: Index, k: Index)
    requires OneNeighbour(p, ext) && Connects(p, path, d, k) && d !in ext
    ensures Reaches(p, ext, d, k)
    decreases |path|
  {
    hide Reaches, OneNeighbour;
    if |path| == 1 {
      ReachesSelf(p, ext, d);
    } else {
      var y, u := Init(path), path[|path| - 2];
      forall n | 0 <= n < |y| - 1 ensures Joined(p, y[n], y[n + 1]) { assert Joined(p, path[n], path[n + 1]); }
      BoundReaches(p, ext, y, d, u);
      assert Joined(p, path[|path| - 2], path[|path| - 1]);
      if u !in ext {
        ReachesNext(p, ext, d, u, k);
      } else {
        var w := ReachedFrom(p, ext, d, u);
        OnlyNeighbour(p, ext, u, w, k);
      }
    }
  }

  lemma OnlyNeighbour(p: seq<Factor>, ext: set<Index>, u: Index, w: Index, k: Index)
    requires OneNeighbour(p, ext) && u in ext && w !in ext && Joined(p, w, u) && Joined(p, u, k)
    ensures k == u || k == w
  {
    assert Joined(p, u, w);
  }

  lemma ReachesSelf(p: seq<Factor>, ext: set<Index>, d: Index)
    ensures Reaches(p, ext, d, d)
  {
    assert Leads(p, ext, [d], d, d);
  }

  /** A dummy without a possible value is starved. */
  lemma CoveredStarves(p: seq<Factor>, ext: set<Index>, d: Index)
    requires OneNeighbour(p, ext) && d !in ext && Covers(p, d, {})
    ensures Starved(p, ext, d)
  {
    hide OneNeighbour, Feeds, InAll;
    forall v: int ensures !Feeds(p, ext, d, v) {
      if Feeds(p, ext, d, v) { FeedsAll(p, ext, d, v); }
    }
  }

  lemma FeedsAll(p: seq<Factor>, ext: set<Index>, d: Index, v: int)
    requires OneNeighbour(p, ext) && d !in ext && Feeds(p, ext, d, v)
    ensures InAll(p, d, v)
  {
    hide OneNeighbour, Reaches;
    forall k: Index | Bound(p, d, k) ensures v in k.space {
      var path :| Connects(p, path, d, k);
      BoundReaches(p, ext, path, d, k);
    }
  }

  /** Deltas do not lead out of c. */
  ghost predicate Shut(p: seq<Factor>, c: set<Index>) {
    forall x, y :: x in c && Joined(p, x, y) ==> y in c
  }

  lemma {:induction false} StaysIn(p: seq<Factor>, c: set<Index>, path: seq<Index>, i: Index, k: Index)
    requires Shut(p, c) && i in c && Connects(p, path, i, k)
    ensures k in c
    decreases |path|
  {
    if |path| > 1 {
      var y := Init(path);
      forall n | 0 <= n < |y| - 1 ensures Joined(p, y[n], y[n + 1]) { assert Joined(p, path[n], path[n + 1]); }
      StaysIn(p, c, y, i, path[|path| - 2]);
      assert Joined(p, path[|path| - 2], path[|path| - 1]);
    }
  }

  /** What is in all spaces of a component is possible. */
  lemma PossibleIn(p: seq<Factor>, c: set<Index>, i: Index, v: int)
    requires Shut(p, c) && i in c && forall k :: k in c ==> v in k.space
    ensures !Covers(p, i, {})
  {
    hide Shut;
    forall k: Index | Bound(p, i, k) ensures v in k.space {
      var path :| Connects(p, path, i, k);
      StaysIn(p, c, path, i, k);
    }
    assert InAll(p, i, v);
  }

  /** An external without a possible value is joined with a dummy without one, or with an external of a disjoint space. */
  lemma CoveredExternal(p: seq<Factor>, ext: set<Index>, e: Index)
    requires OneNeighbour(p, ext) && e in ext && e.space != {} && Covers(p, e, {})
    ensures (exists f :: f in p && Impossible(f)) || (exists d :: d !in ext && Joined(p, e, d) && Covers(p, d, {}))
  {
    hide Covers, Bound;
    if a :| Joined(p, e, a) && a != e {
      BoundJoined(p, e, a);
      CoversMoves(p, e, a, {});
      if a in ext {
        assert Joined(p, a, e);
        forall x, y | x in {e, a} && Joined(p, x, y) ensures y in {e, a} {}
        if e.space * a.space != {} {
          var v := ValueIn(e.space * a.space);
          PossibleIn(p, {e, a}, e, v);
        }
        var f := if Delta(e, a) in p then Delta(e, a) else Delta(a, e);
        assert a.space * e.space == e.space * a.space;
        assert f in p && Impossible(f);
      }
    } else {
      var v := ValueIn(e.space);
      PossibleIn(p, {e}, e, v);
    }
  }

  /**
   If no space is empty and no external is joined with two other indices, a product is reported as zero exactly if it
   vanishes.
   */
  lemma ZeroIffVanishes(p: seq<Factor>, ext: set<Index>, first: nat, less: Order)
    requires LabelsBelow(p, ext, first) && OneNeighbour(p, ext)
    requires forall i :: i in Indices(p) + ext ==> i.space != {}
    ensures Reduction(p, ext, first, less) == None <==> Vanishes(p, ext)
  {
    hide LabelsBelow, OneNeighbour, Collect, Reduction, Vanishes, Covers, Starved, Impossible, Joined, Bound;
    VanishesIff(p, ext);
    ZeroAtOnce(p, ext, first, less);
    CollectSound(p, p, ext, first, less);
    ZeroIsFound(p, ext, first, less);
    if i :| i in Indices(p) && Covers(p, i, {}) {
      if i !in ext {
        CoveredStarves(p, ext, i);
      } else {
        CoveredExternal(p, ext, i);
        if d :| d !in ext && Joined(p, i, d) && Covers(p, d, {}) {
          CoveredStarves(p, ext, d);
          JoinedIsIndex(p, i, d);
        }
      }
    }
  }

  lemma JoinedIsIndex(p: seq<Factor>, i: Index, d: Index)
    requires Joined(p, i, d)
    ensures d in Indices(p)
  {
    hide Indices;
    var f := if Delta(i, d) in p then Delta(i, d) else Delta(d, i);
    var k :| 0 <= k < |p| && p[k] == f;
    SlotsAreIndices(p, k);
    assert d in Slots(f);
  }

  // ---- A zero that is missed ----

  const E := Index(0, {0, 1})
  const D1 := Index(1, {0})
  const D2 := Index(2, {1})

  function MissedProduct(): seq<Factor> {
    [Delta(E, D1), Delta(E, D2)]
  }

  /** One external cannot have the values of two dummies of disjoint spaces, but the product is not found to be zero. */
  lemma MissedZero(less: Order)
    ensures LabelsBelow(MissedProduct(), {E}, 3) && Vanishes(MissedProduct(), {E})
    ensures Reduction(MissedProduct(), {E}, 3, less).Some?
  {
    hide Vanishes, Reduction;
    var p := MissedProduct();
    MissedIndices();
    assert Joined(p, E, D1) && Joined(p, E, D2);
    BoundJoined(p, E, D1);
    BoundJoined(p, E, D2);
    forall v: int ensures !InAll(p, E, v) {}
    ZeroVanishes(p, {E}, E);
    MissedCollects(less);
    ZeroAtOnce(p, {E}, 3, less);
  }

  lemma MissedIndices()
    ensures Indices(MissedProduct()) == {E, D1, D2}
  {
    var p := MissedProduct();
    assert Init(p) == [Delta(E, D1)] && Init(Init(p)) == [];
    assert Indices([]) == {};
    assert Indices([Delta(E, D1)]) == {E, D1};
  }

  lemma MissedCollects(less: Order)
    ensures Collect(MissedProduct(), {E}, 3, less).Collected?
  {
    var p := MissedProduct();
    assert Init(p) == [Delta(E, D1)] && Init(Init(p)) == [];
    assert Collect([], {E}, 3, less) == Collected(Rules(map[], 3));
    assert 1 !in D1.space && 0 !in D2.space && 0 in E.space * D1.space && 1 in E.space * D2.space;
    assert Collect([Delta(E, D1)], {E}, 3, less) == Process(Rules(map[], 3), {E}, E, D1, less);
  }

  // ---- The order of the factors decides ----

  const X := Index(3, {0})
  const Y := Index(4, {1})
  const U := Index(5, {0, 1})
  const V := Index(6, {0, 1})
  const EXTERNALS: set<Index> := {E, X, Y}

  /** U and V share the destination E, which narrows for both. */
  function SharedFirst(): seq<Factor> {
    [Delta(E, U), Delta(E, V), Delta(X, U), Delta(Y, V)]
  }

  /** The same factors, but U and V never share a destination. */
  function SharedLast(): seq<Factor> {
    [Delta(X, U), Delta(Y, V), Delta(E, U), Delta(E, V)]
  }

  lemma Narrowings()
    ensures E.space <= U.space && E.space <= V.space && X.space <= U.space && Y.space <= V.space
    ensures E.space * U.space == E.space && E.space * V.space == E.space
    ensures X.space * U.space == X.space && Y.space * V.space == Y.space
    ensures E.space * X.space == X.space && X.space * E.space == X.space && Y.space * E.space == Y.space && X.space * Y.space == {}
    ensures E.space != {} && X.space != {} && Y.space != {} && X.space != E.space && Y.space != E.space && X.space != Y.space
  {
    assert 0 in X.space && 0 !in Y.space && 1 in Y.space && 1 !in X.space && 0 in E.space && 1 in E.space;
  }

  lemma FirstIsZero(less: Order)
    ensures Collect(SharedFirst(), EXTERNALS, 7, less) == Zero
  {
    Narrowings();
    var p := SharedFirst();
    var q := [Delta(E, U), Delta(E, V)];
    assert Init(p) == q + [Delta(X, U)] && Init(Init(p)) == q && Init(q) == [Delta(E, U)] && Init(Init(q)) == [];
    assert Collect(Init(q), EXTERNALS, 7, less) == Collected(Rules(map[U := E], 7));
    assert Collect(q, EXTERNALS, 7, less) == Collected(Rules(map[U := E, V := E], 7));
    assert Class(map[U := E, V := E], E) == {U, V};
    var f := Index(7, X.space);
    assert Redirect(map[U := E, V := E], {U, V}, f) == map[U := f, V := f];
    assert Collect(Init(p), EXTERNALS, 7, less) == Collected(Rules(map[U := f, V := f], 8));
  }

  lemma LastIsNot(less: Order)
    ensures Collect(SharedLast(), EXTERNALS, 7, less).Collected?
  {
    Narrowings();
    var p := SharedLast();
    var q := [Delta(X, U), Delta(Y, V)];
    assert Init(p) == q + [Delta(E, U)] && Init(Init(p)) == q && Init(q) == [Delta(X, U)] && Init(Init(q)) == [];
    assert Collect(Init(q), EXTERNALS, 7, less) == Collected(Rules(map[U := X], 7));
    assert Collect(q, EXTERNALS, 7, less) == Collected(Rules(map[U := X, V := Y], 7));
    assert Class(map[U := X, V := Y], X) == {U};
    var f := Index(7, X.space);
    assert Redirect(map[U := X, V := Y], {U}, f) == map[U := f, V := Y];
    assert Collect(Init(p), EXTERNALS, 7, less) == Collected(Rules(map[U := f, V := Y], 8));
  }

  lemma {:induction false} DeltaLabels(p: seq<Factor>, n: nat)
    requires forall f :: f in p ==> f.Delta? && f.bra.id < n && f.ket.id < n
    ensures forall i :: i in Indices(p) ==> i.id < n
  {
    if p != [] {
      assert forall f :: f in Init(p) ==> f in p;
      assert Last(p) in p;
      DeltaLabels(Init(p), n);
    }
  }

  lemma LabelsAreBelow(p: seq<Factor>, q: seq<Factor>)
    requires p == SharedFirst() && q == SharedLast()
    ensures LabelsBelow(p, EXTERNALS, 7) && LabelsBelow(q, EXTERNALS, 7) && multiset(p) == multiset(q)
  {
    hide Indices;
    DeltaLabels(p, 7);
    DeltaLabels(q, 7);
  }

  lemma LastVanishes()
    ensures Vanishes(SharedLast(), EXTERNALS)
  {
    hide Vanishes, Indices;
    var q := SharedLast();
    assert Joined(q, E, U) && Joined(q, U, X) && Joined(q, E, V) && Joined(q, V, Y);
    ThroughDummy(q, E, U, X);
    ThroughDummy(q, E, V, Y);
    assert q[2] == Delta(E, U) && E in Slots(q[2]);
    SlotsAreIndices(q, 2);
    Narrowings();
    forall v: int ensures !InAll(q, E, v) { assert v !in X.space * Y.space; }
    ZeroVanishes(q, EXTERNALS, E);
  }

  lemma ThroughDummy(q: seq<Factor>, a: Index, b: Index, c: Index)
    requires Joined(q, a, b) && Joined(q, b, c)
    ensures Bound(q, a, c)
  {
    BoundJoined(q, a, b);
    BoundJoined(q, b, c);
    BoundTransitive(q, a, b, c);
  }

  /** Two orders of the same factors, which vanish: one is reported as zero, the other is not. */
  lemma OrderDecides(less: Order)
    ensures var p, q := SharedFirst(), SharedLast();
            && Vanishes(q, EXTERNALS) && multiset(p) == multiset(q) && LabelsBelow(p, EXTERNALS, 7) && LabelsBelow(q, EXTERNALS, 7)
            && Reduction(p, EXTERNALS, 7, less) == None && Reduction(q, EXTERNALS, 7, less).Some?
  {
    hide Reduction, Collect, LabelsBelow, SharedFirst, SharedLast, Vanishes;
    LastVanishes();
    LabelsAreBelow(SharedFirst(), SharedLast());
    FirstIsZero(less);
    LastIsNot(less);
    ZeroAtOnce(SharedFirst(), EXTERNALS, 7, less);
    ZeroAtOnce(SharedLast(), EXTERNALS, 7, less);
  }
}
