/**
 Products of Kronecker deltas and tensors summed over their dummy indices, and
 why replacing indices bound by deltas keeps the sum. A space is the finite set
 of values its indices range over; disjoint spaces have a null intersection.
 */
module DeltaValues {
  import opened Sequences

  type Space = set<int>

  datatype Index = Index(id: nat, space: Space)

  /** One stands for a factor that became the constant 1. */
  datatype Factor = One | Delta(bra: Index, ket: Index) | Tensor(name: nat, slots: seq<Index>)

  /** Values of indices. */
  type Assignment = map<Index, int>

  /** Values of tensors as functions of the values of their slots. */
  type Meaning = (nat, seq<int>) -> real

  function Slots(f: Factor): seq<Index> {
    match f
    case One => []
    case Delta(i, j) => [i, j]
    case Tensor(_, slots) => slots
  }

  function Indices(p: seq<Factor>): set<Index> {
    if p == [] then {} else Indices(Init(p)) + Elems(Slots(Last(p)))
  }

  lemma {:induction false} SlotsAreIndices(p: seq<Factor>, k: nat)
    requires k < |p|
    ensures Elems(Slots(p[k])) <= Indices(p)
  {
    if k < |p| - 1 { SlotsAreIndices(Init(p), k); }
  }

  ghost function FactorValue(t: Meaning, f: Factor, a: Assignment): real
    requires Elems(Slots(f)) <= a.Keys
  {
    match f
    case One => 1.0
    case Delta(i, j) => assert i in Slots(f) && j in Slots(f); if a[i] == a[j] then 1.0 else 0.0
    case Tensor(name, slots) => t(name, SlotValues(slots, a))
  }

  ghost function SlotValues(slots: seq<Index>, a: Assignment): seq<int>
    requires Elems(slots) <= a.Keys
  {
    seq(|slots|, k requires 0 <= k < |slots| => assert slots[k] in slots; a[slots[k]])
  }

  ghost function ProductValue(t: Meaning, p: seq<Factor>, a: Assignment): real
    requires Indices(p) <= a.Keys
  {
    if p == [] then 1.0 else ProductValue(t, Init(p), a) * FactorValue(t, Last(p), a)
  }

  // ---- Sums over assignments ----

  /** All ways to give the indices of d values in their spaces. */
  ghost function Assignments(d: set<Index>): set<Assignment> {
    if d == {} then {map[]}
    else
      var i :| i in d;
      set a, v | a in Assignments(d - {i}) && v in i.space :: a[i := v]
  }

  ghost predicate Ranges(a: Assignment, d: set<Index>) {
    a.Keys == d && forall i :: i in d ==> a[i] in i.space
  }

  lemma {:induction false} AssignmentsRange(d: set<Index>, a: Assignment)
    ensures a in Assignments(d) <==> Ranges(a, d)
  {
    if d != {} {
      var i :| i in d && Assignments(d) == set a, v | a in Assignments(d - {i}) && v in i.space :: a[i := v];
      var rest := d - {i};
      if Ranges(a, d) {
        var b := a - {i};
        assert b.Keys == rest;
        AssignmentsRange(rest, b);
        var v := a[i];
        assert b in Assignments(rest) && v in i.space && b[i := v] == a;
        assert b[i := v] in Assignments(d);
      }
      if a in Assignments(d) {
        var b, v :| b in Assignments(rest) && v in i.space && a == b[i := v];
        AssignmentsRange(rest, b);
        assert a.Keys == b.Keys + {i};
        forall x | x in d ensures a[x] in x.space {
          if x != i { assert x in rest && a[x] == b[x]; }
        }
      }
    }
  }

  /** The value of p where the externals have the values env and the dummies those of s. */
  ghost function Summand(t: Meaning, p: seq<Factor>, env: Assignment, s: Assignment): real {
    if Indices(p) <= (env + s).Keys then ProductValue(t, p, env + s) else 0.0
  }

  ghost function SumOver(t: Meaning, p: seq<Factor>, env: Assignment, on: set<Assignment>): real {
    if on == {} then 0.0
    else
      var s :| s in on;
      Summand(t, p, env, s) + SumOver(t, p, env, on - {s})
  }

  /** The indices of env are external, all others are dummies. */
  ghost function Value(t: Meaning, p: seq<Factor>, env: Assignment): real {
    SumOver(t, p, env, Assignments(Indices(p) - env.Keys))
  }

  ghost predicate Proper(env: Assignment) {
    forall e :: e in env ==> env[e] in e.space
  }

  lemma {:induction false} SumPick(t: Meaning, p: seq<Factor>, env: Assignment, on: set<Assignment>, s: Assignment)
    requires s in on
    ensures SumOver(t, p, env, on) == Summand(t, p, env, s) + SumOver(t, p, env, on - {s})
  {
    hide Summand;
    var u :| u in on && SumOver(t, p, env, on) == Summand(t, p, env, u) + SumOver(t, p, env, on - {u});
    if u != s {
      SumPick(t, p, env, on - {u}, s);
      SumPick(t, p, env, on - {s}, u);
      assert on - {u} - {s} == on - {s} - {u};
    }
  }

  /** Assignments that contribute nothing can be left out. */
  lemma {:induction false} SumRestrict(t: Meaning, p: seq<Factor>, env: Assignment, on: set<Assignment>, part: set<Assignment>)
    requires part <= on
    requires forall s :: s in on - part ==> Summand(t, p, env, s) == 0.0
    ensures SumOver(t, p, env, on) == SumOver(t, p, env, part)
    decreases |on - part|
  {
    hide Summand;
    if on - part == {} {
      assert on == part;
    } else {
      var s :| s in on - part;
      SumPick(t, p, env, on, s);
      assert on - part == {s} + (on - {s} - part);
      SumRestrict(t, p, env, on - {s}, part);
    }
  }

  /** Sums correspond under a one-to-one map of assignments. */
  lemma {:induction false} SumImage(t: Meaning, p: seq<Factor>, q: seq<Factor>, env: Assignment, on: set<Assignment>,
                                    h: map<Assignment, Assignment>)
    requires on <= h.Keys
    requires forall s, u :: s in on && u in on && s != u ==> h[s] != h[u]
    requires forall s :: s in on ==> Summand(t, q, env, h[s]) == Summand(t, p, env, s)
    ensures SumOver(t, q, env, set s | s in on :: h[s]) == SumOver(t, p, env, on)
    decreases |on|
  {
    hide Summand;
    var image := set s | s in on :: h[s];
    if on == {} {
      assert image == {};
    } else {
      var s :| s in on;
      SumPick(t, p, env, on, s);
      ImageWithout(on, h, s);
      SumPick(t, q, env, image, h[s]);
      SumImage(t, p, q, env, on - {s}, h);
    }
  }

  lemma ImageWithout(on: set<Assignment>, h: map<Assignment, Assignment>, s: Assignment)
    requires on <= h.Keys && s in on && forall u, v :: u in on && v in on && u != v ==> h[u] != h[v]
    ensures h[s] in set u | u in on :: h[u]
    ensures (set u | u in on :: h[u]) - {h[s]} == set u | u in on - {s} :: h[u]
  {
  }

  // ---- Deltas bind ----

  ghost predicate Joined(p: seq<Factor>, a: Index, b: Index) {
    Delta(a, b) in p || Delta(b, a) in p
  }

  ghost predicate Chain(p: seq<Factor>, path: seq<Index>) {
    forall k :: 0 <= k < |path| - 1 ==> Joined(p, path[k], path[k + 1])
  }

  /** path is a chain of deltas from a to b. */
  ghost predicate Connects(p: seq<Factor>, path: seq<Index>, a: Index, b: Index) {
    path != [] && path[0] == a && Last(path) == b && Chain(p, path)
  }

  ghost predicate Bound(p: seq<Factor>, a: Index, b: Index) {
    exists path :: Connects(p, path, a, b)
  }

  lemma BoundSelf(p: seq<Factor>, a: Index)
    ensures Bound(p, a, a)
  {
    assert Connects(p, [a], a, a);
  }

  lemma BoundJoined(p: seq<Factor>, a: Index, b: Index)
    requires Joined(p, a, b)
    ensures Bound(p, a, b) && Bound(p, b, a)
  {
    assert Connects(p, [a, b], a, b);
    assert Connects(p, [b, a], b, a);
  }

  lemma BoundTransitive(p: seq<Factor>, a: Index, b: Index, c: Index)
    requires Bound(p, a, b) && Bound(p, b, c)
    ensures Bound(p, a, c)
  {
    var x :| Connects(p, x, a, b);
    var y :| Connects(p, y, b, c);
    var z := x + y[1..];
    forall k | 0 <= k < |z| - 1 ensures Joined(p, z[k], z[k + 1]) {
      if k >= |x| - 1 {
        assert Joined(p, y[k - |x| + 1], y[k - |x| + 2]);
      } else {
        assert Joined(p, x[k], x[k + 1]);
      }
    }
    assert Connects(p, z, a, c);
  }

  lemma {:induction false} BackwardChain(p: seq<Factor>, path: seq<Index>, a: Index, b: Index)
    requires Connects(p, path, a, b)
    ensures Bound(p, b, a)
    decreases |path|
  {
    if |path| == 1 {
      BoundSelf(p, a);
    } else {
      var c := path[1];
      assert Connects(p, path[1..], c, b) by {
        forall k | 0 <= k < |path[1..]| - 1 ensures Joined(p, path[1..][k], path[1..][k + 1]) {
          assert Joined(p, path[k + 1], path[k + 2]);
        }
      }
      BackwardChain(p, path[1..], c, b);
      assert Joined(p, path[0], path[1]);
      BoundJoined(p, a, c);
      BoundTransitive(p, b, c, a);
    }
  }

  lemma BoundSymmetric(p: seq<Factor>, a: Index, b: Index)
    requires Bound(p, a, b)
    ensures Bound(p, b, a)
  {
    var path :| Connects(p, path, a, b);
    BackwardChain(p, path, a, b);
  }

  /** No delta of p is violated. */
  ghost predicate Satisfies(p: seq<Factor>, a: Assignment) {
    forall i, j :: Delta(i, j) in p ==> i in a && j in a && a[i] == a[j]
  }

  lemma {:induction false} ChainAgrees(p: seq<Factor>, a: Assignment, path: seq<Index>, x: Index, y: Index)
    requires Satisfies(p, a) && x in a && Connects(p, path, x, y)
    ensures y in a && a[y] == a[x]
    decreases |path|
  {
    if |path| > 1 {
      assert Joined(p, path[0], path[1]);
      assert Connects(p, path[1..], path[1], y) by {
        forall k | 0 <= k < |path[1..]| - 1 ensures Joined(p, path[1..][k], path[1..][k + 1]) {
          assert Joined(p, path[k + 1], path[k + 2]);
        }
      }
      ChainAgrees(p, a, path[1..], path[1], y);
    }
  }

  lemma BoundAgrees(p: seq<Factor>, a: Assignment, x: Index, y: Index)
    requires Satisfies(p, a) && x in a && Bound(p, x, y)
    ensures y in a && a[y] == a[x]
  {
    var path :| Connects(p, path, x, y);
    ChainAgrees(p, a, path, x, y);
  }

  lemma {:induction false} ViolatedIsZero(t: Meaning, p: seq<Factor>, a: Assignment)
    requires Indices(p) <= a.Keys
    ensures !Satisfies(p, a) ==> ProductValue(t, p, a) == 0.0
  {
    if p != [] {
      var u, f := Init(p), Last(p);
      ViolatedIsZero(t, u, a);
      assert p == u + [f];
      if !Satisfies(p, a) && Satisfies(u, a) {
        var i, j :| Delta(i, j) in p && !(i in a && j in a && a[i] == a[j]);
        assert f == Delta(i, j);
      }
    }
  }

  // ---- Replacing indices ----

  function Rename(m: map<Index, Index>, i: Index): Index {
    if i in m then m[i] else i
  }

  function RenameAll(m: map<Index, Index>, s: seq<Index>): (r: seq<Index>)
    ensures |r| == |s| && forall k :: 0 <= k < |s| ==> r[k] == Rename(m, s[k])
  {
    seq(|s|, k requires 0 <= k < |s| => Rename(m, s[k]))
  }

  function ApplyTo(m: map<Index, Index>, f: Factor): Factor {
    match f
    case One => One
    case Delta(i, j) => Delta(Rename(m, i), Rename(m, j))
    case Tensor(name, slots) => Tensor(name, RenameAll(m, slots))
  }

  function Apply(m: map<Index, Index>, p: seq<Factor>): (r: seq<Factor>)
    ensures |r| == |p| && forall k :: 0 <= k < |p| ==> r[k] == ApplyTo(m, p[k])
  {
    seq(|p|, k requires 0 <= k < |p| => ApplyTo(m, p[k]))
  }

  lemma {:induction false} AppliedIndices(m: map<Index, Index>, p: seq<Factor>)
    ensures Indices(Apply(m, p)) == set i | i in Indices(p) :: Rename(m, i)
  {
    if p != [] {
      AppliedIndices(m, Init(p));
      var q := Apply(m, p);
      assert Init(q) == Apply(m, Init(p));
      AppliedSlots(m, Last(p));
      hide Rename, ApplyTo;
      var a, b := Indices(Init(p)), Elems(Slots(Last(p)));
      assert (set i | i in a + b :: Rename(m, i)) == (set i | i in a :: Rename(m, i)) + (set i | i in b :: Rename(m, i));
    }
  }

  lemma AppliedSlots(m: map<Index, Index>, f: Factor)
    ensures Slots(ApplyTo(m, f)) == RenameAll(m, Slots(f))
    ensures Elems(Slots(ApplyTo(m, f))) == set i | i in Elems(Slots(f)) :: Rename(m, i)
  {
    var s := Slots(f);
    forall i | i in s ensures Rename(m, i) in RenameAll(m, s) {
      var k :| 0 <= k < |s| && s[k] == i;
      assert RenameAll(m, s)[k] == Rename(m, i);
    }
    forall i | i in RenameAll(m, s) ensures exists j :: j in s && Rename(m, j) == i {
      var k :| 0 <= k < |s| && RenameAll(m, s)[k] == i;
      assert s[k] in s;
    }
  }

  /** A renamed product has the same value where the renamed indices have the same values. */
  lemma {:induction false} RenamedValue(t: Meaning, p: seq<Factor>, m: map<Index, Index>, a: Assignment, b: Assignment)
    requires Indices(p) <= a.Keys && Indices(Apply(m, p)) <= b.Keys
    requires forall i :: i in Indices(p) ==> Rename(m, i) in b && b[Rename(m, i)] == a[i]
    ensures ProductValue(t, Apply(m, p), b) == ProductValue(t, p, a)
  {
    hide ApplyTo, Rename, FactorValue, Apply, Slots, Indices;
    if p != [] {
      var q := Apply(m, p);
      assert Init(q) == Apply(m, Init(p)) && Last(q) == ApplyTo(m, Last(p));
      LastIndices(p);
      LastIndices(q);
      RenamedValue(t, Init(p), m, a, b);
      RenamedFactor(t, Last(p), m, a, b);
    }
  }

  lemma LastIndices(p: seq<Factor>)
    requires p != []
    ensures Indices(p) == Indices(Init(p)) + Elems(Slots(Last(p)))
  {
  }

  lemma RenamedFactor(t: Meaning, f: Factor, m: map<Index, Index>, a: Assignment, b: Assignment)
    requires Elems(Slots(f)) <= a.Keys && Elems(Slots(ApplyTo(m, f))) <= b.Keys
    requires forall i :: i in Elems(Slots(f)) ==> Rename(m, i) in b && b[Rename(m, i)] == a[i]
    ensures FactorValue(t, ApplyTo(m, f), b) == FactorValue(t, f, a)
  {
    match f
    case One =>
    case Delta(i, j) =>
      assert i in Slots(f) && j in Slots(f);
    case Tensor(name, slots) =>
      var r := RenameAll(m, slots);
      assert SlotValues(r, b) == SlotValues(slots, a) by {
        forall k | 0 <= k < |slots| ensures SlotValues(r, b)[k] == SlotValues(slots, a)[k] {
          assert slots[k] in slots;
        }
      }
  }
}
