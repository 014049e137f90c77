/** Products of factorials over vectors and matrices of counts. */
module Factorials {
  import opened Sequences
  import opened WickProblem

  function Fact(n: nat): (r: nat)
    ensures r > 0
  {
    if n == 0 then 1 else n * Fact(n - 1)
  }

  function FactVec(v: seq<nat>): (r: nat)
    ensures r > 0
  {
    if v == [] then 1 else FactVec(Init(v)) * Fact(Last(v))
  }

  lemma Mul3(a: int, b: int, c: int)
    ensures a * b * c == a * (b * c) == b * (a * c) == (a * c) * b
  {
  }

  lemma {:induction false} FactVecDrop(v: seq<nat>, a: nat)
    requires a < |v| && v[a] > 0
    ensures FactVec(v) == v[a] * FactVec(v[a := v[a] - 1])
  {
    var u := v[a := v[a] - 1];
    if a == |v| - 1 {
      assert Init(u) == Init(v);
      Mul3(v[a], FactVec(Init(v)), Fact(v[a] - 1));
    } else {
      FactVecDrop(Init(v), a);
      assert Init(u) == Init(v)[a := v[a] - 1];
      Mul3(v[a], FactVec(Init(u)), Fact(Last(v)));
    }
  }

  lemma {:induction false} FactVecZero(v: seq<nat>)
    requires forall k :: 0 <= k < |v| ==> v[k] == 0
    ensures FactVec(v) == 1
  {
    if v != [] { FactVecZero(Init(v)); }
  }

  ghost function FactRow(m: multiset<Pair>, a: nat, k: nat): (r: nat)
    ensures r > 0
  {
    if k == 0 then 1 else FactRow(m, a, k - 1) * Fact(m[(a, k - 1)])
  }

  /** Product of the factorials of the entries in the first k rows, of n columns. */
  ghost function FactMatrix(m: multiset<Pair>, k: nat, n: nat): (r: nat)
    ensures r > 0
  {
    if k == 0 then 1 else FactMatrix(m, k - 1, n) * FactRow(m, k - 1, n)
  }

  lemma {:induction false} FactRowSame(m: multiset<Pair>, d: multiset<Pair>, a: nat, k: nat)
    requires forall b :: 0 <= b < k ==> m[(a, b)] == d[(a, b)]
    ensures FactRow(m, a, k) == FactRow(d, a, k)
  {
    if k > 0 { FactRowSame(m, d, a, k - 1); }
  }

  lemma {:induction false} FactMatrixSame(m: multiset<Pair>, d: multiset<Pair>, k: nat, n: nat)
    requires forall a, b :: 0 <= a < k && 0 <= b < n ==> m[(a, b)] == d[(a, b)]
    ensures FactMatrix(m, k, n) == FactMatrix(d, k, n)
  {
    if k > 0 {
      FactMatrixSame(m, d, k - 1, n);
      FactRowSame(m, d, k - 1, n);
    }
  }

  lemma {:induction false} FactRowAdd(m: multiset<Pair>, e: Pair, k: nat)
    requires e.1 < k
    ensures FactRow(m + multiset{e}, e.0, k) == (m[e] + 1) * FactRow(m, e.0, k)
  {
    var d := m + multiset{e};
    if e.1 == k - 1 {
      FactRowSame(m, d, e.0, k - 1);
      assert (e.0, k - 1) == e;
      Mul3(m[e] + 1, FactRow(m, e.0, k - 1), Fact(m[e]));
    } else {
      FactRowAdd(m, e, k - 1);
      Mul3(m[e] + 1, FactRow(m, e.0, k - 1), Fact(m[(e.0, k - 1)]));
    }
  }

  lemma {:induction false} FactMatrixAdd(m: multiset<Pair>, e: Pair, k: nat, n: nat)
    requires e.0 < k && e.1 < n
    ensures FactMatrix(m + multiset{e}, k, n) == (m[e] + 1) * FactMatrix(m, k, n)
  {
    var d := m + multiset{e};
    if e.0 == k - 1 {
      FactMatrixSame(m, d, k - 1, n);
      FactRowAdd(m, e, n);
      Mul3(m[e] + 1, FactMatrix(m, k - 1, n), FactRow(m, k - 1, n));
    } else {
      FactMatrixAdd(m, e, k - 1, n);
      FactRowSame(m, d, k - 1, n);
      Mul3(m[e] + 1, FactMatrix(m, k - 1, n), FactRow(m, k - 1, n));
    }
  }

  lemma {:induction false} FactMatrixEmpty(k: nat, n: nat)
    ensures FactMatrix(multiset{}, k, n) == 1
  {
    if k > 0 {
      FactMatrixEmpty(k - 1, n);
      FactRowEmpty(k - 1, n);
    }
  }

  lemma {:induction false} FactRowEmpty(a: nat, k: nat)
    ensures FactRow(multiset{}, a, k) == 1
  {
    if k > 0 { FactRowEmpty(a, k - 1); }
  }

  function Dot(h: seq<nat>, v: seq<nat>): nat
    requires |h| == |v|
  {
    if h == [] then 0 else Dot(Init(h), Init(v)) + Last(h) * Last(v)
  }

  lemma {:induction false} DotAdd(h: seq<nat>, v: seq<nat>, b: nat)
    requires |h| == |v| && b < |v|
    ensures Dot(h, v[b := v[b] + 1]) == Dot(h, v) + h[b]
  {
    var u := v[b := v[b] + 1];
    if b == |v| - 1 {
      assert Init(u) == Init(v);
      assert Last(h) * (Last(v) + 1) == Last(h) * Last(v) + Last(h);
    } else {
      DotAdd(Init(h), Init(v), b);
      assert Init(u) == Init(v)[b := v[b] + 1];
    }
  }

  lemma {:induction false} DotZero(h: seq<nat>, v: seq<nat>)
    requires |h| == |v| && forall k :: 0 <= k < |v| ==> v[k] == 0
    ensures Dot(h, v) == 0
  {
    if h != [] { DotZero(Init(h), Init(v)); }
  }
}
