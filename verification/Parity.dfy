/** Inversions of a sequence and the sign of the permutation that sorts it. */
module Parity {
  import opened Sequences

  function Sign(n: int): int {
    if n % 2 == 0 then 1 else -1
  }

  lemma SignSum(a: int, b: int)
    ensures Sign(a + b) == Sign(a) * Sign(b)
  {
  }

  lemma SignDrop(a: int, b: int, h: int)
    requires a == b - 2 * h
    ensures Sign(a) == Sign(b)
  {
  }

  /** Number of pairs out of order. */
  function Inversions(q: seq<nat>): nat {
    if q == [] then 0 else CountBelow(q[1..], q[0]) + Inversions(q[1..])
  }

  function CountBelow(q: seq<nat>, x: nat): nat {
    if q == [] then 0 else (if q[0] < x then 1 else 0) + CountBelow(q[1..], x)
  }

  function CrossBelow(a: seq<nat>, b: seq<nat>): nat {
    if a == [] then 0 else CountBelow(b, a[0]) + CrossBelow(a[1..], b)
  }

  lemma {:induction false} CountBelowConcat(a: seq<nat>, b: seq<nat>, x: nat)
    ensures CountBelow(a + b, x) == CountBelow(a, x) + CountBelow(b, x)
  {
    if a == [] {
      assert a + b == b;
    } else {
      CountBelowConcat(a[1..], b, x);
      assert (a + b)[1..] == a[1..] + b;
    }
  }

  lemma {:induction false} InversionsConcat(a: seq<nat>, b: seq<nat>)
    ensures Inversions(a + b) == Inversions(a) + CrossBelow(a, b) + Inversions(b)
  {
    if a == [] {
      assert a + b == b;
    } else {
      InversionsConcat(a[1..], b);
      CountBelowConcat(a[1..], b, a[0]);
      assert (a + b)[1..] == a[1..] + b;
    }
  }

  lemma {:induction false} CrossBelowSame(a: seq<nat>, b: seq<nat>, c: seq<nat>)
    requires forall x :: CountBelow(b, x) == CountBelow(c, x)
    ensures CrossBelow(a, b) == CrossBelow(a, c)
  {
    if a != [] { CrossBelowSame(a[1..], b, c); }
  }

  lemma {:induction false} CountBelowAll(q: seq<nat>, x: nat)
    requires forall k :: 0 <= k < |q| ==> q[k] < x
    ensures CountBelow(q, x) == |q|
  {
    if q != [] { CountBelowAll(q[1..], x); }
  }

  lemma {:induction false} CountBelowNone(q: seq<nat>, x: nat)
    requires forall k :: 0 <= k < |q| ==> q[k] >= x
    ensures CountBelow(q, x) == 0
  {
    if q != [] { CountBelowNone(q[1..], x); }
  }

  lemma {:induction false} IncreasingHasNoInversions(q: seq<nat>)
    requires Increasing(q)
    ensures Inversions(q) == 0
  {
    if q != [] {
      CountBelowNone(q[1..], q[0]);
      IncreasingHasNoInversions(q[1..]);
    }
  }

  // ---- Permuted sequences ----

  lemma {:induction false} CountBelowPermuted(a: seq<nat>, b: seq<nat>, x: nat)
    requires multiset(a) == multiset(b)
    ensures CountBelow(a, x) == CountBelow(b, x)
  {
    if a == [] {
      assert |b| == |multiset(b)| == 0;
    } else {
      assert a[0] in multiset(b);
      var k :| 0 <= k < |b| && b[k] == a[0];
      RemovedElement(a, b, k);
      CountBelowPermuted(a[1..], Erase(b, k), x);
      CountBelowConcat(b[..k], b[k + 1..], x);
      CountBelowConcat(b[..k], [b[k]] + b[k + 1..], x);
      assert b == b[..k] + ([b[k]] + b[k + 1..]);
    }
  }

  lemma RemovedElement(a: seq<nat>, b: seq<nat>, k: nat)
    requires a != [] && k < |b| && b[k] == a[0] && multiset(a) == multiset(b)
    ensures multiset(a[1..]) == multiset(Erase(b, k))
  {
    assert a == [a[0]] + a[1..];
    assert b == b[..k] + [b[k]] + b[k + 1..];
    assert multiset(a[1..]) == multiset(a) - multiset{a[0]};
    assert multiset(Erase(b, k)) == multiset(b) - multiset{b[k]};
  }

  lemma CrossBelowPermuted(a: seq<nat>, b: seq<nat>, c: seq<nat>)
    requires multiset(b) == multiset(c)
    ensures CrossBelow(a, b) == CrossBelow(a, c)
  {
    forall x ensures CountBelow(b, x) == CountBelow(c, x) { CountBelowPermuted(b, c, x); }
    CrossBelowSame(a, b, c);
  }

  // ---- Moving and swapping elements ----

  function CountAbove(q: seq<nat>, x: nat): nat {
    CrossBelow(q, [x])
  }

  lemma {:induction false} CrossBelowConcat(a: seq<nat>, b: seq<nat>, c: seq<nat>)
    ensures CrossBelow(a + b, c) == CrossBelow(a, c) + CrossBelow(b, c)
  {
    if a == [] {
      assert a + b == b;
    } else {
      CrossBelowConcat(a[1..], b, c);
      assert (a + b)[1..] == a[1..] + b;
    }
  }

  lemma {:induction false} BelowAndAbove(q: seq<nat>, x: nat)
    requires x !in q
    ensures CountBelow(q, x) + CountAbove(q, x) == |q|
  {
    if q != [] {
      assert q[0] in q && forall y :: y in q[1..] ==> y in q;
      assert CountBelow([x], q[0]) == if x < q[0] then 1 else 0;
      BelowAndAbove(q[1..], x);
    }
  }

  /** Moving x to the right past b changes the parity of the inversions by |b|. */
  lemma MoveRight(a: seq<nat>, x: nat, b: seq<nat>, c: seq<nat>)
    requires x !in b
    ensures Sign(Inversions(a + [x] + b + c)) == Sign(Inversions(a + b + [x] + c) + |b|)
  {
    var xb, bx := [x] + b, b + [x];
    assert a + [x] + b + c == a + (xb + c) && a + b + [x] + c == a + (bx + c);
    InversionsConcat(a, xb + c);
    InversionsConcat(a, bx + c);
    forall y ensures CountBelow(xb + c, y) == CountBelow(bx + c, y) {
      CountBelowConcat(xb, c, y);
      CountBelowConcat(bx, c, y);
      CountBelowConcat([x], b, y);
      CountBelowConcat(b, [x], y);
    }
    CrossBelowSame(a, xb + c, bx + c);
    InversionsConcat(xb, c);
    InversionsConcat(bx, c);
    CrossBelowConcat([x], b, c);
    CrossBelowConcat(b, [x], c);
    InversionsConcat([x], b);
    InversionsConcat(b, [x]);
    BelowAndAbove(b, x);
    assert CrossBelow([x], b) == CountBelow(b, x);
    SignDrop(Inversions(a + [x] + b + c), Inversions(a + b + [x] + c) + |b|, CountAbove(b, x));
  }

  /** Swapping two elements changes the parity of the inversions. */
  lemma SwapSign(a: seq<nat>, x: nat, b: seq<nat>, y: nat, c: seq<nat>)
    requires x != y && x !in b && y !in b
    ensures Sign(Inversions(a + [x] + b + [y] + c)) == -Sign(Inversions(a + [y] + b + [x] + c))
  {
    MoveRight(a, x, b + [y], c);
    assert a + [x] + (b + [y]) + c == a + [x] + b + [y] + c;
    MoveRight(a, y, b, [x] + c);
    assert a + [y] + b + ([x] + c) == a + [y] + b + [x] + c;
    assert a + b + [y] + ([x] + c) == a + (b + [y]) + [x] + c;
    SignSum(Inversions(a + (b + [y]) + [x] + c), |b|);
    SignSum(Inversions(a + (b + [y]) + [x] + c) + |b|, 1);
  }

  function Swap<T>(q: seq<T>, i: nat, j: nat): seq<T>
    requires i < |q| && j < |q|
  {
    q[i := q[j]][j := q[i]]
  }

  lemma SwapAtSign(q: seq<nat>, i: nat, j: nat)
    requires NoDup(q) && i < |q| && j < |q| && i != j
    ensures Sign(Inversions(Swap(q, i, j))) == -Sign(Inversions(q))
  {
    if i < j { SwapOrderedSign(q, i, j); } else { SwapOrderedSign(q, j, i); }
    assert Swap(q, i, j) == Swap(q, j, i);
  }

  lemma SwapOrderedSign(q: seq<nat>, i: nat, j: nat)
    requires NoDup(q) && i < j < |q|
    ensures Sign(Inversions(Swap(q, i, j))) == -Sign(Inversions(q))
  {
    var a, b, c := q[..i], q[i + 1..j], q[j + 1..];
    SwapParts(q, i, j);
    assert q[i] !in b && q[j] !in b && q[i] != q[j];
    hide NoDup;
    SwapSign(a, q[i], b, q[j], c);
  }

  lemma SwapParts<T>(q: seq<T>, i: nat, j: nat)
    requires i < j < |q|
    ensures q == q[..i] + [q[i]] + q[i + 1..j] + [q[j]] + q[j + 1..]
    ensures Swap(q, i, j) == q[..i] + [q[j]] + q[i + 1..j] + [q[i]] + q[j + 1..]
  {
  }
}
