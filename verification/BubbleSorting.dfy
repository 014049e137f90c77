/**
 Bubble sort by swaps. It stops exactly when no two elements compare less than each other both ways,
 and then it makes one swap for every pair that was out of order.
 */
module BubbleSorting {
  import opened Parity

  /** comp is transitive and so is its negation: a weak order, strict or not. */
  ghost predicate WeakOrder<T(!new)>(comp: (T, T) -> bool) {
    && (forall x, y, z :: comp(x, y) && comp(y, z) ==> comp(x, z))
    && forall x, y, z :: comp(x, z) ==> comp(x, y) || comp(y, z)
  }

  ghost predicate Sorted<T>(comp: (T, T) -> bool, s: seq<T>) {
    forall i, j :: 0 <= i < j < |s| ==> !comp(s[j], s[i])
  }

  /** Two elements that each compare less than the other; impossible for a strict order. */
  ghost predicate Tied<T>(comp: (T, T) -> bool, s: seq<T>) {
    exists i, j :: 0 <= i < j < |s| && comp(s[i], s[j]) && comp(s[j], s[i])
  }

  function CountLess<T>(comp: (T, T) -> bool, q: seq<T>, x: T): nat {
    if q == [] then 0 else (if comp(q[0], x) then 1 else 0) + CountLess(comp, q[1..], x)
  }

  /** Number of pairs out of order. */
  function Disorder<T>(comp: (T, T) -> bool, q: seq<T>): nat {
    if q == [] then 0 else CountLess(comp, q[1..], q[0]) + Disorder(comp, q[1..])
  }

  /** One pass from position i on, and whether it swapped anything. */
  function Pass<T>(comp: (T, T) -> bool, s: seq<T>, i: nat): (r: (seq<T>, bool))
    ensures |r.0| == |s|
    decreases |s| - i
  {
    if i + 1 >= |s| then (s, false)
    else if comp(s[i + 1], s[i]) then (Pass(comp, Swap(s, i, i + 1), i + 1).0, true)
    else Pass(comp, s, i + 1)
  }

  function Passes<T>(comp: (T, T) -> bool, s: seq<T>, n: nat): seq<T> {
    if n == 0 then s else Pass(comp, Passes(comp, s, n - 1), 0).0
  }

  // ---- One swap ----

  lemma SwapTail<T>(q: seq<T>, i: nat)
    requires 0 < i && i + 1 < |q|
    ensures Swap(q, i, i + 1)[1..] == Swap(q[1..], i - 1, i) && Swap(q, i, i + 1)[0] == q[0]
  {
  }

  lemma {:induction false} CountSwapped<T>(comp: (T, T) -> bool, q: seq<T>, i: nat, x: T)
    requires i + 1 < |q|
    ensures CountLess(comp, Swap(q, i, i + 1), x) == CountLess(comp, q, x)
  {
    var r := Swap(q, i, i + 1);
    if i == 0 {
      assert r[1..][1..] == q[1..][1..];
    } else {
      SwapTail(q, i);
      CountSwapped(comp, q[1..], i - 1, x);
    }
  }

  lemma {:induction false} SwapDisorder<T>(comp: (T, T) -> bool, q: seq<T>, i: nat)
    requires i + 1 < |q| && comp(q[i + 1], q[i]) && !comp(q[i], q[i + 1])
    ensures Disorder(comp, Swap(q, i, i + 1)) + 1 == Disorder(comp, q)
  {
    var r := Swap(q, i, i + 1);
    if i == 0 {
      assert r[1..][1..] == q[1..][1..];
    } else {
      SwapTail(q, i);
      CountSwapped(comp, q[1..], i - 1, q[0]);
      SwapDisorder(comp, q[1..], i - 1);
    }
  }

  lemma SwapKeeps<T>(q: seq<T>, i: nat)
    requires i + 1 < |q|
    ensures multiset(Swap(q, i, i + 1)) == multiset(q)
  {
  }

  lemma SwapTied<T>(comp: (T, T) -> bool, q: seq<T>, i: nat)
    requires i + 1 < |q|
    ensures Tied(comp, Swap(q, i, i + 1)) <==> Tied(comp, q)
  {
    var r := Swap(q, i, i + 1);
    if Tied(comp, q) { TiedMoves(comp, q, r, i); }
    if Tied(comp, r) { TiedMoves(comp, r, q, i); }
  }

  lemma TiedMoves<T>(comp: (T, T) -> bool, q: seq<T>, r: seq<T>, i: nat)
    requires i + 1 < |q| && r == Swap(q, i, i + 1) && Tied(comp, q)
    ensures Tied(comp, r)
  {
    var a, b :| 0 <= a < b < |q| && comp(q[a], q[b]) && comp(q[b], q[a]);
    var c, d := Moved(a, i), Moved(b, i);
    assert r[c] == q[a] && r[d] == q[b];
    if c > d { assert comp(r[d], r[c]); }
  }

  function Moved(a: nat, i: nat): nat {
    if a == i then i + 1 else if a == i + 1 then i else a
  }

  // ---- One pass ----

  ghost predicate QuietFrom<T>(comp: (T, T) -> bool, s: seq<T>, i: nat) {
    forall j :: i <= j && j + 1 < |s| ==> !comp(s[j + 1], s[j])
  }

  lemma {:induction false} PassFacts<T>(comp: (T, T) -> bool, s: seq<T>, i: nat)
    ensures multiset(Pass(comp, s, i).0) == multiset(s)
    ensures Tied(comp, Pass(comp, s, i).0) <==> Tied(comp, s)
    ensures !Pass(comp, s, i).1 <==> QuietFrom(comp, s, i)
    ensures !Pass(comp, s, i).1 ==> Pass(comp, s, i).0 == s
    decreases |s| - i
  {
    hide Tied;
    if i + 1 < |s| {
      if comp(s[i + 1], s[i]) {
        SwapKeeps(s, i);
        SwapTied(comp, s, i);
        PassFacts(comp, Swap(s, i, i + 1), i + 1);
      } else {
        PassFacts(comp, s, i + 1);
      }
    }
  }

  lemma {:induction false} PassDisorder<T>(comp: (T, T) -> bool, s: seq<T>, i: nat)
    requires !Tied(comp, s)
    ensures Disorder(comp, Pass(comp, s, i).0) <= Disorder(comp, s)
    ensures Pass(comp, s, i).1 ==> Disorder(comp, Pass(comp, s, i).0) < Disorder(comp, s)
    decreases |s| - i
  {
    if i + 1 < |s| {
      Untied(comp, s, i, i + 1);
      hide Tied, Disorder;
      if comp(s[i + 1], s[i]) {
        SwapTied(comp, s, i);
        SwapDisorder(comp, s, i);
        PassDisorder(comp, Swap(s, i, i + 1), i + 1);
      } else {
        PassDisorder(comp, s, i + 1);
      }
    }
  }

  lemma Untied<T>(comp: (T, T) -> bool, s: seq<T>, i: nat, j: nat)
    requires !Tied(comp, s) && i < j < |s|
    ensures !(comp(s[i], s[j]) && comp(s[j], s[i]))
  {
  }

  /** Neighbours in order means everything is in order. */
  lemma {:induction false} QuietIsSorted<T(!new)>(comp: (T, T) -> bool, s: seq<T>)
    requires WeakOrder(comp) && QuietFrom(comp, s, 0)
    ensures Sorted(comp, s)
  {
    forall i, j | 0 <= i < j < |s| ensures !comp(s[j], s[i]) { QuietPair(comp, s, i, j); }
  }

  lemma {:induction false} QuietPair<T(!new)>(comp: (T, T) -> bool, s: seq<T>, i: nat, j: nat)
    requires WeakOrder(comp) && QuietFrom(comp, s, 0) && i < j < |s|
    ensures !comp(s[j], s[i])
  {
    if j == i + 1 {
      assert !comp(s[i + 1], s[i]);
    } else {
      QuietPair(comp, s, i, j - 1);
      assert !comp(s[j - 1 + 1], s[j - 1]);
    }
  }

  lemma {:induction false} PassesTied<T>(comp: (T, T) -> bool, s: seq<T>, n: nat)
    ensures Tied(comp, Passes(comp, s, n)) <==> Tied(comp, s)
  {
    if n > 0 {
      PassesTied(comp, s, n - 1);
      PassFacts(comp, Passes(comp, s, n - 1), 0);
    }
  }

  /** With a tie every pass swaps something, for ever. */
  lemma NeverSettles<T(!new)>(comp: (T, T) -> bool, s: seq<T>, n: nat)
    requires WeakOrder(comp) && Tied(comp, s)
    ensures Pass(comp, Passes(comp, s, n), 0).1
  {
    var t := Passes(comp, s, n);
    PassesTied(comp, s, n);
    PassFacts(comp, t, 0);
    if QuietFrom(comp, t, 0) { SortedIsUntied(comp, t); }
  }

  lemma SortedIsUntied<T(!new)>(comp: (T, T) -> bool, s: seq<T>)
    requires WeakOrder(comp) && QuietFrom(comp, s, 0)
    ensures !Tied(comp, s)
  {
    QuietIsSorted(comp, s);
  }

  lemma {:induction false} SettlesAfter<T>(comp: (T, T) -> bool, s: seq<T>, n: nat) returns (m: nat)
    requires !Tied(comp, s)
    ensures !Pass(comp, Passes(comp, s, m), 0).1
    decreases Disorder(comp, Passes(comp, s, n))
  {
    var t := Passes(comp, s, n);
    PassesTied(comp, s, n);
    PassDisorder(comp, t, 0);
    if Pass(comp, t, 0).1 { m := SettlesAfter(comp, s, n + 1); } else { m := n; }
  }

  ghost predicate Settles<T>(comp: (T, T) -> bool, s: seq<T>) {
    exists n: nat :: !Pass(comp, Passes(comp, s, n), 0).1
  }

  /** Repeated passes come to rest exactly when no two elements are tied. */
  lemma SettlesIffUntied<T(!new)>(comp: (T, T) -> bool, s: seq<T>)
    requires WeakOrder(comp)
    ensures Settles(comp, s) <==> !Tied(comp, s)
  {
    if Tied(comp, s) {
      forall n: nat ensures Pass(comp, Passes(comp, s, n), 0).1 { NeverSettles(comp, s, n); }
    } else {
      var m := SettlesAfter(comp, s, 0);
    }
  }

  /** A reflexive order ties equal elements: the sort never ends on them. */
  lemma ReflexiveNeverSettles(x: nat)
    ensures var comp := (a: nat, b: nat) => a <= b; WeakOrder(comp) && !Settles(comp, [x, x])
  {
    var comp := (a: nat, b: nat) => a <= b;
    var s := [x, x];
    assert comp(s[0], s[1]) && comp(s[1], s[0]);
    SettlesIffUntied(comp, s);
  }

  // ---- The sort as it runs ----

  /** One pass over the array; the swaps are what the disorder loses. */
  method BubblePass<T(!new)>(a: array<T>, comp: (T, T) -> bool) returns (swapped: bool, swaps: nat)
    requires !Tied(comp, a[..])
    modifies a
    ensures (a[..], swapped) == Pass(comp, old(a[..]), 0)
    ensures Disorder(comp, a[..]) + swaps == Disorder(comp, old(a[..])) && (swapped <==> swaps > 0)
  {
    hide Tied, Disorder;
    swapped, swaps := false, 0;
    var i := 0;
    while i + 1 < a.Length
      invariant !Tied(comp, a[..])
      invariant Pass(comp, old(a[..]), 0) == (Pass(comp, a[..], i).0, swapped || Pass(comp, a[..], i).1)
      invariant Disorder(comp, a[..]) + swaps == Disorder(comp, old(a[..])) && (swapped <==> swaps > 0)
    {
      if comp(a[i + 1], a[i]) {
        ghost var s := a[..];
        Untied(comp, s, i, i + 1);
        SwapTied(comp, s, i);
        SwapDisorder(comp, s, i);
        a[i], a[i + 1] := a[i + 1], a[i];
        assert a[..] == Swap(s, i, i + 1);
        swapped, swaps := true, swaps + 1;
      }
      i := i + 1;
    }
  }

  /** Sorts in place; the number of swaps is the number of pairs that were out of order. */
  method BubbleSort<T(!new)>(a: array<T>, comp: (T, T) -> bool) returns (swaps: nat)
    requires WeakOrder(comp) && !Tied(comp, a[..])
    modifies a
    ensures Sorted(comp, a[..]) && multiset(a[..]) == multiset(old(a[..]))
    ensures swaps == Disorder(comp, old(a[..]))
  {
    hide WeakOrder, Tied, Disorder, Sorted;
    swaps := 0;
    var swapped := a.Length != 0;
    if a.Length == 0 { NothingToSort(comp, a[..]); }
    while swapped
      invariant !Tied(comp, a[..]) && multiset(a[..]) == multiset(old(a[..]))
      invariant Disorder(comp, a[..]) + swaps == Disorder(comp, old(a[..]))
      invariant !swapped ==> Sorted(comp, a[..]) && Disorder(comp, a[..]) == 0
      decreases Disorder(comp, a[..]), swapped
    {
      ghost var s := a[..];
      var more: nat;
      PassFacts(comp, s, 0);
      swapped, more := BubblePass(a, comp);
      if !swapped {
        QuietIsSorted(comp, s);
        SortedNoDisorder(comp, s);
      }
      swaps := swaps + more;
    }
  }

  lemma NothingToSort<T>(comp: (T, T) -> bool, s: seq<T>)
    requires s == []
    ensures Sorted(comp, s) && Disorder(comp, s) == 0
  {
  }

  lemma {:induction false} SortedNoDisorder<T>(comp: (T, T) -> bool, s: seq<T>)
    requires Sorted(comp, s)
    ensures Disorder(comp, s) == 0
  {
    if s != [] {
      assert forall j :: 0 <= j < |s[1..]| ==> !comp(s[1..][j], s[0]);
      NoneLess(comp, s[1..], s[0]);
      SortedNoDisorder(comp, s[1..]);
    }
  }

  lemma {:induction false} NoneLess<T>(comp: (T, T) -> bool, q: seq<T>, x: T)
    requires forall j :: 0 <= j < |q| ==> !comp(q[j], x)
    ensures CountLess(comp, q, x) == 0
  {
    if q != [] { NoneLess(comp, q[1..], x); }
  }

  /** +1 if an even number of swaps was made: the sign of the sorting permutation. */
  method BubbleSortParity<T(!new)>(a: array<T>, comp: (T, T) -> bool) returns (parity: int)
    requires WeakOrder(comp) && !Tied(comp, a[..])
    modifies a
    ensures Sorted(comp, a[..]) && multiset(a[..]) == multiset(old(a[..]))
    ensures parity == Sign(Disorder(comp, old(a[..])))
  {
    var swaps := BubbleSort(a, comp);
    parity := if swaps % 2 == 0 then 1 else -1;
  }

  /** With the usual order on numbers the disorder is the number of inversions. */
  lemma {:induction false} DisorderIsInversions(q: seq<nat>)
    ensures Disorder((x: nat, y: nat) => x < y, q) == Inversions(q)
  {
    if q != [] {
      DisorderIsInversions(q[1..]);
      CountIsBelow(q[1..], q[0]);
    }
  }

  lemma {:induction false} CountIsBelow(q: seq<nat>, x: nat)
    ensures CountLess((x: nat, y: nat) => x < y, q, x) == CountBelow(q, x)
  {
    if q != [] { CountIsBelow(q[1..], x); }
  }

  // ---- Zipped ranges ----

  /** Pairs compare by their first elements, ties by their second. */
  function Composite<T>(comp: (T, T) -> bool): ((T, T), (T, T)) -> bool {
    (c: (T, T), d: (T, T)) => if comp(c.0, d.0) then true else if !comp(d.0, c.0) then comp(c.1, d.1) else false
  }

  ghost predicate Strict<T(!new)>(comp: (T, T) -> bool) {
    forall x, y :: comp(x, y) ==> !comp(y, x)
  }

  /** Pairs can be sorted whenever single elements can. */
  lemma CompositeIsStrict<T(!new)>(comp: (T, T) -> bool)
    requires WeakOrder(comp) && Strict(comp)
    ensures WeakOrder(Composite(comp)) && Strict(Composite(comp))
  {
    var both := Composite(comp);
    forall x, y, z | both(x, z) ensures both(x, y) || both(y, z) {
      assert comp(x.0, z.0) ==> comp(x.0, y.0) || comp(y.0, z.0);
      if !comp(x.0, z.0) {
        assert !comp(z.0, x.0) && comp(x.1, z.1);
        assert comp(x.1, y.1) || comp(y.1, z.1);
        assert comp(y.0, x.0) ==> comp(y.0, z.0) || comp(z.0, x.0);
        assert comp(z.0, y.0) ==> comp(z.0, x.0) || comp(x.0, y.0);
      }
    }
    forall x, y, z | both(x, y) && both(y, z) ensures both(x, z) {
      CompositeTransitive(comp, x, y, z);
    }
    forall x, y | both(x, y) ensures !both(y, x) {
      assert comp(x.0, y.0) ==> !comp(y.0, x.0);
      assert comp(x.1, y.1) ==> !comp(y.1, x.1);
    }
  }

  /** Zipped elements are sorted exactly if their first elements are, and second elements wherever first ones do not differ. */
  lemma ZippedSorted<T(!new)>(comp: (T, T) -> bool, s: seq<(T, T)>)
    requires WeakOrder(comp) && Strict(comp)
    ensures Sorted(Composite(comp), s) <==>
            forall i, j :: 0 <= i < j < |s| ==> !comp(s[j].0, s[i].0) && (comp(s[i].0, s[j].0) || !comp(s[j].1, s[i].1))
  {
    forall i, j | 0 <= i < j < |s|
      ensures Composite(comp)(s[j], s[i]) <==> comp(s[j].0, s[i].0) || (!comp(s[i].0, s[j].0) && comp(s[j].1, s[i].1))
    {
    }
  }

  lemma CompositeTransitive<T(!new)>(comp: (T, T) -> bool, x: (T, T), y: (T, T), z: (T, T))
    requires WeakOrder(comp) && Strict(comp) && Composite(comp)(x, y) && Composite(comp)(y, z)
    ensures Composite(comp)(x, z)
  {
    assert comp(z.0, x.0) ==> comp(z.0, y.0) || comp(y.0, x.0);
    assert comp(x.0, y.0) ==> comp(x.0, z.0) || comp(z.0, y.0);
    assert comp(y.0, z.0) ==> comp(y.0, x.0) || comp(x.0, z.0);
  }
}
