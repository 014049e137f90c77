/**
 The lexicographic successor of a permutation of elements under any strict weak order, in place. Each element has a
 key, the number of elements that compare less, so that what is proved of numbers holds of the elements.
 */
module PermutationOrders {
  import opened Parity
  import opened BubbleSorting
  import P = PermutationSteps

  // ---- Keys ----

  /** Number of elements of s less than x. */
  function Key<T>(comp: (T, T) -> bool, s: seq<T>, x: T): nat {
    CountLess(comp, s, x)
  }

  function Keys<T>(comp: (T, T) -> bool, s: seq<T>, q: seq<T>): (k: seq<nat>)
    ensures |k| == |q|
  {
    seq(|q|, i requires 0 <= i < |q| => Key(comp, s, q[i]))
  }

  lemma {:induction false} CountMono<T(!new)>(comp: (T, T) -> bool, s: seq<T>, x: T, y: T)
    requires forall z :: z in s && comp(z, x) ==> comp(z, y)
    ensures CountLess(comp, s, x) <= CountLess(comp, s, y)
    ensures (exists z :: z in s && comp(z, y) && !comp(z, x)) ==> CountLess(comp, s, x) < CountLess(comp, s, y)
  {
    if s != [] {
      assert s[0] in s && forall z :: z in s[1..] ==> z in s;
      CountMono(comp, s[1..], x, y);
      if z :| z in s && comp(z, y) && !comp(z, x) {
        assert z == s[0] || z in s[1..];
      }
    }
  }

  /** Elements of s compare as their keys. */
  lemma KeyOrder<T(!new)>(comp: (T, T) -> bool, s: seq<T>, x: T, y: T)
    requires WeakOrder(comp) && Strict(comp) && x in s
    ensures comp(x, y) <==> Key(comp, s, x) < Key(comp, s, y)
  {
    if comp(x, y) {
      CountMono(comp, s, x, y);
    } else {
      forall z | z in s && comp(z, y) ensures comp(z, x) { assert comp(z, x) || comp(x, y); }
      CountMono(comp, s, y, x);
    }
  }

  lemma KeysCompare<T(!new)>(comp: (T, T) -> bool, s: seq<T>)
    requires WeakOrder(comp) && Strict(comp)
    ensures forall x, y :: x in s && y in s ==> (comp(x, y) <==> Key(comp, s, x) < Key(comp, s, y))
  {
    forall x, y | x in s && y in s ensures comp(x, y) <==> Key(comp, s, x) < Key(comp, s, y) {
      KeyOrder(comp, s, x, y);
    }
  }

  /** q is made of elements of s. */
  ghost predicate Of<T>(q: seq<T>, s: seq<T>) {
    forall i :: 0 <= i < |q| ==> q[i] in s
  }

  /** The same elements as often. */
  ghost predicate Rearranged<T>(q: seq<T>, r: seq<T>) {
    multiset(q) == multiset(r)
  }

  lemma OfBag<T>(q: seq<T>, s: seq<T>)
    requires multiset(q) == multiset(s)
    ensures Of(q, s) && |q| == |s|
  {
    forall i | 0 <= i < |q| ensures q[i] in s { assert q[i] in multiset(q) && q[i] in multiset(s); }
    assert |multiset(q)| == |q| && |multiset(s)| == |s|;
  }

  lemma {:induction false} KeysBag<T>(comp: (T, T) -> bool, s: seq<T>, q: seq<T>, r: seq<T>)
    requires multiset(q) == multiset(r)
    ensures multiset(Keys(comp, s, q)) == multiset(Keys(comp, s, r))
    decreases |q|
  {
    OfBag(q, r);
    if q != [] {
      assert q[0] in r;
      var k :| 0 <= k < |r| && r[k] == q[0];
      BagWithout(q, r, k);
      KeysBag(comp, s, q[1..], r[..k] + r[k + 1..]);
      KeysOfParts(comp, s, q, r, k);
    }
  }

  lemma BagWithout<T>(q: seq<T>, r: seq<T>, k: nat)
    requires q != [] && k < |r| && r[k] == q[0] && multiset(q) == multiset(r)
    ensures multiset(q[1..]) == multiset(r[..k] + r[k + 1..])
  {
    BagOfRest(q, 0);
    BagOfRest(r, k);
    assert q[..0] + q[1..] == q[1..];
  }

  lemma BagOfRest<T>(r: seq<T>, k: nat)
    requires k < |r|
    ensures multiset(r[..k] + r[k + 1..]) == multiset(r) - multiset{r[k]}
  {
    assert r == r[..k] + [r[k]] + r[k + 1..];
  }

  lemma KeysOfParts<T>(comp: (T, T) -> bool, s: seq<T>, q: seq<T>, r: seq<T>, k: nat)
    requires q != [] && k < |r| && r[k] == q[0]
    requires multiset(Keys(comp, s, q[1..])) == multiset(Keys(comp, s, r[..k] + r[k + 1..]))
    ensures multiset(Keys(comp, s, q)) == multiset(Keys(comp, s, r))
  {
    hide Key;
    var a, b, x := Keys(comp, s, r[..k]), Keys(comp, s, r[k + 1..]), Key(comp, s, q[0]);
    assert Keys(comp, s, q) == [x] + Keys(comp, s, q[1..]);
    assert Keys(comp, s, r) == a + [x] + b;
    assert Keys(comp, s, r[..k] + r[k + 1..]) == a + b;
  }

  // ---- Lexicographic order ----

  ghost predicate Alike<T>(comp: (T, T) -> bool, x: T, y: T) {
    !comp(x, y) && !comp(y, x)
  }

  ghost predicate LessAt<T>(comp: (T, T) -> bool, s: seq<T>, t: seq<T>, d: nat) {
    d < |s| && d < |t| && (forall i :: 0 <= i < d ==> Alike(comp, s[i], t[i])) && comp(s[d], t[d])
  }

  ghost predicate LexLess<T>(comp: (T, T) -> bool, s: seq<T>, t: seq<T>) {
    exists d :: LessAt(comp, s, t, d)
  }

  /** t comes right after s among the arrangements of the same elements. */
  ghost predicate Successor<T(!new)>(comp: (T, T) -> bool, s: seq<T>, t: seq<T>) {
    && multiset(s) == multiset(t) && LexLess(comp, s, t)
    && forall u: seq<T> :: multiset(u) == multiset(s) && LexLess(comp, s, u) ==> !LexLess(comp, u, t)
  }

  ghost predicate Ascending<T>(comp: (T, T) -> bool, s: seq<T>) {
    forall i, j :: 0 <= i < j < |s| ==> !comp(s[j], s[i])
  }

  ghost predicate Descending<T>(comp: (T, T) -> bool, s: seq<T>) {
    forall i, j :: 0 <= i < j < |s| ==> !comp(s[i], s[j])
  }

  lemma LexByKeys<T(!new)>(comp: (T, T) -> bool, s: seq<T>, a: seq<T>, b: seq<T>)
    requires WeakOrder(comp) && Strict(comp) && Of(a, s) && Of(b, s)
    ensures LexLess(comp, a, b) <==> P.LexLess(Keys(comp, s, a), Keys(comp, s, b))
  {
    KeysCompare(comp, s);
    var k, l := Keys(comp, s, a), Keys(comp, s, b);
    hide WeakOrder, Strict, Key;
    if d: nat :| LessAt(comp, a, b, d) {
      assert k[..d] == l[..d];
      assert P.LessAt(k, l, d);
    }
    if d: nat :| P.LessAt(k, l, d) {
      forall i | 0 <= i < d ensures Alike(comp, a[i], b[i]) { assert k[..d][i] == l[..d][i]; }
      assert LessAt(comp, a, b, d);
    }
  }

  lemma SortedByKeys<T(!new)>(comp: (T, T) -> bool, s: seq<T>, q: seq<T>)
    requires WeakOrder(comp) && Strict(comp) && Of(q, s)
    ensures Ascending(comp, q) <==> P.Ascending(Keys(comp, s, q))
    ensures Descending(comp, q) <==> P.Descending(Keys(comp, s, q))
  {
    KeysCompare(comp, s);
    hide WeakOrder, Strict, Key;
    var k := Keys(comp, s, q);
    assert forall i, j :: 0 <= i < |q| && 0 <= j < |q| ==> (comp(q[i], q[j]) <==> k[i] < k[j]);
  }

  /** The ascending arrangement is the first. */
  lemma AscendingIsFirst<T(!new)>(comp: (T, T) -> bool, s: seq<T>, u: seq<T>)
    requires WeakOrder(comp) && Strict(comp) && Ascending(comp, s) && multiset(s) == multiset(u)
    ensures !LexLess(comp, u, s)
  {
    OfBag(u, s);
    SortedByKeys(comp, s, s);
    LexByKeys(comp, s, u, s);
    KeysBag(comp, s, s, u);
    P.AscendingIsFirst(Keys(comp, s, s), Keys(comp, s, u));
  }

  /** The descending arrangement is the last. */
  lemma DescendingIsLast<T(!new)>(comp: (T, T) -> bool, s: seq<T>, u: seq<T>)
    requires WeakOrder(comp) && Strict(comp) && Descending(comp, s) && multiset(s) == multiset(u)
    ensures !LexLess(comp, s, u)
  {
    OfBag(u, s);
    SortedByKeys(comp, s, s);
    LexByKeys(comp, s, s, u);
    KeysBag(comp, s, s, u);
    P.DescendingIsLast(Keys(comp, s, s), Keys(comp, s, u));
  }

  lemma SuccessorByKeys<T(!new)>(comp: (T, T) -> bool, s: seq<T>, u: seq<T>)
    requires WeakOrder(comp) && Strict(comp) && Rearranged(u, s) && P.Successor(Keys(comp, s, s), Keys(comp, s, u))
    ensures Successor(comp, s, u)
  {
    hide WeakOrder, Strict, LexLess, P.LexLess, Keys;
    OfBag(u, s);
    LexByKeys(comp, s, s, u);
    forall w: seq<T> | multiset(w) == multiset(s) && LexLess(comp, s, w) ensures !LexLess(comp, w, u) {
      OfBag(w, s);
      KeysBag(comp, s, w, s);
      LexByKeys(comp, s, s, w);
      LexByKeys(comp, s, w, u);
    }
  }

  // ---- Parity ----

  lemma {:induction false} CountByKeys<T(!new)>(comp: (T, T) -> bool, s: seq<T>, q: seq<T>, x: T)
    requires WeakOrder(comp) && Strict(comp) && Of(q, s) && x in s
    ensures CountLess(comp, q, x) == CountBelow(Keys(comp, s, q), Key(comp, s, x))
    ensures CountAlike(comp, q, x) == P.CountEqual(Keys(comp, s, q), Key(comp, s, x))
  {
    if q != [] {
      KeyOrder(comp, s, q[0], x);
      KeyOrder(comp, s, x, q[0]);
      hide WeakOrder, Strict, Key;
      CountByKeys(comp, s, q[1..], x);
      assert Keys(comp, s, q)[1..] == Keys(comp, s, q[1..]);
    }
  }

  /** The disorder is the number of inversions of the keys. */
  lemma {:induction false} DisorderByKeys<T(!new)>(comp: (T, T) -> bool, s: seq<T>, q: seq<T>)
    requires WeakOrder(comp) && Strict(comp) && Of(q, s)
    ensures Disorder(comp, q) == Inversions(Keys(comp, s, q)) && AlikePairs(comp, q) == P.EqualPairs(Keys(comp, s, q))
  {
    hide WeakOrder, Strict, Key;
    if q != [] {
      CountByKeys(comp, s, q[1..], q[0]);
      DisorderByKeys(comp, s, q[1..]);
      assert Keys(comp, s, q)[1..] == Keys(comp, s, q[1..]);
    }
  }

  ghost function CountAlike<T>(comp: (T, T) -> bool, q: seq<T>, x: T): nat {
    if q == [] then 0 else (if Alike(comp, q[0], x) then 1 else 0) + CountAlike(comp, q[1..], x)
  }

  /** Number of pairs that compare neither way. */
  ghost function AlikePairs<T>(comp: (T, T) -> bool, q: seq<T>): nat {
    if q == [] then 0 else CountAlike(comp, q[1..], q[0]) + AlikePairs(comp, q[1..])
  }

  /** The parity stays in step with the pairs out of order. */
  ghost predicate InStep<T>(comp: (T, T) -> bool, parity: int, s: seq<T>, next: int, u: seq<T>) {
    (parity - Disorder(comp, s) - (next - Disorder(comp, u))) % 2 == 0
  }

  /** Position of the last ascent before i, or 0. */
  function Pivot<T>(comp: (T, T) -> bool, s: seq<T>, i: nat): (k: nat)
    requires i < |s| || i == 0
    ensures k <= i
  {
    if i == 0 then 0 else if comp(s[i - 1], s[i]) then i - 1 else Pivot(comp, s, i - 1)
  }

  /** The elements that one step moves. */
  function Moved<T>(comp: (T, T) -> bool, s: seq<T>): seq<T> {
    if s == [] then [] else s[Pivot(comp, s, |s| - 1)..]
  }

  lemma {:induction false} PivotByKeys<T(!new)>(comp: (T, T) -> bool, s: seq<T>, i: nat)
    requires WeakOrder(comp) && Strict(comp) && (i < |s| || i == 0)
    ensures Pivot(comp, s, i) == P.Pivot(Keys(comp, s, s), i)
  {
    if i > 0 {
      KeyOrder(comp, s, s[i - 1], s[i]);
      PivotByKeys(comp, s, i - 1);
    }
  }

  lemma MovedByKeys<T(!new)>(comp: (T, T) -> bool, s: seq<T>)
    requires WeakOrder(comp) && Strict(comp)
    ensures AlikePairs(comp, Moved(comp, s)) == P.EqualPairs(P.Moved(Keys(comp, s, s)))
  {
    hide WeakOrder, Strict, Key, AlikePairs, Disorder, P.EqualPairs, Pivot, P.Pivot;
    if s != [] {
      PivotByKeys(comp, s, |s| - 1);
      var k := Pivot(comp, s, |s| - 1);
      assert Keys(comp, s, s[k..]) == Keys(comp, s, s)[k..];
    }
    DisorderByKeys(comp, s, Moved(comp, s));
  }

  /** What is known of the keys is true of the elements. */
  lemma StepByKeys<T(!new)>(comp: (T, T) -> bool, parity: int, s: seq<T>, next: int, u: seq<T>)
    requires WeakOrder(comp) && Strict(comp) && Rearranged(u, s)
    ensures P.InStep(parity, Keys(comp, s, s), next, Keys(comp, s, u)) <==> InStep(comp, parity, s, next, u)
    ensures P.EqualPairs(P.Moved(Keys(comp, s, s))) == AlikePairs(comp, Moved(comp, s))
  {
    hide WeakOrder, Strict, Keys;
    OfBag(u, s);
    DisorderByKeys(comp, s, s);
    DisorderByKeys(comp, s, u);
    MovedByKeys(comp, s);
  }

  // ---- The step as it runs ----

  method Reverse<T>(a: array<T>, lo: nat, hi: nat)
    requires lo <= hi <= a.Length
    modifies a
    ensures P.Turned(old(a[..]), a[..], lo, hi)
  {
    hide P.Turning, P.Turned;
    ghost var q := a[..];
    var i: nat, j: nat := lo, hi;
    P.StartTurning(q, lo, hi);
    while i + 1 < j
      invariant j <= a.Length && P.Turning(q, a[..], lo, hi, i, j)
      decreases j
    {
      ghost var s := a[..];
      P.TurnMore(q, s, lo, hi, i, j);
      j := j - 1;
      a[i], a[j] := a[j], a[i];
      assert a[..] == Swap(s, i, j);
      i := i + 1;
    }
    P.TurnedRound(q, a[..], lo, hi, i, j);
  }

  lemma TurnedKeys<T>(comp: (T, T) -> bool, s: seq<T>, q: seq<T>, r: seq<T>, lo: nat, hi: nat)
    requires P.Turned(q, r, lo, hi)
    ensures P.Turned(Keys(comp, s, q), Keys(comp, s, r), lo, hi) && Rearranged(r, q)
  {
    hide Key;
    KeysBag(comp, s, q, r);
  }

  lemma SwapKeys<T>(comp: (T, T) -> bool, s: seq<T>, q: seq<T>, i: nat, j: nat)
    requires i < |q| && j < |q|
    ensures Keys(comp, s, Swap(q, i, j)) == Swap(Keys(comp, s, q), i, j) && Rearranged(Swap(q, i, j), q)
  {
    P.SwapBag(q, i, j);
  }

  /** The last position that compares greater than a[i]. */
  method LastLarger<T(!new)>(a: array<T>, comp: (T, T) -> bool, i: nat) returns (j: nat)
    requires WeakOrder(comp) && Strict(comp) && i + 1 < a.Length && comp(a[i], a[i + 1])
    ensures i < j < a.Length && comp(a[i], a[j]) && forall k :: j < k < a.Length ==> !comp(a[i], a[k])
  {
    j := a.Length - 1;
    while !comp(a[i], a[j])
      invariant i < j < a.Length && forall k :: j < k < a.Length ==> !comp(a[i], a[k])
      decreases j
    {
      j := j - 1;
    }
  }

  /** The pivot i and the last greater position j, in terms of keys. */
  lemma ExchangesKeys<T(!new)>(comp: (T, T) -> bool, s: seq<T>, i: nat, j: nat)
    requires WeakOrder(comp) && Strict(comp) && i < j < |s| && comp(s[i], s[j])
    requires P.Descending(Keys(comp, s, s)[i + 1..]) && forall k :: j < k < |s| ==> !comp(s[i], s[k])
    ensures P.Exchanges(Keys(comp, s, s), i, j)
  {
    KeysCompare(comp, s);
    hide WeakOrder, Strict, Key, P.Descending;
  }

  /** The key lists of the arrangements before and after a step. */
  lemma StepKeys<T(!new)>(comp: (T, T) -> bool, s: seq<T>, i: nat, j: nat, u: seq<T>)
    requires i < j < |s| && P.Turned(Swap(s, i, j), u, i + 1, |s|)
    ensures Rearranged(u, s) && P.Turned(Swap(Keys(comp, s, s), i, j), Keys(comp, s, u), i + 1, |s|)
  {
    hide *;
    SwapKeys(comp, s, s, i, j);
    TurnedKeys(comp, s, Swap(s, i, j), u, i + 1, |s|);
    RearrangedTwice(u, Swap(s, i, j), s);
  }

  lemma RearrangedTwice<T>(a: seq<T>, b: seq<T>, c: seq<T>)
    requires Rearranged(a, b) && Rearranged(b, c)
    ensures Rearranged(a, c)
  {
  }

  lemma NumbersStep(parity: int, s: seq<nat>, n: nat, i: nat, j: nat, u: seq<nat>)
    requires n == |s| && i < j < |s| && P.Exchanges(s, i, j) && P.Turned(Swap(s, i, j), u, i + 1, n) && P.Pivot(s, n - 1) == i
    ensures P.Successor(s, u)
    ensures P.InStep(parity, s, P.Rem2(parity + 1 + (n - i - 1) / 2), u) <==> P.EqualPairs(P.Moved(s)) % 2 == 0
  {
    hide *;
    P.StepDone(parity, s, i, j, u);
  }

  lemma StepTaken<T(!new)>(comp: (T, T) -> bool, parity: int, s: seq<T>, i: nat, j: nat, u: seq<T>)
    requires WeakOrder(comp) && Strict(comp) && i < j < |s| && P.Exchanges(Keys(comp, s, s), i, j)
    requires P.Turned(Swap(s, i, j), u, i + 1, |s|) && P.Pivot(Keys(comp, s, s), |s| - 1) == i
    ensures Rearranged(u, s) && Successor(comp, s, u)
    ensures InStep(comp, parity, s, P.Rem2(parity + 1 + (|s| - i - 1) / 2), u) <==> AlikePairs(comp, Moved(comp, s)) % 2 == 0
  {
    hide *;
    StepKeys(comp, s, i, j, u);
    ParityTaken(comp, parity, s, i, j, u);
    SuccessorTaken(comp, parity, s, i, j, u);
  }

  lemma ParityTaken<T(!new)>(comp: (T, T) -> bool, parity: int, s: seq<T>, i: nat, j: nat, u: seq<T>)
    requires WeakOrder(comp) && Strict(comp) && i < j < |s| && P.Exchanges(Keys(comp, s, s), i, j) && Rearranged(u, s)
    requires P.Turned(Swap(Keys(comp, s, s), i, j), Keys(comp, s, u), i + 1, |s|) && P.Pivot(Keys(comp, s, s), |s| - 1) == i
    ensures InStep(comp, parity, s, P.Rem2(parity + 1 + (|s| - i - 1) / 2), u) <==> AlikePairs(comp, Moved(comp, s)) % 2 == 0
  {
    hide *;
    NumbersStep(parity, Keys(comp, s, s), |s|, i, j, Keys(comp, s, u));
    StepByKeys(comp, parity, s, P.Rem2(parity + 1 + (|s| - i - 1) / 2), u);
  }

  lemma SuccessorTaken<T(!new)>(comp: (T, T) -> bool, parity: int, s: seq<T>, i: nat, j: nat, u: seq<T>)
    requires WeakOrder(comp) && Strict(comp) && i < j < |s| && P.Exchanges(Keys(comp, s, s), i, j) && Rearranged(u, s)
    requires P.Turned(Swap(Keys(comp, s, s), i, j), Keys(comp, s, u), i + 1, |s|) && P.Pivot(Keys(comp, s, s), |s| - 1) == i
    ensures Successor(comp, s, u)
  {
    hide *;
    NumbersStep(parity, Keys(comp, s, s), |s|, i, j, Keys(comp, s, u));
    SuccessorByKeys(comp, s, u);
  }

  lemma Wrapped<T(!new)>(comp: (T, T) -> bool, parity: int, s: seq<T>, u: seq<T>)
    requires WeakOrder(comp) && Strict(comp) && s != [] && P.Descending(Keys(comp, s, s)) && P.Turned(s, u, 0, |s|)
    requires P.Pivot(Keys(comp, s, s), |s| - 1) == 0
    ensures Rearranged(u, s) && Descending(comp, s) && Ascending(comp, u)
    ensures InStep(comp, parity, s, P.Rem2(parity + |s| / 2), u) <==> AlikePairs(comp, Moved(comp, s)) % 2 == 0
  {
    hide *;
    TurnedKeys(comp, s, s, u, 0, |s|);
    WrapParity(comp, parity, s, u);
    WrapSorted(comp, s, u);
  }

  lemma WrapParity<T(!new)>(comp: (T, T) -> bool, parity: int, s: seq<T>, u: seq<T>)
    requires WeakOrder(comp) && Strict(comp) && s != [] && P.Descending(Keys(comp, s, s)) && Rearranged(u, s)
    requires P.Turned(Keys(comp, s, s), Keys(comp, s, u), 0, |s|) && P.Pivot(Keys(comp, s, s), |s| - 1) == 0
    ensures P.Ascending(Keys(comp, s, u))
    ensures InStep(comp, parity, s, P.Rem2(parity + |s| / 2), u) <==> AlikePairs(comp, Moved(comp, s)) % 2 == 0
  {
    hide *;
    NumbersWrap(parity, Keys(comp, s, s), |s|, Keys(comp, s, u));
    StepByKeys(comp, parity, s, P.Rem2(parity + |s| / 2), u);
  }

  lemma NumbersWrap(parity: int, s: seq<nat>, n: nat, u: seq<nat>)
    requires n == |s| && n > 0 && P.Descending(s) && P.Turned(s, u, 0, n) && P.Pivot(s, n - 1) == 0
    ensures P.Ascending(u)
    ensures P.InStep(parity, s, P.Rem2(parity + n / 2), u) <==> P.EqualPairs(P.Moved(s)) % 2 == 0
  {
    hide *;
    P.WrapDone(parity, s, u);
  }

  lemma WrapSorted<T(!new)>(comp: (T, T) -> bool, s: seq<T>, u: seq<T>)
    requires WeakOrder(comp) && Strict(comp) && Rearranged(u, s)
    requires P.Descending(Keys(comp, s, s)) && P.Ascending(Keys(comp, s, u))
    ensures Descending(comp, s) && Ascending(comp, u)
  {
    hide *;
    RearrangedOf(u, s);
    SortedByKeys(comp, s, s);
    SortedByKeys(comp, s, u);
  }

  lemma RearrangedOf<T>(u: seq<T>, s: seq<T>)
    requires Rearranged(u, s)
    ensures Of(u, s) && Of(s, s)
  {
    OfBag(u, s);
  }

  lemma NothingMoves<T(!new)>(comp: (T, T) -> bool, parity: int, s: seq<T>)
    requires |s| < 2
    ensures Descending(comp, s) && Ascending(comp, s) && InStep(comp, parity, s, parity, s) && AlikePairs(comp, Moved(comp, s)) == 0
  {
    hide Disorder;
    assert Moved(comp, s) == s;
    if s != [] { assert s[1..] == []; }
  }

  lemma StartsDescending<T>(comp: (T, T) -> bool, s: seq<T>, i: nat)
    requires i + 1 == |s|
    ensures P.Descending(Keys(comp, s, s)[i..])
  {
  }

  lemma StillDescending<T(!new)>(comp: (T, T) -> bool, s: seq<T>, i: nat)
    requires WeakOrder(comp) && Strict(comp) && i + 1 < |s| && P.Descending(Keys(comp, s, s)[i + 1..]) && !comp(s[i], s[i + 1])
    ensures P.Descending(Keys(comp, s, s)[i..])
  {
    KeyOrder(comp, s, s[i], s[i + 1]);
    P.LongerDescending(Keys(comp, s, s), i);
  }

  lemma PivotMoves<T(!new)>(comp: (T, T) -> bool, s: seq<T>, i: nat)
    requires WeakOrder(comp) && Strict(comp) && i + 1 < |s|
    ensures P.Pivot(Keys(comp, s, s), i + 1) == (if comp(s[i], s[i + 1]) then i else P.Pivot(Keys(comp, s, s), i)) && P.Pivot(Keys(comp, s, s), 0) == 0
  {
    KeyOrder(comp, s, s[i], s[i + 1]);
    P.PivotStep(Keys(comp, s, s), i);
  }

  /**
   Steps to the lexicographic successor, or wraps round to the first arrangement. The parity stays in step
   with the pairs out of order exactly when an even number of pairs of the moved elements compare neither way.
   */
  method NextPermutationParity<T(!new)>(parity: int, a: array<T>, comp: (T, T) -> bool) returns (next: int, more: bool)
    requires WeakOrder(comp) && Strict(comp)
    modifies a
    ensures multiset(a[..]) == multiset(old(a[..]))
    ensures more ==> Successor(comp, old(a[..]), a[..])
    ensures !more ==> Descending(comp, old(a[..])) && Ascending(comp, a[..])
    ensures InStep(comp, parity, old(a[..]), next, a[..]) <==> AlikePairs(comp, Moved(comp, old(a[..]))) % 2 == 0
  {
    hide WeakOrder, Strict, Keys, Key, Successor, InStep, AlikePairs, Moved, Ascending, Descending, P.Descending, P.Pivot, P.Turned,
         P.Exchanges, P.Rem2, Pivot;
    ghost var s := a[..];
    if a.Length < 2 {
      NothingMoves(comp, parity, s);
      return parity, false;
    }
    var i := a.Length - 1;
    StartsDescending(comp, s, i);
    while true
      invariant 0 < i < a.Length && a[..] == s && P.Descending(Keys(comp, s, s)[i..])
      invariant P.Pivot(Keys(comp, s, s), i) == P.Pivot(Keys(comp, s, s), |s| - 1)
      decreases i
    {
      var ii := i;
      i := i - 1;
      PivotMoves(comp, s, i);
      if comp(a[i], a[ii]) {
        var j := LastLarger(a, comp, i);
        ExchangesKeys(comp, s, i, j);
        next := P.Rem2(parity + 1 + (a.Length - ii) / 2);
        a[i], a[j] := a[j], a[i];
        assert a[..] == Swap(s, i, j);
        Reverse(a, ii, a.Length);
        StepTaken(comp, parity, s, i, j, a[..]);
        return next, true;
      }
      StillDescending(comp, s, i);
      if i == 0 {
        Reverse(a, 0, a.Length);
        next := P.Rem2(parity + a.Length / 2);
        assert Keys(comp, s, s)[0..] == Keys(comp, s, s);
        Wrapped(comp, parity, s, a[..]);
        return next, false;
      }
    }
  }

  /** If no two elements are alike the parity is always right. */
  lemma {:induction false} DistinctHaveNoAlikePairs<T>(comp: (T, T) -> bool, q: seq<T>)
    requires forall i, j :: 0 <= i < j < |q| ==> comp(q[i], q[j]) || comp(q[j], q[i])
    ensures AlikePairs(comp, q) == 0
  {
    if q != [] {
      assert forall j :: 0 <= j < |q[1..]| ==> q[1..][j] == q[j + 1];
      NoneAlike(comp, q[1..], q[0]);
      DistinctHaveNoAlikePairs(comp, q[1..]);
    }
  }

  lemma {:induction false} NoneAlike<T>(comp: (T, T) -> bool, q: seq<T>, x: T)
    requires forall j :: 0 <= j < |q| ==> comp(q[j], x) || comp(x, q[j])
    ensures CountAlike(comp, q, x) == 0
  {
    if q != [] { NoneAlike(comp, q[1..], x); }
  }

  /** Two elements that compare neither way: nothing moves but the parity changes. */
  lemma AlikePairFlips<T(!new)>(comp: (T, T) -> bool, parity: int, x: T, y: T)
    requires WeakOrder(comp) && Strict(comp) && Alike(comp, x, y)
    ensures var s, u := [x, y], [y, x];
            AlikePairs(comp, Moved(comp, s)) == 1 && Ascending(comp, s) && Ascending(comp, u)
            && !InStep(comp, parity, s, P.Rem2(parity + 1), u)
  {
    var s, u := [x, y], [y, x];
    assert Pivot(comp, s, 1) == Pivot(comp, s, 0) == 0 && Moved(comp, s) == s;
    TwoElements(comp, x, y);
    TwoElements(comp, y, x);
    P.Rem2Parity(parity + 1);
  }

  lemma TwoElements<T>(comp: (T, T) -> bool, x: T, y: T)
    ensures Disorder(comp, [x, y]) == (if comp(y, x) then 1 else 0) && AlikePairs(comp, [x, y]) == if Alike(comp, y, x) then 1 else 0
  {
    assert [x, y][1..] == [y] && [y][1..] == [];
    assert CountLess(comp, [y], x) == if comp(y, x) then 1 else 0;
    assert CountAlike(comp, [y], x) == if Alike(comp, y, x) then 1 else 0;
    assert Disorder(comp, [y]) == 0 && AlikePairs(comp, [y]) == 0;
  }
}
