/** The lexicographic successor of a permutation, and the parity that is carried along, for numbers. */
module PermutationSteps {
  import opened Parity

  // ---- Order ----

  ghost predicate LessAt(s: seq<nat>, t: seq<nat>, d: nat) {
    d < |s| && d < |t| && s[..d] == t[..d] && s[d] < t[d]
  }

  ghost predicate LexLess(s: seq<nat>, t: seq<nat>) {
    exists d :: LessAt(s, t, d)
  }

  ghost predicate Ascending(s: seq<nat>) {
    forall i, j :: 0 <= i < j < |s| ==> s[i] <= s[j]
  }

  ghost predicate Descending(s: seq<nat>) {
    forall i, j :: 0 <= i < j < |s| ==> s[i] >= s[j]
  }

  /** t comes right after s among the arrangements of the same elements. */
  ghost predicate Successor(s: seq<nat>, t: seq<nat>) {
    && multiset(s) == multiset(t) && LexLess(s, t)
    && forall u: seq<nat> :: multiset(u) == multiset(s) && LexLess(s, u) ==> !LexLess(u, t)
  }

  /** What remains after equal beginnings is the same. */
  lemma SameRest(s: seq<nat>, u: seq<nat>, d: nat)
    requires multiset(s) == multiset(u) && d <= |s| && d <= |u| && s[..d] == u[..d]
    ensures multiset(s[d..]) == multiset(u[d..]) && |s| == |u|
  {
    assert s == s[..d] + s[d..] && u == u[..d] + u[d..];
    assert multiset(s) == multiset(s[..d]) + multiset(s[d..]) && multiset(u) == multiset(s[..d]) + multiset(u[d..]);
    assert |multiset(s)| == |s| && |multiset(u)| == |u|;
    forall x ensures multiset(s[d..])[x] == multiset(u[d..])[x] {
      assert multiset(s)[x] == multiset(s[..d])[x] + multiset(s[d..])[x];
      assert multiset(u)[x] == multiset(s[..d])[x] + multiset(u[d..])[x];
    }
  }

  lemma MemberOfRest(s: seq<nat>, u: seq<nat>, d: nat) returns (j: nat)
    requires multiset(s) == multiset(u) && d < |s| && d < |u| && s[..d] == u[..d]
    ensures d <= j < |s| && s[j] == u[d]
  {
    SameRest(s, u, d);
    assert u[d] == u[d..][0] && u[d] in multiset(u[d..]);
    assert u[d] in s[d..];
    var k :| 0 <= k < |s[d..]| && s[d..][k] == u[d];
    j := d + k;
  }

  /** The ascending arrangement is the first. */
  lemma AscendingIsFirst(s: seq<nat>, u: seq<nat>)
    requires Ascending(s) && multiset(s) == multiset(u)
    ensures !LexLess(u, s)
  {
    if LexLess(u, s) {
      var d :| LessAt(u, s, d);
      var j := MemberOfRest(s, u, d);
    }
  }

  /** The descending arrangement is the last. */
  lemma DescendingIsLast(s: seq<nat>, u: seq<nat>)
    requires Descending(s) && multiset(s) == multiset(u)
    ensures !LexLess(s, u)
  {
    if LexLess(s, u) {
      var d :| LessAt(s, u, d);
      var j := MemberOfRest(s, u, d);
    }
  }

  /** s = p x t with t descending, x exchanged with the last larger element y of t, and t turned round. */
  ghost predicate Stepped(s: seq<nat>, p: seq<nat>, x: nat, t: seq<nat>, y: nat, r: seq<nat>, u: seq<nat>) {
    && s == p + [x] + t && u == p + [y] + r
    && Descending(t) && Ascending(r)
    && x < y && y in t && multiset(r) == multiset(t) - multiset{y} + multiset{x}
    && NextAbove(t, x, y)
  }

  /** Nothing in t lies between x and y. */
  ghost predicate NextAbove(t: seq<nat>, x: nat, y: nat) {
    forall z :: z in t && z > x ==> z >= y
  }

  lemma SteppedKeeps(s: seq<nat>, p: seq<nat>, x: nat, t: seq<nat>, y: nat, r: seq<nat>, u: seq<nat>)
    requires Stepped(s, p, x, t, y, r, u)
    ensures multiset(s) == multiset(u) && LexLess(s, u)
  {
    assert y in multiset(t);
    assert multiset(s) == multiset(p) + multiset{x} + multiset(t);
    assert multiset(u) == multiset(p) + multiset{y} + multiset(r);
    assert s[..|p|] == p && u[..|p|] == p;
    assert LessAt(s, u, |p|);
  }

  lemma SteppedIsNext(s: seq<nat>, p: seq<nat>, x: nat, t: seq<nat>, y: nat, r: seq<nat>, u: seq<nat>)
    requires Stepped(s, p, x, t, y, r, u)
    ensures Successor(s, u)
  {
    SteppedKeeps(s, p, x, t, y, r, u);
    forall w: seq<nat> | multiset(w) == multiset(s) && LexLess(s, w) ensures !LexLess(w, u) {
      NothingBetween(s, p, x, t, y, r, u, w);
    }
  }

  lemma NothingBetween(s: seq<nat>, p: seq<nat>, x: nat, t: seq<nat>, y: nat, r: seq<nat>, u: seq<nat>, w: seq<nat>)
    requires Stepped(s, p, x, t, y, r, u) && multiset(w) == multiset(s) && LexLess(s, w)
    ensures !LexLess(w, u)
  {
    SteppedKeeps(s, p, x, t, y, r, u);
    assert s[..|p|] == p && u[..|p|] == p && u[|p|] == y;
    var d :| LessAt(s, w, d);
    RaisedAt(s, p, x, t, y, r, u, w, d);
    hide Stepped;
    if LexLess(w, u) {
      var e :| LessAt(w, u, e);
      AgreeBefore(s, w, u, |p|, d, e);
      LaterDifference(s, p, x, t, y, r, u, w, e);
    }
  }

  /** A later arrangement is raised before the descending tail, and there to y at least. */
  lemma RaisedAt(s: seq<nat>, p: seq<nat>, x: nat, t: seq<nat>, y: nat, r: seq<nat>, u: seq<nat>, w: seq<nat>, d: nat)
    requires Stepped(s, p, x, t, y, r, u) && multiset(w) == multiset(s) && LessAt(s, w, d)
    ensures d <= |p| && (d == |p| ==> w[d] >= y)
  {
    var n := |p|;
    var j := MemberOfRest(s, w, d);
    assert forall i :: n < i < |s| ==> s[i] == t[i - n - 1] && s[i] in t;
    assert s[n] == x;
  }

  /** Both differences lie at the raised position or after it. */
  lemma AgreeBefore(s: seq<nat>, w: seq<nat>, u: seq<nat>, n: nat, d: nat, e: nat)
    requires LessAt(s, w, d) && LessAt(w, u, e) && n <= |s| && n <= |u| && s[..n] == u[..n]
    ensures d >= n && e >= n
  {
    assert forall i :: 0 <= i < n ==> s[i] == s[..n][i] && u[i] == u[..n][i];
    assert forall i :: 0 <= i < d ==> s[i] == s[..d][i] && w[i] == w[..d][i];
    assert forall i :: 0 <= i < e ==> w[i] == w[..e][i] && u[i] == u[..e][i];
  }

  /** After the raised position u is ascending, so nothing is less there. */
  lemma LaterDifference(s: seq<nat>, p: seq<nat>, x: nat, t: seq<nat>, y: nat, r: seq<nat>, u: seq<nat>, w: seq<nat>, e: nat)
    requires Stepped(s, p, x, t, y, r, u) && multiset(w) == multiset(u) && e > |p|
    ensures !LessAt(w, u, e)
  {
    assert forall i :: |p| < i < |u| ==> u[i] == r[i - |p| - 1];
    if LessAt(w, u, e) {
      var j := MemberOfRest(u, w, e);
    }
  }

  // ---- Parity ----

  function CountEqual(q: seq<nat>, x: nat): nat {
    if q == [] then 0 else (if q[0] == x then 1 else 0) + CountEqual(q[1..], x)
  }

  function EqualPairs(q: seq<nat>): nat {
    if q == [] then 0 else CountEqual(q[1..], q[0]) + EqualPairs(q[1..])
  }

  /** Number of pairs among n elements. */
  function Pairs(n: nat): nat {
    if n == 0 then 0 else n - 1 + Pairs(n - 1)
  }

  lemma {:induction false} PairsParity(n: nat)
    ensures (Pairs(n) + n / 2) % 2 == 0
  {
    if n >= 2 {
      PairsParity(n - 2);
      assert Pairs(n) == (n - 1) + (n - 2) + Pairs(n - 2);
      assert Pairs(n) + n / 2 == Pairs(n - 2) + (n - 2) / 2 + 2 * (n - 1);
    }
  }

  lemma {:induction false} BelowOrEqual(q: seq<nat>, x: nat)
    requires forall k :: 0 <= k < |q| ==> q[k] <= x
    ensures CountBelow(q, x) + CountEqual(q, x) == |q|
  {
    if q != [] { BelowOrEqual(q[1..], x); }
  }

  lemma {:induction false} DescendingInversions(q: seq<nat>)
    requires Descending(q)
    ensures Inversions(q) + EqualPairs(q) == Pairs(|q|)
  {
    if q != [] {
      BelowOrEqual(q[1..], q[0]);
      DescendingInversions(q[1..]);
    }
  }

  lemma {:induction false} AscendingInversions(q: seq<nat>)
    requires Ascending(q)
    ensures Inversions(q) == 0
  {
    if q != [] {
      CountBelowNone(q[1..], q[0]);
      AscendingInversions(q[1..]);
    }
  }

  /** Between x and y there is nothing. */
  lemma {:induction false} BelowNext(q: seq<nat>, x: nat, y: nat)
    requires x < y && forall z :: z in q && z > x ==> z >= y
    ensures CountBelow(q, y) == CountBelow(q, x) + CountEqual(q, x)
  {
    if q != [] {
      assert q[0] in q && forall z :: z in q[1..] ==> z in q;
      BelowNext(q[1..], x, y);
    }
  }

  /** How the inversions change in one step. */
  lemma SteppedInversions(s: seq<nat>, p: seq<nat>, x: nat, t: seq<nat>, y: nat, r: seq<nat>, u: seq<nat>)
    requires Stepped(s, p, x, t, y, r, u)
    ensures Inversions(u) + Pairs(|t|) == Inversions(s) + 1 + EqualPairs([x] + t)
  {
    SteppedBags(s, p, x, t, y, r, u);
    SteppedFacts(s, p, x, t, y, r, u);
    hide Stepped, EqualPairs, Inversions;
    var xt, yr := [x] + t, [y] + r;
    assert s == p + xt && u == p + yr;
    InversionsConcat(p, xt);
    InversionsConcat(p, yr);
    CrossBelowPermuted(p, xt, yr);
    CountBelowPermuted(xt, yr, y);
    HeadInversions(x, t);
    HeadInversions(y, r);
    DescendingInversions(t);
    AscendingInversions(r);
    BelowNext(t, x, y);
    CountBelowConcat([x], t, y);
    CountBelowConcat([y], r, y);
    assert CountBelow([x], y) == 1 && CountBelow([y], y) == 0;
  }

  lemma HeadInversions(x: nat, t: seq<nat>)
    ensures Inversions([x] + t) == CountBelow(t, x) + Inversions(t)
    ensures EqualPairs([x] + t) == CountEqual(t, x) + EqualPairs(t)
  {
    assert ([x] + t)[1..] == t;
  }

  lemma SteppedFacts(s: seq<nat>, p: seq<nat>, x: nat, t: seq<nat>, y: nat, r: seq<nat>, u: seq<nat>)
    requires Stepped(s, p, x, t, y, r, u)
    ensures s == p + ([x] + t) && u == p + ([y] + r) && Descending(t) && Ascending(r) && x < y
    ensures forall z :: z in t && z > x ==> z >= y
  {
  }

  lemma SteppedBags(s: seq<nat>, p: seq<nat>, x: nat, t: seq<nat>, y: nat, r: seq<nat>, u: seq<nat>)
    requires Stepped(s, p, x, t, y, r, u)
    ensures multiset([x] + t) == multiset([y] + r)
  {
    assert y in multiset(t);
    assert multiset([x] + t) == multiset{x} + multiset(t) && multiset([y] + r) == multiset{y} + multiset(r);
  }

  /** Remainder by two, with the sign of the dividend. */
  function Rem2(p: int): int {
    if p >= 0 then p % 2 else -((-p) % 2)
  }

  lemma Rem2Parity(p: int)
    ensures (p - Rem2(p)) % 2 == 0
  {
  }

  /** The parity stays in step with the inversions: next and parity differ as much as those of u and s. */
  predicate InStep(parity: int, s: seq<nat>, next: int, u: seq<nat>) {
    (parity - Inversions(s) - (next - Inversions(u))) % 2 == 0
  }

  lemma StepParity(parity: int, s: seq<nat>, p: seq<nat>, x: nat, t: seq<nat>, y: nat, r: seq<nat>, u: seq<nat>)
    requires Stepped(s, p, x, t, y, r, u)
    ensures InStep(parity, s, Rem2(parity + 1 + |t| / 2), u) <==> EqualPairs([x] + t) % 2 == 0
  {
    hide Stepped, Rem2, Pairs, EqualPairs, Inversions;
    SteppedInversions(s, p, x, t, y, r, u);
    PairsParity(|t|);
    var q := parity + 1 + |t| / 2;
    Rem2Parity(q);
    ParityWithin(parity, Inversions(s), Rem2(q), Inversions(u), q, Pairs(|t|), |t| / 2, 1, EqualPairs([x] + t));
  }

  lemma ParityWithin(parity: int, a: int, next: int, b: int, q: int, pairs: int, half: int, one: int, equal: int)
    requires b + pairs == a + one + equal && q == parity + one + half
    requires (q - next) % 2 == 0 && (pairs + half) % 2 == 0
    ensures (parity - a - (next - b)) % 2 == 0 <==> equal % 2 == 0
  {
    var h, k := (q - next) / 2, (pairs + half) / 2;
    assert parity - a - (next - b) == equal + 2 * (h - k);
  }

  lemma WrapParity(parity: int, s: seq<nat>, u: seq<nat>)
    requires Descending(s) && Ascending(u) && |s| == |u|
    ensures InStep(parity, s, Rem2(parity + |s| / 2), u) <==> EqualPairs(s) % 2 == 0
  {
    hide Rem2, Pairs, EqualPairs, Inversions, Descending, Ascending;
    DescendingInversions(s);
    AscendingInversions(u);
    PairsParity(|s|);
    var q := parity + |s| / 2;
    Rem2Parity(q);
    ParityWithin(parity, Inversions(s), Rem2(q), Inversions(u), q, Pairs(|s|), |s| / 2, 0, EqualPairs(s));
  }

  // ---- The parts of the step ----

  /** Position of the last ascent before i, or 0. */
  function Pivot(s: seq<nat>, i: nat): (k: nat)
    requires i < |s| || i == 0
    ensures k <= i
  {
    if i == 0 then 0 else if s[i - 1] < s[i] then i - 1 else Pivot(s, i - 1)
  }

  /** The elements that one step moves. */
  function Moved(s: seq<nat>): seq<nat> {
    if s == [] then [] else s[Pivot(s, |s| - 1)..]
  }

  lemma SwapBag<T>(q: seq<T>, i: nat, j: nat)
    requires i < |q| && j < |q|
    ensures multiset(Swap(q, i, j)) == multiset(q)
  {
  }

  ghost predicate Turned<T>(q: seq<T>, r: seq<T>, lo: nat, hi: nat) {
    && |q| == |r| && lo <= hi <= |q| && multiset(q) == multiset(r)
    && (forall k :: 0 <= k < |q| && !(lo <= k < hi) ==> r[k] == q[k])
    && forall k :: lo <= k < hi ==> r[k] == q[lo + hi - 1 - k]
  }

  /** Where position k takes its element from once the part outside i..j is turned round. */
  function Origin(lo: nat, hi: nat, i: nat, j: nat, k: int): int {
    if lo <= k < hi && !(i <= k < j) then lo + hi - 1 - k else k
  }

  ghost predicate Turning<T>(q: seq<T>, r: seq<T>, lo: nat, hi: nat, i: nat, j: nat) {
    && |q| == |r| && lo <= i <= hi <= |q| && lo <= j <= hi && i + j == lo + hi && multiset(q) == multiset(r)
    && forall k :: 0 <= k < |q| ==> r[k] == q[Origin(lo, hi, i, j, k)]
  }

  lemma TurnMore<T>(q: seq<T>, r: seq<T>, lo: nat, hi: nat, i: nat, j: nat)
    requires i + 1 < j <= |r| && Turning(q, r, lo, hi, i, j)
    ensures Turning(q, Swap(r, i, j - 1), lo, hi, i + 1, j - 1)
  {
    SwapBag(r, i, j - 1);
    var s := Swap(r, i, j - 1);
    forall k | 0 <= k < |q| ensures s[k] == q[Origin(lo, hi, i + 1, j - 1, k)] {
      var l := if k == i then j - 1 else if k == j - 1 then i else k;
      assert s[k] == r[l] == q[Origin(lo, hi, i, j, l)];
    }
  }

  lemma TurnedRound<T>(q: seq<T>, r: seq<T>, lo: nat, hi: nat, i: nat, j: nat)
    requires i + 1 >= j && Turning(q, r, lo, hi, i, j)
    ensures Turned(q, r, lo, hi)
  {
    assert forall k :: 0 <= k < |q| ==> r[k] == q[Origin(lo, hi, i, j, k)];
  }

  lemma StartTurning<T>(q: seq<T>, lo: nat, hi: nat)
    requires lo <= hi <= |q|
    ensures Turning(q, q, lo, hi, lo, hi)
  {
  }

  /** j is the last position that holds more than the pivot i. */
  ghost predicate Exchanges(s: seq<nat>, i: nat, j: nat) {
    i < j < |s| && Descending(s[i + 1..]) && s[i] < s[j] && forall k :: j < k < |s| ==> s[k] <= s[i]
  }

  /** Exchanging the pivot with j and turning the tail round is a step. */
  lemma IsStep(s: seq<nat>, i: nat, j: nat, u: seq<nat>)
    requires i < j < |s| && Exchanges(s, i, j) && Turned(Swap(s, i, j), u, i + 1, |s|)
    ensures Stepped(s, s[..i], s[i], s[i + 1..], s[j], u[i + 1..], u)
  {
    hide Exchanges, Turned;
    SplitAt(s, i, j, u);
    AscendingAfterTurn(s, i, j, u);
    DescendingAfterSwap(s, i, j);
    BagOfTail(s, s[..i], s[i], s[i + 1..], s[j], u[i + 1..], u);
  }

  lemma SplitAt(s: seq<nat>, i: nat, j: nat, u: seq<nat>)
    requires i < j < |s| && Exchanges(s, i, j) && Turned(Swap(s, i, j), u, i + 1, |s|)
    ensures s == s[..i] + [s[i]] + s[i + 1..] && |u| == |s| && u == s[..i] + [s[j]] + u[i + 1..]
    ensures multiset(s) == multiset(u) && s[j] in s[i + 1..] && s[i] < s[j] && Descending(s[i + 1..])
  {
    hide Descending;
    SwapBag(s, i, j);
    assert s[i + 1..][j - i - 1] == s[j];
  }

  lemma AscendingAfterTurn(s: seq<nat>, i: nat, j: nat, u: seq<nat>)
    requires i < j < |s| && Exchanges(s, i, j) && Turned(Swap(s, i, j), u, i + 1, |s|)
    ensures |u| == |s| && Ascending(u[i + 1..])
  {
    DescendingAfterSwap(s, i, j);
    hide Exchanges;
    var m, r := Swap(s, i, j), u[i + 1..];
    assert forall k :: 0 <= k < |r| ==> r[k] == u[i + 1 + k] == m[|s| - 1 - k];
  }

  lemma DescendingAfterSwap(s: seq<nat>, i: nat, j: nat)
    requires i < j < |s| && Exchanges(s, i, j)
    ensures forall a, b :: i < a < b < |s| ==> Swap(s, i, j)[a] >= Swap(s, i, j)[b]
    ensures NextAbove(s[i + 1..], s[i], s[j])
  {
    assert forall k :: i < k < |s| ==> s[k] == s[i + 1..][k - i - 1];
    var t := s[i + 1..];
    forall z | z in t && z > s[i] ensures z >= s[j] {
      var k :| 0 <= k < |t| && t[k] == z;
      assert s[k + i + 1] == z;
    }
  }

  lemma BagOfTail(s: seq<nat>, p: seq<nat>, x: nat, t: seq<nat>, y: nat, r: seq<nat>, u: seq<nat>)
    requires s == p + [x] + t && u == p + [y] + r && multiset(s) == multiset(u) && y in t
    ensures multiset(r) == multiset(t) - multiset{y} + multiset{x}
  {
    assert y in multiset(t);
    assert multiset(s) == multiset(p) + multiset{x} + multiset(t);
    assert multiset(u) == multiset(p) + multiset{y} + multiset(r);
    forall z ensures multiset(r)[z] == (multiset(t) - multiset{y} + multiset{x})[z] {
      assert (multiset(p) + multiset{x} + multiset(t))[z] == (multiset(p) + multiset{y} + multiset(r))[z];
    }
  }

  lemma StepDone(parity: int, s: seq<nat>, i: nat, j: nat, u: seq<nat>)
    requires i < j < |s| && Exchanges(s, i, j) && Turned(Swap(s, i, j), u, i + 1, |s|) && Pivot(s, |s| - 1) == i
    ensures Successor(s, u)
    ensures InStep(parity, s, Rem2(parity + 1 + (|s| - i - 1) / 2), u) <==> EqualPairs(Moved(s)) % 2 == 0
  {
    hide Turned, Successor, Inversions, EqualPairs, Stepped, Rem2, InStep, Exchanges, Pivot, Moved, Swap, Descending;
    SplitAt(s, i, j, u);
    IsStep(s, i, j, u);
    var p, x, t, y, r := s[..i], s[i], s[i + 1..], s[j], u[i + 1..];
    SteppedIsNext(s, p, x, t, y, r, u);
    StepParity(parity, s, p, x, t, y, r, u);
    MovedIs(s, i);
  }

  lemma MovedIs(s: seq<nat>, i: nat)
    requires i < |s| && Pivot(s, |s| - 1) == i
    ensures Moved(s) == [s[i]] + s[i + 1..] && |s[i + 1..]| == |s| - i - 1
  {
  }

  lemma WrapDone(parity: int, s: seq<nat>, u: seq<nat>)
    requires s != [] && Descending(s) && Turned(s, u, 0, |s|) && Pivot(s, |s| - 1) == 0
    ensures Ascending(u) && multiset(u) == multiset(s)
    ensures InStep(parity, s, Rem2(parity + |s| / 2), u) <==> EqualPairs(Moved(s)) % 2 == 0
  {
    hide Inversions, EqualPairs, Rem2, InStep, Pivot;
    assert s[0..] == s;
    WrapParity(parity, s, u);
  }

  lemma PivotStep(s: seq<nat>, i: nat)
    requires i + 1 < |s|
    ensures Pivot(s, i + 1) == (if s[i] < s[i + 1] then i else Pivot(s, i)) && Pivot(s, 0) == 0
  {
  }

  lemma LongerDescending(s: seq<nat>, i: nat)
    requires i + 1 < |s| && Descending(s[i + 1..]) && s[i] >= s[i + 1]
    ensures Descending(s[i..])
  {
    assert forall k :: 0 < k < |s[i..]| ==> s[i..][k] == s[i + 1..][k - 1];
    assert s[i..][1] == s[i + 1];
  }
}
