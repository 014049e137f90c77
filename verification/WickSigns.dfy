/**
 The plain terms that one weighted term stands for: exchanging two equivalent operators, among the contractions and
 among the operators kept, turns the sign round.
 */
module WickSigns {
  import opened Sequences
  import opened Parity
  import opened WickProblem
  import opened WickMatchings
  import opened WickPhase
  import opened WickClasses
  import opened WickExchanges

  function SwappedAll(a: nat, b: nat, q: seq<nat>): (r: seq<nat>)
    ensures |r| == |q|
  {
    seq(|q|, k requires 0 <= k < |q| => Swapped(a, b, q[k]))
  }

  lemma {:induction false} FlattenSwapped(a: nat, b: nat, s: seq<Pair>)
    ensures Flatten(SwappedList(a, b, s)) == SwappedAll(a, b, Flatten(s))
  {
    if s != [] {
      FlattenSwapped(a, b, Init(s));
      assert Init(SwappedList(a, b, s)) == SwappedList(a, b, Init(s));
      assert Last(SwappedList(a, b, s)) == SwappedPair(a, b, Last(s));
    }
  }

  lemma SwappedConcat(a: nat, b: nat, q: seq<nat>, r: seq<nat>)
    ensures SwappedAll(a, b, q + r) == SwappedAll(a, b, q) + SwappedAll(a, b, r)
  {
  }

  /** In a list without repetitions, exchanging two values is swapping two positions. */
  lemma SwappedIsSwap(a: nat, b: nat, q: seq<nat>)
    requires NoDup(q) && a in q && b in q && a != b
    ensures Sign(Inversions(SwappedAll(a, b, q))) == -Sign(Inversions(q))
  {
    var i :| 0 <= i < |q| && q[i] == a;
    var j :| 0 <= j < |q| && q[j] == b;
    assert SwappedAll(a, b, q) == Swap(q, i, j);
    SwapAtSign(q, i, j);
  }

  // ---- The order of the pairs ----

  lemma {:induction false} CrossBelowPermutedLeft(a: seq<nat>, b: seq<nat>, c: seq<nat>)
    requires multiset(a) == multiset(b)
    ensures CrossBelow(a, c) == CrossBelow(b, c)
    decreases |a|
  {
    if a == [] {
      assert |b| == |multiset(b)| == 0;
    } else {
      assert a[0] in multiset(b);
      var k :| 0 <= k < |b| && b[k] == a[0];
      RemovedElement(a, b, k);
      CrossBelowPermutedLeft(a[1..], Erase(b, k), c);
      CrossBelowConcat(b[..k], b[k + 1..], c);
      CrossBelowConcat(b[..k], [b[k]] + b[k + 1..], c);
      CrossBelowConcat([b[k]], b[k + 1..], c);
      CrossOfOne(b[k], c);
      assert b == b[..k] + ([b[k]] + b[k + 1..]);
    }
  }

  lemma CrossOfOne(x: nat, c: seq<nat>)
    ensures CrossBelow([x], c) == CountBelow(c, x)
  {
    assert [x][1..] == [];
  }

  lemma {:induction false} FlattenMembers(s: seq<Pair>, o: nat)
    ensures o in Flatten(s) <==> o in Ends(s)
  {
    if s != [] { FlattenMembers(Init(s), o); }
  }

  lemma {:induction false} FlattenNoDup(s: seq<Pair>, n: nat)
    requires Separate(s, n)
    ensures NoDup(Flatten(s))
  {
    hide Separate;
    if s != [] {
      SeparateInit(s, n);
      LastInRange(s, n);
      FlattenNoDup(Init(s), n);
      FlattenMembers(Init(s), Last(s).0);
      FlattenMembers(Init(s), Last(s).1);
      NoDupConcat(Flatten(Init(s)), [Last(s).0, Last(s).1]);
    }
  }

  lemma {:induction false} SameMembersSameBag(a: seq<nat>, b: seq<nat>)
    requires NoDup(a) && NoDup(b) && forall x :: x in a <==> x in b
    ensures multiset(a) == multiset(b)
    decreases |a|
  {
    if a == [] {
      NothingIn(b);
    } else {
      assert a[0] in b;
      var k :| 0 <= k < |b| && b[k] == a[0];
      WithoutElement(a, b, k);
      SameMembersSameBag(a[1..], Erase(b, k));
      PutBack(a, b, k);
    }
  }

  lemma PutBack(a: seq<nat>, b: seq<nat>, k: nat)
    requires a != [] && k < |b| && b[k] == a[0] && multiset(a[1..]) == multiset(Erase(b, k))
    ensures multiset(a) == multiset(b)
  {
    assert a == [a[0]] + a[1..] && b == b[..k] + [b[k]] + b[k + 1..];
  }

  lemma NothingIn(b: seq<nat>)
    ensures b == [] <==> forall x :: x !in b
  {
    if b != [] { assert b[0] in b; }
  }

  lemma WithoutElement(a: seq<nat>, b: seq<nat>, k: nat)
    requires a != [] && NoDup(a) && NoDup(b) && (forall x :: x in a <==> x in b) && k < |b| && b[k] == a[0]
    ensures NoDup(a[1..]) && NoDup(Erase(b, k)) && forall x :: x in a[1..] <==> x in Erase(b, k)
  {
    var r := Erase(b, k);
    assert forall i :: 0 <= i < |r| ==> r[i] == b[if i < k then i else i + 1];
    forall x ensures x in a[1..] <==> x in r {
      assert x in a <==> x in a[1..] || x == a[0];
      if x in b && x != b[k] {
        var i :| 0 <= i < |b| && b[i] == x;
        assert r[if i < k then i else i - 1] == x;
      }
    }
  }

  lemma SameEnds(s: seq<Pair>, t: seq<Pair>, n: nat)
    requires Separate(s, n) && Separate(t, n) && Pairs(s) == Pairs(t)
    ensures Ends(s) == Ends(t) && multiset(Flatten(s)) == multiset(Flatten(t))
  {
    EndsCovered(s);
    EndsCovered(t);
    forall x ensures x in Ends(s) <==> x in Ends(t) {}
    FlattenNoDup(s, n);
    FlattenNoDup(t, n);
    forall x ensures x in Flatten(s) <==> x in Flatten(t) {
      if x >= 0 {
        FlattenMembers(s, x);
        FlattenMembers(t, x);
      }
    }
    hide Separate, NoDup, Flatten;
    SameMembersSameBag(Flatten(s), Flatten(t));
  }

  lemma {:induction false} SameRemaining(s: seq<Pair>, t: seq<Pair>, n: nat)
    requires Ends(s) == Ends(t)
    ensures RemainingBelow(s, n) == RemainingBelow(t, n)
  {
    if n > 0 { SameRemaining(s, t, n - 1); }
  }

  /** Whatever follows the pairs, their order does not matter for the sign. */
  lemma PairsOrderFree(p: Problem, s: seq<Pair>, t: seq<Pair>, rest: seq<nat>)
    requires p.fermi && Separate(s, p.N()) && Separate(t, p.N()) && Pairs(s) == Pairs(t)
    ensures Sign(Inversions(Flatten(s) + rest)) == Sign(Inversions(Flatten(t) + rest))
  {
    hide Separate, Inversions, Sign, Flatten, CrossBelow, Phase;
    SameEnds(s, t, p.N());
    SameRemaining(s, t, p.N());
    PhaseOrderFree(p, s, t);
    PhaseIsPermutationSign(p, s);
    PhaseIsPermutationSign(p, t);
    var f, g, rem := Flatten(s), Flatten(t), RemainingBelow(s, p.N());
    InversionsConcat(f, rem);
    InversionsConcat(g, rem);
    InversionsConcat(f, rest);
    InversionsConcat(g, rest);
    CrossBelowPermutedLeft(f, g, rem);
    CrossBelowPermutedLeft(f, g, rest);
    SignsShift(Inversions(f), Inversions(g), CrossBelow(f, rem) + Inversions(rem), CrossBelow(f, rest) + Inversions(rest));
  }

  lemma SignsShift(a: int, b: int, x: int, y: int)
    requires Sign(a + x) == Sign(b + x)
    ensures Sign(a + y) == Sign(b + y)
  {
    SignSum(a, x);
    SignSum(b, x);
    SignSum(a, y);
    SignSum(b, y);
  }

  // ---- The sign of an exchanged term ----

  lemma SwappedSeparate(p: Problem, t: seq<Pair>, a: nat, b: nat)
    requires WellFormed(p) && Equivalences(p) && Ordered(p, t) && Twins(p, a, b)
    ensures Separate(SwappedList(a, b, t), p.N())
  {
    hide WellFormed, Equivalences, Twins, SwappedList, Apart, PairOk;
    ExchangedList(p, t, a, b);
    var u := SwappedList(a, b, t);
    forall k | 0 <= k < |u| ensures u[k].0 < u[k].1 < p.N() { OkInRange(p, u[k]); }
  }

  lemma OrderedSeparate(p: Problem, w: seq<Pair>)
    requires Ordered(p, w)
    ensures Separate(w, p.N())
  {
    hide Apart, PairOk;
    forall k | 0 <= k < |w| ensures w[k].0 < w[k].1 < p.N() { OkInRange(p, w[k]); }
  }

  /** The contracted operators and those kept, each once. */
  ghost predicate Whole(p: Problem, t: seq<Pair>, kept: seq<nat>) {
    NoDup(Flatten(t) + kept) && forall o: nat :: o < p.N() ==> o in Flatten(t) + kept
  }

  /**
   Exchanging a contracted operator with another of its partition, among the contractions and among the operators
   kept in any order, gives another plain term of the class, with the opposite sign.
   */
  lemma ExchangeTurnsSign(p: Problem, t: seq<Pair>, a: nat, b: nat, kept: seq<nat>) returns (w: seq<Pair>)
    requires PlainLeaf(p, t) && Equivalences(p) && Twins(p, a, b) && a in Ends(t) && p.fermi && Whole(p, t, kept)
    ensures PlainLeaf(p, w) && Degrees(p.partitionOf, w) == Degrees(p.partitionOf, t) && w != t
    ensures Sign(Inversions(Flatten(w) + SwappedAll(a, b, kept))) == -Sign(Inversions(Flatten(t) + kept))
  {
    hide WellFormed, IsRun, Complete, Equivalences, Ordered, Twins, Degrees, SwappedList, SwappedAll, Separate, Inversions, Sign, Flatten, NoDup;
    w := Exchange(p, t, a, b);
    LeafKeys(p, t);
    LeafKeys(p, w);
    SwappedSeparate(p, t, a, b);
    OrderedSeparate(p, w);
    FlattenSwapped(a, b, t);
    SwappedConcat(a, b, Flatten(t), kept);
    TwinsApart(p, a, b);
    SwappedIsSwap(a, b, Flatten(t) + kept);
    PairsOrderFree(p, w, SwappedList(a, b, t), SwappedAll(a, b, kept));
  }

  lemma TwinsApart(p: Problem, a: nat, b: nat)
    requires Twins(p, a, b)
    ensures a < p.N() && b < p.N() && a != b
  {
  }
}
