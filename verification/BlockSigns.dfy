/** The sign of a block assignment and its independence of the order of the blocks. */
module BlockSigns {
  import opened Sequences
  import opened Parity
  import opened RangeNest
  import opened BlockFamilies

  /** Positions below n that no block holds, in order. */
  function Rest(used: set<nat>, n: nat): seq<nat> {
    if n == 0 then [] else Rest(used, n - 1) + (if n - 1 !in used then [n - 1] else [])
  }

  /** Legs of the blocks, then the remainder. */
  function Arrangement(v: Survivors, bs: seq<Block>): seq<nat> {
    Flatten(bs) + Rest(Used(bs), v.N())
  }

  function SignOfBlocks(v: Survivors, fermi: bool, bs: seq<Block>): int {
    if fermi then Sign(Inversions(Arrangement(v, bs))) else 1
  }

  lemma {:induction false} RestAre(used: set<nat>, n: nat)
    ensures Increasing(Rest(used, n))
    ensures forall x: nat :: x in Rest(used, n) <==> x < n && x !in used
  {
    if n > 0 {
      RestAre(used, n - 1);
      var r := Rest(used, n - 1);
      assert forall i :: 0 <= i < |r| ==> r[i] in r;
    }
  }

  lemma {:induction false} FlattenUsed(bs: seq<Block>, x: nat)
    ensures x in Flatten(bs) <==> x in Used(bs)
  {
    if bs != [] { FlattenUsed(Init(bs), x); }
  }

  function UpTo(n: nat): set<nat> {
    if n == 0 then {} else UpTo(n - 1) + {n - 1}
  }

  lemma {:induction false} UpToIs(n: nat)
    ensures |UpTo(n)| == n && forall x: nat :: x in UpTo(n) <==> x < n
  {
    if n > 0 { UpToIs(n - 1); }
  }

  ghost predicate AllBelow(s: seq<nat>, n: nat) {
    forall x: nat :: x in s ==> x < n
  }

  /** The arrangement is a permutation of all operators. */
  lemma ArrangementPermutes(v: Survivors, bs: seq<Block>)
    requires NoDup(Flatten(bs)) && AllBelow(Flatten(bs), v.N())
    ensures NoDup(Arrangement(v, bs)) && |Arrangement(v, bs)| == v.N()
    ensures Elems(Arrangement(v, bs)) == UpTo(v.N())
  {
    hide Used, NoDup, Rest, Increasing, UpTo;
    var rest := Rest(Used(bs), v.N());
    RestAre(Used(bs), v.N());
    forall x: nat ensures x in Flatten(bs) <==> x in Used(bs) { FlattenUsed(bs, x); }
    IncreasingNoDup(rest);
    NoDupConcat(Flatten(bs), rest);
    var q := Arrangement(v, bs);
    UpToIs(v.N());
    forall x: nat ensures x in Elems(q) <==> x in UpTo(v.N()) {
      FlattenUsed(bs, x);
      assert x in rest <==> x < v.N() && x !in Used(bs);
      assert x in q <==> x in Flatten(bs) || x in rest;
    }
    assert Elems(q) == UpTo(v.N());
    NoDupSize(q);
  }

  // ---- Order of the blocks ----

  lemma {:induction false} CrossBoth(a: seq<nat>, b: seq<nat>)
    requires Elems(a) !! Elems(b)
    ensures CrossBelow(a, b) + CrossBelow(b, a) == |a| * |b|
  {
    if a == [] {
      CrossWithNothing(b);
    } else {
      assert a == [a[0]] + a[1..] && a[0] in Elems(a) && a[0] !in Elems(b);
      assert Elems(a[1..]) <= Elems(a);
      CrossBoth(a[1..], b);
      CrossSplit(b, [a[0]], a[1..]);
      BelowAndAbove(b, a[0]);
      OneMore(|a[1..]|, |b|);
    }
  }

  lemma OneMore(m: nat, n: nat)
    ensures (1 + m) * n == n + m * n
  {
  }

  lemma {:induction false} CrossWithNothing(b: seq<nat>)
    ensures CrossBelow(b, []) == 0
  {
    if b != [] { CrossWithNothing(b[1..]); }
  }

  lemma {:induction false} CrossSplit(b: seq<nat>, c: seq<nat>, d: seq<nat>)
    ensures CrossBelow(b, c + d) == CrossBelow(b, c) + CrossBelow(b, d)
  {
    if b != [] {
      CrossSplit(b[1..], c, d);
      CountBelowConcat(c, d, b[0]);
    }
  }

  /** Exchanging two neighbouring stretches one of which has even length keeps the sign. */
  lemma ExchangeEven(a: seq<nat>, b: seq<nat>, c: seq<nat>, d: seq<nat>, h: nat)
    requires Elems(b) !! Elems(c) && |b| == 2 * h
    ensures Sign(Inversions(a + (b + c) + d)) == Sign(Inversions(a + (c + b) + d))
  {
    hide Inversions, CrossBelow, Sign, Elems;
    ExchangeCounts(a, b, c, d);
    CrossBoth(b, c);
    EvenProduct(h, |c|);
    var x, y := Inversions(a + (b + c) + d), Inversions(a + (c + b) + d);
    SignDrop(x, y + 2 * (h * |c|), CrossBelow(c, b));
    SignDrop(y, y + 2 * (h * |c|), h * |c|);
  }

  lemma ExchangeCounts(a: seq<nat>, b: seq<nat>, c: seq<nat>, d: seq<nat>)
    ensures Inversions(a + (b + c) + d) - Inversions(a + (c + b) + d) == CrossBelow(b, c) - CrossBelow(c, b)
  {
    hide Inversions, CrossBelow, CountBelow;
    var bc, cb := b + c, c + b;
    assert a + bc + d == a + (bc + d) && a + cb + d == a + (cb + d);
    InversionsConcat(a, bc + d);
    InversionsConcat(a, cb + d);
    forall y ensures CountBelow(bc + d, y) == CountBelow(cb + d, y) {
      CountBelowConcat(bc, d, y);
      CountBelowConcat(cb, d, y);
      CountBelowConcat(b, c, y);
      CountBelowConcat(c, b, y);
    }
    CrossBelowSame(a, bc + d, cb + d);
    InversionsConcat(bc, d);
    InversionsConcat(cb, d);
    CrossBelowConcat(b, c, d);
    CrossBelowConcat(c, b, d);
    InversionsConcat(b, c);
    InversionsConcat(c, b);
  }

  lemma EvenProduct(h: nat, m: nat)
    ensures 2 * h * m == 2 * (h * m)
  {
  }

  /** All blocks have even length and they are disjoint. */
  ghost predicate EvenDisjoint(bs: seq<Block>) {
    && NoDup(Flatten(bs))
    && forall i :: 0 <= i < |bs| ==> |bs[i]| % 2 == 0
  }

  lemma {:induction false} OrderFreeWith(bs: seq<Block>, cs: seq<Block>, rest: seq<nat>)
    requires multiset(bs) == multiset(cs) && EvenDisjoint(bs)
    ensures Sign(Inversions(Flatten(bs) + rest)) == Sign(Inversions(Flatten(cs) + rest))
    decreases |bs|
  {
    hide Sign, Inversions, EvenDisjoint, Flatten;
    assert |bs| == |multiset(bs)| == |multiset(cs)| == |cs|;
    if cs != [] {
      var b := Last(cs);
      var i := Place(bs, b, cs);
      WithoutOne(bs, cs, i);
      EvenWithoutOne(bs, i);
      BlockToEnd(bs, i, rest);
      OrderFreeWith(bs[..i] + bs[i + 1..], Init(cs), b + rest);
      LastBlockFirst(cs, rest);
    } else {
      assert bs == cs;
    }
  }

  lemma LastBlockFirst(cs: seq<Block>, rest: seq<nat>)
    requires cs != []
    ensures Flatten(cs) + rest == Flatten(Init(cs)) + (Last(cs) + rest)
  {
  }

  /** Moving a block to the end keeps the sign. */
  lemma BlockToEnd(bs: seq<Block>, i: nat, rest: seq<nat>)
    requires EvenDisjoint(bs) && i < |bs|
    ensures Sign(Inversions(Flatten(bs) + rest)) == Sign(Inversions(Flatten(bs[..i] + bs[i + 1..]) + (bs[i] + rest)))
  {
    hide Sign, Inversions, Flatten;
    var p, q, b := bs[..i], bs[i + 1..], bs[i];
    FlattenAround(bs, i);
    FlattenSplit(p + q, i);
    assert (p + q)[..i] == p && (p + q)[i..] == q;
    DisjointParts(bs, i);
    assert |b| % 2 == 0 && |b| == 2 * (|b| / 2);
    ExchangeEven(Flatten(p), b, Flatten(q), rest, |b| / 2);
    assert Flatten(p) + (b + Flatten(q)) + rest == Flatten(bs) + rest;
    assert Flatten(p) + (Flatten(q) + b) + rest == Flatten(p + q) + (b + rest);
  }

  lemma Place(bs: seq<Block>, b: Block, cs: seq<Block>) returns (i: nat)
    requires multiset(bs) == multiset(cs) && cs != [] && b == Last(cs)
    ensures i < |bs| && bs[i] == b
  {
    assert b in multiset(cs);
    i :| 0 <= i < |bs| && bs[i] == b;
  }

  lemma WithoutOne(bs: seq<Block>, cs: seq<Block>, i: nat)
    requires multiset(bs) == multiset(cs) && cs != [] && i < |bs| && bs[i] == Last(cs)
    ensures multiset(bs[..i] + bs[i + 1..]) == multiset(Init(cs))
  {
    assert bs == bs[..i] + [bs[i]] + bs[i + 1..];
    assert multiset(bs) == multiset(bs[..i] + bs[i + 1..]) + multiset{bs[i]};
    assert cs == Init(cs) + [Last(cs)];
    assert multiset(cs) == multiset(Init(cs)) + multiset{Last(cs)};
    var a, c := multiset(bs[..i] + bs[i + 1..]), multiset(Init(cs));
    forall x ensures a[x] == c[x] { assert (a + multiset{bs[i]})[x] == (c + multiset{bs[i]})[x]; }
  }

  lemma NoDupParts<T>(a: seq<T>, b: seq<T>, c: seq<T>)
    requires NoDup(a + b + c)
    ensures NoDup(a + c) && forall x :: x in b ==> x !in c
  {
    var s, t := a + b + c, a + c;
    forall i, j | 0 <= i < j < |t| ensures t[i] != t[j] {
      assert t[i] == s[if i < |a| then i else i + |b|];
      assert t[j] == s[if j < |a| then j else j + |b|];
    }
    forall x | x in b ensures x !in c {
      var i :| 0 <= i < |b| && b[i] == x;
      assert s[|a| + i] == x;
      forall j | 0 <= j < |c| ensures c[j] != x { assert s[|a| + |b| + j] == c[j]; }
    }
  }

  lemma EvenWithoutOne(bs: seq<Block>, i: nat)
    requires EvenDisjoint(bs) && i < |bs|
    ensures EvenDisjoint(bs[..i] + bs[i + 1..]) && |bs[i]| == 2 * (|bs[i]| / 2)
  {
    FlattenAround(bs, i);
    FlattenSplit(bs[..i] + bs[i + 1..], i);
    assert (bs[..i] + bs[i + 1..])[..i] == bs[..i] && (bs[..i] + bs[i + 1..])[i..] == bs[i + 1..];
    NoDupParts(Flatten(bs[..i]), bs[i], Flatten(bs[i + 1..]));
  }

  lemma DisjointParts(bs: seq<Block>, i: nat)
    requires EvenDisjoint(bs) && i < |bs|
    ensures Elems(bs[i]) !! Elems(Flatten(bs[i + 1..]))
  {
    FlattenAround(bs, i);
    NoDupParts(Flatten(bs[..i]), bs[i], Flatten(bs[i + 1..]));
  }

  lemma {:induction false} SameUsed(bs: seq<Block>, cs: seq<Block>)
    requires multiset(bs) == multiset(cs)
    ensures Used(bs) == Used(cs)
  {
    forall x: nat ensures x in Used(bs) <==> x in Used(cs) {
      UsedMembers(bs, x);
      UsedMembers(cs, x);
      if i :| 0 <= i < |bs| && x in bs[i] {
        assert bs[i] in multiset(cs);
      }
      if i :| 0 <= i < |cs| && x in cs[i] {
        assert cs[i] in multiset(bs);
      }
    }
  }

  lemma LegalEven(v: Survivors, b: Block)
    requires IsLegal(v, b)
    ensures |b| % 2 == 0 && Increasing(b) && forall x :: x in b ==> x < v.N()
  {
    var k: nat :| Legal(v, b, k);
    KindsAddUp(v, b);
  }

  lemma {:induction false} FamilyFlat(v: Survivors, bs: seq<Block>)
    requires Family(v, bs)
    ensures NoDup(Flatten(bs)) && AllBelow(Flatten(bs), v.N())
  {
    if bs != [] {
      var h := Init(bs);
      FamilyInit(v, bs);
      hide Family, IsLegal, Used;
      FamilyFlat(v, h);
      LegalEven(v, Last(bs));
      IncreasingNoDup(Last(bs));
      forall x | x in Flatten(h) ensures x !in Last(bs) {
        FlattenUsed(h, x);
        assert x !in Elems(Last(bs));
      }
      NoDupConcat(Flatten(h), Last(bs));
    }
  }

  lemma FamilyInit(v: Survivors, bs: seq<Block>)
    requires Family(v, bs) && bs != []
    ensures Family(v, Init(bs)) && IsLegal(v, Last(bs)) && Elems(Last(bs)) !! Used(Init(bs))
  {
    hide IsLegal, Used;
    var h := Init(bs);
    assert forall i :: 0 <= i < |h| ==> h[..i] == bs[..i] && h[i] == bs[i];
    assert bs[..|bs| - 1] == h;
  }

  /** However the blocks of a family are ordered, the sign is the same. */
  lemma BlockOrderFree(v: Survivors, fermi: bool, bs: seq<Block>, cs: seq<Block>)
    requires Family(v, bs) && multiset(cs) == multiset(bs)
    ensures SignOfBlocks(v, fermi, cs) == SignOfBlocks(v, fermi, bs)
  {
    hide Sign, Inversions, IsLegal;
    FamilyFlat(v, bs);
    forall i | 0 <= i < |bs| ensures |bs[i]| % 2 == 0 { LegalEven(v, bs[i]); }
    SameUsed(bs, cs);
    OrderFreeWith(bs, cs, Rest(Used(bs), v.N()));
  }
}
