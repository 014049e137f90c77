/**
 The ways to group surviving operators into cumulant blocks: a tree of choices
 and the proof that it reports every family of disjoint legal blocks once.
 */
module BlockFamilies {
  import opened Sequences

  type Block = seq<nat>

  /** Operator positions in storage order: kind, activity and provenance of each. */
  datatype Survivors = Survivors(creator: seq<bool>, active: seq<bool>, provenance: seq<nat>, maxRank: nat, full: bool) {
    function N(): nat { |creator| }

    predicate Ok() { |active| == N() && |provenance| == N() }
  }

  // ---- Selections ----

  /** The k-element selections of s, in the order in which prev_permutation steps through their masks. */
  function Picks(s: seq<nat>, k: nat): seq<seq<nat>> {
    if s == [] then (if k == 0 then [[]] else [])
    else (if k > 0 then PrefixAll(s[0], Picks(s[1..], k - 1)) else []) + Picks(s[1..], k)
  }

  function PrefixAll(x: nat, ps: seq<seq<nat>>): (r: seq<seq<nat>>)
    ensures |r| == |ps| && forall i :: 0 <= i < |ps| ==> r[i] == [x] + ps[i]
  {
    seq(|ps|, i requires 0 <= i < |ps| => [x] + ps[i])
  }

  /** p selects k elements of s in order. */
  ghost predicate Selects(s: seq<nat>, k: nat, p: seq<nat>) {
    |p| == k && Increasing(p) && forall x :: x in p ==> x in s
  }

  lemma PrefixMember(x: nat, ps: seq<seq<nat>>, p: seq<nat>)
    ensures p in PrefixAll(x, ps) <==> p != [] && p[0] == x && p[1..] in ps
  {
    if p in PrefixAll(x, ps) {
      var i :| 0 <= i < |ps| && PrefixAll(x, ps)[i] == p;
      assert p[1..] == ps[i];
    }
    if p != [] && p[0] == x && p[1..] in ps {
      var i :| 0 <= i < |ps| && ps[i] == p[1..];
      assert PrefixAll(x, ps)[i] == p;
    }
  }

  lemma {:induction false} PicksAre(s: seq<nat>, k: nat, p: seq<nat>)
    requires Increasing(s)
    ensures p in Picks(s, k) <==> Selects(s, k, p)
  {
    hide Selects, Increasing;
    if s == [] {
      NothingSelected(k, p);
    } else {
      TailIncreases(s);
      PicksAre(s[1..], k, p);
      if k > 0 {
        PrefixMember(s[0], Picks(s[1..], k - 1), p);
        if p != [] { PicksAre(s[1..], k - 1, p[1..]); }
      }
      FirstSelected(s, k, p);
    }
  }

  lemma TailIncreases(s: seq<nat>)
    requires Increasing(s) && s != []
    ensures Increasing(s[1..])
  {
  }

  lemma NothingSelected(k: nat, p: seq<nat>)
    ensures Selects([], k, p) <==> k == 0 && p == []
  {
    if p != [] { assert p[0] in p; }
  }

  lemma PrefixNoDup(x: nat, ps: seq<seq<nat>>)
    requires NoDup(ps)
    ensures NoDup(PrefixAll(x, ps))
  {
    var r := PrefixAll(x, ps);
    forall i, j | 0 <= i < j < |r| ensures r[i] != r[j] {
      assert r[i][1..] == ps[i] && r[j][1..] == ps[j];
    }
  }

  lemma FirstSelected(s: seq<nat>, k: nat, p: seq<nat>)
    requires Increasing(s) && s != []
    ensures Selects(s, k, p) <==>
            Selects(s[1..], k, p) || (k > 0 && p != [] && p[0] == s[0] && Selects(s[1..], k - 1, p[1..]))
  {
    if Selects(s, k, p) {
      if p != [] && p[0] == s[0] {
        forall x | x in p[1..] ensures x in s[1..] { assert x in p && x in s; }
      } else {
        forall x | x in p ensures x in s[1..] {
          FirstIsLeast(p);
          FirstIsLeast(s);
          assert x in s && p[0] in s;
        }
      }
    }
    if k > 0 && p != [] && p[0] == s[0] && Selects(s[1..], k - 1, p[1..]) {
      forall i, j | 0 <= i < j < |p| ensures p[i] < p[j] {
        assert p[j] == p[1..][j - 1] && p[j] in p[1..] && p[j] in s[1..];
        if i > 0 { assert p[i] == p[1..][i - 1]; }
        var l :| 0 <= l < |s[1..]| && s[1..][l] == p[j];
        assert s[0] < s[l + 1];
      }
      assert p == [p[0]] + p[1..];
    }
  }

  lemma {:induction false} PicksNoDup(s: seq<nat>, k: nat)
    requires Increasing(s)
    ensures NoDup(Picks(s, k))
  {
    hide Increasing, NoDup, Selects;
    if s == [] {
      SingleNoDup([]);
    } else {
      TailIncreases(s);
      PicksNoDup(s[1..], k);
      if k > 0 {
        PicksNoDup(s[1..], k - 1);
        var a, b := PrefixAll(s[0], Picks(s[1..], k - 1)), Picks(s[1..], k);
        PrefixNoDup(s[0], Picks(s[1..], k - 1));
        forall p | p in a ensures p !in b {
          PrefixMember(s[0], Picks(s[1..], k - 1), p);
          PicksAre(s[1..], k, p);
          StartsWithFirst(s, k, p);
        }
        NoDupConcat(a, b);
      } else {
        assert [] + Picks(s[1..], k) == Picks(s[1..], k);
      }
    }
  }

  lemma SingleNoDup(x: seq<nat>)
    ensures NoDup([x]) && NoDup<seq<nat>>([])
  {
  }

  lemma StartsWithFirst(s: seq<nat>, k: nat, p: seq<nat>)
    requires Increasing(s) && s != [] && p != [] && p[0] == s[0]
    ensures !Selects(s[1..], k, p)
  {
    assert p[0] in p;
  }

  // ---- Sorting ----

  function InsertSorted(s: seq<nat>, x: nat): seq<nat> {
    if s == [] || x < s[0] then [x] + s else [s[0]] + InsertSorted(s[1..], x)
  }

  function Sort(s: seq<nat>): seq<nat> {
    if s == [] then [] else InsertSorted(Sort(s[1..]), s[0])
  }

  lemma PrependOrder(x: nat, r: seq<nat>)
    requires Increasing(r) && forall i :: 0 <= i < |r| ==> x < r[i]
    ensures Increasing([x] + r)
  {
    var s := [x] + r;
    forall i, j | 0 <= i < j < |s| ensures s[i] < s[j] {
      if i > 0 { assert r[i - 1] < r[j - 1]; }
    }
  }

  lemma FirstBelow(s: seq<nat>)
    requires Increasing(s) && s != []
    ensures Increasing(s[1..]) && (forall y :: y in s[1..] ==> s[0] < y) && forall y :: y in s <==> y == s[0] || y in s[1..]
  {
    forall y | y in s[1..] ensures s[0] < y {
      var i :| 0 <= i < |s[1..]| && s[1..][i] == y;
      assert s[0] < s[i + 1];
    }
  }

  lemma {:induction false} InsertSortedFacts(s: seq<nat>, x: nat)
    requires Increasing(s) && x !in s
    ensures Increasing(InsertSorted(s, x)) && |InsertSorted(s, x)| == |s| + 1
    ensures forall y :: y in InsertSorted(s, x) <==> y == x || y in s
  {
    hide Increasing;
    if s == [] {
      PrependOrder0(x);
      assert [x] + [] == [x];
    } else {
      FirstBelow(s);
      assert s[0] in s && s == [s[0]] + s[1..];
      if x < s[0] {
        assert forall i :: 0 <= i < |s| ==> s[i] in s;
        PrependOrder(x, s);
      } else {
        InsertSortedFacts(s[1..], x);
        var r := InsertSorted(s[1..], x);
        assert forall i :: 0 <= i < |r| ==> r[i] in r;
        PrependOrder(s[0], r);
      }
    }
  }

  lemma PrependOrder0(x: nat)
    ensures Increasing([x])
  {
  }

  lemma {:induction false} SortFacts(s: seq<nat>)
    requires NoDup(s)
    ensures Increasing(Sort(s)) && |Sort(s)| == |s| && forall y :: y in Sort(s) <==> y in s
  {
    if s != [] {
      SortFacts(s[1..]);
      assert s[0] !in s[1..];
      InsertSortedFacts(Sort(s[1..]), s[0]);
      assert forall y :: y in s <==> y == s[0] || y in s[1..];
    }
  }

  // ---- Legal blocks ----

  /** Elements of b of one kind. */
  function OfKind(v: Survivors, b: seq<nat>, creator: bool): seq<nat> {
    if b == [] then []
    else OfKind(v, Init(b), creator)
         + (if Last(b) < v.N() && v.creator[Last(b)] == creator then [Last(b)] else [])
  }

  lemma {:induction false} OfKindAre(v: Survivors, b: seq<nat>, creator: bool)
    requires Increasing(b)
    ensures Increasing(OfKind(v, b, creator))
    ensures forall x :: x in OfKind(v, b, creator) <==> x in b && x < v.N() && v.creator[x] == creator
  {
    if b != [] {
      OfKindAre(v, Init(b), creator);
      assert b == Init(b) + [Last(b)];
      var r := OfKind(v, Init(b), creator);
      forall i | 0 <= i < |r| ensures r[i] < Last(b) { assert r[i] in Init(b); }
    }
  }

  lemma {:induction false} KindsAddUp(v: Survivors, b: seq<nat>)
    requires forall i :: 0 <= i < |b| ==> b[i] < v.N()
    ensures |OfKind(v, b, true)| + |OfKind(v, b, false)| == |b|
  {
    if b != [] { KindsAddUp(v, Init(b)); }
  }

  predicate SeveralProvenances(v: Survivors, b: Block) {
    b != [] && b[0] < |v.provenance| && exists i :: 0 <= i < |b| && b[i] < |v.provenance| && v.provenance[b[i]] != v.provenance[b[0]]
  }

  /** k creators and k annihilators, all active, not all of one normal operator. */
  ghost predicate Legal(v: Survivors, b: Block, k: nat) {
    && v.Ok() && Increasing(b) && 2 <= k <= v.maxRank
    && (forall i :: 0 <= i < |b| ==> b[i] < v.N() && v.active[b[i]])
    && |OfKind(v, b, true)| == k && |OfKind(v, b, false)| == k
    && SeveralProvenances(v, b)
  }

  ghost predicate IsLegal(v: Survivors, b: Block) {
    exists k: nat :: Legal(v, b, k)
  }

  function Used(bs: seq<Block>): set<nat> {
    if bs == [] then {} else Used(Init(bs)) + Elems(Last(bs))
  }

  /** Disjoint legal blocks in the order of their lowest legs. */
  ghost predicate Family(v: Survivors, bs: seq<Block>) {
    && (forall i :: 0 <= i < |bs| ==> IsLegal(v, bs[i]) && bs[i] != [])
    && (forall i :: 0 <= i < |bs| ==> Elems(bs[i]) !! Used(bs[..i]))
    && forall i, j :: 0 <= i < j < |bs| ==> bs[i] != [] && bs[j] != [] && bs[i][0] < bs[j][0]
  }

  ghost predicate Covers(v: Survivors, bs: seq<Block>) {
    forall x: nat :: x < v.N() ==> x in Used(bs)
  }

  /** What may be reported: any family, or one that leaves nothing if only full contractions are wanted. */
  ghost predicate Wanted(v: Survivors, bs: seq<Block>) {
    Family(v, bs) && (v.full ==> Covers(v, bs))
  }

  lemma {:induction false} UsedSplit(a: seq<Block>, b: seq<Block>)
    ensures Used(a + b) == Used(a) + Used(b)
  {
    if b == [] {
      assert a + b == a;
    } else {
      UsedSplit(a, Init(b));
      assert Init(a + b) == a + Init(b);
    }
  }

  lemma {:induction false} UsedMembers(bs: seq<Block>, x: nat)
    ensures x in Used(bs) <==> exists i :: 0 <= i < |bs| && x in bs[i]
  {
    if bs != [] {
      UsedMembers(Init(bs), x);
      if x in Used(Init(bs)) { var i :| 0 <= i < |Init(bs)| && x in Init(bs)[i]; assert x in bs[i]; }
      if x in Last(bs) { assert x in bs[|bs| - 1]; }
      if i :| 0 <= i < |bs| && x in bs[i] { assert i < |bs| - 1 ==> x in Init(bs)[i]; }
    }
  }
}
