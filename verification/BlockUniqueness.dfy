/** No family of blocks is reported twice. */
module BlockUniqueness {
  import opened Sequences
  import opened BlockFamilies
  import opened BlockTree

  lemma {:induction false} TreeNoDup(v: Survivors, bs: seq<Block>, first: nat)
    requires AtNode(v, bs, first)
    ensures NoDup(Tree(v, bs, first))
    decreases v.N() - first, 4, 0
  {
    hide AtNode, Reaches, Used, NextFree, Ranks, NoDup, ReachesRank;
    NodeOk(v, bs, first);
    NodeAtFree(v, bs, first);
    var f := NextFree(v, Used(bs), first);
    FreeIsFree(v, bs, first);
    NothingTwice<seq<Block>>(bs);
    if f < v.N() {
      var later := if !v.full then Tree(v, bs, f + 1) else [];
      var here := if v.maxRank < 2 || !v.active[f] then [] else Ranks(v, bs, f, 2);
      if !v.full {
        NodeSkips(v, bs, f);
        TreeNoDup(v, bs, f + 1);
      }
      if !(v.maxRank < 2 || !v.active[f]) { RanksNoDup(v, bs, f, 2); }
      forall t | t in later ensures t !in here {
        TreeMembers(v, bs, f + 1, t);
        if !(v.maxRank < 2 || !v.active[f]) { RanksMembers(v, bs, f, 2, t); }
        StartsOnceOnly(v, bs, f, 2, t);
      }
      NoDupConcat(later, here);
    }
  }

  lemma NothingTwice<T>(x: T)
    ensures NoDup([x]) && NoDup<T>([])
  {
  }

  lemma StartsOnceOnly(v: Survivors, bs: seq<Block>, f: nat, k: nat, t: seq<Block>)
    requires Reaches(v, bs, f + 1, t)
    ensures !ReachesRank(v, bs, f, k, t)
  {
    hide Legal, Used, Wanted;
  }

  lemma {:induction false} RanksNoDup(v: Survivors, bs: seq<Block>, f: nat, k: nat)
    requires AtNode(v, bs, f) && v.Ok() && f < v.N() && f !in Used(bs) && v.active[f] && k >= 2
    ensures NoDup(Ranks(v, bs, f, k))
    decreases v.N() - f, 3, v.maxRank + 1 - k
  {
    hide AtNode, Used, Picks, Candidates, ReachesRank, ReachesChosen, Sames, NoDup;
    NothingTwice<seq<Block>>(bs);
    var same, other := Same(v, bs, f), Other(v, bs, f);
    if !(k > v.maxRank || |same| + 1 < k || |other| < k) {
      var ss, os := Picks(same, k - 1), Picks(other, k);
      RanksNoDup(v, bs, f, k + 1);
      CandidatesAre(v, Used(bs), f + 1, v.creator[f]);
      CandidatesAre(v, Used(bs), f + 1, !v.creator[f]);
      PicksNoDup(same, k - 1);
      PicksNoDup(other, k);
      SamesNoDup(v, bs, f, k, ss, os);
      forall t | t in Sames(v, bs, f, ss, os) ensures t !in Ranks(v, bs, f, k + 1) {
        SamesMembers(v, bs, f, k, ss, os, t);
        RanksMembers(v, bs, f, k + 1, t);
        OneRank(v, bs, f, k, t);
      }
      NoDupConcat(Sames(v, bs, f, ss, os), Ranks(v, bs, f, k + 1));
    }
  }

  /** A block has one rank. */
  lemma OneRank(v: Survivors, bs: seq<Block>, f: nat, k: nat, t: seq<Block>)
    requires AtNode(v, bs, f) && v.Ok() && f < v.N() && f !in Used(bs) && v.active[f] && 2 <= k <= v.maxRank
    requires ReachesChosen(v, bs, f, Picks(Same(v, bs, f), k - 1), Picks(Other(v, bs, f), k), t)
    ensures !ReachesRank(v, bs, f, k + 1, t)
  {
    hide AtNode, Used, Picks, Same, Other, Legal;
    var s, o :| s in Picks(Same(v, bs, f), k - 1) && o in Picks(Other(v, bs, f), k) && ReachesTry(v, bs, f, s, o, t);
    PickedKinds(v, bs, f, k, s, o);
    if ReachesRank(v, bs, f, k + 1, t) {
      var j: nat :| j >= k + 1 && StartsAt(v, bs, f, j, t[|bs|]);
      LegalRank(v, t[|bs|], j);
      LegalRank(v, t[|bs|], k);
    }
  }

  /** The legs of each kind can be read off the block. */
  lemma PickedKinds(v: Survivors, bs: seq<Block>, f: nat, k: nat, s: seq<nat>, o: seq<nat>)
    requires v.Ok() && f < v.N() && f !in Used(bs) && v.active[f] && 2 <= k <= v.maxRank
    requires s in Picks(Same(v, bs, f), k - 1) && o in Picks(Other(v, bs, f), k)
    ensures OfKind(v, BlockOf(f, s, o), v.creator[f]) == [f] + s && OfKind(v, BlockOf(f, s, o), !v.creator[f]) == o
    ensures SeveralProvenances(v, BlockOf(f, s, o)) ==> StartsAt(v, bs, f, k, BlockOf(f, s, o))
  {
    hide Used, Picks, Candidates, BlockOf, StartsAt, OfKind, SeveralProvenances;
    CandidatesAre(v, Used(bs), f + 1, v.creator[f]);
    CandidatesAre(v, Used(bs), f + 1, !v.creator[f]);
    PicksAre(Same(v, bs, f), k - 1, s);
    PicksAre(Other(v, bs, f), k, o);
    ChosenBlock(v, bs, f, k, s, o);
  }

  lemma {:induction false} SamesNoDup(v: Survivors, bs: seq<Block>, f: nat, k: nat, ss: seq<seq<nat>>, os: seq<seq<nat>>)
    requires AtNode(v, bs, f) && v.Ok() && f < v.N() && f !in Used(bs) && v.active[f] && 2 <= k <= v.maxRank
    requires forall s :: s in ss ==> s in Picks(Same(v, bs, f), k - 1)
    requires forall o :: o in os ==> o in Picks(Other(v, bs, f), k)
    requires NoDup(ss) && NoDup(os)
    ensures NoDup(Sames(v, bs, f, ss, os))
    decreases v.N() - f, 2, |ss|
  {
    hide AtNode, Used, Picks, Same, Other, Others, NoDup, ReachesChosen;
    NothingTwice<seq<Block>>(bs);
    if ss != [] {
      assert ss == [ss[0]] + ss[1..];
      assert ss[0] in ss && forall s :: s in ss[1..] ==> s in ss;
      TailNoDup(ss);
      SamesNoDup(v, bs, f, k, ss[1..], os);
      OthersNoDup(v, bs, f, k, ss[0], os);
      forall t | t in Others(v, bs, f, ss[0], os) ensures t !in Sames(v, bs, f, ss[1..], os) {
        OthersMembers(v, bs, f, k, ss[0], os, t);
        SamesMembers(v, bs, f, k, ss[1..], os, t);
        OneSame(v, bs, f, k, ss, os, t);
      }
      NoDupConcat(Others(v, bs, f, ss[0], os), Sames(v, bs, f, ss[1..], os));
    }
  }

  lemma TailNoDup<T>(s: seq<T>)
    requires NoDup(s) && s != []
    ensures NoDup(s[1..]) && s[0] !in s[1..]
  {
  }

  /** A reported family fixes the legs its next block was chosen by. */
  lemma OneChoice(v: Survivors, bs: seq<Block>, f: nat, k: nat, s: seq<nat>, o: seq<nat>, s1: seq<nat>, o1: seq<nat>, t: seq<Block>)
    requires v.Ok() && f < v.N() && f !in Used(bs) && v.active[f] && 2 <= k <= v.maxRank
    requires s in Picks(Same(v, bs, f), k - 1) && o in Picks(Other(v, bs, f), k)
    requires s1 in Picks(Same(v, bs, f), k - 1) && o1 in Picks(Other(v, bs, f), k)
    requires ReachesTry(v, bs, f, s, o, t) && ReachesTry(v, bs, f, s1, o1, t)
    ensures s == s1 && o == o1
  {
    hide Used, Picks, Same, Other, SeveralProvenances, StartsAt, OfKind, BlockOf, Reaches;
    PickedKinds(v, bs, f, k, s, o);
    PickedKinds(v, bs, f, k, s1, o1);
    assert ([f] + s)[1..] == s && ([f] + s1)[1..] == s1;
  }

  lemma OneSame(v: Survivors, bs: seq<Block>, f: nat, k: nat, ss: seq<seq<nat>>, os: seq<seq<nat>>, t: seq<Block>)
    requires v.Ok() && f < v.N() && f !in Used(bs) && v.active[f] && 2 <= k <= v.maxRank
    requires ss != [] && ss[0] !in ss[1..]
    requires forall s :: s in ss ==> s in Picks(Same(v, bs, f), k - 1)
    requires forall o :: o in os ==> o in Picks(Other(v, bs, f), k)
    requires exists o :: o in os && ReachesTry(v, bs, f, ss[0], o, t)
    ensures !ReachesChosen(v, bs, f, ss[1..], os, t)
  {
    hide Used, Picks, Same, Other, ReachesTry;
    var o :| o in os && ReachesTry(v, bs, f, ss[0], o, t);
    assert ss[0] in ss && forall s :: s in ss[1..] ==> s in ss;
    if ReachesChosen(v, bs, f, ss[1..], os, t) {
      var s1, o1 :| s1 in ss[1..] && o1 in os && ReachesTry(v, bs, f, s1, o1, t);
      OneChoice(v, bs, f, k, ss[0], o, s1, o1, t);
    }
  }

  lemma {:induction false} OthersNoDup(v: Survivors, bs: seq<Block>, f: nat, k: nat, s: seq<nat>, os: seq<seq<nat>>)
    requires AtNode(v, bs, f) && v.Ok() && f < v.N() && f !in Used(bs) && v.active[f] && 2 <= k <= v.maxRank
    requires s in Picks(Same(v, bs, f), k - 1) && forall o :: o in os ==> o in Picks(Other(v, bs, f), k)
    requires NoDup(os)
    ensures NoDup(Others(v, bs, f, s, os))
    decreases v.N() - f, 1, |os|
  {
    hide AtNode, Used, Picks, Same, Other, Try, NoDup, ReachesTry;
    NothingTwice<seq<Block>>(bs);
    if os != [] {
      assert os == [os[0]] + os[1..];
      assert os[0] in os && forall o :: o in os[1..] ==> o in os;
      TailNoDup(os);
      OthersNoDup(v, bs, f, k, s, os[1..]);
      TryNoDup(v, bs, f, k, s, os[0]);
      forall t | t in Try(v, bs, f, s, os[0]) ensures t !in Others(v, bs, f, s, os[1..]) {
        TryMembers(v, bs, f, k, s, os[0], t);
        OthersMembers(v, bs, f, k, s, os[1..], t);
        if o :| o in os[1..] && ReachesTry(v, bs, f, s, o, t) { OneChoice(v, bs, f, k, s, os[0], s, o, t); }
      }
      NoDupConcat(Try(v, bs, f, s, os[0]), Others(v, bs, f, s, os[1..]));
    }
  }

  lemma {:induction false} TryNoDup(v: Survivors, bs: seq<Block>, f: nat, k: nat, s: seq<nat>, o: seq<nat>)
    requires AtNode(v, bs, f) && v.Ok() && f < v.N() && f !in Used(bs) && v.active[f] && 2 <= k <= v.maxRank
    requires s in Picks(Same(v, bs, f), k - 1) && o in Picks(Other(v, bs, f), k)
    ensures NoDup(Try(v, bs, f, s, o))
    decreases v.N() - f, 0, 0
  {
    hide AtNode, Used, Picks, Same, Other, Tree, StartsAt, SeveralProvenances, BlockOf, NoDup;
    NothingTwice<seq<Block>>(bs);
    var b := BlockOf(f, s, o);
    if SeveralProvenances(v, b) {
      PickedKinds(v, bs, f, k, s, o);
      NodeAtPosition(v, bs, f);
      FamilySnoc(v, bs, f, f, k, b);
      TreeNoDup(v, bs + [b], f + 1);
    }
  }

  /** Every wanted family of legal disjoint blocks is reported, and once only. */
  lemma ReportedOnce(v: Survivors)
    requires v.Ok()
    ensures NoDup(Tree(v, [], 0))
    ensures forall t :: t in Tree(v, [], 0) <==> Wanted(v, t)
  {
    hide Tree, Used, IsLegal, NoDup;
    StartsEmpty(v);
    TreeNoDup(v, [], 0);
    forall t ensures t in Tree(v, [], 0) <==> Wanted(v, t) {
      TreeMembers(v, [], 0, t);
    }
  }

  lemma StartsEmpty(v: Survivors)
    requires v.Ok()
    ensures AtNode(v, [], 0)
  {
  }
}
