/**
 The table of replacement rules as it is kept: sources point to shared
 destination objects, which are updated and merged in place. Each operation
 does to the map it stands for what the rule functions say.
 */
module DeltaTable {
  import opened Sequences
  import opened DeltaValues
  import opened DeltaRules
  import opened DeltaZeros

  /** index_repl_dst_t: a destination and its sources. */
  class Destination {
    var dst: Index
    var src: seq<Index>

    constructor (src: Index, dst: Index)
      ensures this.dst == dst && this.src == [src]
    {
      this.dst, this.src := dst, [src];
    }
  }

  /** The contents of a table: objects of sources, the list of objects, and what each object holds. */
  datatype Contents = Contents(
    objects: map<Index, Destination>,
    list: seq<Destination>,
    dsts: map<Destination, Index>,
    srcs: map<Destination, seq<Index>>)

  /** Sources point to the objects that list them. */
  ghost predicate Linked(objects: map<Index, Destination>, srcs: map<Destination, seq<Index>>) {
    && (forall s :: s in objects ==> objects[s] in srcs && s in srcs[objects[s]])
    && forall d, s :: d in srcs && s in srcs[d] ==> s in objects && objects[s] == d
  }

  /** The objects are listed once and have different destinations. */
  ghost predicate Listed(list: seq<Destination>, dsts: map<Destination, Index>, next: nat) {
    && NoDup(list) && dsts.Keys == Elems(list)
    && (forall d, e :: d in dsts && e in dsts && dsts[d] == dsts[e] ==> d == e)
    && forall d :: d in dsts ==> dsts[d].id < next
  }

  ghost predicate Consistent(t: Contents, next: nat) {
    Linked(t.objects, t.srcs) && Listed(t.list, t.dsts, next) && t.srcs.Keys == t.dsts.Keys
  }

  /** The rules that a table stands for. */
  ghost function Rulebook(objects: map<Index, Destination>, dsts: map<Destination, Index>): map<Index, Index> {
    map s | s in objects && objects[s] in dsts :: dsts[objects[s]]
  }

  ghost function RulesOf(t: Contents): map<Index, Index> {
    Rulebook(t.objects, t.dsts)
  }

  ghost predicate Distinct(dsts: map<Destination, Index>) {
    forall d, e :: d in dsts && e in dsts && dsts[d] == dsts[e] ==> d == e
  }

  lemma ObjectsHaveNames(t: Contents, next: nat)
    requires Consistent(t, next)
    ensures Distinct(t.dsts) && forall s :: s in t.objects ==> t.objects[s] in t.dsts
  {
  }

  // ---- What the operations do to the contents ----

  function Joining(t: Contents, src: Index, d: Destination): Contents
    requires d in t.srcs
  {
    t.(objects := t.objects[src := d], srcs := t.srcs[d := t.srcs[d] + [src]])
  }

  lemma LinkedJoining(objects: map<Index, Destination>, srcs: map<Destination, seq<Index>>, src: Index, d: Destination)
    requires Linked(objects, srcs) && d in srcs && src !in objects
    ensures Linked(objects[src := d], srcs[d := srcs[d] + [src]])
  {
    var n := srcs[d := srcs[d] + [src]];
    forall e, s | e in n && s in n[e] ensures s in objects[src := d] && objects[src := d][s] == e {
      if e == d && s !in srcs[d] { assert s == src; }
    }
  }

  lemma JoiningDoes(t: Contents, next: nat, src: Index, d: Destination)
    requires Consistent(t, next) && d in t.srcs && src !in t.objects
    ensures Consistent(Joining(t, src, d), next)
    ensures d in t.dsts && RulesOf(Joining(t, src, d)) == Redirect(RulesOf(t), {src}, t.dsts[d])
  {
    hide Linked, Listed;
    LinkedJoining(t.objects, t.srcs, src, d);
  }

  ghost function Opening(t: Contents, src: Index, d: Destination, dst: Index): Contents {
    Contents(t.objects[src := d], t.list + [d], t.dsts[d := dst], t.srcs[d := [src]])
  }

  lemma LinkedOpening(objects: map<Index, Destination>, srcs: map<Destination, seq<Index>>, src: Index, d: Destination)
    requires Linked(objects, srcs) && d !in srcs && src !in objects
    ensures Linked(objects[src := d], srcs[d := [src]])
  {
  }

  lemma ListedOpening(list: seq<Destination>, dsts: map<Destination, Index>, next: nat, d: Destination, dst: Index)
    requires Listed(list, dsts, next) && d !in list && dst.id < next && dst !in dsts.Values
    ensures Listed(list + [d], dsts[d := dst], next)
  {
    assert forall e :: e in dsts ==> dsts[e] in dsts.Values;
  }

  lemma RulebookOpening(objects: map<Index, Destination>, dsts: map<Destination, Index>, src: Index, d: Destination, dst: Index)
    requires d !in dsts && forall s :: s in objects ==> objects[s] in dsts
    ensures Rulebook(objects[src := d], dsts[d := dst]) == Redirect(Rulebook(objects, dsts), {src}, dst)
  {
  }

  lemma OpeningDoes(t: Contents, next: nat, src: Index, d: Destination, dst: Index)
    requires Consistent(t, next) && d !in t.list && src !in t.objects && dst.id < next && dst !in t.dsts.Values
    ensures Consistent(Opening(t, src, d, dst), next)
    ensures RulesOf(Opening(t, src, d, dst)) == Redirect(RulesOf(t), {src}, dst)
  {
    ObjectsHaveNames(t, next);
    ListedKeys(t.list, t.dsts, next);
    hide Linked, Listed, Rulebook, Redirect;
    RulebookOpening(t.objects, t.dsts, src, d, dst);
    LinkedOpening(t.objects, t.srcs, src, d);
    ListedOpening(t.list, t.dsts, next, d, dst);
  }

  lemma ListedKeys(list: seq<Destination>, dsts: map<Destination, Index>, next: nat)
    requires Listed(list, dsts, next)
    ensures dsts.Keys == Elems(list) && NoDup(list)
  {
  }

  ghost function Replacing(t: Contents, d: Destination, dst: Index): Contents {
    t.(dsts := t.dsts[d := dst])
  }

  lemma ListedReplacing(list: seq<Destination>, dsts: map<Destination, Index>, next: nat, d: Destination, dst: Index)
    requires Listed(list, dsts, next) && d in dsts && dst.id < next
    requires forall e :: e in dsts && dsts[e] == dst ==> e == d
    ensures Listed(list, dsts[d := dst], next)
  {
  }

  lemma RulebookReplacing(objects: map<Index, Destination>, dsts: map<Destination, Index>, src: Index, dst: Index)
    requires Distinct(dsts) && src in objects && forall s :: s in objects ==> objects[s] in dsts
    ensures src in Rulebook(objects, dsts)
    ensures Rulebook(objects, dsts[objects[src] := dst])
            == Redirect(Rulebook(objects, dsts), Class(Rulebook(objects, dsts), Rulebook(objects, dsts)[src]), dst)
  {
  }

  lemma ReplacingDoes(t: Contents, next: nat, src: Index, dst: Index)
    requires Consistent(t, next) && src in t.objects && dst.id < next
    requires forall d :: d in t.dsts && t.dsts[d] == dst ==> d == t.objects[src]
    ensures Consistent(Replacing(t, t.objects[src], dst), next)
    ensures src in RulesOf(t)
    ensures RulesOf(Replacing(t, t.objects[src], dst)) == Redirect(RulesOf(t), Class(RulesOf(t), RulesOf(t)[src]), dst)
  {
    hide Linked, Listed, Rulebook, Distinct, Redirect, Class;
    ObjectsHaveNames(t, next);
    ListedReplacing(t.list, t.dsts, next, t.objects[src], dst);
    RulebookReplacing(t.objects, t.dsts, src, dst);
  }

  /** objects with the sources of d2 repointed to d1. */
  ghost function Repointed(objects: map<Index, Destination>, moved: seq<Index>, d1: Destination): map<Index, Destination> {
    map s | s in objects :: if s in moved then d1 else objects[s]
  }

  ghost function Merging(t: Contents, d1: Destination, d2: Destination, at: nat, dst: Index): Contents
    requires d1 in t.srcs && d2 in t.srcs && at < |t.list|
  {
    Contents(Repointed(t.objects, t.srcs[d2], d1), Erase(t.list, at), t.dsts[d1 := dst] - {d2},
             t.srcs[d1 := t.srcs[d1] + t.srcs[d2]] - {d2})
  }

  lemma LinkedMerging(objects: map<Index, Destination>, srcs: map<Destination, seq<Index>>, d1: Destination, d2: Destination)
    requires Linked(objects, srcs) && d1 in srcs && d2 in srcs && d1 != d2
    ensures Linked(Repointed(objects, srcs[d2], d1), srcs[d1 := srcs[d1] + srcs[d2]] - {d2})
  {
    var o, n := Repointed(objects, srcs[d2], d1), srcs[d1 := srcs[d1] + srcs[d2]] - {d2};
    forall s | s in o ensures o[s] in n && s in n[o[s]] {
      if s in srcs[d2] { assert s in n[d1]; }
    }
    forall d, s | d in n && s in n[d] ensures s in o && o[s] == d {
      if d == d1 { assert s in srcs[d1] || s in srcs[d2]; }
    }
  }

  lemma ListedMerging(list: seq<Destination>, dsts: map<Destination, Index>, next: nat, d1: Destination, d2: Destination, at: nat, dst: Index)
    requires Listed(list, dsts, next) && at < |list| && list[at] == d2 && d1 in dsts && d1 != d2 && dst.id < next
    requires forall e :: e in dsts && dsts[e] == dst ==> e == d1 || e == d2
    ensures Listed(Erase(list, at), dsts[d1 := dst] - {d2}, next)
  {
    EraseMembers(list, at);
  }

  lemma EraseMembers<T>(list: seq<T>, at: nat)
    requires NoDup(list) && at < |list|
    ensures NoDup(Erase(list, at)) && Elems(Erase(list, at)) == Elems(list) - {list[at]}
    ensures forall d :: d in Erase(list, at) <==> d in list && d != list[at]
  {
    var n := Erase(list, at);
    forall i | 0 <= i < |n| ensures n[i] == list[if i < at then i else i + 1] {}
    forall d | d in list && d != list[at] ensures d in n {
      var i :| 0 <= i < |list| && list[i] == d;
      assert n[if i < at then i else i - 1] == d;
    }
  }

  lemma RulebookMerging(objects: map<Index, Destination>, dsts: map<Destination, Index>, moved: seq<Index>, src1: Index, src2: Index,
                        dst: Index)
    requires Distinct(dsts) && src1 in objects && src2 in objects && objects[src1] != objects[src2]
    requires forall s :: s in objects ==> objects[s] in dsts
    requires forall s :: s in moved <==> s in objects && objects[s] == objects[src2]
    ensures src1 in Rulebook(objects, dsts) && src2 in Rulebook(objects, dsts)
    ensures var m := Rulebook(objects, dsts);
            Rulebook(Repointed(objects, moved, objects[src1]), dsts[objects[src1] := dst] - {objects[src2]})
            == Redirect(m, Class(m, m[src1]) + Class(m, m[src2]), dst)
  {
  }

  lemma SourcesOf(t: Contents, next: nat, d: Destination)
    requires Consistent(t, next) && d in t.srcs
    ensures forall s :: s in t.srcs[d] <==> s in t.objects && t.objects[s] == d
  {
  }

  lemma MergingDoes(t: Contents, next: nat, src1: Index, src2: Index, at: nat, dst: Index)
    requires Consistent(t, next) && src1 in t.objects && src2 in t.objects && t.objects[src1] != t.objects[src2]
    requires at < |t.list| && t.list[at] == t.objects[src2] && dst.id < next
    requires forall d :: d in t.dsts && t.dsts[d] == dst ==> d == t.objects[src1] || d == t.objects[src2]
    ensures NoDup(t.list) && t.objects[src1] in t.srcs && t.objects[src2] in t.srcs && src1 in RulesOf(t) && src2 in RulesOf(t)
    ensures var u, m := Merging(t, t.objects[src1], t.objects[src2], at, dst), RulesOf(t);
            Consistent(u, next) && RulesOf(u) == Redirect(m, Class(m, m[src1]) + Class(m, m[src2]), dst)
  {
    hide Linked, Listed, Rulebook, Distinct, Redirect, Class, Repointed;
    ObjectsHaveNames(t, next);
    ListedKeys(t.list, t.dsts, next);
    SourcesOf(t, next, t.objects[src2]);
    LinkedMerging(t.objects, t.srcs, t.objects[src1], t.objects[src2]);
    ListedMerging(t.list, t.dsts, next, t.objects[src1], t.objects[src2], at, dst);
    RulebookMerging(t.objects, t.dsts, t.srcs[t.objects[src2]], src1, src2, dst);
  }

  class RuleTable {
    var src2dst: map<Index, Destination>
    var dstList: seq<Destination>
    /** The label of the next fresh index. */
    var next: nat

    ghost function Table(): Contents
      reads this, dstList
    {
      Contents(src2dst, dstList, map d | d in dstList :: d.dst, map d | d in dstList :: d.src)
    }

    ghost predicate Valid()
      reads this, dstList
    {
      Consistent(Table(), next)
    }

    /** The rules. */
    ghost function View(): Rules
      reads this, dstList
    {
      Rules(RulesOf(Table()), next)
    }

    constructor (first: nat)
      ensures Valid() && View() == Rules(map[], first) && dstList == []
    {
      src2dst, dstList, next := map[], [], first;
    }

    /** Position of the destination object with index dst. */
    method FindDst(dst: Index) returns (k: nat)
      ensures k <= |dstList| && (k < |dstList| ==> dstList[k].dst == dst)
      ensures forall i :: 0 <= i < k ==> dstList[i].dst != dst
    {
      k := 0;
      while k < |dstList| && dstList[k].dst != dst
        invariant k <= |dstList| && forall i :: 0 <= i < k ==> dstList[i].dst != dst
      {
        k := k + 1;
      }
    }

    /** add_rule: src joins the object with destination dst, or a new one. */
    method AddRule(src: Index, dst: Index)
      requires Valid() && src !in src2dst && dst.id < next
      modifies this, dstList
      ensures Valid() && View() == Rules(Redirect(old(View()).dst, {src}, dst), old(next))
      ensures forall i :: 0 <= i < |dstList| ==> dstList[i] in old(dstList) || fresh(dstList[i])
    {
      hide Consistent, RulesOf, Redirect;
      var k := FindDst(dst);
      if k < |dstList| {
        AppendSrc(src, dstList[k]);
      } else {
        Open(src, dst);
      }
    }

    /** src joins the sources of d. */
    method AppendSrc(src: Index, d: Destination)
      requires Valid() && src !in src2dst && d in dstList
      modifies this`src2dst, d
      ensures Valid() && d.dst == old(d.dst) && View() == Rules(Redirect(old(View()).dst, {src}, d.dst), next)
    {
      hide Consistent, RulesOf, Redirect;
      ghost var before := Table();
      JoiningDoes(before, next, src, d);
      d.src := d.src + [src];
      src2dst := src2dst[src := d];
      JoinedTable(before, src, d);
    }

    lemma JoinedTable(before: Contents, src: Index, d: Destination)
      requires d in before.list && before.dsts.Keys == Elems(before.list) == before.srcs.Keys
      requires src2dst == before.objects[src := d] && dstList == before.list && d.src == before.srcs[d] + [src]
      requires forall e :: e in before.list ==> e.dst == before.dsts[e] && (e != d ==> e.src == before.srcs[e])
      ensures Table() == Joining(before, src, d)
    {
    }

    lemma OpenedTable(before: Contents, src: Index, d: Destination, dst: Index)
      requires src2dst == before.objects[src := d] && dstList == before.list + [d] && d.dst == dst && d.src == [src]
      requires before.dsts.Keys == Elems(before.list) && before.srcs.Keys == Elems(before.list)
      requires forall e :: e in before.list ==> e.dst == before.dsts[e] && e.src == before.srcs[e]
      requires d !in before.list
      ensures Table() == Opening(before, src, d, dst)
    {
      assert Table().dsts == before.dsts[d := dst];
      assert Table().srcs == before.srcs[d := [src]];
    }

    lemma NotFound(dst: Index)
      requires forall i :: 0 <= i < |dstList| ==> dstList[i].dst != dst
      ensures dst !in Table().dsts.Values
    {
    }

    method Open(src: Index, dst: Index)
      requires Valid() && src !in src2dst && dst.id < next && forall i :: 0 <= i < |dstList| ==> dstList[i].dst != dst
      modifies this`src2dst, this`dstList
      ensures Valid() && View() == Rules(Redirect(old(View()).dst, {src}, dst), next)
      ensures forall i :: 0 <= i < |dstList| ==> dstList[i] in old(dstList) || fresh(dstList[i])
    {
      hide Consistent, RulesOf, Redirect;
      ghost var before := Table();
      NotFound(dst);
      var d := new Destination(src, dst);
      OpeningDoes(before, next, src, d, dst);
      src2dst := src2dst[src := d];
      dstList := dstList + [d];
      OpenedTable(before, src, d, dst);
    }

    /** replace_dst_index: all sources of the object of src get the destination dst. */
    method ReplaceDst(src: Index, dst: Index)
      requires Valid() && src in src2dst && dst.id < next
      requires forall d :: d in dstList && d.dst == dst ==> d == src2dst[src]
      modifies dstList
      ensures Valid() && src in old(View()).dst
      ensures View() == Rules(Redirect(old(View()).dst, Class(old(View()).dst, old(View()).dst[src]), dst), next)
    {
      hide RulesOf, Redirect, Class;
      ghost var before := Table();
      var d := src2dst[src];
      ReplacingDoes(before, next, src, dst);
      d.dst := dst;
      ReplacedTable(before, d, dst);
    }

    lemma ReplacedTable(before: Contents, d: Destination, dst: Index)
      requires d in before.list && before.dsts.Keys == Elems(before.list) == before.srcs.Keys
      requires src2dst == before.objects && dstList == before.list && d.dst == dst
      requires forall e :: e in before.list ==> e.src == before.srcs[e] && (e != d ==> e.dst == before.dsts[e])
      ensures Table() == Replacing(before, d, dst)
    {
    }

    /** Gives both objects the destination dst and merges that of src2 into that of src1. */
    method Merge(src1: Index, src2: Index, dst: Index)
      requires Valid() && src1 in src2dst && src2 in src2dst && src2dst[src1] != src2dst[src2] && dst.id < next
      requires forall d :: d in dstList && d.dst == dst ==> d == src2dst[src1] || d == src2dst[src2]
      modifies this`src2dst, this`dstList, dstList
      ensures Valid() && src1 in old(View()).dst && src2 in old(View()).dst
      ensures var m := old(View()).dst;
              View() == Rules(Redirect(m, Class(m, m[src1]) + Class(m, m[src2]), dst), next)
      ensures forall i :: 0 <= i < |dstList| ==> dstList[i] in old(dstList)
    {
      hide RulesOf, Redirect, Class, Consistent, Merging, NoDup;
      ghost var before := Table();
      var d1, d2 := src2dst[src1], src2dst[src2];
      var at := Find(d2);
      MergingDoes(before, next, src1, src2, at, dst);
      SourcesOf(before, next, d2);
      MergeObjects(d1, d2, at, dst);
    }

    /** merge_dst2_into_dst1, at the position of the second object. */
    method MergeObjects(d1: Destination, d2: Destination, at: nat, dst: Index)
      requires NoDup(dstList) && d1 in dstList && d1 != d2 && at < |dstList| && dstList[at] == d2
      requires forall s :: s in d2.src ==> s in src2dst
      modifies this`src2dst, this`dstList, d1, d2
      ensures d1 in old(Table()).srcs && d2 in old(Table()).srcs && Table() == Merging(old(Table()), d1, d2, at, dst)
      ensures forall i :: 0 <= i < |dstList| ==> dstList[i] in old(dstList)
    {
      hide Repointed, Merging, NoDup;
      ghost var before := Table();
      d1.dst := dst;
      d2.dst := dst;
      MoveSources(before, d1, d2);
      dstList := dstList[..at] + dstList[at + 1..];
      MergedTable(before, d1, d2, at, dst);
    }

    method Find(d: Destination) returns (k: nat)
      requires Valid() && exists s :: s in src2dst && src2dst[s] == d
      ensures k < |dstList| && dstList[k] == d
    {
      InList(d);
      k := 0;
      while dstList[k] != d
        invariant k < |dstList| && d in dstList[k..]
        decreases |dstList| - k
      {
        assert dstList[k..] == [dstList[k]] + dstList[k + 1..];
        k := k + 1;
      }
    }

    lemma InList(d: Destination)
      requires Valid() && exists s :: s in src2dst && src2dst[s] == d
      ensures d in dstList
    {
    }

    method MoveSources(ghost before: Contents, d1: Destination, d2: Destination)
      requires before.objects == src2dst && d1 != d2 && d1 in dstList && d2 in dstList && d1 in before.srcs && d2 in before.srcs
      requires d1.src == before.srcs[d1] && d2.src == before.srcs[d2]
      modifies this`src2dst, d1`src
      requires forall s :: s in before.srcs[d2] ==> s in before.objects
      ensures d1.src == before.srcs[d1] + before.srcs[d2] && src2dst == Repointed(before.objects, before.srcs[d2], d1)
    {
      for k := 0 to |d2.src|
        invariant d2.src == before.srcs[d2] && d1.src == before.srcs[d1] + d2.src[..k]
        invariant src2dst == Repointed(before.objects, d2.src[..k], d1)
      {
        var s := d2.src[k];
        assert d2.src[..k + 1] == d2.src[..k] + [s];
        src2dst := src2dst[s := d1];
        d1.src := d1.src + [s];
      }
      assert d2.src[..|d2.src|] == d2.src;
    }

    lemma MergedTable(before: Contents, d1: Destination, d2: Destination, at: nat, dst: Index)
      requires d1 in before.srcs && d2 in before.srcs && d1 in before.list && at < |before.list| && before.list[at] == d2 && NoDup(before.list)
      requires before.dsts.Keys == Elems(before.list) && before.srcs.Keys == Elems(before.list) && d1 != d2
      requires src2dst == Repointed(before.objects, before.srcs[d2], d1) && dstList == Erase(before.list, at)
      requires d1.dst == dst && d1.src == before.srcs[d1] + before.srcs[d2]
      requires forall e :: e in before.list && e != d1 && e != d2 ==> e.dst == before.dsts[e] && e.src == before.srcs[e]
      ensures Table() == Merging(before, d1, d2, at, dst)
    {
      hide Erase, Repointed, NoDup;
      EraseMembers(before.list, at);
    }

    /** A new index with an unused label. */
    method Make(space: Space) returns (i: Index)
      requires Valid()
      modifies this`next
      ensures Valid() && View() == Rules(old(View()).dst, old(next) + 1) && i == Index(old(next), space)
      ensures forall d :: d in dstList ==> d.dst != i
    {
      Unused(space);
      i := Index(next, space);
      next := next + 1;
      assert Table() == old(Table());
    }

    lemma Unused(space: Space)
      requires Valid()
      ensures forall d :: d in dstList ==> d.dst != Index(next, space)
    {
      var t := Table();
      assert forall d :: d in dstList ==> d in t.dsts && t.dsts[d] == d.dst;
    }

    lemma Lookup(src: Index)
      requires Valid()
      ensures src in src2dst <==> src in View().dst
      ensures src in src2dst ==> src2dst[src] in dstList && View().dst[src] == src2dst[src].dst && src2dst[src].dst.id < next
    {
      ObjectsHaveNames(Table(), next);
      if src in src2dst { assert Table().dsts[src2dst[src]] == src2dst[src].dst; }
    }

    /** update_rule; zero if the spaces do not intersect. */
    method UpdateRule(src: Index, dst: Index) returns (zero: bool)
      requires Valid() && src in src2dst
      modifies this`next, dstList
      ensures Valid() && src in old(View()).dst
      ensures DeltaRules.UpdateRule(old(View()), src, dst) == if zero then Zero else Collected(View())
    {
      hide Consistent, RulesOf, Redirect, Class;
      Lookup(src);
      zero := false;
      var now := src2dst[src].dst;
      if dst.space != now.space {
        var space := now.space * dst.space;
        if space == {} { return true; }
        var narrowed := Make(space);
        ReplaceDst(src, narrowed);
      }
    }

    /** add_or_update_rule. */
    method AddOrUpdateRule(src: Index, dst: Index) returns (zero: bool)
      requires Valid() && dst.id < next
      modifies this, dstList
      ensures Valid() && forall i :: 0 <= i < |dstList| ==> dstList[i] in old(dstList) || fresh(dstList[i])
      ensures DeltaRules.AddOrUpdateRule(old(View()), src, dst) == if zero then Zero else Collected(View())
    {
      hide Consistent, RulesOf, Redirect, DeltaRules.UpdateRule;
      Lookup(src);
      zero := false;
      if src in src2dst {
        zero := UpdateRule(src, dst);
      } else {
        AddRule(src, dst);
      }
    }

    /** add_or_update_rules, for a dst that no source has yet. */
    method AddOrUpdateRules(src1: Index, src2: Index, dst: Index, less: Order) returns (zero: bool)
      requires Valid() && src1 != src2 && dst.id < next && forall d :: d in dstList ==> d.dst != dst
      modifies this, dstList
      ensures Valid() && forall i :: 0 <= i < |dstList| ==> dstList[i] in old(dstList) || fresh(dstList[i])
      ensures DeltaRules.AddOrUpdateRules(old(View()), src1, src2, dst, less) == if zero then Zero else Collected(View())
    {
      hide Consistent, RulesOf, Redirect, DeltaRules.UpdateRule, Merged, MergedSpace;
      Lookup(src1);
      Lookup(src2);
      zero := false;
      if src1 !in src2dst && src2 !in src2dst {
        AddRule(src1, dst);
        Lookup(src2);
        AddRule(src2, dst);
      } else if src2 !in src2dst {
        zero := UpdateRule(src1, dst);
        if !zero { Follow(src1, src2); }
      } else if src1 !in src2dst {
        zero := UpdateRule(src2, dst);
        if !zero { Follow(src2, src1); }
      } else {
        zero := MergeRules(src1, src2, dst, less);
      }
    }

    /** src joins the object of leader. */
    method Follow(leader: Index, src: Index)
      requires Valid() && leader in src2dst && src !in src2dst
      modifies this`src2dst, dstList
      ensures Valid() && dstList == old(dstList)
      ensures Following(Collected(old(View())), leader, src) == Collected(View())
    {
      hide Consistent, RulesOf, Redirect;
      Lookup(leader);
      AppendSrc(src, src2dst[leader]);
    }

    /** Brings two existing rules to one destination, one of the three given if its space will do. */
    method MergeRules(src1: Index, src2: Index, dst: Index, less: Order) returns (zero: bool)
      requires Valid() && src1 in src2dst && src2 in src2dst && dst.id < next && forall d :: d in dstList ==> d.dst != dst
      modifies this, dstList
      ensures Valid() && src1 in old(View()).dst && src2 in old(View()).dst && forall i :: 0 <= i < |dstList| ==> dstList[i] in old(dstList)
      ensures DeltaRules.AddOrUpdateRules(old(View()), src1, src2, dst, less) == if zero then Zero else Collected(View())
    {
      hide Consistent, RulesOf, Redirect, Class;
      Lookup(src1);
      Lookup(src2);
      var d1, d2 := src2dst[src1].dst, src2dst[src2].dst;
      var space := if dst.space != d1.space || dst.space != d2.space then d1.space * d2.space * dst.space else dst.space;
      if space == {} { return true; }
      zero := false;
      Unused(space);
      var d;
      if space == d1.space {
        d := d1;
        if space == d2.space && less(d2, d) { d := d2; }
        if space == dst.space && less(dst, d) { d := dst; }
      } else if space == d2.space {
        d := d2;
        if space == dst.space && less(dst, d) { d := dst; }
      } else if space == dst.space {
        d := dst;
      } else {
        d := Make(space);
      }
      Redestine(src1, src2, d);
    }

    /** Gives all sources of both objects the destination d. */
    method Redestine(src1: Index, src2: Index, d: Index)
      requires Valid() && src1 in src2dst && src2 in src2dst && d.id < next
      requires d == src2dst[src1].dst || d == src2dst[src2].dst || forall e :: e in dstList ==> e.dst != d
      modifies this`src2dst, this`dstList, dstList
      ensures Valid() && src1 in old(View()).dst && src2 in old(View()).dst && forall i :: 0 <= i < |dstList| ==> dstList[i] in old(dstList)
      ensures var m := old(View()).dst;
              View() == Rules(Redirect(m, Class(m, m[src1]) + Class(m, m[src2]), d), next)
    {
      hide Consistent, RulesOf, Redirect, Class;
      Lookup(src1);
      Lookup(src2);
      OneObject(src1, d);
      OneObject(src2, d);
      if src2dst[src1] != src2dst[src2] {
        Merge(src1, src2, d);
      } else {
        ghost var m := View().dst;
        ReplaceDst(src1, d);
        assert Class(m, m[src1]) + Class(m, m[src2]) == Class(m, m[src1]);
      }
    }

    /** A destination belongs to one object. */
    lemma OneObject(src: Index, d: Index)
      requires Valid() && src in src2dst
      ensures d == src2dst[src].dst ==> forall e :: e in dstList && e.dst == d ==> e == src2dst[src]
    {
      ObjectsHaveNames(Table(), next);
      var t := Table();
      assert forall e :: e in dstList ==> e in t.dsts && t.dsts[e] == e.dst;
    }

    /** The rules that one delta implies; zero if it cannot hold. */
    method Process(ext: set<Index>, bra: Index, ket: Index, less: Order) returns (zero: bool)
      requires Valid() && (bra in ext ==> bra.id < next) && (ket in ext ==> ket.id < next)
      modifies this, dstList
      ensures Valid() && forall i :: 0 <= i < |dstList| ==> dstList[i] in old(dstList) || fresh(dstList[i])
      ensures DeltaRules.Process(old(View()), ext, bra, ket, less) == if zero then Zero else Collected(View())
    {
      hide Consistent, RulesOf, DeltaRules.AddOrUpdateRule, DeltaRules.AddOrUpdateRules;
      zero := false;
      if bra == ket { return; }
      var braIsExt, ketIsExt, space := bra in ext, ket in ext, bra.space * ket.space;
      if space == {} { return true; }
      if !braIsExt && !ketIsExt {
        var dummy := Make(space);
        zero := AddOrUpdateRules(bra, ket, dummy, less);
      } else if braIsExt && !ketIsExt {
        if bra.space <= ket.space {
          zero := AddOrUpdateRule(ket, bra);
        } else {
          var dummy := Make(space);
          zero := AddOrUpdateRule(ket, dummy);
        }
      } else if !braIsExt && ketIsExt {
        if ket.space <= bra.space {
          zero := AddOrUpdateRule(bra, ket);
        } else {
          var dummy := Make(space);
          zero := AddOrUpdateRule(bra, dummy);
        }
      }
    }
  }

  /** compute_index_replacement_rules: the rules of all deltas of p in order, unless p is zero. */
  method ComputeRules(p: seq<Factor>, ext: set<Index>, first: nat, less: Order) returns (outcome: Outcome)
    requires LabelsBelow(p, ext, first)
    ensures outcome == Collect(p, ext, first, less)
    ensures IsCollected(p, ext, outcome)
  {
    hide RulesOf, Consistent, Process, IsCollected;
    CollectIs(p, ext, first, less);
    var table := new RuleTable(first);
    for k := 0 to |p|
      invariant fresh(table) && table.Valid() && forall i :: 0 <= i < |table.dstList| ==> fresh(table.dstList[i])
      invariant first <= table.next && Collect(p[..k], ext, first, less) == Collected(table.View())
    {
      assert Init(p[..k + 1]) == p[..k] && Last(p[..k + 1]) == p[k];
      if p[k].Delta? {
        LabelsOf(p, ext, first, k);
        ghost var before := table.View();
        var zero := table.Process(ext, p[k].bra, p[k].ket, less);
        NextGrows(before, ext, p[k].bra, p[k].ket, less);
        if zero {
          CollectZero(p, ext, first, less, k + 1);
          return Zero;
        }
      }
    }
    assert p[..|p|] == p;
    var m := map s | s in table.src2dst :: table.src2dst[s].dst;
    RulesRead(table, m);
    outcome := Collected(Rules(m, table.next));
  }

  lemma RulesRead(table: RuleTable, m: map<Index, Index>)
    requires table.Valid() && m.Keys == table.src2dst.Keys && forall s :: s in m ==> m[s] == table.src2dst[s].dst
    ensures table.View() == Rules(m, table.next)
  {
    hide Consistent, RulesOf;
    forall s ensures s in table.src2dst <==> s in table.View().dst { table.Lookup(s); }
    forall s | s in m ensures table.View().dst[s] == m[s] { table.Lookup(s); }
    assert table.View().dst == m;
  }

  lemma NextGrows(r: Rules, ext: set<Index>, bra: Index, ket: Index, less: Order)
    ensures Process(r, ext, bra, ket, less).Collected? ==> Process(r, ext, bra, ket, less).rules.next >= r.next
  {
  }

  lemma LabelsOf(p: seq<Factor>, ext: set<Index>, first: nat, k: nat)
    requires LabelsBelow(p, ext, first) && k < |p| && p[k].Delta?
    ensures p[k].bra.id < first && p[k].ket.id < first
  {
    SlotsAreIndices(p, k);
    assert p[k].bra in Slots(p[k]) && p[k].ket in Slots(p[k]);
  }

  lemma {:induction false} CollectZero(p: seq<Factor>, ext: set<Index>, first: nat, less: Order, k: nat)
    requires k <= |p| && Collect(p[..k], ext, first, less) == Zero
    ensures Collect(p, ext, first, less) == Zero
    decreases |p| - k
  {
    hide Process;
    if k < |p| {
      assert Init(p[..k + 1]) == p[..k];
      CollectZero(p, ext, first, less, k + 1);
    } else {
      assert p[..k] == p;
    }
  }
}
