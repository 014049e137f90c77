/**
 The closed cycles of partner pairs and contractions, defined without reference to the order in which
 contractions are joined, and the proof that their number is what is counted.
 */
module PartnerCycles {
  import opened Sequences
  import opened WickProblem
  import opened PartnerIndices

  /** Distinct pairs, each one's annihilator contracted with the next one's creator, the last one's with the first one's. */
  ghost predicate CycleList(m: set<Partners>, bonds: seq<Bond>, c: seq<Partners>) {
    && c != [] && NoDup(c) && (forall k :: 0 <= k < |c| ==> c[k] in m)
    && forall k :: 0 <= k < |c| ==> Follows(bonds, c[k], c[After(k, |c|)])
  }

  function After(k: nat, n: nat): nat {
    if k + 1 == n then 0 else k + 1
  }

  ghost predicate Follows(bonds: seq<Bond>, e: Partners, f: Partners) {
    (e.1, f.0) in bonds
  }

  /** A cycle, up to rotation: the pairs it goes through. */
  ghost predicate IsCycle(m: set<Partners>, bonds: seq<Bond>, s: set<Partners>) {
    exists c :: CycleList(m, bonds, c) && Elems(c) == s
  }

  ghost function Cycles(m: set<Partners>, bonds: seq<Bond>): set<set<Partners>> {
    set s: set<Partners> | s <= m && IsCycle(m, bonds, s)
  }

  // ---- The set of its pairs determines a cycle up to rotation ----

  function Rotation(k: nat, i: nat, n: nat): nat {
    if i + k < n then i + k else if i + k - n < n then i + k - n else 0
  }

  lemma NextIsUnique(m: set<Partners>, bonds: seq<Bond>, e: Partners, f: Partners, g: Partners)
    requires Matching(m) && DistinctBonds(bonds) && f in m && g in m && Follows(bonds, e, f) && Follows(bonds, e, g)
    ensures f == g
  {
    var i :| 0 <= i < |bonds| && bonds[i] == (e.1, f.0);
    var j :| 0 <= j < |bonds| && bonds[j] == (e.1, g.0);
    assert i < j || j < i || i == j;
  }

  lemma PreviousIsUnique(m: set<Partners>, bonds: seq<Bond>, e: Partners, f: Partners, g: Partners)
    requires Matching(m) && DistinctBonds(bonds) && f in m && g in m && Follows(bonds, f, e) && Follows(bonds, g, e)
    ensures f == g
  {
    var i :| 0 <= i < |bonds| && bonds[i] == (f.1, e.0);
    var j :| 0 <= j < |bonds| && bonds[j] == (g.1, e.0);
    assert i < j || j < i || i == j;
  }

  lemma {:induction false} RotatedAt(m: set<Partners>, bonds: seq<Bond>, c: seq<Partners>, d: seq<Partners>, i: nat, k: nat)
    requires Matching(m) && DistinctBonds(bonds) && CycleList(m, bonds, c) && CycleList(m, bonds, d) && |c| == |d|
    requires i < |c| && d[0] == c[i] && k < |d|
    ensures d[k] == c[Rotation(k, i, |c|)]
  {
    hide Matching, DistinctBonds, Follows, NoDup;
    if k > 0 {
      RotatedAt(m, bonds, c, d, i, k - 1);
      var j := Rotation(k - 1, i, |c|);
      assert After(k - 1, |d|) == k && After(j, |c|) == Rotation(k, i, |c|);
      assert Follows(bonds, d[k - 1], d[After(k - 1, |d|)]) && Follows(bonds, c[j], c[After(j, |c|)]);
      NextIsUnique(m, bonds, c[j], d[k], c[After(j, |c|)]);
    }
  }

  /** Two lists of the same cycle are rotations of each other. */
  lemma SameCycleRotates(m: set<Partners>, bonds: seq<Bond>, c: seq<Partners>, d: seq<Partners>) returns (i: nat)
    requires Matching(m) && DistinctBonds(bonds) && CycleList(m, bonds, c) && CycleList(m, bonds, d) && Elems(c) == Elems(d)
    ensures |d| == |c| && i < |c| && forall k :: 0 <= k < |c| ==> d[k] == c[Rotation(k, i, |c|)]
  {
    NoDupSize(c);
    NoDupSize(d);
    assert d[0] in Elems(c);
    i :| 0 <= i < |c| && c[i] == d[0];
    forall k | 0 <= k < |c| ensures d[k] == c[Rotation(k, i, |c|)] { RotatedAt(m, bonds, c, d, i, k); }
  }

  // ---- Which pairs stay open ----

  /** Contractions both of whose operators have partners. */
  ghost predicate Effective(m: set<Partners>, c: Bond) {
    c.0 in Annihilators(m) && c.1 in Creators(m)
  }

  ghost function Sources(m: set<Partners>, bonds: seq<Bond>): set<nat> {
    set c | c in bonds && Effective(m, c) :: c.0
  }

  ghost function Sinks(m: set<Partners>, bonds: seq<Bond>): set<nat> {
    set c | c in bonds && Effective(m, c) :: c.1
  }

  lemma SourcesSnoc(m: set<Partners>, bonds: seq<Bond>, c: Bond)
    ensures Effective(m, c) ==> Sources(m, bonds + [c]) == Sources(m, bonds) + {c.0} && Sinks(m, bonds + [c]) == Sinks(m, bonds) + {c.1}
    ensures !Effective(m, c) ==> Sources(m, bonds + [c]) == Sources(m, bonds) && Sinks(m, bonds + [c]) == Sinks(m, bonds)
  {
    hide Effective;
    var t := bonds + [c];
    assert forall d :: d in t <==> d in bonds || d == c;
    assert c in t;
    forall d | d in bonds && Effective(m, d) ensures d.0 in Sources(m, t) && d.1 in Sinks(m, t) { assert d in t; }
  }

  lemma HasEnds(m: set<Partners>, a: nat, b: nat)
    ensures (a, b) in m ==> a in Creators(m) && b in Annihilators(m)
  {
    if (a, b) in m { assert (a, b).0 in Creators(m) && (a, b).1 in Annihilators(m); }
  }

  /** Only the operators of effective contractions are used up. */
  lemma {:induction false} OpenEnds(p: Paths, bonds: seq<Bond>)
    requires Matching(p.open) && DistinctBonds(bonds)
    ensures var q := JoinAll(p, bonds);
            && Annihilators(q.open) == Annihilators(p.open) - Sources(p.open, bonds)
            && Creators(q.open) == Creators(p.open) - Sinks(p.open, bonds)
  {
    if bonds != [] {
      var u, c := Init(bonds), Last(bonds);
      assert bonds == u + [c];
      OpenEnds(p, u);
      JoinAllKeepsMatching(p, u);
      SourcesSnoc(p.open, u, c);
      FreshEnds(p.open, bonds);
      var q := JoinAll(p, u);
      hide Matching, Annihilators, Creators, Sources, Sinks, JoinPaths, DistinctBonds;
      if Effective(p.open, c) {
        JoinConsumes(q, c.0, c.1);
      } else {
        NothingToJoin(q, c.0, c.1);
      }
    }
  }

  lemma FreshEnds(m: set<Partners>, bonds: seq<Bond>)
    requires DistinctBonds(bonds) && bonds != []
    ensures DistinctBonds(Init(bonds)) && Last(bonds).0 !in Sources(m, Init(bonds)) && Last(bonds).1 !in Sinks(m, Init(bonds))
    ensures forall c :: c in Init(bonds) ==> c.0 != Last(bonds).0 && c.1 != Last(bonds).1
  {
    forall c | c in Init(bonds) ensures c.0 != Last(bonds).0 && c.1 != Last(bonds).1 {
      var k :| 0 <= k < |Init(bonds)| && Init(bonds)[k] == c;
      assert bonds[k] == c;
    }
  }

  // ---- Paths are determined by where they start ----

  /** No pair continues a path that ends at annihilator b. */
  ghost predicate DeadEnd(m: set<Partners>, bonds: seq<Bond>, b: nat) {
    forall f :: f in m ==> (b, f.0) !in bonds
  }

  lemma PathLink(m: set<Partners>, bonds: seq<Bond>, path: seq<Partners>, a: nat, b: nat, k: nat)
    requires Path(m, bonds, path, a, b) && k < |path|
    ensures path[k] in m && (k + 1 < |path| ==> Follows(bonds, path[k], path[k + 1]))
  {
  }

  lemma {:induction false} PathsAgree(m: set<Partners>, bonds: seq<Bond>, s: seq<Partners>, t: seq<Partners>, a: nat, b: nat, d: nat, k: nat)
    requires Matching(m) && DistinctBonds(bonds) && Path(m, bonds, s, a, b) && Path(m, bonds, t, a, d)
    requires k < |s| && k < |t|
    ensures s[k] == t[k]
  {
    PathLink(m, bonds, s, a, b, k);
    PathLink(m, bonds, t, a, d, k);
    if k > 0 {
      PathsAgree(m, bonds, s, t, a, b, d, k - 1);
      PathLink(m, bonds, s, a, b, k - 1);
      PathLink(m, bonds, t, a, d, k - 1);
      hide Matching, DistinctBonds, Follows;
      NextIsUnique(m, bonds, s[k - 1], s[k], t[k]);
    }
  }

  lemma PathIsUnique(m: set<Partners>, bonds: seq<Bond>, s: seq<Partners>, t: seq<Partners>, a: nat, b: nat, d: nat)
    requires Matching(m) && DistinctBonds(bonds) && Path(m, bonds, s, a, b) && Path(m, bonds, t, a, d)
    requires DeadEnd(m, bonds, b) && DeadEnd(m, bonds, d)
    ensures s == t && b == d
  {
    forall k | 0 <= k < |s| && k < |t| ensures s[k] == t[k] { PathsAgree(m, bonds, s, t, a, b, d, k); }
    if |s| < |t| {
      PathLink(m, bonds, t, a, d, |s| - 1);
      PathLink(m, bonds, t, a, d, |s|);
    } else if |t| < |s| {
      PathLink(m, bonds, s, a, b, |t| - 1);
      PathLink(m, bonds, s, a, b, |t|);
    }
  }

  /** A path whose first creator is not contracted passes no pair twice. */
  lemma PathHasNoDup(m: set<Partners>, bonds: seq<Bond>, path: seq<Partners>, a: nat, b: nat)
    requires Matching(m) && DistinctBonds(bonds) && Path(m, bonds, path, a, b) && forall c :: c in bonds ==> c.1 != a
    ensures NoDup(path)
  {
    forall i, j | 0 <= i < j < |path| ensures path[i] != path[j] { NoReturn(m, bonds, path, a, b, i, j); }
  }

  lemma {:induction false} NoReturn(m: set<Partners>, bonds: seq<Bond>, path: seq<Partners>, a: nat, b: nat, i: nat, j: nat)
    requires Matching(m) && DistinctBonds(bonds) && Path(m, bonds, path, a, b) && i < j < |path|
    requires forall c :: c in bonds ==> c.1 != a
    ensures path[i] != path[j]
  {
    PathLink(m, bonds, path, a, b, j - 1);
    PathLink(m, bonds, path, a, b, j);
    if i > 0 {
      PathLink(m, bonds, path, a, b, i - 1);
      NoReturn(m, bonds, path, a, b, i - 1, j - 1);
      hide Matching, DistinctBonds, Follows, Path;
      if path[i] == path[j] { PreviousIsUnique(m, bonds, path[j], path[i - 1], path[j - 1]); }
    }
  }

  lemma SinkIsDead(p: Paths, bonds: seq<Bond>, e: Partners)
    requires Matching(p.open) && DistinctBonds(bonds) && e in JoinAll(p, bonds).open
    ensures DeadEnd(p.open, bonds, e.1)
  {
    OpenEnds(p, bonds);
    HasEnds(JoinAll(p, bonds).open, e.0, e.1);
    hide JoinAll;
    forall f | f in p.open ensures (e.1, f.0) !in bonds { SourceOf(p.open, bonds, e.1, f); }
  }

  lemma SourceOf(m: set<Partners>, bonds: seq<Bond>, b: nat, f: Partners)
    requires f in m && b in Annihilators(m)
    ensures (b, f.0) in bonds ==> b in Sources(m, bonds)
  {
    HasEnds(m, f.0, f.1);
    if (b, f.0) in bonds { assert (b, f.0).0 in Sources(m, bonds); }
  }

  /** A path that can be continued at neither end is what a pair left open stands for. */
  lemma MaximalPathIsOpen(p: Paths, bonds: seq<Bond>, path: seq<Partners>, a: nat, b: nat)
    requires Matching(p.open) && DistinctBonds(bonds) && Path(p.open, bonds, path, a, b)
    requires (forall c :: c in bonds ==> c.1 != a) && DeadEnd(p.open, bonds, b)
    ensures (a, b) in JoinAll(p, bonds).open
  {
    OpenEnds(p, bonds);
    HasEnds(p.open, path[0].0, path[0].1);
    assert a in Creators(p.open) && a !in Sinks(p.open, bonds);
    var q := JoinAll(p, bonds);
    assert a in Creators(q.open);
    var e :| e in q.open && e.0 == a;
    var other := PairsLeftArePaths(p, bonds, e);
    SinkIsDead(p, bonds, e);
    PathIsUnique(p.open, bonds, path, other, a, b, e.1);
    assert e == (a, b);
  }

  // ---- One more contraction ----

  lemma LinksSnoc(u: seq<Bond>, c: Bond, e: Partners, f: Partners)
    ensures Follows(u + [c], e, f) <==> Follows(u, e, f) || c == (e.1, f.0)
  {
  }

  /** The pair left open between the two contracted operators closes to a cycle. */
  lemma OpenPairCloses(p: Paths, u: seq<Bond>, c: Bond) returns (list: seq<Partners>)
    requires Matching(p.open) && DistinctBonds(u + [c]) && DistinctBonds(u) && (c.1, c.0) in JoinAll(p, u).open
    requires forall d :: d in u ==> d.1 != c.1
    ensures CycleList(p.open, u + [c], list) && Path(p.open, u, list, c.1, c.0)
  {
    list := PairsLeftArePaths(p, u, (c.1, c.0));
    PathHasNoDup(p.open, u, list, c.1, c.0);
    forall k | 0 <= k < |list| ensures list[k] in p.open && Follows(u + [c], list[k], list[After(k, |list|)]) {
      PathLink(p.open, u, list, c.1, c.0, k);
      LinksSnoc(u, c, list[k], list[After(k, |list|)]);
    }
  }

  function Rotated(c: seq<Partners>, i: nat): seq<Partners>
    requires i < |c|
  {
    c[i..] + c[..i]
  }

  lemma RotatedCycle(m: set<Partners>, bonds: seq<Bond>, c: seq<Partners>, i: nat)
    requires CycleList(m, bonds, c) && i < |c|
    ensures CycleList(m, bonds, Rotated(c, i)) && Elems(Rotated(c, i)) == Elems(c)
  {
    hide Follows;
    var r := Rotated(c, i);
    assert forall k :: 0 <= k < |r| ==> r[k] == c[Rotation(k, i, |c|)];
    forall k | 0 <= k < |r| ensures Follows(bonds, r[k], r[After(k, |r|)]) {
      var j := Rotation(k, i, |c|);
      assert Rotation(After(k, |r|), i, |c|) == After(j, |c|);
      assert Follows(bonds, c[j], c[After(j, |c|)]);
    }
    forall j | 0 <= j < |c| ensures c[j] in r { assert r[if j >= i then j - i else j + |c| - i] == c[j]; }
    assert forall k :: 0 <= k < |r| ==> r[k] in c;
    RotationOnce(c, i);
  }

  lemma RotationOnce(c: seq<Partners>, i: nat)
    requires NoDup(c) && i < |c|
    ensures NoDup(Rotated(c, i))
  {
    var r := Rotated(c, i);
    assert forall k :: 0 <= k < |r| ==> r[k] == c[Rotation(k, i, |c|)];
  }

  /** A cycle that needs the contraction c is a path between its operators. */
  lemma NewCycleIsOpenPair(p: Paths, u: seq<Bond>, c: Bond, list: seq<Partners>, k: nat)
    requires Matching(p.open) && DistinctBonds(u + [c]) && DistinctBonds(u) && CycleList(p.open, u + [c], list)
    requires forall d :: d in u ==> d.0 != c.0 && d.1 != c.1
    requires k < |list| && c == (list[k].1, list[After(k, |list|)].0)
    ensures (c.1, c.0) in JoinAll(p, u).open
    ensures exists path :: Path(p.open, u, path, c.1, c.0) && Elems(path) == Elems(list)
  {
    var i := After(k, |list|);
    RotatedCycle(p.open, u + [c], list, i);
    var r := Rotated(list, i);
    assert r[0] == list[i] && Last(r) == list[k];
    RotatedIsPath(p.open, u, c, r);
    MaximalPathIsOpen(p, u, r, c.1, c.0);
  }

  lemma RotatedIsPath(m: set<Partners>, u: seq<Bond>, c: Bond, r: seq<Partners>)
    requires Matching(m) && CycleList(m, u + [c], r) && r[0].0 == c.1 && Last(r).1 == c.0
    requires forall d :: d in u ==> d.0 != c.0 && d.1 != c.1
    ensures Path(m, u, r, c.1, c.0) && DeadEnd(m, u, c.0)
  {
    forall k | 0 <= k < |r| - 1 ensures (r[k].1, r[k + 1].0) in u {
      assert Follows(u + [c], r[k], r[After(k, |r|)]);
      LinksSnoc(u, c, r[k], r[k + 1]);
      assert r[k] != Last(r) && r[k] in m && Last(r) in m;
    }
  }

  // ---- Counting ----

  lemma CycleStays(m: set<Partners>, u: seq<Bond>, c: Bond, s: set<Partners>)
    requires IsCycle(m, u, s)
    ensures IsCycle(m, u + [c], s)
  {
    var list: seq<Partners> :| CycleList(m, u, list) && Elems(list) == s;
    forall k | 0 <= k < |list| ensures Follows(u + [c], list[k], list[After(k, |list|)]) {
      LinksSnoc(u, c, list[k], list[After(k, |list|)]);
    }
    assert CycleList(m, u + [c], list);
  }

  /** A cycle is old, or closed by the new contraction. */
  lemma OldOrNew(p: Paths, u: seq<Bond>, c: Bond, s: set<Partners>)
    requires Matching(p.open) && DistinctBonds(u + [c]) && DistinctBonds(u) && IsCycle(p.open, u + [c], s)
    requires forall d :: d in u ==> d.0 != c.0 && d.1 != c.1
    ensures IsCycle(p.open, u, s) || (&& (c.1, c.0) in JoinAll(p, u).open
                                      && exists path :: Path(p.open, u, path, c.1, c.0) && Elems(path) == s)
  {
    var list: seq<Partners> :| CycleList(p.open, u + [c], list) && Elems(list) == s;
    if k :| 0 <= k < |list| && c == (list[k].1, list[After(k, |list|)].0) {
      NewCycleIsOpenPair(p, u, c, list, k);
    } else {
      forall k | 0 <= k < |list| ensures Follows(u, list[k], list[After(k, |list|)]) {
        assert Follows(u + [c], list[k], list[After(k, |list|)]);
        LinksSnoc(u, c, list[k], list[After(k, |list|)]);
      }
      assert CycleList(p.open, u, list);
    }
  }

  /** A pair whose annihilator is not contracted is in no cycle. */
  lemma NotOnCycle(m: set<Partners>, u: seq<Bond>, s: set<Partners>, e: Partners)
    requires IsCycle(m, u, s) && forall d :: d in u ==> d.0 != e.1
    ensures e !in s
  {
    var list: seq<Partners> :| CycleList(m, u, list) && Elems(list) == s;
    forall k | 0 <= k < |list| ensures list[k] != e {
      assert Follows(u, list[k], list[After(k, |list|)]);
    }
  }

  /** A new contraction closes one more cycle exactly if a pair is left open between its operators. */
  lemma CyclesSnoc(p: Paths, u: seq<Bond>, c: Bond)
    requires Matching(p.open) && DistinctBonds(u + [c]) && DistinctBonds(u)
    requires forall d :: d in u ==> d.0 != c.0 && d.1 != c.1
    ensures |Cycles(p.open, u + [c])| == |Cycles(p.open, u)| + (if (c.1, c.0) in JoinAll(p, u).open then 1 else 0)
  {
    hide Matching, DistinctBonds, IsCycle, JoinAll, Path;
    var m := p.open;
    forall s: set<Partners> | IsCycle(m, u, s) ensures IsCycle(m, u + [c], s) { CycleStays(m, u, c, s); }
    if (c.1, c.0) in JoinAll(p, u).open {
      var list := OpenPairCloses(p, u, c);
      var added := Elems(list);
      ListedCycle(m, u + [c], list);
      PathEnd(m, u, list, c.1, c.0);
      if IsCycle(m, u, added) { NotOnCycle(m, u, added, Last(list)); }
      forall s: set<Partners> ensures IsCycle(m, u + [c], s) <==> IsCycle(m, u, s) || s == added {
        if IsCycle(m, u + [c], s) {
          OldOrNew(p, u, c, s);
          if !IsCycle(m, u, s) { SamePath(p, u, c, list, s); }
        }
      }
      assert Cycles(m, u + [c]) == Cycles(m, u) + {added};
    } else {
      forall s: set<Partners> | IsCycle(m, u + [c], s) ensures IsCycle(m, u, s) { OldOrNew(p, u, c, s); }
      assert Cycles(m, u + [c]) == Cycles(m, u);
    }
  }

  lemma ListedCycle(m: set<Partners>, bonds: seq<Bond>, list: seq<Partners>)
    requires CycleList(m, bonds, list)
    ensures IsCycle(m, bonds, Elems(list)) && Elems(list) <= m
  {
  }

  lemma PathEnd(m: set<Partners>, u: seq<Bond>, path: seq<Partners>, a: nat, b: nat)
    requires Path(m, u, path, a, b)
    ensures path != [] && Last(path).1 == b && Last(path) in Elems(path)
  {
  }

  lemma SamePath(p: Paths, u: seq<Bond>, c: Bond, list: seq<Partners>, s: set<Partners>)
    requires Matching(p.open) && DistinctBonds(u) && Path(p.open, u, list, c.1, c.0)
    requires forall d :: d in u ==> d.0 != c.0
    requires exists path :: Path(p.open, u, path, c.1, c.0) && Elems(path) == s
    ensures s == Elems(list)
  {
    hide Path;
    var path: seq<Partners> :| Path(p.open, u, path, c.1, c.0) && Elems(path) == s;
    PathIsUnique(p.open, u, list, path, c.1, c.0, c.0);
  }

  lemma ClosedSnoc(q: Paths, x: nat, y: nat)
    requires Matching(q.open)
    ensures JoinPaths(q, x, y).closed == q.closed + (if (y, x) in q.open then 1 else 0)
  {
    if a, b :| (a, x) in q.open && (y, b) in q.open { JoinCases(q, x, y, a, b); }
  }

  /** The number that is counted is the number of cycles. */
  lemma {:induction false} ClosedCountsCycles(p: Paths, bonds: seq<Bond>)
    requires Matching(p.open) && DistinctBonds(bonds)
    ensures JoinAll(p, bonds).closed == p.closed + |Cycles(p.open, bonds)|
  {
    if bonds == [] {
      NoCycles(p.open);
    } else {
      var u, c := Init(bonds), Last(bonds);
      assert bonds == u + [c];
      FreshEnds(p.open, bonds);
      ClosedCountsCycles(p, u);
      JoinAllKeepsMatching(p, u);
      ClosedSnoc(JoinAll(p, u), c.0, c.1);
      CyclesSnoc(p, u, c);
    }
  }

  lemma NoCycles(m: set<Partners>)
    ensures Cycles(m, []) == {}
  {
    forall c: seq<Partners> ensures !CycleList(m, [], c) {
      if c != [] { assert !Follows([], c[0], c[After(0, |c|)]); }
    }
  }

  /** The number returned with the targets of a term is the number of its cycles. */
  lemma CyclesCounted(input: seq<Partners>, contractions: seq<(Op, Op)>)
    requires DistinctPairs(input) && (forall c :: c in contractions ==> Proper(c)) && DistinctBonds(Bonds(contractions))
    ensures Joined(input, contractions).1 == |Cycles(Elems(input), Bonds(contractions))|
  {
    TargetsArePaths(input, contractions);
    DistinctIsMatching(input);
    ClosedCountsCycles(View(input, 0), Bonds(contractions));
  }
}
