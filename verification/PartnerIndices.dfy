/**
 The target pairing of the uncontracted operators: every contraction joins the
 index pairs of its two operators, which turns the pairs into open paths, whose
 end points stay paired, and closed cycles, which are counted.
 */
module PartnerIndices {
  import opened Sequences
  import opened WickProblem

  /** A creator index and an annihilator index acting on the same particle. */
  type Partners = (nat, nat)

  /** The index of the annihilator of a contraction, if it has one. */
  predicate AnnihilatorIs(l: Op, r: Op, index: nat) {
    (l.action == Annihilate && l.id == index) || (r.action == Annihilate && r.id == index)
  }

  predicate CreatorIs(l: Op, r: Op, index: nat) {
    (l.action == Create && l.id == index) || (r.action == Create && r.id == index)
  }

  /** make_target_partner_indices. */
  method MakeTargetPartnerIndices(input: seq<Partners>, contractions: seq<(Op, Op)>)
      returns (result: seq<Partners>, ncycles: nat)
    ensures (result, ncycles) == Joined(input, contractions)
  {
    result, ncycles := input, 0;
    for c := 0 to |contractions|
      invariant (result, ncycles) == Joined(input, contractions[..c])
    {
      var l, r := contractions[c].0, contractions[c].1;
      assert Init(contractions[..c + 1]) == contractions[..c];
      var a := FindAnnihilator(result, l, r);
      if a < |result| {
        var b := FindCreator(result, l, r);
        if b < |result| {
          if a == b {
            result := result[..b] + result[b + 1..];
            ncycles := ncycles + 1;
          } else if b > a {
            result := result[a := (result[a].0, result[b].1)];
            result := result[..b] + result[b + 1..];
          } else {
            result := result[b := (result[a].0, result[b].1)];
            result := result[..a] + result[a + 1..];
          }
        }
      }
    }
    assert contractions[..|contractions|] == contractions;
  }

  function FindAnnihilator(pairs: seq<Partners>, l: Op, r: Op): (k: nat)
    ensures k <= |pairs| && (k < |pairs| ==> AnnihilatorIs(l, r, pairs[k].1))
    ensures forall i :: 0 <= i < k ==> !AnnihilatorIs(l, r, pairs[i].1)
  {
    if pairs == [] || AnnihilatorIs(l, r, pairs[0].1) then 0 else 1 + FindAnnihilator(pairs[1..], l, r)
  }

  function FindCreator(pairs: seq<Partners>, l: Op, r: Op): (k: nat)
    ensures k <= |pairs| && (k < |pairs| ==> CreatorIs(l, r, pairs[k].0))
    ensures forall i :: 0 <= i < k ==> !CreatorIs(l, r, pairs[i].0)
  {
    if pairs == [] || CreatorIs(l, r, pairs[0].0) then 0 else 1 + FindCreator(pairs[1..], l, r)
  }

  /** The pairs and the number of cycles after one more contraction. */
  function Join(pairs: seq<Partners>, ncycles: nat, l: Op, r: Op): (seq<Partners>, nat) {
    var a, b := FindAnnihilator(pairs, l, r), FindCreator(pairs, l, r);
    if a == |pairs| || b == |pairs| then (pairs, ncycles)
    else if a == b then (Erase(pairs, a), ncycles + 1)
    else if b > a then (Erase(pairs[a := (pairs[a].0, pairs[b].1)], b), ncycles)
    else (Erase(pairs[b := (pairs[a].0, pairs[b].1)], a), ncycles)
  }

  function Joined(input: seq<Partners>, contractions: seq<(Op, Op)>): (seq<Partners>, nat) {
    if contractions == [] then (input, 0)
    else
      var (pairs, n) := Joined(input, Init(contractions));
      Join(pairs, n, Last(contractions).0, Last(contractions).1)
  }

  // ---- What the pairs mean, independent of their order ----

  /** No index is in two pairs on the same side. */
  ghost predicate Matching(m: set<Partners>) {
    forall p, q :: p in m && q in m && (p.0 == q.0 || p.1 == q.1) ==> p == q
  }

  ghost predicate DistinctPairs(s: seq<Partners>) {
    forall i, j :: 0 <= i < j < |s| ==> s[i].0 != s[j].0 && s[i].1 != s[j].1
  }

  function AnnihilatorOf(c: (Op, Op)): nat {
    if c.0.action == Annihilate then c.0.id else c.1.id
  }

  function CreatorOf(c: (Op, Op)): nat {
    if c.0.action == Create then c.0.id else c.1.id
  }

  /** One annihilator and one creator. */
  predicate Proper(c: (Op, Op)) {
    c.0.action != c.1.action
  }

  /** The pairs as a set, and the number of cycles. */
  datatype Paths = Paths(open: set<Partners>, closed: nat)

  ghost function JoinPaths(p: Paths, x: nat, y: nat): Paths {
    if exists a, b :: (a, x) in p.open && (y, b) in p.open then
      var a, b :| (a, x) in p.open && (y, b) in p.open;
      if (a, x) == (y, b) then Paths(p.open - {(y, x)}, p.closed + 1)
      else Paths(p.open - {(a, x), (y, b)} + {(a, b)}, p.closed)
    else p
  }

  ghost function View(s: seq<Partners>, n: nat): Paths {
    Paths(Elems(s), n)
  }

  /** The join found in the list is the join of the set. */
  lemma JoinIsJoinPaths(s: seq<Partners>, n: nat, c: (Op, Op))
    requires DistinctPairs(s) && Proper(c)
    ensures var (t, m) := Join(s, n, c.0, c.1);
            DistinctPairs(t) && View(t, m) == JoinPaths(View(s, n), AnnihilatorOf(c), CreatorOf(c))
  {
    var i, j := FindAnnihilator(s, c.0, c.1), FindCreator(s, c.0, c.1);
    hide FindAnnihilator, FindCreator, DistinctPairs, JoinPaths;
    if i < |s| && j < |s| {
      JoinFound(s, n, c, i, j, Join(s, n, c.0, c.1).0);
    } else {
      JoinMissing(s, n, c);
    }
  }

  lemma JoinFound(s: seq<Partners>, n: nat, c: (Op, Op), i: nat, j: nat, t: seq<Partners>)
    requires DistinctPairs(s) && i < |s| && j < |s| && s[i].1 == AnnihilatorOf(c) && s[j].0 == CreatorOf(c)
    requires t == if i == j then Erase(s, i)
                  else if j > i then Erase(s[i := (s[i].0, s[j].1)], j)
                  else Erase(s[j := (s[i].0, s[j].1)], i)
    ensures DistinctPairs(t)
    ensures View(t, if i == j then n + 1 else n) == JoinPaths(View(s, n), AnnihilatorOf(c), CreatorOf(c))
  {
    var x, y := AnnihilatorOf(c), CreatorOf(c);
    JoinLists(s, i, j, t);
    DistinctIsMatching(s);
    assert s[i] in s && s[j] in s;
    assert i == j <==> s[i].0 == y && s[j].1 == x;
    hide DistinctPairs, Matching, JoinPaths;
    JoinCases(View(s, n), x, y, s[i].0, s[j].1);
  }

  lemma JoinMissing(s: seq<Partners>, n: nat, c: (Op, Op))
    requires Proper(c) && (FindAnnihilator(s, c.0, c.1) == |s| || FindCreator(s, c.0, c.1) == |s|)
    ensures JoinPaths(View(s, n), AnnihilatorOf(c), CreatorOf(c)) == View(s, n)
  {
    hide FindAnnihilator, FindCreator;
    var x, y := AnnihilatorOf(c), CreatorOf(c);
    forall a, b ensures !((a, x) in s && (y, b) in s) {
      if (a, x) in s { var k :| 0 <= k < |s| && s[k] == (a, x); }
      if (y, b) in s { var k :| 0 <= k < |s| && s[k] == (y, b); }
    }
  }

  lemma JoinLists(s: seq<Partners>, i: nat, j: nat, t: seq<Partners>)
    requires DistinctPairs(s) && i < |s| && j < |s|
    requires t == if i == j then Erase(s, i)
                  else if j > i then Erase(s[i := (s[i].0, s[j].1)], j)
                  else Erase(s[j := (s[i].0, s[j].1)], i)
    ensures DistinctPairs(t)
    ensures Elems(t) == if i == j then Elems(s) - {s[i]}
                        else Elems(s) - {s[i], s[j]} + {(s[i].0, s[j].1)}
  {
    if i == j {
      EraseElems(s, i);
      EraseDistinct(s, i);
    } else {
      var keep, drop, joined := if j > i then i else j, if j > i then j else i, (s[i].0, s[j].1);
      MergeElems(s, keep, drop, joined);
      MergeDistinct(s, keep, drop, joined);
    }
  }

  lemma EraseElems(s: seq<Partners>, k: nat)
    requires DistinctPairs(s) && k < |s|
    ensures Elems(Erase(s, k)) == Elems(s) - {s[k]}
  {
    var t := Erase(s, k);
    forall l | 0 <= l < |t| ensures t[l] in Elems(s) - {s[k]} { assert t[l] == s[if l < k then l else l + 1]; }
    forall l | 0 <= l < |s| && l != k ensures s[l] in t { assert t[if l < k then l else l - 1] == s[l]; }
  }

  lemma EraseDistinct(s: seq<Partners>, k: nat)
    requires DistinctPairs(s) && k < |s|
    ensures DistinctPairs(Erase(s, k))
  {
    var t := Erase(s, k);
    assert forall l :: 0 <= l < |t| ==> t[l] == s[if l < k then l else l + 1];
  }

  /** A list in which position keep takes the joined pair and position drop is erased. */
  lemma MergeElems(s: seq<Partners>, keep: nat, drop: nat, joined: Partners)
    requires DistinctPairs(s) && keep < drop < |s|
    ensures Elems(Erase(s[keep := joined], drop)) == Elems(s) - {s[keep], s[drop]} + {joined}
  {
    var u := s[keep := joined];
    var t := Erase(u, drop);
    forall l | 0 <= l < |t| ensures t[l] in Elems(s) - {s[keep], s[drop]} + {joined} {
      assert t[l] == u[if l < drop then l else l + 1];
    }
    forall l | 0 <= l < |s| && l != keep && l != drop ensures s[l] in t {
      assert t[if l < drop then l else l - 1] == s[l];
    }
    assert t[keep] == joined;
  }

  lemma MergeDistinct(s: seq<Partners>, keep: nat, drop: nat, joined: Partners)
    requires DistinctPairs(s) && keep < drop < |s|
    requires joined == (s[keep].0, s[drop].1) || joined == (s[drop].0, s[keep].1)
    ensures DistinctPairs(Erase(s[keep := joined], drop))
  {
    var u := s[keep := joined];
    var t := Erase(u, drop);
    assert forall l :: 0 <= l < |t| ==> t[l] == u[if l < drop then l else l + 1];
  }

  // ---- The order of the contractions does not matter ----

  lemma JoinCases(p: Paths, x: nat, y: nat, a: nat, b: nat)
    requires Matching(p.open) && (a, x) in p.open && (y, b) in p.open
    ensures JoinPaths(p, x, y) == if a == y && b == x then Paths(p.open - {(y, x)}, p.closed + 1)
                                  else Paths(p.open - {(a, x), (y, b)} + {(a, b)}, p.closed)
  {
  }

  lemma JoinKeepsMatching(p: Paths, x: nat, y: nat)
    requires Matching(p.open)
    ensures Matching(JoinPaths(p, x, y).open)
  {
  }

  /** A contraction of an operator without partner, or of one already contracted, changes nothing. */
  lemma NothingToJoin(p: Paths, x: nat, y: nat)
    requires x !in Annihilators(p.open) || y !in Creators(p.open)
    ensures JoinPaths(p, x, y) == p
  {
    EndsOf(p.open, x, y);
  }

  lemma EndsOf(m: set<Partners>, x: nat, y: nat)
    ensures x in Annihilators(m) || forall a :: (a, x) !in m
    ensures y in Creators(m) || forall b :: (y, b) !in m
  {
    forall a | (a, x) in m ensures x in Annihilators(m) { assert (a, x).1 in Annihilators(m); }
    forall b | (y, b) in m ensures y in Creators(m) { assert (y, b).0 in Creators(m); }
  }

  lemma JoinAddsNoEnds(p: Paths, x: nat, y: nat)
    requires Matching(p.open)
    ensures Annihilators(JoinPaths(p, x, y).open) <= Annihilators(p.open) && Creators(JoinPaths(p, x, y).open) <= Creators(p.open)
  {
    hide Annihilators, Creators, JoinPaths;
    if x in Annihilators(p.open) && y in Creators(p.open) {
      JoinConsumes(p, x, y);
    } else {
      NothingToJoin(p, x, y);
    }
  }

  lemma SharedEnds(m: set<Partners>, a: nat, x: nat, y: nat, b: nat)
    requires Matching(m) && (a, x) in m && (y, b) in m
    ensures a == y <==> b == x
  {
    assert (a, x).0 == a && (y, b).1 == b;
  }

  /** One contraction after another, given the pairs the second one finds. */
  lemma JoinTwice(p: Paths, x: nat, y: nat, x': nat, y': nat, a: nat, b: nat, c: nat, d: nat)
    requires Matching(p.open) && (a, x) in p.open && (y, b) in p.open
    requires var q := if a == y && b == x then p.open - {(y, x)} else p.open - {(a, x), (y, b)} + {(a, b)}; (c, x') in q && (y', d) in q
    ensures var q := if a == y && b == x then p.open - {(y, x)} else p.open - {(a, x), (y, b)} + {(a, b)};
            var n := if a == y && b == x then p.closed + 1 else p.closed;
            JoinPaths(JoinPaths(p, x, y), x', y') ==
            if c == y' && d == x' then Paths(q - {(y', x')}, n + 1) else Paths(q - {(c, x'), (y', d)} + {(c, d)}, n)
  {
    JoinKeepsMatching(p, x, y);
    JoinCases(p, x, y, a, b);
    hide JoinPaths, Matching;
    JoinCases(JoinPaths(p, x, y), x', y', c, d);
  }

  /** Contractions of different operators that all have partners commute. */
  lemma JoinsCommuteOpen(p: Paths, x: nat, y: nat, x': nat, y': nat, a: nat, b: nat, a': nat, b': nat)
    requires Matching(p.open) && x != x' && y != y'
    requires (a, x) in p.open && (y, b) in p.open && (a', x') in p.open && (y', b') in p.open
    ensures JoinPaths(JoinPaths(p, x, y), x', y') == JoinPaths(JoinPaths(p, x', y'), x, y)
  {
    hide JoinPaths, Matching;
    SharedEnds(p.open, a, x, y, b);
    SharedEnds(p.open, a', x', y', b');
    SharedEnds(p.open, a, x, y', b');
    SharedEnds(p.open, a', x', y, b);
    SharedEnds(p.open, a, x, a', x');
    SharedEnds(p.open, y, b, y', b');
    var c, d := if a' == y then a else a', if b' == x then b else b';
    var c', d' := if a == y' then a' else a, if b == x' then b' else b;
    JoinTwice(p, x, y, x', y', a, b, c, d);
    JoinTwice(p, x', y', x, y, a', b', c', d');
    OnlyPartner(p.open, a, x, b);
    OnlyPartner(p.open, a', x', b');
  }

  lemma OnlyPartner(m: set<Partners>, a: nat, x: nat, z: nat)
    requires Matching(m) && (a, x) in m
    ensures (a, z) in m <==> z == x
  {
    assert (a, x).0 == (a, z).0;
  }

  /** Two contractions of different operators commute. */
  lemma JoinsCommute(p: Paths, x: nat, y: nat, x': nat, y': nat)
    requires Matching(p.open) && x != x' && y != y'
    ensures JoinPaths(JoinPaths(p, x, y), x', y') == JoinPaths(JoinPaths(p, x', y'), x, y)
  {
    JoinAddsNoEnds(p, x, y);
    JoinAddsNoEnds(p, x', y');
    if x !in Annihilators(p.open) || y !in Creators(p.open) {
      NothingToJoin(p, x, y);
      NothingToJoin(JoinPaths(p, x', y'), x, y);
    } else if x' !in Annihilators(p.open) || y' !in Creators(p.open) {
      NothingToJoin(p, x', y');
      NothingToJoin(JoinPaths(p, x, y), x', y');
    } else {
      var e :| e in p.open && e.1 == x;
      var f :| f in p.open && f.0 == y;
      var e' :| e' in p.open && e'.1 == x';
      var f' :| f' in p.open && f'.0 == y';
      hide JoinPaths, Matching;
      JoinsCommuteOpen(p, x, y, x', y', e.0, f.1, e'.0, f'.1);
    }
  }

  /** A contraction by its annihilator and creator indices. */
  type Bond = (nat, nat)

  ghost function JoinAll(p: Paths, bonds: seq<Bond>): Paths {
    if bonds == [] then p else JoinPaths(JoinAll(p, Init(bonds)), Last(bonds).0, Last(bonds).1)
  }

  ghost predicate DistinctBonds(bonds: seq<Bond>) {
    forall i, j :: 0 <= i < j < |bonds| ==> bonds[i].0 != bonds[j].0 && bonds[i].1 != bonds[j].1
  }

  lemma {:induction false} JoinAllKeepsMatching(p: Paths, bonds: seq<Bond>)
    requires Matching(p.open)
    ensures Matching(JoinAll(p, bonds).open)
  {
    if bonds != [] {
      JoinAllKeepsMatching(p, Init(bonds));
      JoinKeepsMatching(JoinAll(p, Init(bonds)), Last(bonds).0, Last(bonds).1);
    }
  }

  /** A contraction may be made last. */
  lemma {:induction false} JoinLater(p: Paths, bonds: seq<Bond>, k: nat)
    requires Matching(p.open) && DistinctBonds(bonds) && k < |bonds|
    ensures JoinAll(p, bonds) == JoinPaths(JoinAll(p, Erase(bonds, k)), bonds[k].0, bonds[k].1)
    decreases |bonds|
  {
    var c, d := bonds[k], Last(bonds);
    if k == |bonds| - 1 {
      assert Erase(bonds, k) == Init(bonds);
    } else {
      var u := Init(bonds);
      assert Erase(bonds, k) == Erase(u, k) + [d];
      assert Init(Erase(u, k) + [d]) == Erase(u, k);
      JoinLater(p, u, k);
      var q := JoinAll(p, Erase(u, k));
      JoinAllKeepsMatching(p, Erase(u, k));
      JoinsCommute(q, c.0, c.1, d.0, d.1);
    }
  }

  /** The end points of the paths and the number of cycles do not depend on the order of the contractions. */
  lemma {:induction false} OrderFree(p: Paths, bonds: seq<Bond>, other: seq<Bond>)
    requires Matching(p.open) && DistinctBonds(bonds) && DistinctBonds(other) && Elems(bonds) == Elems(other)
    ensures JoinAll(p, bonds) == JoinAll(p, other)
    decreases |other|
  {
    assert bonds == [] || bonds[0] in Elems(bonds);
    assert other == [] || other[0] in Elems(other);
    if other != [] {
      var c := Last(other);
      assert c in Elems(bonds);
      var k :| 0 <= k < |bonds| && bonds[k] == c;
      JoinLater(p, bonds, k);
      var u := Erase(bonds, k);
      EraseDistinctBond(bonds, k);
      EraseDistinctBond(other, |other| - 1);
      assert Erase(other, |other| - 1) == Init(other);
      OrderFree(p, u, Init(other));
    }
  }

  lemma EraseDistinctBond(bonds: seq<Bond>, k: nat)
    requires DistinctBonds(bonds) && k < |bonds|
    ensures DistinctBonds(Erase(bonds, k)) && Elems(Erase(bonds, k)) == Elems(bonds) - {bonds[k]}
  {
    EraseElems(bonds, k);
    EraseDistinct(bonds, k);
  }

  // ---- What is left ----

  ghost function Creators(m: set<Partners>): set<nat> {
    set p | p in m :: p.0
  }

  ghost function Annihilators(m: set<Partners>): set<nat> {
    set p | p in m :: p.1
  }

  lemma JoinConsumes(p: Paths, x: nat, y: nat)
    requires Matching(p.open) && x in Annihilators(p.open) && y in Creators(p.open)
    ensures var q := JoinPaths(p, x, y);
            && Annihilators(q.open) == Annihilators(p.open) - {x}
            && Creators(q.open) == Creators(p.open) - {y}
            && |q.open| == |p.open| - 1
  {
    hide JoinPaths, Matching;
    var e :| e in p.open && e.1 == x;
    var f :| f in p.open && f.0 == y;
    JoinAround(p, x, y, e, f);
  }

  lemma JoinAround(p: Paths, x: nat, y: nat, e: Partners, f: Partners)
    requires Matching(p.open) && e in p.open && f in p.open && e.1 == x && f.0 == y
    ensures var q := JoinPaths(p, x, y);
            && Annihilators(q.open) == Annihilators(p.open) - {x}
            && Creators(q.open) == Creators(p.open) - {y}
            && |q.open| == |p.open| - 1
  {
    hide JoinPaths, Annihilators, Creators, Matching;
    JoinOpen(p, x, y, e, f);
    assert p.open - {e, f} + {e, f} == p.open;
    Sides(p.open - {e, f}, e, f);
  }

  lemma JoinOpen(p: Paths, x: nat, y: nat, e: Partners, f: Partners)
    requires Matching(p.open) && e in p.open && f in p.open && e.1 == x && f.0 == y
    ensures var rest := p.open - {e, f};
            && JoinPaths(p, x, y).open == (if e == f then rest else rest + {(e.0, f.1)})
            && |JoinPaths(p, x, y).open| == |p.open| - 1
  {
    JoinCases(p, x, y, e.0, f.1);
    hide JoinPaths;
    var rest := p.open - {e, f};
    if e == f {
      assert p.open == rest + {e};
    } else {
      assert p.open == rest + {e} + {f};
      assert (e.0, f.1) !in rest;
    }
  }

  /** The creator and annihilator indices of a matching around two of its pairs. */
  lemma Sides(rest: set<Partners>, e: Partners, f: Partners)
    requires Matching(rest + {e, f}) && e !in rest && f !in rest
    ensures Annihilators(rest + {e, f}) - {e.1} == Annihilators(if e == f then rest else rest + {(e.0, f.1)})
    ensures Creators(rest + {e, f}) - {f.0} == Creators(if e == f then rest else rest + {(e.0, f.1)})
  {
    SideOf(rest, e);
    SideOf(rest + {e}, f);
    SideOf(rest, (e.0, f.1));
    assert rest + {e} + {f} == rest + {e, f};
    assert e == f ==> rest + {e, f} == rest + {e};
    forall g | g in rest ensures g.1 != e.1 && g.0 != f.0 && g.1 != f.1 && g.0 != e.0 {}
  }

  lemma SideOf(m: set<Partners>, e: Partners)
    ensures Annihilators(m + {e}) == Annihilators(m) + {e.1} && Creators(m + {e}) == Creators(m) + {e.0}
  {
    forall g | g in m ensures g.1 in Annihilators(m + {e}) && g.0 in Creators(m + {e}) { assert g in m + {e}; }
    assert e in m + {e};
  }

  /**
   If every contracted operator has a partner, the pairs left are as many as
   the pairs given less the contractions, and they pair up exactly the
   uncontracted operators.
   */
  lemma {:induction false} PairsLeft(p: Paths, bonds: seq<Bond>)
    requires Matching(p.open) && DistinctBonds(bonds)
    requires forall c :: c in bonds ==> c.0 in Annihilators(p.open) && c.1 in Creators(p.open)
    ensures var q := JoinAll(p, bonds);
            && |q.open| + |bonds| == |p.open|
            && Annihilators(q.open) == Annihilators(p.open) - (set c | c in bonds :: c.0)
            && Creators(q.open) == Creators(p.open) - (set c | c in bonds :: c.1)
  {
    if bonds != [] {
      var u, c := Init(bonds), Last(bonds);
      assert bonds == u + [c];
      PairsLeft(p, u);
      JoinAllKeepsMatching(p, u);
      assert c in bonds;
      JoinConsumes(JoinAll(p, u), c.0, c.1);
    }
  }

  /** Starting at creator index a, each pair's annihilator is contracted with the next pair's creator, ending at b. */
  ghost predicate Path(input: set<Partners>, bonds: seq<Bond>, path: seq<Partners>, a: nat, b: nat) {
    && path != [] && path[0].0 == a && Last(path).1 == b
    && (forall k :: 0 <= k < |path| ==> path[k] in input)
    && (forall k :: 0 <= k < |path| - 1 ==> (path[k].1, path[k + 1].0) in bonds)
  }

  lemma PathInMore(input: set<Partners>, u: seq<Bond>, bonds: seq<Bond>, path: seq<Partners>, a: nat, b: nat)
    requires Path(input, u, path, a, b) && forall d :: d in u ==> d in bonds
    ensures Path(input, bonds, path, a, b)
  {
  }

  lemma PathsJoin(input: set<Partners>, bonds: seq<Bond>, first: seq<Partners>, second: seq<Partners>, a: nat, x: nat, y: nat, b: nat)
    requires Path(input, bonds, first, a, x) && Path(input, bonds, second, y, b) && (x, y) in bonds
    ensures Path(input, bonds, first + second, a, b)
  {
  }

  /** Every pair left joins the two ends of a path of input pairs and contractions. */
  lemma {:induction false} PairsLeftArePaths(p: Paths, bonds: seq<Bond>, e: Partners) returns (path: seq<Partners>)
    requires Matching(p.open) && e in JoinAll(p, bonds).open
    ensures Path(p.open, bonds, path, e.0, e.1)
  {
    hide Path, Matching;
    if bonds == [] {
      path := [e];
      OnePair(p.open, e);
    } else {
      var u, c := Init(bonds), Last(bonds);
      assert bonds == u + [c] && forall d :: d in u ==> d in bonds;
      var q := JoinAll(p, u);
      if e in q.open {
        path := PairsLeftArePaths(p, u, e);
        PathInMore(p.open, u, bonds, path, e.0, e.1);
      } else {
        JoinAllKeepsMatching(p, u);
        var a, b := JoinedOf(q, c.0, c.1, e);
        var first := PairsLeftArePaths(p, u, (a, c.0));
        var second := PairsLeftArePaths(p, u, (c.1, b));
        PathInMore(p.open, u, bonds, first, a, c.0);
        PathInMore(p.open, u, bonds, second, c.1, b);
        PathsJoin(p.open, bonds, first, second, a, c.0, c.1, b);
        path := first + second;
      }
    }
  }

  lemma OnePair(input: set<Partners>, e: Partners)
    requires e in input
    ensures Path(input, [], [e], e.0, e.1)
  {
  }

  /** A pair that a contraction has made. */
  lemma JoinedOf(q: Paths, x: nat, y: nat, e: Partners) returns (a: nat, b: nat)
    requires Matching(q.open) && e in JoinPaths(q, x, y).open && e !in q.open
    ensures (a, x) in q.open && (y, b) in q.open && e == (a, b)
  {
    a, b :| (a, x) in q.open && (y, b) in q.open;
    JoinCases(q, x, y, a, b);
  }

  /** The list computed for a term, as paths. */
  lemma {:induction false} TargetsArePaths(input: seq<Partners>, contractions: seq<(Op, Op)>)
    requires DistinctPairs(input) && forall c :: c in contractions ==> Proper(c)
    ensures var (targets, ncycles) := Joined(input, contractions);
            DistinctPairs(targets) && View(targets, ncycles) == JoinAll(View(input, 0), Bonds(contractions))
  {
    if contractions != [] {
      var u, c := Init(contractions), Last(contractions);
      assert contractions == u + [c] && c in contractions;
      TargetsArePaths(input, u);
      var (t, n) := Joined(input, u);
      JoinIsJoinPaths(t, n, c);
      assert Init(Bonds(contractions)) == Bonds(u);
    }
  }

  function Bonds(contractions: seq<(Op, Op)>): (bonds: seq<Bond>)
    ensures |bonds| == |contractions|
  {
    seq(|contractions|, k requires 0 <= k < |contractions| => (AnnihilatorOf(contractions[k]), CreatorOf(contractions[k])))
  }

  /** The cycle count of a term is the same for any order of its contractions. */
  lemma CyclesOrderFree(input: seq<Partners>, c: seq<(Op, Op)>, d: seq<(Op, Op)>)
    requires DistinctPairs(input) && (forall b :: b in c ==> Proper(b)) && (forall b :: b in d ==> Proper(b))
    requires DistinctBonds(Bonds(c)) && DistinctBonds(Bonds(d)) && Elems(Bonds(c)) == Elems(Bonds(d))
    ensures Joined(input, c).1 == Joined(input, d).1 && Elems(Joined(input, c).0) == Elems(Joined(input, d).0)
  {
    TargetsArePaths(input, c);
    TargetsArePaths(input, d);
    DistinctIsMatching(input);
    OrderFree(View(input, 0), Bonds(c), Bonds(d));
  }

  lemma DistinctIsMatching(s: seq<Partners>)
    requires DistinctPairs(s)
    ensures Matching(Elems(s))
  {
    forall p, q | p in Elems(s) && q in Elems(s) && (p.0 == q.0 || p.1 == q.1) ensures p == q {
      var i :| 0 <= i < |s| && s[i] == p;
      var j :| 0 <= j < |s| && s[j] == q;
      assert i < j || j < i || i == j;
    }
  }
}
