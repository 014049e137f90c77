/**
 Full binary trees of nodes that own their children, point back at their parents and cache their sizes.
 What is kept is local: every node of a forest agrees with its neighbours. Everything else follows from it.
 The state of a set of nodes is a map from the nodes to the values of their fields.
 */
module BinaryNodes {

  /** The value of a tree: what is at its nodes and how they hang together. */
  datatype Tree<T> = Tip(data: T) | Fork(data: T, left: Tree<T>, right: Tree<T>)

  datatype Fields<T> = Fields(data: T, left: Node?<T>, right: Node?<T>, parent: Node?<T>, size: nat)

  type State<T> = map<Node<T>, Fields<T>>

  class Node<T> {
    var data: T
    var left: Node?<T>
    var right: Node?<T>
    var parent: Node?<T>
    var size: nat

    constructor (data: T)
      ensures Now() == Fields(data, null, null, null, 1)
    {
      this.data, left, right, parent, size := data, null, null, null, 1;
    }

    /** An inner node takes over two roots. */
    constructor Inner(data: T, l: Node<T>, r: Node<T>)
      requires l != r
      modifies l`parent, r`parent
      ensures Now() == Fields(data, l, r, null, 1 + l.size + r.size)
      ensures l.parent == this && r.parent == this
    {
      this.data, left, right, parent, size := data, l, r, null, 1 + l.size + r.size;
      new;
      l.parent := this;
      r.parent := this;
    }

    ghost function Now(): Fields<T>
      reads this
    {
      Fields(data, left, right, parent, size)
    }
  }

  ghost function Snap<T>(s: set<Node<T>>): State<T>
    reads s
  {
    map n | n in s :: n.Now()
  }

  // ---- The local invariant ----

  /** n and its neighbours are in the forest and point at each other. */
  ghost predicate Linked<T>(f: State<T>, n: Node<T>)
    requires n in f
  {
    var l, r, p := f[n].left, f[n].right, f[n].parent;
    && (l == null <==> r == null)
    && (l != null && r != null ==> l in f && r in f && l != r && f[l].parent == n && f[r].parent == n)
    && (p != null ==> p in f && (f[p].left == n || f[p].right == n))
  }

  /** The cached size of n follows from those of its children. */
  ghost predicate Sized<T>(f: State<T>, n: Node<T>)
    requires n in f
  {
    var l, r := f[n].left, f[n].right;
    f[n].size == if l in f && r in f then 1 + f[l].size + f[r].size else 1
  }

  ghost predicate Forest<T>(f: State<T>) {
    forall n :: n in f ==> Linked(f, n) && Sized(f, n)
  }

  // ---- Descendants and values ----

  ghost function Below<T>(f: State<T>, n: Node<T>): set<Node<T>>
    requires Forest(f) && n in f
    decreases f[n].size
  {
    assert Linked(f, n) && Sized(f, n);
    var l, r := f[n].left, f[n].right;
    if l == null then {} else {l, r} + Below(f, l) + Below(f, r)
  }

  ghost function Value<T>(f: State<T>, n: Node<T>): Tree<T>
    requires Forest(f) && n in f
    decreases f[n].size
  {
    assert Linked(f, n) && Sized(f, n);
    var l, r := f[n].left, f[n].right;
    if l == null then Tip(f[n].data) else Fork(f[n].data, Value(f, l), Value(f, r))
  }

  /** d is closed under children, and under parents up to n. */
  ghost predicate IsSubtree<T>(f: State<T>, n: Node<T>, d: set<Node<T>>)
    requires n in f
  {
    && n !in d && d <= f.Keys && (f[n].left != null ==> f[n].left in d) && (f[n].right != null ==> f[n].right in d)
    && forall m :: m in d ==>
         && f[m].size < f[n].size && f[m].parent != null && (f[m].parent == n || f[m].parent in d)
         && (f[m].left != null ==> f[m].left in d) && (f[m].right != null ==> f[m].right in d)
  }

  lemma {:induction false} BelowSmaller<T>(f: State<T>, n: Node<T>, m: Node<T>)
    requires Forest(f) && n in f && m in Below(f, n)
    ensures m in f && f[m].size < f[n].size
    ensures f[m].parent != null && (f[m].parent == n || f[m].parent in Below(f, n))
    ensures f[m].left != null ==> f[m].left in Below(f, n) && f[m].right in Below(f, n)
    decreases f[n].size
  {
    assert Linked(f, n) && Sized(f, n);
    var l, r := f[n].left, f[n].right;
    if m == l || m == r {
      assert Linked(f, m);
      if f[m].left != null { assert f[m].left in Below(f, m) && f[m].right in Below(f, m); }
    } else if m in Below(f, l) {
      BelowSmaller(f, l, m);
    } else {
      BelowSmaller(f, r, m);
    }
  }

  lemma BelowIsSubtree<T>(f: State<T>, n: Node<T>)
    requires Forest(f) && n in f
    ensures IsSubtree(f, n, Below(f, n))
  {
    if n in Below(f, n) { BelowSmaller(f, n, n); }
    assert Linked(f, n);
    forall m | m in Below(f, n)
      ensures m in f && f[m].size < f[n].size && f[m].parent != null && (f[m].parent == n || f[m].parent in Below(f, n))
      ensures (f[m].left != null ==> f[m].left in Below(f, n)) && (f[m].right != null ==> f[m].right in Below(f, n))
    {
      BelowSmaller(f, n, m);
      assert Linked(f, m);
    }
  }

  /** Local closure determines the descendants. */
  lemma {:induction false} SubtreeIsBelow<T>(f: State<T>, n: Node<T>, d: set<Node<T>>)
    requires Forest(f) && n in f && IsSubtree(f, n, d)
    ensures d == Below(f, n)
  {
    forall m | m in Below(f, n) ensures m in d { BelowInSubtree(f, n, n, d, m); }
    forall m | m in d ensures m in Below(f, n) { SubtreeInBelow(f, n, d, m); }
  }

  lemma {:induction false} BelowInSubtree<T>(f: State<T>, n: Node<T>, c: Node<T>, d: set<Node<T>>, m: Node<T>)
    requires Forest(f) && n in f && c in f && IsSubtree(f, n, d) && (c == n || c in d) && m in Below(f, c)
    ensures m in d
    decreases f[c].size
  {
    assert Linked(f, c) && Sized(f, c);
    var l, r := f[c].left, f[c].right;
    if m in Below(f, l) {
      BelowInSubtree(f, n, l, d, m);
    } else if m in Below(f, r) {
      BelowInSubtree(f, n, r, d, m);
    }
  }

  lemma {:induction false} SubtreeInBelow<T>(f: State<T>, n: Node<T>, d: set<Node<T>>, m: Node<T>)
    requires Forest(f) && n in f && IsSubtree(f, n, d) && m in d
    ensures m in Below(f, n)
    decreases f[n].size - f[m].size
  {
    assert Linked(f, m);
    var p := f[m].parent;
    assert Linked(f, p) && Sized(f, p);
    if p != n {
      SubtreeInBelow(f, n, d, p);
      BelowSmaller(f, n, p);
    }
  }

  ghost predicate Within<T>(f: State<T>, n: Node<T>, m: Node<T>)
    requires Forest(f) && n in f
  {
    m == n || m in Below(f, n)
  }

  lemma WithinParent<T>(f: State<T>, n: Node<T>, m: Node<T>)
    requires Forest(f) && n in f && Within(f, n, m)
    ensures m in f && f[m].size <= f[n].size
    ensures m != n ==> f[m].parent != null && f[m].parent in f && Within(f, n, f[m].parent) && f[m].size < f[f[m].parent].size
  {
    hide Below;
    if m != n {
      BelowSmaller(f, n, m);
      assert Linked(f, m);
      assert Linked(f, f[m].parent) && Sized(f, f[m].parent);
    }
  }

  /** The subtrees of the two children have no node in common. */
  lemma {:induction false} Disjoint<T>(f: State<T>, n: Node<T>, l: Node<T>, r: Node<T>, m: Node<T>)
    requires Forest(f) && n in f && l in f && r in f && l != r && f[l].parent == n && f[r].parent == n
    requires f[l].size < f[n].size && f[r].size < f[n].size && Within(f, l, m)
    ensures !Within(f, r, m)
    decreases if m in f then f[n].size - f[m].size else 0
  {
    hide Forest, Below, Within;
    if Within(f, r, m) {
      WithinParent(f, l, m);
      WithinParent(f, r, m);
      if m == l || m == r {
        WithinParent(f, if m == l then r else l, n);
      } else {
        Disjoint(f, n, l, r, f[m].parent);
      }
    }
  }

  lemma Children<T>(f: State<T>, n: Node<T>)
    requires Forest(f) && n in f && f[n].left != null
    ensures f[n].left in f && f[n].right in f && f[n].left != f[n].right
    ensures f[f[n].left].parent == n && f[f[n].right].parent == n
    ensures f[n].size == 1 + f[f[n].left].size + f[f[n].right].size
    ensures Below(f, n) == {f[n].left, f[n].right} + Below(f, f[n].left) + Below(f, f[n].right)
  {
    assert Linked(f, n) && Sized(f, n);
  }

  lemma NotBelowItself<T>(f: State<T>, n: Node<T>)
    requires Forest(f) && n in f
    ensures n !in Below(f, n) && f[n].size > 0
  {
    hide Below;
    assert Linked(f, n) && Sized(f, n);
    if n in Below(f, n) { BelowSmaller(f, n, n); }
  }

  /** The descendants of n are its children and theirs, each on one side only. */
  lemma Split<T>(f: State<T>, n: Node<T>)
    requires Forest(f) && n in f && f[n].left != null
    ensures f[n].left in f && f[n].right in f && f[n].size == 1 + f[f[n].left].size + f[f[n].right].size
    ensures f[n].left !in Below(f, f[n].left) && f[n].right !in Below(f, f[n].right)
    ensures (Below(f, f[n].left) + {f[n].left}) !! (Below(f, f[n].right) + {f[n].right})
    ensures Below(f, n) == (Below(f, f[n].left) + {f[n].left}) + (Below(f, f[n].right) + {f[n].right})
  {
    hide Forest, Below;
    Children(f, n);
    var l, r := f[n].left, f[n].right;
    NotBelowItself(f, l);
    NotBelowItself(f, r);
    forall m | m in Below(f, l) + {l} ensures m !in Below(f, r) + {r} { Disjoint(f, n, l, r, m); }
  }

  /** The cached size is the number of nodes. */
  lemma {:induction false} SizeIsCount<T>(f: State<T>, n: Node<T>)
    requires Forest(f) && n in f
    ensures f[n].size == 1 + |Below(f, n)|
    decreases f[n].size
  {
    assert Linked(f, n) && Sized(f, n);
    if f[n].left != null {
      Split(f, n);
      hide Forest, Linked, Sized;
      SizeIsCount(f, f[n].left);
      SizeIsCount(f, f[n].right);
    }
  }

  function Count<T>(t: Tree<T>): nat {
    match t
    case Tip(_) => 1
    case Fork(_, l, r) => 1 + Count(l) + Count(r)
  }

  lemma {:induction false} SizeCountsValue<T>(f: State<T>, n: Node<T>)
    requires Forest(f) && n in f
    ensures f[n].size == Count(Value(f, n))
    decreases f[n].size
  {
    assert Linked(f, n) && Sized(f, n);
    if f[n].left != null {
      SizeCountsValue(f, f[n].left);
      SizeCountsValue(f, f[n].right);
    }
  }

  /** A tree all of whose nodes look the same in two states has the same value in both. */
  lemma {:induction false} ValueKept<T>(f: State<T>, g: State<T>, n: Node<T>, d: set<Node<T>>)
    requires Forest(f) && Forest(g) && n in f && IsSubtree(f, n, d)
    requires forall m :: m in d + {n} ==> m in g && g[m].data == f[m].data && g[m].left == f[m].left && g[m].right == f[m].right
    ensures Value(g, n) == Value(f, n)
    decreases f[n].size
  {
    SubtreeIsBelow(f, n, d);
    assert Linked(f, n) && Sized(f, n);
    var l, r := f[n].left, f[n].right;
    if l != null {
      BelowIsSubtree(f, l);
      BelowIsSubtree(f, r);
      ValueKept(f, g, l, Below(f, l));
      ValueKept(f, g, r, Below(f, r));
      assert Linked(g, n) && Sized(g, n);
    }
  }

  // ---- Refreshing sizes ----

  ghost function Restrict<T>(f: State<T>, live: set<Node<T>>): State<T> {
    map n | n in f && n in live :: f[n]
  }

  /** Everything is in order but for the cached sizes of the nodes in stale. */
  ghost predicate StaleAt<T>(f: State<T>, stale: set<Node<T>>) {
    forall n :: n in f ==> Linked(f, n) && (n in stale || Sized(f, n))
  }

  /** Only sizes differ. */
  ghost predicate SameLinks<T>(f: State<T>, g: State<T>) {
    && g.Keys == f.Keys
    && forall n :: n in f ==> g[n].data == f[n].data && g[n].left == f[n].left && g[n].right == f[n].right && g[n].parent == f[n].parent
  }

  /** Rank goes up strictly with every parent link. */
  ghost predicate Ranked<T>(f: State<T>, rank: map<Node<T>, nat>) {
    && rank.Keys == f.Keys
    && forall n :: n in f && f[n].parent != null ==> f[n].parent in f && rank[f[n].parent] > rank[n]
  }

  ghost predicate Paired<T>(f: State<T>) {
    forall n :: n in f ==> (f[n].left == null <==> f[n].right == null) && (f[n].left != null && f[n].right != null ==> f[n].left in f && f[n].right in f)
  }

  ghost function AtOrAbove<T>(rank: map<Node<T>, nat>, n: Node?<T>): set<Node<T>> {
    set m | m in rank && n in rank && rank[m] >= rank[n]
  }

  lemma AboveShrinks<T>(f: State<T>, rank: map<Node<T>, nat>, n: Node<T>)
    requires n in f && Ranked(f, rank)
    ensures AtOrAbove(rank, f[n].parent) < AtOrAbove(rank, n)
  {
    assert n in AtOrAbove(rank, n) && n !in AtOrAbove(rank, f[n].parent);
  }

  ghost function With<T>(stale: set<Node<T>>, m: Node?<T>): set<Node<T>> {
    if m == null then stale else stale + {m}
  }

  ghost function SetSize<T>(f: State<T>, n: Node<T>, k: nat): State<T> {
    if n in f then f[n := f[n].(size := k)] else f
  }

  ghost function SizeFrom<T>(f: State<T>, n: Node<T>): nat
    requires n in f
  {
    if f[n].left in f && f[n].right in f then 1 + f[f[n].left].size + f[f[n].right].size else 1
  }

  ghost predicate Agree<T>(f: State<T>, h: State<T>) {
    forall n :: n in f ==> n in h && h[n] == f[n]
  }

  /** Once n is refreshed, only its parent may be out of date. */
  lemma RefreshedStale<T>(f: State<T>, h: State<T>, n: Node<T>, stale: set<Node<T>>)
    requires n in h && Paired(h) && Agree(f, h) && StaleAt(f, With(stale, n))
    ensures StaleAt(SetSize(f, n, SizeFrom(h, n)), With(stale, h[n].parent))
  {
    var g, next := SetSize(f, n, SizeFrom(h, n)), With(stale, h[n].parent);
    forall m | m in g ensures Linked(g, m) && (m in next || Sized(g, m)) {
      assert Linked(f, m) && (m in stale || m == n || Sized(f, m));
    }
  }

  lemma PairedAt<T>(h: State<T>, n: Node<T>)
    requires Paired(h) && n in h
    ensures h[n].left == null <==> h[n].right == null
    ensures h[n].left != null && h[n].right != null ==> h[n].left in h && h[n].right in h
  {
  }

  lemma SetSizeLinks<T>(h: State<T>, n: Node<T>, k: nat)
    ensures SameLinks(h, SetSize(h, n, k))
  {
  }

  lemma SnapsAgree<T>(live: set<Node<T>>, u: set<Node<T>>)
    requires live <= u
    ensures Agree(Snap(live), Snap(u))
  {
  }

  lemma SizeIsSet<T>(f: State<T>, s: set<Node<T>>, n: Node<T>, k: nat)
    requires f.Keys == s
    requires forall m :: m in s ==> m.Now() == if m == n then f[m].(size := k) else f[m]
    ensures Snap(s) == SetSize(f, n, k)
  {
  }

  /** Refreshes the cached size of n from its children. */
  method RefreshSize<T>(n: Node<T>, ghost live: set<Node<T>>, ghost u: set<Node<T>>, ghost stale: set<Node<T>>)
    requires n in u && live <= u && Paired(Snap(u)) && StaleAt(Snap(live), With(stale, n))
    modifies n`size
    ensures SameLinks(old(Snap(u)), Snap(u)) && StaleAt(Snap(live), With(stale, n.parent))
  {
    hide Paired, StaleAt, SameLinks, With;
    ghost var f, h := Snap(live), Snap(u);
    PairedAt(h, n);
    SnapsAgree(live, u);
    RefreshedStale(f, h, n, stale);
    ghost var k := SizeFrom(h, n);
    SetSizeLinks(h, n, k);
    n.size := if n.left == null then 1 else 1 + n.left.size + n.right.size;
    SizeIsSet(f, live, n, k);
    SizeIsSet(h, u, n, k);
  }

  lemma LinksKeep<T>(f: State<T>, g: State<T>, h: State<T>, rank: map<Node<T>, nat>)
    requires SameLinks(f, g) && Ranked(f, rank) && Paired(f)
    ensures Ranked(g, rank) && Paired(g)
    ensures SameLinks(g, h) ==> SameLinks(f, h)
  {
  }

  /** Refreshes the cached sizes of n and of everything above it. */
  method RefreshSizeUp<T>(n: Node<T>, ghost live: set<Node<T>>, ghost u: set<Node<T>>, ghost rank: map<Node<T>, nat>, ghost stale: set<Node<T>>)
    requires n in u && live <= u && Ranked(Snap(u), rank) && Paired(Snap(u)) && StaleAt(Snap(live), With(stale, n))
    modifies u`size
    ensures SameLinks(old(Snap(u)), Snap(u)) && StaleAt(Snap(live), stale)
  {
    hide Ranked, Paired, StaleAt, SameLinks, AtOrAbove;
    ghost var f := Snap(u);
    SetSizeLinks(f, n, f[n].size);
    assert SetSize(f, n, f[n].size) == f;
    var m: Node?<T> := n;
    while m != null
      invariant m == null || m in u
      invariant SameLinks(f, Snap(u)) && StaleAt(Snap(live), With(stale, m))
      decreases AtOrAbove(rank, m)
    {
      ghost var g := Snap(u);
      LinksKeep(f, g, g, rank);
      AboveShrinks(g, rank, m);
      RankedAt(g, rank, m);
      RefreshSize(m, live, u, stale);
      LinksKeep(f, g, Snap(u), rank);
      m := m.parent;
    }
  }

  lemma RankedAt<T>(f: State<T>, rank: map<Node<T>, nat>, n: Node<T>)
    requires Ranked(f, rank) && n in f
    ensures f[n].parent != null ==> f[n].parent in f
  {
  }

  // ---- Moving ----

  /** n after target has taken over the data and the children of source. */
  ghost function MovedFields<T>(f: State<T>, target: Node<T>, source: Node<T>, n: Node<T>): Fields<T>
    requires source in f && n in f
  {
    Fields(
      if n == target then f[source].data else f[n].data,
      if n == target then f[source].left else if n == source then null else f[n].left,
      if n == target then f[source].right else if n == source then null else f[n].right,
      if n == f[source].left || n == f[source].right then target else f[n].parent,
      f[n].size)
  }

  ghost function MovedLinks<T>(f: State<T>, target: Node<T>, source: Node<T>): State<T>
    requires source in f
  {
    map n | n in f :: MovedFields(f, target, source, n)
  }

  lemma MovedAre<T>(f: State<T>, s: set<Node<T>>, target: Node<T>, source: Node<T>)
    requires source in f && s == f.Keys
    requires forall n :: n in s ==> n.Now() == MovedFields(f, target, source, n)
    ensures Snap(s) == MovedLinks(f, target, source)
  {
  }

  method Relink<T>(target: Node<T>, source: Node<T>, ghost s: set<Node<T>>)
    requires target in s && source in s && source != target && Linked(Snap(s), source)
    modifies s
    ensures Snap(s) == MovedLinks(old(Snap(s)), target, source)
  {
    hide Linked, MovedLinks;
    ghost var f := Snap(s);
    LinkedChildren(f, source);
    assert f[source] == source.Now();
    var l, r := source.left, source.right;
    target.data, target.left, target.right := source.data, l, r;
    source.left, source.right := null, null;
    if l != null { l.parent := target; }
    if r != null { r.parent := target; }
    forall n | n in s ensures n.Now() == MovedFields(f, target, source, n) {
      assert f[n] == old(n.Now());
      assert n.data == if n == target then f[source].data else f[n].data;
      assert n.left == if n == target then l else if n == source then null else f[n].left;
      assert n.right == if n == target then r else if n == source then null else f[n].right;
      assert n.parent == if n == l || n == r then target else f[n].parent;
    }
    MovedAre(f, s, target, source);
  }

  lemma LinkedChildren<T>(f: State<T>, n: Node<T>)
    requires n in f && Linked(f, n)
    ensures (f[n].left != null ==> f[n].left in f) && (f[n].right != null ==> f[n].right in f)
  {
  }

  ghost function RankOf<T>(f: State<T>, source: Node<T>, moved: set<Node<T>>): map<Node<T>, nat>
    requires source in f
  {
    map n | n in f :: if n in moved then f[n].size else f[n].size + f[source].size
  }

  ghost predicate Movable<T>(f: State<T>, target: Node<T>, source: Node<T>, dead: set<Node<T>>, moved: set<Node<T>>) {
    && target in f && source in f && target != source && Forest(f)
    && IsSubtree(f, target, dead) && IsSubtree(f, source, moved) && target !in moved
  }

  /** Sizes before the move order the nodes afterwards, too, once the moved ones are put first. */
  lemma MovedRanked<T>(f: State<T>, target: Node<T>, source: Node<T>, dead: set<Node<T>>, moved: set<Node<T>>)
    requires Movable(f, target, source, dead, moved)
    ensures Ranked(MovedLinks(f, target, source), RankOf(f, source, moved)) && Paired(MovedLinks(f, target, source))
  {
    var g, rank := MovedLinks(f, target, source), RankOf(f, source, moved);
    forall n | n in g ensures g[n].parent != null ==> g[n].parent in g && rank[g[n].parent] > rank[n] {
      assert Linked(f, n);
      if f[n].parent != null { assert Linked(f, f[n].parent) && Sized(f, f[n].parent); }
    }
    forall n | n in g
      ensures (g[n].left == null <==> g[n].right == null) && (g[n].left != null && g[n].right != null ==> g[n].left in g && g[n].right in g)
    {
      assert Linked(f, n) && Linked(f, source);
    }
  }

  ghost function Live<T>(f: State<T>, dead: set<Node<T>>, moved: set<Node<T>>): set<Node<T>> {
    (f.Keys - dead) + moved
  }

  lemma TargetNear<T>(f: State<T>, target: Node<T>, source: Node<T>, dead: set<Node<T>>, moved: set<Node<T>>)
    requires Movable(f, target, source, dead, moved)
    ensures target in f && target !in dead && source !in moved && Linked(f, target) && Linked(f, source) && moved <= f.Keys
    ensures f[source].left != null ==> f[source].left in moved && f[source].right in moved
    ensures f[target].parent != null ==> f[target].parent in f && f[target].parent !in dead && f[target].parent != target
  {
    assert Linked(f, target) && Sized(f, target);
    if f[target].parent != null { assert Linked(f, f[target].parent) && Sized(f, f[target].parent); }
  }

  lemma TargetKept<T>(f: State<T>, target: Node<T>, source: Node<T>, dead: set<Node<T>>, moved: set<Node<T>>)
    requires Movable(f, target, source, dead, moved)
    ensures target in Live(f, dead, moved) && Linked(Restrict(MovedLinks(f, target, source), Live(f, dead, moved)), target)
  {
    hide Movable;
    TargetNear(f, target, source, dead, moved);
  }

  lemma SourceKept<T>(f: State<T>, target: Node<T>, source: Node<T>, dead: set<Node<T>>, moved: set<Node<T>>)
    requires Movable(f, target, source, dead, moved) && source !in dead
    ensures source in Live(f, dead, moved) && Linked(Restrict(MovedLinks(f, target, source), Live(f, dead, moved)), source)
  {
    assert Linked(f, target) && Linked(f, source);
    if f[source].parent != null { assert Linked(f, f[source].parent) && Sized(f, f[source].parent); }
  }

  lemma MovedNear<T>(f: State<T>, target: Node<T>, source: Node<T>, dead: set<Node<T>>, moved: set<Node<T>>, n: Node<T>)
    requires Movable(f, target, source, dead, moved) && n in moved
    ensures n in f && target in f && moved <= f.Keys && target !in moved && source !in moved && target !in dead
    ensures Linked(f, n) && Sized(f, n) && Linked(f, source)
    ensures f[n].left != null ==> f[n].left in moved && f[n].right in moved
    ensures f[n].parent == source || f[n].parent in moved
  {
  }

  lemma MovedKept<T>(f: State<T>, target: Node<T>, source: Node<T>, dead: set<Node<T>>, moved: set<Node<T>>, n: Node<T>)
    requires Movable(f, target, source, dead, moved) && n in moved
    ensures n in f && n in Live(f, dead, moved)
    ensures var g := Restrict(MovedLinks(f, target, source), Live(f, dead, moved)); Linked(g, n) && Sized(g, n)
  {
    hide Movable;
    MovedNear(f, target, source, dead, moved, n);
  }

  /** Nodes outside the two subtrees keep their neighbours. */
  lemma OutsideKept<T>(f: State<T>, target: Node<T>, source: Node<T>, dead: set<Node<T>>, moved: set<Node<T>>, n: Node<T>)
    requires Movable(f, target, source, dead, moved) && n in f && n !in dead && n !in moved && n != target && n != source
    ensures n in Live(f, dead, moved)
    ensures var g := Restrict(MovedLinks(f, target, source), Live(f, dead, moved)); Linked(g, n) && Sized(g, n)
  {
    assert Linked(f, n) && Sized(f, n);
  }

  lemma MovedStale<T>(f: State<T>, target: Node<T>, source: Node<T>, dead: set<Node<T>>, moved: set<Node<T>>)
    requires target in f && source in f && Movable(f, target, source, dead, moved)
    ensures StaleAt(Restrict(MovedLinks(f, target, source), Live(f, dead, moved)), {source, target})
  {
    hide Linked, Sized, Movable, MovedLinks, Live, Restrict;
    var live := Live(f, dead, moved);
    TargetKept(f, target, source, dead, moved);
    var g := Restrict(MovedLinks(f, target, source), live);
    forall n | n in g ensures Linked(g, n) && (n == source || n == target || Sized(g, n)) {
      LiveAre(f, target, source, dead, moved, n);
      if n in moved {
        MovedKept(f, target, source, dead, moved, n);
      } else if n == source {
        SourceKept(f, target, source, dead, moved);
      } else if n != target {
        OutsideKept(f, target, source, dead, moved, n);
      }
    }
  }

  lemma LiveAre<T>(f: State<T>, target: Node<T>, source: Node<T>, dead: set<Node<T>>, moved: set<Node<T>>, n: Node<T>)
    requires target in f && source in f && n in Restrict(MovedLinks(f, target, source), Live(f, dead, moved))
    ensures n in f && (n in moved || n !in dead)
  {
  }
}
