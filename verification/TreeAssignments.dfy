/** Move and copy assignment of tree nodes: what every affected tree keeps. */
module TreeAssignments {
  import opened BinaryNodes

  // ---- Values after a move ----

  /** g is the state of the live nodes after the move, with fresh sizes. */
  ghost predicate Moved<T>(f: State<T>, g: State<T>, target: Node<T>, source: Node<T>) {
    && Forest(f) && Forest(g) && target in f && source in f && target != source && target !in Below(f, source)
    && SameLinks(Restrict(MovedLinks(f, target, source), Live(f, Below(f, target), Below(f, source))), g)
  }

  lemma MovedFacts<T>(f: State<T>, g: State<T>, target: Node<T>, source: Node<T>, n: Node<T>)
    requires Moved(f, g, target, source) && n in f && (n !in Below(f, target) || n in Below(f, source))
    ensures n in g && g[n].left == MovedLinks(f, target, source)[n].left && g[n].right == MovedLinks(f, target, source)[n].right
    ensures g[n].data == MovedLinks(f, target, source)[n].data && g[n].parent == MovedLinks(f, target, source)[n].parent
  {
    hide Below, Forest;
  }

  /** A subtree that the move does not touch keeps its value. */
  lemma UntouchedValue<T>(f: State<T>, g: State<T>, target: Node<T>, source: Node<T>, n: Node<T>)
    requires Moved(f, g, target, source) && n in f && (n !in Below(f, target) || n in Below(f, source))
    requires forall m :: Within(f, n, m) ==> m in f && m != target && m != source && (m !in Below(f, target) || m in Below(f, source))
    ensures n in g && Value(g, n) == Value(f, n)
  {
    BelowIsSubtree(f, n);
    MovedFacts(f, g, target, source, n);
    forall m | m in Below(f, n) + {n}
      ensures m in g && g[m].data == f[m].data && g[m].left == f[m].left && g[m].right == f[m].right
    {
      assert Within(f, n, m);
      MovedFacts(f, g, target, source, m);
    }
    ValueKept(f, g, n, Below(f, n));
  }

  lemma {:induction false} BelowBelow<T>(f: State<T>, n: Node<T>, c: Node<T>, m: Node<T>)
    requires Forest(f) && n in f && c in Below(f, n) && c in f && m in Below(f, c)
    ensures m in Below(f, n)
  {
    BelowIsSubtree(f, n);
    BelowInSubtree(f, n, c, Below(f, n), m);
  }

  /** The children of source are not touched. */
  lemma ChildUntouched<T>(f: State<T>, g: State<T>, target: Node<T>, source: Node<T>, c: Node<T>)
    requires Moved(f, g, target, source) && c in f && c in Below(f, source)
    ensures c in g && Value(g, c) == Value(f, c)
  {
    BelowIsSubtree(f, source);
    forall m | Within(f, c, m) ensures m in f && m != target && m != source && m in Below(f, source) {
      if m != c { BelowBelow(f, source, c, m); }
    }
    UntouchedValue(f, g, target, source, c);
  }

  /** The target has the value the source had. */
  lemma TargetValue<T>(f: State<T>, g: State<T>, target: Node<T>, source: Node<T>)
    requires Moved(f, g, target, source)
    ensures target in g && Value(g, target) == Value(f, source)
  {
    BelowIsSubtree(f, target);
    MovedFacts(f, g, target, source, target);
    assert Linked(f, source);
    assert Linked(g, target);
    var l, r := f[source].left, f[source].right;
    if l != null {
      assert l in Below(f, source) && r in Below(f, source);
      ChildUntouched(f, g, target, source, l);
      ChildUntouched(f, g, target, source, r);
    }
  }

  /** A source that survives is a leaf, still under its old parent. */
  lemma SourceLeft<T>(f: State<T>, g: State<T>, target: Node<T>, source: Node<T>)
    requires Moved(f, g, target, source) && source !in Below(f, target)
    ensures source in g && g[source].left == null && g[source].right == null && g[source].parent == f[source].parent && g[source].size == 1
  {
    MovedFacts(f, g, target, source, source);
    BelowIsSubtree(f, source);
    assert Linked(f, source);
    assert Sized(g, source) && Linked(g, source);
  }

  /** Two subtrees with a common node are nested. */
  lemma {:induction false} Nested<T>(f: State<T>, a: Node<T>, b: Node<T>, m: Node<T>)
    requires Forest(f) && a in f && b in f && Within(f, a, m) && Within(f, b, m) && m in f
    ensures Within(f, a, b) || Within(f, b, a)
    decreases f[a].size - f[m].size
  {
    if m != a && m != b {
      hide Below, Forest, Within;
      WithinParent(f, a, m);
      WithinParent(f, b, m);
      WithinParent(f, a, f[m].parent);
      Nested(f, a, b, f[m].parent);
    }
  }

  /** A tree that holds neither node keeps its value. */
  lemma ElsewhereKept<T>(f: State<T>, g: State<T>, target: Node<T>, source: Node<T>, n: Node<T>)
    requires Moved(f, g, target, source) && n in f && !Within(f, target, n)
    requires !Within(f, n, target) && !Within(f, n, source)
    ensures n in g && Value(g, n) == Value(f, n)
  {
    BelowIsSubtree(f, n);
    forall m | Within(f, n, m) ensures m in f && m != target && m != source && m !in Below(f, target) {
      if m in Below(f, target) { Nested(f, n, target, m); }
    }
    UntouchedValue(f, g, target, source, n);
  }

  // ---- Move assignment ----

  lemma SnapRestricts<T>(s: set<Node<T>>, live: set<Node<T>>)
    requires live <= s
    ensures Snap(live) == Restrict(Snap(s), live)
  {
    assert forall n :: n in live ==> Snap(live)[n] == Snap(s)[n];
  }

  lemma RestrictLinks<T>(f: State<T>, g: State<T>, live: set<Node<T>>)
    requires SameLinks(f, g)
    ensures SameLinks(Restrict(f, live), Restrict(g, live))
  {
  }

  lemma LinksAgain<T>(f: State<T>, g: State<T>, h: State<T>)
    requires SameLinks(f, g) && SameLinks(g, h)
    ensures SameLinks(f, h)
  {
  }

  lemma StaleNowhere<T>(f: State<T>)
    requires StaleAt(f, {})
    ensures Forest(f)
  {
  }

  lemma CanMove<T>(f: State<T>, target: Node<T>, source: Node<T>)
    requires target in f && source in f && target != source && Forest(f) && target !in Below(f, source)
    ensures Movable(f, target, source, Below(f, target), Below(f, source)) && Linked(f, source)
    ensures Live(f, Below(f, target), Below(f, source)) <= f.Keys
  {
    hide IsSubtree, Linked, Sized;
    BelowIsSubtree(f, target);
    BelowIsSubtree(f, source);
    SubtreeInside(f, source, Below(f, source));
  }

  lemma SubtreeInside<T>(f: State<T>, n: Node<T>, d: set<Node<T>>)
    requires n in f && IsSubtree(f, n, d)
    ensures d <= f.Keys
  {
  }

  /** The target takes over what the source has; only the size cached in the source is out of date then. */
  method TakeOver<T>(target: Node<T>, source: Node<T>, ghost u: set<Node<T>>) returns (ghost live: set<Node<T>>)
    requires target in u && source in u && target != source && Forest(Snap(u)) && target !in Below(Snap(u), source)
    modifies u
    ensures live == Live(old(Snap(u)), old(Below(Snap(u), target)), old(Below(Snap(u), source))) && live <= u
    ensures SameLinks(MovedLinks(old(Snap(u)), target, source), Snap(u)) && StaleAt(Snap(live), {source})
    ensures Ranked(Snap(u), RankOf(old(Snap(u)), source, old(Below(Snap(u), source)))) && Paired(Snap(u))
  {
    hide Forest, Below, Linked, Sized, StaleAt, Ranked, Paired, SameLinks, MovedLinks, Movable, Live, RankOf;
    ghost var f := Snap(u);
    ghost var dead, moved := Below(f, target), Below(f, source);
    live := Live(f, dead, moved);
    CanMove(f, target, source);
    MovedRanked(f, target, source, dead, moved);
    MovedStale(f, target, source, dead, moved);
    Relink(target, source, u);
    ghost var g := Snap(u);
    SnapRestricts(u, live);
    assert With({source}, target) == {source, target};
    RefreshSizeUp(target, live, u, RankOf(f, source, moved), {source});
    LinksKeep(g, Snap(u), Snap(u), RankOf(f, source, moved));
  }

  /**
   The target takes over the data and the children of the source; what it owned before is destroyed, unless the
   source moved it out. Only a source that is a proper ancestor of the target is excluded.
   */
  method MoveAssign<T>(target: Node<T>, source: Node<T>, ghost s: set<Node<T>>) returns (ghost live: set<Node<T>>)
    requires Forest(Snap(s)) && target in s && source in s && target !in Below(Snap(s), source)
    modifies s
    ensures live <= s && Forest(Snap(live)) && target in live
    ensures source == target ==> live == s && Snap(s) == old(Snap(s))
    ensures source != target ==> live == Live(old(Snap(s)), old(Below(Snap(s), target)), old(Below(Snap(s), source)))
    ensures source != target ==> Moved(old(Snap(s)), Snap(live), target, source)
    ensures Value(Snap(live), target) == old(Value(Snap(s), source))
  {
    hide Forest, Below, Linked, Sized, Moved, StaleAt, Ranked, Paired, SameLinks, MovedLinks, Movable, Value, Live, RankOf;
    if source == target { return s; }
    ghost var f := Snap(s);
    live := TakeOver(target, source, s);
    ghost var g := Snap(s);
    assert With({}, source) == {source};
    RefreshSizeUp(source, live, s, RankOf(f, source, Below(f, source)), {});
    LinksAgain(MovedLinks(f, target, source), g, Snap(s));
    SnapRestricts(s, live);
    RestrictLinks(MovedLinks(f, target, source), Snap(s), live);
    StaleNowhere(Snap(live));
    MovedIs(f, Snap(live), target, source);
    TargetValue(f, Snap(live), target, source);
  }

  lemma MovedIs<T>(f: State<T>, g: State<T>, target: Node<T>, source: Node<T>)
    requires Forest(f) && Forest(g) && target in f && source in f && target != source && target !in Below(f, source)
    requires SameLinks(Restrict(MovedLinks(f, target, source), Live(f, Below(f, target), Below(f, source))), g)
    ensures Moved(f, g, target, source)
  {
  }

  /** Moving from a proper ancestor would make the target its own descendant: no sizes make that a forest. */
  lemma AncestorMakesCycle<T>(f: State<T>, g: State<T>, target: Node<T>, source: Node<T>)
    requires Forest(f) && target in f && source in f && target in Below(f, source) && SameLinks(MovedLinks(f, target, source), g)
    ensures !Forest(g)
  {
    if Forest(g) { SizesGrow(f, g, target, source, target); }
  }

  lemma {:induction false} SizesGrow<T>(f: State<T>, g: State<T>, target: Node<T>, source: Node<T>, m: Node<T>)
    requires Forest(f) && target in f && source in f && m in Below(f, source) && SameLinks(MovedLinks(f, target, source), g)
    requires Forest(g)
    ensures m in g && target in g && g[m].size < g[target].size
    decreases if m in f then f[source].size - f[m].size else 0
  {
    BelowSmaller(f, source, m);
    assert Linked(f, m) && Linked(f, source);
    var p := g[m].parent;
    assert p == if f[m].parent == source then target else f[m].parent;
    assert Linked(g, m) && Linked(g, p) && Sized(g, p);
    if f[m].parent != source {
      assert Linked(f, p) && Sized(f, p);
      SizesGrow(f, g, target, source, p);
    }
  }

  // ---- Deep copy ----

  datatype Frame<T> = Frame(src: Node<T>, stage: nat, left: Node?<T>)

  /** c is the root of a copy of the tree at src. */
  ghost predicate Copied<T>(f: State<T>, g: State<T>, c: Node?<T>, src: Node?<T>) {
    c != null && src != null && c in g && src in f && g[c].parent == null && Forest(f) && Forest(g) && Value(g, c) == Value(f, src)
  }

  /** g2 has more nodes than g, and only nodes in gone have got a parent. */
  ghost predicate Grown<T>(g: State<T>, g2: State<T>, gone: set<Node<T>>) {
    && Forest(g) && Forest(g2)
    && forall m :: m in g ==>
         m in g2 && g2[m].data == g[m].data && g2[m].left == g[m].left && g2[m].right == g[m].right && (m in gone || g2[m].parent == g[m].parent)
  }

  lemma CopiedKept<T>(f: State<T>, g: State<T>, g2: State<T>, gone: set<Node<T>>, c: Node?<T>, src: Node?<T>)
    requires Copied(f, g, c, src) && Grown(g, g2, gone) && c !in gone
    ensures Copied(f, g2, c, src)
  {
    BelowIsSubtree(g, c);
    ValueKept(g, g2, c, Below(g, c));
  }

  lemma AddTip<T>(f: State<T>, g: State<T>, c: Node<T>, src: Node<T>)
    requires Forest(f) && Forest(g) && c !in g && src in f && f[src].left == null
    ensures var g2 := g[c := Fields(f[src].data, null, null, null, 1)]; Grown(g, g2, {}) && Copied(f, g2, c, src)
  {
    var g2 := g[c := Fields(f[src].data, null, null, null, 1)];
    forall n | n in g2 ensures Linked(g2, n) && Sized(g2, n) {
      assert n in g ==> Linked(g, n) && Sized(g, n);
    }
  }

  /** The state after two roots have been joined under a new one. */
  ghost function Joined<T>(g: State<T>, c: Node<T>, data: T, l: Node<T>, r: Node<T>): State<T>
    requires l in g && r in g
  {
    g[l := g[l].(parent := c)][r := g[r].(parent := c)][c := Fields(data, l, r, null, 1 + g[l].size + g[r].size)]
  }

  ghost predicate Root<T>(g: State<T>, c: Node<T>) {
    c in g && g[c].parent == null
  }

  lemma JoinedOld<T>(g: State<T>, c: Node<T>, data: T, l: Node<T>, r: Node<T>, n: Node<T>)
    requires Forest(g) && c !in g && l != r && Root(g, l) && Root(g, r) && n in g
    ensures var g2 := Joined(g, c, data, l, r); n in g2 && Linked(g2, n) && Sized(g2, n)
  {
    assert Linked(g, n) && Sized(g, n);
  }

  lemma JoinedForest<T>(g: State<T>, c: Node<T>, data: T, l: Node<T>, r: Node<T>)
    requires Forest(g) && c !in g && l != r && Root(g, l) && Root(g, r)
    ensures Grown(g, Joined(g, c, data, l, r), {l, r})
  {
    hide Linked, Sized;
    var g2 := Joined(g, c, data, l, r);
    JoinedTop(g, c, data, l, r);
    forall n | n in g ensures Linked(g2, n) && Sized(g2, n) { JoinedOld(g, c, data, l, r, n); }
  }

  lemma JoinedTop<T>(g: State<T>, c: Node<T>, data: T, l: Node<T>, r: Node<T>)
    requires c !in g && l != r && Root(g, l) && Root(g, r)
    ensures Linked(Joined(g, c, data, l, r), c) && Sized(Joined(g, c, data, l, r), c)
  {
  }

  lemma AddFork<T>(f: State<T>, g: State<T>, c: Node<T>, src: Node<T>, l: Node<T>, r: Node<T>)
    requires c !in g && src in f && l != r && Forest(f) && f[src].left != null && Copied(f, g, l, f[src].left) && Copied(f, g, r, f[src].right)
    ensures var g2 := Joined(g, c, f[src].data, l, r); Grown(g, g2, {l, r}) && Copied(f, g2, c, src)
  {
    var g2 := Joined(g, c, f[src].data, l, r);
    JoinedForest(g, c, f[src].data, l, r);
    BelowIsSubtree(g, l);
    BelowIsSubtree(g, r);
    hide Below, IsSubtree;
    ValueKept(g, g2, l, Below(g, l));
    ValueKept(g, g2, r, Below(g, r));
    assert Linked(f, src) && Sized(f, src) && Linked(g2, c) && Sized(g2, c);
  }

  /** The frames lead from n down to the node being copied; each is waiting for the child above it on the stack. */
  ghost predicate Chain<T>(f: State<T>, n: Node<T>, stack: seq<Frame<T>>) {
    && Forest(f) && n in f && (stack != [] ==> stack[0].src == n)
    && (forall i :: 0 <= i < |stack| ==> stack[i].src in f && stack[i].stage <= 2 && (stack[i].stage > 0 ==> f[stack[i].src].left != null))
    && forall i :: 0 <= i && i + 1 < |stack| ==> WaitsFor(f, stack, i)
  }

  ghost predicate WaitsFor<T>(f: State<T>, stack: seq<Frame<T>>, i: nat)
    requires i + 1 < |stack|
  {
    stack[i].stage > 0 && stack[i + 1].src == Awaited(f, stack[i])
  }

  /** The child a frame is waiting for. */
  ghost function Awaited<T>(f: State<T>, frame: Frame<T>): Node?<T> {
    if frame.src !in f then null else if frame.stage == 1 then f[frame.src].left else f[frame.src].right
  }

  /** Frames that wait for their right child hold a copy of the left one, each its own. */
  ghost predicate Pending<T>(f: State<T>, g: State<T>, stack: seq<Frame<T>>) {
    && (forall i :: 0 <= i < |stack| && stack[i].stage == 2 ==> stack[i].src in f && Copied(f, g, stack[i].left, f[stack[i].src].left))
    && forall i, j :: 0 <= i < j < |stack| && stack[i].stage == 2 && stack[j].stage == 2 ==> stack[i].left != stack[j].left
  }

  /** What is waited for has been copied, to a root no frame holds. */
  ghost predicate Ready<T>(f: State<T>, g: State<T>, n: Node<T>, stack: seq<Frame<T>>, c: Node?<T>) {
    && Copied(f, g, c, if stack == [] then n else Awaited(f, stack[|stack| - 1]))
    && forall i :: 0 <= i < |stack| && stack[i].stage == 2 ==> stack[i].left != c
  }

  lemma PendingKept<T>(f: State<T>, g: State<T>, g2: State<T>, gone: set<Node<T>>, stack: seq<Frame<T>>)
    requires Pending(f, g, stack) && Grown(g, g2, gone)
    requires forall i :: 0 <= i < |stack| && stack[i].stage == 2 ==> stack[i].left !in gone
    ensures Pending(f, g2, stack)
  {
    hide Copied, Grown;
    forall i | 0 <= i < |stack| && stack[i].stage == 2 ensures Copied(f, g2, stack[i].left, f[stack[i].src].left) {
      CopiedKept(f, g, g2, gone, stack[i].left, f[stack[i].src].left);
    }
  }

  lemma ChainTop<T>(f: State<T>, n: Node<T>, stack: seq<Frame<T>>)
    requires Chain(f, n, stack) && stack != []
    ensures var top, below := stack[|stack| - 1], stack[..|stack| - 1];
            && Chain(f, n, below) && top.src in f && top.stage <= 2
            && (if below == [] then n else Awaited(f, below[|below| - 1])) == top.src
            && (f[top.src].left == null <==> f[top.src].right == null) && (f[top.src].left != null ==> f[top.src].left in f && f[top.src].right in f)
            && (top.stage > 0 ==> f[top.src].left != null)
  {
    var i := |stack| - 1;
    assert Linked(f, stack[i].src);
    if i > 0 { assert WaitsFor(f, stack, i - 1); }
    var below := stack[..i];
    forall j | 0 <= j && j + 1 < |below| ensures WaitsFor(f, below, j) { assert WaitsFor(f, stack, j); }
  }

  /** A frame moves on to its next child. */
  lemma ChainNext<T>(f: State<T>, n: Node<T>, stack: seq<Frame<T>>, frame: Frame<T>)
    requires Chain(f, n, stack) && stack != [] && frame.src == stack[|stack| - 1].src && 1 <= frame.stage <= 2
    requires frame.src in f && f[frame.src].left != null && Awaited(f, frame) in f
    ensures Chain(f, n, stack[..|stack| - 1] + [frame, Frame(Awaited(f, frame), 0, null)])
  {
    var next := stack[..|stack| - 1] + [frame, Frame(Awaited(f, frame), 0, null)];
    forall i | 0 <= i && i + 1 < |next| ensures WaitsFor(f, next, i) {
      if i + 1 < |stack| { assert WaitsFor(f, stack, i); }
    }
  }

  /** Steps that are left. */
  ghost function Work<T>(f: State<T>, stack: seq<Frame<T>>): nat {
    if stack == [] then 0 else Work(f, stack[..|stack| - 1]) + FrameWork(f, stack[|stack| - 1])
  }

  ghost function FrameWork<T>(f: State<T>, frame: Frame<T>): nat {
    if frame.src !in f then 0
    else if frame.stage == 0 then 3 * f[frame.src].size
    else if frame.stage == 1 then 2 + (if f[frame.src].right in f then 3 * f[f[frame.src].right].size else 0)
    else 1
  }

  lemma WorkAppend<T>(f: State<T>, below: seq<Frame<T>>, a: Frame<T>, b: Frame<T>)
    ensures Work(f, below + [a, b]) == Work(f, below) + FrameWork(f, a) + FrameWork(f, b)
  {
    hide FrameWork;
    var next := below + [a, b];
    assert next[..|next| - 1] == below + [a] && (below + [a])[..|below|] == below;
  }

  lemma FrameNext<T>(f: State<T>, top: Frame<T>, frame: Frame<T>)
    requires Forest(f) && frame.src == top.src && frame.stage == top.stage + 1 <= 2
    requires frame.src in f && f[frame.src].left != null && Awaited(f, frame) in f
    ensures FrameWork(f, frame) + FrameWork(f, Frame(Awaited(f, frame), 0, null)) < FrameWork(f, top)
  {
    assert Linked(f, frame.src) && Sized(f, frame.src);
  }

  lemma WorkNext<T>(f: State<T>, stack: seq<Frame<T>>, frame: Frame<T>)
    requires Forest(f) && stack != [] && frame.src == stack[|stack| - 1].src && frame.stage == stack[|stack| - 1].stage + 1 <= 2
    requires frame.src in f && f[frame.src].left != null && Awaited(f, frame) in f
    ensures Work(f, stack[..|stack| - 1] + [frame, Frame(Awaited(f, frame), 0, null)]) < Work(f, stack)
  {
    hide Awaited, FrameWork, Forest;
    WorkAppend(f, stack[..|stack| - 1], frame, Frame(Awaited(f, frame), 0, null));
    FrameNext(f, stack[|stack| - 1], frame);
  }

  lemma WorkPop<T>(f: State<T>, stack: seq<Frame<T>>)
    requires Forest(f) && stack != [] && stack[|stack| - 1].src in f && stack[|stack| - 1].stage <= 2
    ensures Work(f, stack[..|stack| - 1]) < Work(f, stack)
  {
    var top := stack[|stack| - 1];
    assert Sized(f, top.src);
  }

  /** What one step of the copy keeps: the frames, and the copy that the top frame was waiting for. */
  ghost predicate Copying<T>(f: State<T>, g: State<T>, n: Node<T>, stack: seq<Frame<T>>, c: Node?<T>) {
    && Chain(f, n, stack) && Forest(g) && Pending(f, g, stack)
    && (stack == [] || stack[|stack| - 1].stage > 0 ==> Ready(f, g, n, stack, c))
  }

  lemma StartCopying<T>(f: State<T>, n: Node<T>)
    requires Forest(f) && n in f
    ensures Copying(f, map[], n, [Frame(n, 0, null)], null)
  {
  }

  lemma TopFrame<T>(f: State<T>, g: State<T>, n: Node<T>, stack: seq<Frame<T>>, c: Node?<T>)
    requires stack != [] && Copying(f, g, n, stack, c)
    ensures var top := stack[|stack| - 1];
            && top.src in f && top.stage <= 2
            && (f[top.src].left == null <==> f[top.src].right == null) && (f[top.src].left != null ==> f[top.src].left in f && f[top.src].right in f)
            && (top.stage > 0 ==> c != null && c in g)
            && (top.stage == 2 ==> top.left != null && top.left in g && top.left != c)
  {
    ChainTop(f, n, stack);
  }

  lemma TipStep<T>(f: State<T>, g: State<T>, n: Node<T>, stack: seq<Frame<T>>, c: Node?<T>, made: Node<T>)
    requires stack != [] && Copying(f, g, n, stack, c) && made !in g
    requires stack[|stack| - 1].src in f && f[stack[|stack| - 1].src].left == null
    ensures Copying(f, g[made := Fields(f[stack[|stack| - 1].src].data, null, null, null, 1)], n, stack[..|stack| - 1], made)
  {
    hide Forest, Grown, Copied, Chain, Awaited;
    var src, below := stack[|stack| - 1].src, stack[..|stack| - 1];
    var g2 := g[made := Fields(f[src].data, null, null, null, 1)];
    ChainTop(f, n, stack);
    AddTip(f, g, made, src);
    PendingBelow(f, g, stack);
    HeldAreOld(f, g, below, made);
    PendingKept(f, g, g2, {}, below);
    GrownForest(g, g2, {});
  }

  lemma GrownForest<T>(g: State<T>, g2: State<T>, gone: set<Node<T>>)
    requires Grown(g, g2, gone)
    ensures Forest(g) && Forest(g2)
  {
  }

  lemma PendingBelow<T>(f: State<T>, g: State<T>, stack: seq<Frame<T>>)
    requires Pending(f, g, stack) && stack != []
    ensures Pending(f, g, stack[..|stack| - 1])
    ensures var top := stack[|stack| - 1];
            top.stage == 2 ==> forall i :: 0 <= i < |stack| - 1 && stack[i].stage == 2 ==> stack[i].left != top.left
  {
    hide Copied;
  }

  lemma HeldAreOld<T>(f: State<T>, g: State<T>, stack: seq<Frame<T>>, c: Node<T>)
    requires Pending(f, g, stack) && c !in g
    ensures forall i :: 0 <= i < |stack| && stack[i].stage == 2 ==> stack[i].left != c
  {
  }

  lemma DownStep<T>(f: State<T>, g: State<T>, n: Node<T>, stack: seq<Frame<T>>, c: Node?<T>, frame: Frame<T>)
    requires stack != [] && Copying(f, g, n, stack, c)
    requires frame.src == stack[|stack| - 1].src && frame.stage == stack[|stack| - 1].stage + 1 <= 2
    requires frame.src in f && f[frame.src].left != null && Awaited(f, frame) in f && (frame.stage == 2 ==> frame.left == c)
    ensures Copying(f, g, n, stack[..|stack| - 1] + [frame, Frame(Awaited(f, frame), 0, null)], c)
  {
    hide Forest, Copied, Chain;
    ChainNext(f, n, stack, frame);
  }

  lemma ForkStep<T>(f: State<T>, g: State<T>, n: Node<T>, stack: seq<Frame<T>>, c: Node<T>, made: Node<T>, l: Node<T>)
    requires stack != [] && Copying(f, g, n, stack, c) && made !in g && c in g
    requires stack[|stack| - 1].stage == 2 && stack[|stack| - 1].left == l && l in g && stack[|stack| - 1].src in f
    ensures Copying(f, Joined(g, made, f[stack[|stack| - 1].src].data, l, c), n, stack[..|stack| - 1], made)
  {
    hide Forest, Grown, Copied, Chain;
    var src, below := stack[|stack| - 1].src, stack[..|stack| - 1];
    ChainTop(f, n, stack);
    ChainForest(f, n, stack);
    PendingBelow(f, g, stack);
    AddFork(f, g, made, src, l, c);
    var g2 := Joined(g, made, f[src].data, l, c);
    HeldAreOld(f, g, below, made);
    PendingKept(f, g, g2, {l, c}, below);
    GrownForest(g, g2, {l, c});
  }

  lemma ChainForest<T>(f: State<T>, n: Node<T>, stack: seq<Frame<T>>)
    requires Chain(f, n, stack)
    ensures Forest(f) && n in f
  {
  }

  lemma CopyingForest<T>(f: State<T>, g: State<T>, n: Node<T>, stack: seq<Frame<T>>, c: Node?<T>)
    requires Copying(f, g, n, stack, c)
    ensures Forest(f) && n in f && Forest(g)
    ensures stack == [] ==> Copied(f, g, c, n)
  {
  }

  lemma JoinedAt<T>(g: State<T>, c: Node<T>, data: T, l: Node<T>, r: Node<T>)
    requires l in g && r in g && l != r && c !in g
    ensures Joined(g, c, data, l, r).Keys == g.Keys + {c}
    ensures forall n :: n in g ==> Joined(g, c, data, l, r)[n] == if n == l || n == r then g[n].(parent := c) else g[n]
    ensures Joined(g, c, data, l, r)[c] == Fields(data, l, r, null, 1 + g[l].size + g[r].size)
  {
  }

  method MakeTip<T>(data: T, ghost made: set<Node<T>>) returns (c: Node<T>)
    ensures fresh(c) && c !in made && Snap(made + {c}) == old(Snap(made))[c := Fields(data, null, null, null, 1)]
  {
    c := new Node(data);
  }

  method MakeFork<T>(data: T, l: Node<T>, r: Node<T>, ghost made: set<Node<T>>) returns (c: Node<T>)
    requires l in made && r in made && l != r
    modifies l`parent, r`parent
    ensures fresh(c) && c !in made && Snap(made + {c}) == Joined(old(Snap(made)), c, data, l, r)
  {
    hide Joined;
    ghost var g := Snap(made);
    assert forall n :: n in made ==> g[n] == n.Now();
    c := new Node.Inner(data, l, r);
    JoinedAt(g, c, data, l, r);
    assert Snap(made + {c}) == Joined(g, c, data, l, r);
  }

  /** Clones a tree bottom-up, with a stack of its own instead of recursion. */
  method DeepCopy<T>(n: Node<T>, ghost s: set<Node<T>>) returns (copy: Node<T>, ghost made: set<Node<T>>)
    requires Forest(Snap(s)) && n in s
    ensures fresh(made) && copy in made && Forest(Snap(made)) && copy.parent == null
    ensures Value(Snap(made), copy) == Value(Snap(s), n)
  {
    hide Forest, Copying, Work, Awaited, Joined;
    ghost var f := Snap(s);
    var ret: Node?<T> := null;
    made := {};
    var stack := [Frame(n, 0, null)];
    StartCopying(f, n);
    assert Snap(made) == map[];
    while stack != []
      invariant fresh(made) && Snap(s) == f && Copying(f, Snap(made), n, stack, ret)
      decreases Work(f, stack)
    {
      ghost var g := Snap(made);
      TopFrame(f, g, n, stack, ret);
      CopyingForest(f, g, n, stack, ret);
      WorkPop(f, stack);
      var top, below := stack[|stack| - 1], stack[..|stack| - 1];
      assert f[top.src] == top.src.Now();
      if top.src.left == null && top.src.right == null {
        ghost var last := ret;
        ret := MakeTip(top.src.data, made);
        TipStep(f, g, n, stack, last, ret);
        made := made + {ret};
        stack := below;
      } else if top.stage == 0 {
        var frame := Frame(top.src, 1, null);
        FirstChild(f, frame);
        DownStep(f, g, n, stack, ret, frame);
        WorkNext(f, stack, frame);
        stack := below + [frame, Frame(top.src.left, 0, null)];
      } else if top.stage == 1 {
        var frame := Frame(top.src, 2, ret);
        FirstChild(f, frame);
        DownStep(f, g, n, stack, ret, frame);
        WorkNext(f, stack, frame);
        stack := below + [frame, Frame(top.src.right, 0, null)];
      } else {
        var l, r := top.left, ret;
        ret := MakeFork(top.src.data, l, r, made);
        ForkStep(f, g, n, stack, r, ret, l);
        made := made + {ret};
        stack := below;
      }
    }
    CopyingForest(f, Snap(made), n, stack, ret);
    copy := ret;
    assert Snap(made)[copy] == copy.Now();
  }

  lemma FirstChild<T>(f: State<T>, frame: Frame<T>)
    requires frame.src in f && 1 <= frame.stage <= 2
    ensures Awaited(f, frame) == if frame.stage == 1 then f[frame.src].left else f[frame.src].right
  {
  }

  // ---- Copy assignment ----

  /** Two forests side by side. */
  lemma UnionForest<T>(a: State<T>, b: State<T>)
    requires Forest(a) && Forest(b) && a.Keys !! b.Keys
    ensures Forest(a + b)
  {
    var f := a + b;
    forall n | n in f ensures Linked(f, n) && Sized(f, n) {
      assert (n in a ==> Linked(a, n) && Sized(a, n)) && (n in b ==> Linked(b, n) && Sized(b, n));
    }
  }

  /** A tree is the same in a larger forest. */
  lemma SameInLarger<T>(a: State<T>, f: State<T>, n: Node<T>)
    requires Forest(a) && Forest(f) && n in a && Agree(a, f)
    ensures n in f && Below(f, n) == Below(a, n) && Value(f, n) == Value(a, n)
  {
    BelowIsSubtree(a, n);
    ValueKept(a, f, n, Below(a, n));
    SubtreeIsBelow(f, n, Below(a, n));
  }

  lemma UnionAgrees<T>(s: set<Node<T>>, t: set<Node<T>>)
    requires s !! t
    ensures Snap(s + t) == Snap(s) + Snap(t) && Agree(Snap(s), Snap(s + t)) && Agree(Snap(t), Snap(s + t))
  {
  }

  /** A node without neighbours can go. */
  lemma DropIsolated<T>(f: State<T>, c: Node<T>, n: Node<T>)
    requires Forest(f) && c in f && f[c].left == null && f[c].right == null && f[c].parent == null && n in f && n != c
    ensures Forest(Restrict(f, f.Keys - {c})) && Value(Restrict(f, f.Keys - {c}), n) == Value(f, n)
  {
    hide Linked, Sized, Value, Below;
    var g := Restrict(f, f.Keys - {c});
    forall m | m in g ensures Linked(g, m) && Sized(g, m) { StillLinked(f, c, m); }
    BelowIsSubtree(f, n);
    ValueKept(f, g, n, Below(f, n));
  }

  /** Taking out a node without neighbours leaves all others linked and sized. */
  lemma StillLinked<T>(f: State<T>, c: Node<T>, m: Node<T>)
    requires Forest(f) && c in f && f[c].left == null && f[c].right == null && f[c].parent == null && m in f && m != c
    ensures m in Restrict(f, f.Keys - {c}) && Linked(Restrict(f, f.Keys - {c}), m) && Sized(Restrict(f, f.Keys - {c}), m)
  {
    assert Linked(f, m) && Sized(f, m) && Linked(f, c);
  }

  /** Nodes outside the old subtree of target keep their links; only target has got new data and children. */
  ghost predicate OnlyTargetChanged<T>(f: State<T>, g: State<T>, target: Node<T>, dead: set<Node<T>>) {
    forall n :: n in f && n !in dead ==>
      && n in g && g[n].parent == f[n].parent
      && (n != target ==> g[n].data == f[n].data && g[n].left == f[n].left && g[n].right == f[n].right)
  }

  /** The copy stands beside the forest, ready to be moved into target. */
  lemma BesideCopy<T>(a: State<T>, b: State<T>, f: State<T>, target: Node<T>, temp: Node<T>)
    requires Forest(a) && Forest(b) && Forest(f) && Agree(a, f) && Agree(b, f) && a.Keys !! b.Keys && f.Keys == a.Keys + b.Keys
    requires target in a && temp in b && b[temp].parent == null
    ensures target in f && temp in f && target != temp && target !in Below(f, temp) && temp !in Below(f, target)
    ensures Below(f, target) == Below(a, target) && Below(f, temp) == Below(b, temp) && Below(b, temp) <= b.Keys
    ensures Below(a, target) <= a.Keys
    ensures Value(f, temp) == Value(b, temp) && f[temp].parent == null
  {
    SameInLarger(a, f, target);
    SameInLarger(b, f, temp);
    BelowIsSubtree(a, target);
    BelowIsSubtree(b, temp);
  }

  /** Once target has taken the children of temp, temp can go. */
  lemma CopyTaken<T>(f: State<T>, h: State<T>, target: Node<T>, temp: Node<T>)
    requires target in f && temp in f && target != temp && Forest(f) && target !in Below(f, temp) && temp !in Below(f, target) && f[temp].parent == null
    requires SameLinks(Restrict(MovedLinks(f, target, temp), Live(f, Below(f, target), Below(f, temp))), h) && StaleAt(h, {temp})
    ensures temp in h && target in h && Forest(Restrict(h, h.Keys - {temp}))
    ensures Value(Restrict(h, h.Keys - {temp}), target) == Value(f, temp)
  {
    hide Below;
    TipHasNoNeighbours(f, h, target, temp);
    var g := SetSize(h, temp, 1);
    FreshTip(h, temp);
    SetSizeLinks(h, temp, 1);
    LinksAgain(Restrict(MovedLinks(f, target, temp), Live(f, Below(f, target), Below(f, temp))), h, g);
    MovedIs(f, g, target, temp);
    TargetValue(f, g, target, temp);
    DropIsolated(g, temp, target);
    assert Restrict(g, g.Keys - {temp}) == Restrict(h, h.Keys - {temp});
  }

  lemma TipHasNoNeighbours<T>(f: State<T>, h: State<T>, target: Node<T>, temp: Node<T>)
    requires target in f && temp in f && target != temp && Forest(f) && target !in Below(f, temp) && temp !in Below(f, target) && f[temp].parent == null
    requires SameLinks(Restrict(MovedLinks(f, target, temp), Live(f, Below(f, target), Below(f, temp))), h)
    ensures temp in h && target in h && h[temp].left == null && h[temp].right == null && h[temp].parent == null
  {
    BelowIsSubtree(f, target);
    assert Linked(f, temp);
  }

  lemma FreshTip<T>(h: State<T>, c: Node<T>)
    requires StaleAt(h, {c}) && c in h && h[c].left == null && h[c].right == null && h[c].parent == null
    ensures Forest(SetSize(h, c, 1))
  {
    var g := SetSize(h, c, 1);
    forall n | n in g ensures Linked(g, n) && Sized(g, n) {
      assert Linked(h, n) && (n == c || Sized(h, n));
    }
  }

  lemma OnlyTarget<T>(a: State<T>, b: State<T>, f: State<T>, h: State<T>, g: State<T>, target: Node<T>, temp: Node<T>)
    requires Forest(a) && Forest(b) && Forest(f) && Agree(a, f) && Agree(b, f) && a.Keys !! b.Keys && f.Keys == a.Keys + b.Keys
    requires target in a && temp in b && b[temp].parent == null
    requires SameLinks(Restrict(MovedLinks(f, target, temp), Live(f, Below(f, target), Below(f, temp))), h)
    requires g == Restrict(h, h.Keys - {temp})
    ensures OnlyTargetChanged(a, g, target, Below(a, target))
  {
    BesideCopy(a, b, f, target, temp);
    assert Linked(b, temp);
    hide Below, Forest;
    forall n | n in a && n !in Below(a, target)
      ensures n in g && g[n].parent == a[n].parent
      ensures n != target ==> g[n].data == a[n].data && g[n].left == a[n].left && g[n].right == a[n].right
    {
      assert n in f && f[n] == a[n];
    }
  }

  lemma CopiedLive<T>(a: State<T>, b: State<T>, f: State<T>, target: Node<T>, temp: Node<T>)
    requires Forest(a) && Forest(b) && Forest(f) && Agree(a, f) && Agree(b, f) && a.Keys !! b.Keys && f.Keys == a.Keys + b.Keys
    requires target in a && temp in b && b[temp].parent == null
    ensures target in f && temp in f
    ensures var live := Live(f, Below(f, target), Below(f, temp)) - {temp}; live * a.Keys == a.Keys - Below(a, target) && live <= a.Keys + b.Keys
  {
    BesideCopy(a, b, f, target, temp);
  }

  ghost predicate Beside<T>(a: State<T>, b: State<T>, f: State<T>, target: Node<T>, temp: Node<T>) {
    && Forest(a) && Forest(b) && Forest(f) && Agree(a, f) && Agree(b, f) && a.Keys !! b.Keys && f.Keys == a.Keys + b.Keys
    && target in a && temp in b && b[temp].parent == null
  }

  /** What holds of the nodes that are left once the copy has been taken over. */
  lemma CopyDone<T>(a: State<T>, b: State<T>, f: State<T>, h: State<T>, target: Node<T>, temp: Node<T>)
    requires target in f && temp in f && Beside(a, b, f, target, temp)
    requires SameLinks(Restrict(MovedLinks(f, target, temp), Live(f, Below(f, target), Below(f, temp))), h) && StaleAt(h, {temp})
    ensures var g := Restrict(h, h.Keys - {temp});
            && target in g && Forest(g) && Value(g, target) == Value(b, temp) && OnlyTargetChanged(a, g, target, Below(a, target))
            && g.Keys * a.Keys == a.Keys - Below(a, target) && g.Keys <= a.Keys + b.Keys
  {
    hide Forest, Below, Linked, Sized, StaleAt, SameLinks, MovedLinks, Value, Agree, OnlyTargetChanged;
    BesideCopy(a, b, f, target, temp);
    CopyTaken(f, h, target, temp);
    CopiedLive(a, b, f, target, temp);
    OnlyTarget(a, b, f, h, Restrict(h, h.Keys - {temp}), target, temp);
    KeysOf(f, h, target, temp);
  }

  lemma KeysOf<T>(f: State<T>, h: State<T>, target: Node<T>, temp: Node<T>)
    requires target in f && temp in f && Forest(f)
    requires SameLinks(Restrict(MovedLinks(f, target, temp), Live(f, Below(f, target), Below(f, temp))), h)
    ensures h.Keys == Live(f, Below(f, target), Below(f, temp))
  {
    BelowIsSubtree(f, temp);
  }

  lemma BesideIs<T>(s: set<Node<T>>, made: set<Node<T>>, target: Node<T>, temp: Node<T>)
    requires s !! made && Forest(Snap(s)) && Forest(Snap(made)) && target in s && temp in made && temp.parent == null
    ensures target in Snap(s + made) && temp in Snap(s + made) && Beside(Snap(s), Snap(made), Snap(s + made), target, temp)
    ensures Forest(Snap(s + made)) && target != temp && target !in Below(Snap(s + made), temp)
  {
    hide Below, Forest, Agree;
    UnionAgrees(s, made);
    UnionForest(Snap(s), Snap(made));
    assert Snap(made)[temp] == temp.Now();
    BesideCopy(Snap(s), Snap(made), Snap(s + made), target, temp);
  }

  /** The target becomes a copy of other, which may be anywhere, in its own subtree or above it. */
  method CopyAssign<T>(target: Node<T>, other: Node<T>, ghost s: set<Node<T>>) returns (ghost live: set<Node<T>>)
    requires Forest(Snap(s)) && target in s && other in s
    modifies s
    ensures target in live && Forest(Snap(live)) && fresh(live - s)
    ensures Value(Snap(live), target) == old(Value(Snap(s), other))
    ensures OnlyTargetChanged(old(Snap(s)), Snap(live), target, old(Below(Snap(s), target)))
    ensures live * s == s - old(Below(Snap(s), target))
  {
    hide Forest, Below, StaleAt, Ranked, Paired, SameLinks, MovedLinks, Value, RankOf, Beside, OnlyTargetChanged, Live, Restrict;
    ghost var a := Snap(s);
    ghost var made: set<Node<T>>;
    var temp: Node<T>;
    temp, made := DeepCopy(other, s);
    ghost var b, u := Snap(made), s + made;
    ghost var f := Snap(u);
    BesideIs(s, made, target, temp);
    ghost var all := TakeOver(target, temp, u);
    RestrictLinks(MovedLinks(f, target, temp), Snap(u), all);
    SnapRestricts(u, all);
    CopyDone(a, b, f, Snap(all), target, temp);
    live := all - {temp};
    assert Snap(all).Keys == all && Snap(live).Keys == live && a.Keys == s && b.Keys == made;
    SnapRestricts(all, live);
  }
}
