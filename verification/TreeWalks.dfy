/**
 The recursive traversal of a tree with a visitor that may refuse to go on: which events it announces, in which order, and
 what an answer cuts off.
 */
module TreeWalks {
  import opened BinaryNodes

  datatype Context = PreOrder | InOrder | PostOrder | Any

  datatype Event<T> = Event(node: Node<T>, context: Context)

  /** Which events are announced, and the visitor's answer, which may depend on all that it has seen. */
  datatype Visitor<!T> = Visitor(pre: bool, mid: bool, post: bool, leaves: bool, internals: bool, goOn: (seq<Event<T>>, Event<T>) -> bool)

  function Wants<T>(v: Visitor<T>, c: Context): bool {
    match c
    case Any => v.leaves
    case PreOrder => v.pre && v.internals
    case InOrder => v.mid && v.internals
    case PostOrder => v.post && v.internals
  }

  function Announce<T>(v: Visitor<T>, log: seq<Event<T>>, e: Event<T>): seq<Event<T>> {
    if Wants(v, e.context) then log + [e] else log
  }

  /** Whether to go on with the subtree; an event that is not announced never stops it. */
  function GoesOn<T>(v: Visitor<T>, log: seq<Event<T>>, e: Event<T>): bool {
    !Wants(v, e.context) || v.goOn(log, e)
  }

  // ---- The recursive traversal ----

  ghost function Walk<T>(f: State<T>, v: Visitor<T>, n: Node<T>, log: seq<Event<T>>): seq<Event<T>>
    requires Forest(f) && n in f
    decreases f[n].size, 1
  {
    assert Linked(f, n) && Sized(f, n);
    if f[n].left == null then Announce(v, log, Event(n, Any))
    else
      var seen := Announce(v, log, Event(n, PreOrder));
      if GoesOn(v, log, Event(n, PreOrder)) then AfterLeft(f, v, n, Walk(f, v, f[n].left, seen)) else seen
  }

  /** What is left of the traversal of n once its left subtree is done. */
  ghost function AfterLeft<T>(f: State<T>, v: Visitor<T>, n: Node<T>, log: seq<Event<T>>): seq<Event<T>>
    requires Forest(f) && n in f && f[n].left != null
    decreases f[n].size, 0
  {
    assert Linked(f, n) && Sized(f, n);
    var seen := Announce(v, log, Event(n, InOrder));
    if GoesOn(v, log, Event(n, InOrder)) then AfterRight(v, n, Walk(f, v, f[n].right, seen)) else seen
  }

  ghost function AfterRight<T>(v: Visitor<T>, n: Node<T>, log: seq<Event<T>>): seq<Event<T>> {
    Announce(v, log, Event(n, PostOrder))
  }

  // ---- Contents ----

  /** An event of the subtree of n: leaves have one of their own kind, inner nodes the other three. */
  ghost predicate EventOf<T>(f: State<T>, n: Node<T>, e: Event<T>)
    requires Forest(f) && n in f
  {
    Within(f, n, e.node) && e.node in f && (e.context == Any <==> f[e.node].left == null)
  }

  /** The visitor has asked for this kind of events at this kind of nodes. */
  ghost predicate Asked<T>(v: Visitor<T>, e: Event<T>) {
    if e.context == Any then v.leaves
    else v.internals && (e.context == PreOrder ==> v.pre) && (e.context == InOrder ==> v.mid) && (e.context == PostOrder ==> v.post)
  }

  /** The visitor answers the k-th event of the log with false. */
  ghost predicate Refuses<T>(v: Visitor<T>, log: seq<Event<T>>, k: nat)
    requires k < |log|
  {
    !v.goOn(log[..k], log[k])
  }

  /**
   What going no further after e cuts off: after the pre-order event of n everything else of n and all below it, after its
   in-order event the right subtree and the post-order event of n, and nothing after the other two kinds.
   */
  ghost predicate Cuts<T>(f: State<T>, e: Event<T>, x: Event<T>)
    requires Forest(f) && e.node in f
  {
    match e.context
    case PreOrder => x != e && Within(f, e.node, x.node)
    case InOrder => f[e.node].right != null && f[e.node].right in f && (Within(f, f[e.node].right, x.node) || x == Event(e.node, PostOrder))
    case PostOrder => false
    case Any => false
  }

  /** An event from position a to b is refused and cuts off x. */
  ghost predicate CutOff<T>(f: State<T>, v: Visitor<T>, log: seq<Event<T>>, a: nat, b: nat, x: Event<T>)
    requires Forest(f) && b <= |log|
  {
    exists k :: a <= k < b && CutAt(f, v, log, k, x)
  }

  ghost predicate CutAt<T>(f: State<T>, v: Visitor<T>, log: seq<Event<T>>, k: nat, x: Event<T>)
    requires Forest(f) && k < |log|
  {
    log[k].node in f && Refuses(v, log, k) && Cuts(f, log[k], x)
  }

  lemma Offspring<T>(f: State<T>, n: Node<T>)
    requires Forest(f) && n in f
    ensures f[n].left == null <==> f[n].right == null
    ensures f[n].left != null ==>
              && f[n].left in f && f[n].right in f && f[n].left != f[n].right
              && f[f[n].left].parent == n && f[f[n].right].parent == n && f[n].size == 1 + f[f[n].left].size + f[f[n].right].size
    ensures f[n].size >= 1
  {
    assert Linked(f, n) && Sized(f, n);
  }

  lemma {:induction false} WalkPrefix<T>(f: State<T>, v: Visitor<T>, n: Node<T>, log: seq<Event<T>>)
    requires Forest(f) && n in f
    ensures log <= Walk(f, v, n, log)
    decreases f[n].size, 1
  {
    hide Forest;
    Offspring(f, n);
    if f[n].left != null {
      var seen := Announce(v, log, Event(n, PreOrder));
      WalkPrefix(f, v, f[n].left, seen);
      AfterLeftPrefix(f, v, n, Walk(f, v, f[n].left, seen));
    }
  }

  lemma {:induction false} AfterLeftPrefix<T>(f: State<T>, v: Visitor<T>, n: Node<T>, log: seq<Event<T>>)
    requires Forest(f) && n in f && f[n].left != null
    ensures log <= AfterLeft(f, v, n, log)
    decreases f[n].size, 0
  {
    hide Forest;
    Offspring(f, n);
    WalkPrefix(f, v, f[n].right, Announce(v, log, Event(n, InOrder)));
  }

  // ---- Stretches of a log ----

  lemma CutOffEarlier<T>(f: State<T>, v: Visitor<T>, log: seq<Event<T>>, more: seq<Event<T>>, a: nat, b: nat, x: Event<T>)
    requires Forest(f) && b <= |log| && log <= more
    ensures CutOff(f, v, more, a, b, x) <==> CutOff(f, v, log, a, b, x)
  {
    hide Cuts, Forest;
    forall k | a <= k < b ensures CutAt(f, v, more, k, x) <==> CutAt(f, v, log, k, x) { assert more[..k] == log[..k] && more[k] == log[k]; }
  }

  lemma CutOffSplit<T>(f: State<T>, v: Visitor<T>, log: seq<Event<T>>, a: nat, b: nat, c: nat, x: Event<T>)
    requires Forest(f) && a <= b <= c <= |log|
    ensures CutOff(f, v, log, a, c, x) <==> CutOff(f, v, log, a, b, x) || CutOff(f, v, log, b, c, x)
    ensures x in log[a..c] <==> x in log[a..b] || x in log[b..c]
  {
    hide CutAt, Forest;
    assert log[a..c] == log[a..b] + log[b..c];
  }

  /** From position a on, the log has x. */
  ghost predicate Has<T>(log: seq<Event<T>>, a: nat, x: Event<T>) {
    a <= |log| && x in log[a..]
  }

  ghost predicate Cut<T>(f: State<T>, v: Visitor<T>, log: seq<Event<T>>, a: nat, x: Event<T>)
    requires Forest(f)
  {
    CutOff(f, v, log, a, |log|, x)
  }

  /** What happens to x in a log that has grown twice. */
  lemma Grown2<T>(f: State<T>, v: Visitor<T>, log: seq<Event<T>>, more: seq<Event<T>>, a: nat, x: Event<T>)
    requires Forest(f) && a <= |log| && log <= more
    ensures Has(more, a, x) <==> Has(log, a, x) || Has(more, |log|, x)
    ensures Cut(f, v, more, a, x) <==> Cut(f, v, log, a, x) || Cut(f, v, more, |log|, x)
  {
    hide CutOff, Forest;
    CutOffSplit(f, v, more, a, |log|, |more|, x);
    CutOffEarlier(f, v, log, more, a, |log|, x);
    assert more[a..|log|] == log[a..] && more[a..|more|] == more[a..] && more[|log|..|more|] == more[|log|..];
  }

  lemma Announced<T>(f: State<T>, v: Visitor<T>, log: seq<Event<T>>, e: Event<T>, x: Event<T>)
    requires Forest(f) && e.node in f
    ensures var seen := Announce(v, log, e);
            && log <= seen
            && (Has(seen, |log|, x) <==> x == e && Asked(v, e))
            && (Cut(f, v, seen, |log|, x) <==> !GoesOn(v, log, e) && Cuts(f, e, x))
    ensures GoesOn(v, log, e) <==> !Asked(v, e) || v.goOn(log, e)
  {
    hide Cuts, Forest;
    var seen := Announce(v, log, e);
    if Wants(v, e.context) {
      assert seen[|log|..] == [e] && seen[..|log|] == log;
      if !v.goOn(log, e) && Cuts(f, e, x) { assert CutAt(f, v, seen, |log|, x); }
    }
  }

  // ---- Where an event belongs ----

  /** x is at n, in its left or its right subtree, or none of these. */
  lemma Places<T>(f: State<T>, n: Node<T>, x: Event<T>)
    requires Forest(f) && n in f && f[n].left != null
    ensures f[n].left in f && f[n].right in f && f[n].right != null
    ensures Within(f, n, x.node) <==> x.node == n || Within(f, f[n].left, x.node) || Within(f, f[n].right, x.node)
    ensures !(x.node == n && Within(f, f[n].left, x.node)) && !(x.node == n && Within(f, f[n].right, x.node))
    ensures !(Within(f, f[n].left, x.node) && Within(f, f[n].right, x.node))
  {
    hide Forest, Below;
    Children(f, n);
    Split(f, n);
    NotBelowItself(f, n);
  }

  lemma NodeIsWithin<T>(f: State<T>, n: Node<T>, m: Node<T>, x: Node<T>)
    requires Forest(f) && n in f && Within(f, n, m)
    ensures m in f && (Within(f, m, x) ==> Within(f, n, x))
  {
    hide Below, Within, Forest;
    WithinParent(f, n, m);
    if Within(f, m, x) { WithinTransitive(f, n, m, x); }
  }

  lemma {:induction false} WithinTransitive<T>(f: State<T>, n: Node<T>, m: Node<T>, x: Node<T>)
    requires Forest(f) && n in f && m in f && Within(f, n, m) && Within(f, m, x)
    ensures Within(f, n, x)
    decreases if x in f then f[m].size - f[x].size else 0
  {
    hide Forest, Below;
    if x != m {
      hide Within;
      WithinParent(f, m, x);
      WithinTransitive(f, n, m, f[x].parent);
      UpIsWithin(f, n, x);
    }
  }

  lemma UpIsWithin<T>(f: State<T>, n: Node<T>, x: Node<T>)
    requires Forest(f) && n in f && x in f && f[x].parent != null && Within(f, n, f[x].parent)
    ensures Within(f, n, x)
  {
    var p := f[x].parent;
    assert Linked(f, x);
    if p == n {
      assert Linked(f, n) && Sized(f, n);
    } else {
      hide Below, Forest;
      BelowSmaller(f, n, p);
    }
  }

  // ---- Which events are announced ----

  /** In the stretch from a on, x is there exactly if it was asked for and not cut off; events elsewhere are neither. */
  ghost predicate Exact<T>(f: State<T>, v: Visitor<T>, n: Node<T>, log: seq<Event<T>>, a: nat, x: Event<T>)
    requires Forest(f) && n in f
  {
    && (EventOf(f, n, x) ==> (Has(log, a, x) <==> Asked(v, x) && !Cut(f, v, log, a, x)))
    && (Within(f, n, x.node) && !EventOf(f, n, x) ==> !Has(log, a, x))
    && (!Within(f, n, x.node) ==> !Has(log, a, x) && !Cut(f, v, log, a, x))
  }

  lemma {:induction false} WalkIs<T>(f: State<T>, v: Visitor<T>, n: Node<T>, log: seq<Event<T>>, x: Event<T>)
    requires Forest(f) && n in f
    ensures Exact(f, v, n, Walk(f, v, n, log), |log|, x)
    decreases f[n].size, 1
  {
    hide Forest, Below, Within, Cuts, Has, Cut, Announce, GoesOn, AfterLeft, Asked;
    Offspring(f, n);
    if f[n].left == null {
      Announced(f, v, log, Event(n, Any), x);
      LeafCuts(f, n, x);
    } else {
      var e := Event(n, PreOrder);
      var seen := Announce(v, log, e);
      Announced(f, v, log, e, x);
      Places(f, n, x);
      PreCuts(f, n, x);
      if GoesOn(v, log, e) {
        var l := Walk(f, v, f[n].left, seen);
        var r := AfterLeft(f, v, n, l);
        WalkPrefix(f, v, f[n].left, seen);
        AfterLeftPrefix(f, v, n, l);
        WalkIs(f, v, f[n].left, seen, x);
        AfterLeftIs(f, v, n, l, x);
        Grown2(f, v, seen, l, |log|, x);
        Grown2(f, v, l, r, |log|, x);
      }
    }
  }

  /** The same for what follows the left subtree: the in-order event, the right subtree and the post-order event of n. */
  ghost predicate ExactAfter<T>(f: State<T>, v: Visitor<T>, n: Node<T>, log: seq<Event<T>>, a: nat, x: Event<T>)
    requires Forest(f) && n in f && f[n].right != null && f[n].right in f
  {
    var right := f[n].right;
    && (EventOf(f, right, x) || x == Event(n, InOrder) || x == Event(n, PostOrder) ==>
          (Has(log, a, x) <==> Asked(v, x) && !Cut(f, v, log, a, x)))
    && (Within(f, right, x.node) && !EventOf(f, right, x) ==> !Has(log, a, x))
    && (!Within(f, right, x.node) && x != Event(n, InOrder) && x != Event(n, PostOrder) ==> !Has(log, a, x))
    && (!Within(f, right, x.node) && x != Event(n, PostOrder) ==> !Cut(f, v, log, a, x))
  }

  lemma {:induction false} AfterLeftIs<T>(f: State<T>, v: Visitor<T>, n: Node<T>, log: seq<Event<T>>, x: Event<T>)
    requires Forest(f) && n in f && f[n].left != null
    ensures f[n].right != null && f[n].right in f && ExactAfter(f, v, n, AfterLeft(f, v, n, log), |log|, x)
    decreases f[n].size, 0
  {
    hide Forest, Below, Within, Cuts, Has, Cut, Announce, GoesOn, Walk, Asked;
    Offspring(f, n);
    var e, o := Event(n, InOrder), Event(n, PostOrder);
    var seen := Announce(v, log, e);
    Announced(f, v, log, e, x);
    Places(f, n, x);
    LaterCuts(f, n, x);
    if GoesOn(v, log, e) {
      var r := Walk(f, v, f[n].right, seen);
      WalkPrefix(f, v, f[n].right, seen);
      WalkIs(f, v, f[n].right, seen, x);
      Announced(f, v, r, o, x);
      Grown2(f, v, seen, r, |log|, x);
      Grown2(f, v, r, Announce(v, r, o), |log|, x);
    }
  }

  lemma PreCuts<T>(f: State<T>, n: Node<T>, x: Event<T>)
    requires Forest(f) && n in f
    ensures Cuts(f, Event(n, PreOrder), x) <==> x != Event(n, PreOrder) && Within(f, n, x.node)
    ensures EventOf(f, n, x) && x.node == n && f[n].left != null ==> x.context != Any
    ensures x.node == n ==> Within(f, n, x.node)
  {
  }

  lemma LaterCuts<T>(f: State<T>, n: Node<T>, x: Event<T>)
    requires Forest(f) && n in f && f[n].right != null && f[n].right in f
    ensures Cuts(f, Event(n, InOrder), x) <==> Within(f, f[n].right, x.node) || x == Event(n, PostOrder)
    ensures !Cuts(f, Event(n, PostOrder), x)
  {
  }

  lemma LeafCuts<T>(f: State<T>, n: Node<T>, x: Event<T>)
    requires Forest(f) && n in f && f[n].left == null
    ensures !Cuts(f, Event(n, Any), x)
    ensures EventOf(f, n, x) <==> x == Event(n, Any)
    ensures x == Event(n, Any) ==> Within(f, n, x.node)
  {
  }

  /**
   What the traversal of n adds to the log: exactly the events of its subtree that were asked for and that no refused event
   cuts off.
   */
  lemma WalkContents<T>(f: State<T>, v: Visitor<T>, n: Node<T>, log: seq<Event<T>>, x: Event<T>)
    requires Forest(f) && n in f
    ensures var seen := Walk(f, v, n, log);
            && log <= seen
            && (x in seen[|log|..] <==> EventOf(f, n, x) && Asked(v, x) && !exists k :: |log| <= k < |seen| && CutAt(f, v, seen, k, x))
  {
    hide Forest, Within, Asked, CutAt;
    WalkPrefix(f, v, n, log);
    WalkIs(f, v, n, log, x);
  }

  // ---- In which order ----

  /** Where in the traversal of n its event x falls: before, in, or after the left subtree, in the right one, or last. */
  ghost function Stage<T>(f: State<T>, n: Node<T>, x: Event<T>): nat
    requires Forest(f) && n in f
  {
    if x.node == n then (match x.context case PreOrder => 0 case InOrder => 2 case PostOrder => 4 case Any => 2)
    else if f[n].left != null && f[n].left in f && Within(f, f[n].left, x.node) then 1
    else 3
  }

  /** As far as the subtree of m goes, x comes before y. */
  ghost predicate InTurn<T>(f: State<T>, m: Node<T>, x: Event<T>, y: Event<T>)
    requires Forest(f) && m in f
  {
    EventOf(f, m, x) && EventOf(f, m, y) ==>
      Stage(f, m, x) < Stage(f, m, y) || (Stage(f, m, x) == Stage(f, m, y) && x.node != m && y.node != m)
  }

  lemma WalkEvent<T>(f: State<T>, v: Visitor<T>, n: Node<T>, log: seq<Event<T>>, i: nat)
    requires Forest(f) && n in f && |log| <= i < |Walk(f, v, n, log)|
    ensures EventOf(f, n, Walk(f, v, n, log)[i])
  {
    hide Forest, Within, Asked, CutAt;
    var seen := Walk(f, v, n, log);
    WalkContents(f, v, n, log, seen[i]);
    assert seen[|log|..][i - |log|] == seen[i];
  }

  /** What follows the left subtree: the in-order event of n, events of the right subtree, the post-order event of n. */
  lemma AfterLeftEvent<T>(f: State<T>, v: Visitor<T>, n: Node<T>, log: seq<Event<T>>, i: nat)
    requires Forest(f) && n in f && f[n].left != null && |log| <= i < |AfterLeft(f, v, n, log)|
    ensures f[n].right != null && f[n].right in f
    ensures var seen, all := Announce(v, log, Event(n, InOrder)), AfterLeft(f, v, n, log);
            && seen <= all && |seen| <= |log| + 1
            && (i < |seen| ==> all[i] == Event(n, InOrder))
            && (i >= |seen| ==> (all[i] == Event(n, PostOrder) && i == |all| - 1)
                                || (i < |Walk(f, v, f[n].right, seen)| && all[i] == Walk(f, v, f[n].right, seen)[i] && EventOf(f, f[n].right, all[i])))
  {
    hide Forest, Below, Within, Walk;
    Offspring(f, n);
    var seen := Announce(v, log, Event(n, InOrder));
    WalkPrefix(f, v, f[n].right, seen);
    if |seen| <= i < |Walk(f, v, f[n].right, seen)| { WalkEvent(f, v, f[n].right, seen, i); }
  }

  lemma {:induction false} AfterLeftOrder<T>(f: State<T>, v: Visitor<T>, n: Node<T>, log: seq<Event<T>>, i: nat, j: nat, m: Node<T>)
    requires Forest(f) && n in f && f[n].left != null && |log| <= i < j < |AfterLeft(f, v, n, log)| && Within(f, n, m)
    ensures m in f && InTurn(f, m, AfterLeft(f, v, n, log)[i], AfterLeft(f, v, n, log)[j])
    decreases f[n].size, 0
  {
    hide Forest, Below, Within, Walk, Announce, GoesOn, AfterLeft;
    var all, seen := AfterLeft(f, v, n, log), Announce(v, log, Event(n, InOrder));
    Offspring(f, n);
    AfterLeftEvent(f, v, n, log, i);
    AfterLeftEvent(f, v, n, log, j);
    Around(f, n, m, all[i]);
    Around(f, n, m, all[j]);
    if i >= |seen| && j < |Walk(f, v, f[n].right, seen)| && Within(f, f[n].right, m) {
      WalkOrder(f, v, f[n].right, seen, i, j, m);
    }
  }

  /** An event of a node below n is one of the child's subtree that the node is in. */
  lemma Around<T>(f: State<T>, n: Node<T>, m: Node<T>, x: Event<T>)
    requires Forest(f) && n in f && f[n].left != null && Within(f, n, m)
    ensures m in f && f[n].left in f && f[n].right in f && f[n].right != null
    ensures m == n || Within(f, f[n].left, m) || Within(f, f[n].right, m)
    ensures Within(f, f[n].left, m) && EventOf(f, m, x) ==> m != n && x.node != n && Within(f, f[n].left, x.node) && !Within(f, f[n].right, x.node)
    ensures Within(f, f[n].right, m) && EventOf(f, m, x) ==> m != n && x.node != n && Within(f, f[n].right, x.node) && !Within(f, f[n].left, x.node)
    ensures x.node != n && Within(f, f[n].left, x.node) ==> Stage(f, n, x) == 1
    ensures x.node != n && !Within(f, f[n].left, x.node) ==> Stage(f, n, x) == 3
    ensures Within(f, f[n].right, x.node) ==> x.node != n && !Within(f, f[n].left, x.node)
    ensures Within(f, f[n].left, x.node) ==> x.node != n
  {
    hide Forest, Below, Within;
    Places(f, n, Event(m, Any));
    Places(f, n, x);
    NodeIsWithin(f, n, m, x.node);
    if Within(f, f[n].left, m) { NodeIsWithin(f, f[n].left, m, x.node); }
    if Within(f, f[n].right, m) { NodeIsWithin(f, f[n].right, m, x.node); }
  }

  /** Events come in the order of the stages of every node, and none comes twice. */
  lemma {:induction false} WalkOrder<T>(f: State<T>, v: Visitor<T>, n: Node<T>, log: seq<Event<T>>, i: nat, j: nat, m: Node<T>)
    requires Forest(f) && n in f && |log| <= i < j < |Walk(f, v, n, log)| && Within(f, n, m)
    ensures m in f && InTurn(f, m, Walk(f, v, n, log)[i], Walk(f, v, n, log)[j])
    decreases f[n].size, 1
  {
    hide Forest, Below, Within, AfterLeft, GoesOn, Stage;
    Offspring(f, n);
    if f[n].left != null {
      var seen := Announce(v, log, Event(n, PreOrder));
      var l := Walk(f, v, f[n].left, seen);
      var all := Walk(f, v, n, log);
      WalkPrefix(f, v, f[n].left, seen);
      AfterLeftPrefix(f, v, n, l);
      if GoesOn(v, log, Event(n, PreOrder)) {
        assert all == AfterLeft(f, v, n, l);
        if i >= |l| {
          AfterLeftOrder(f, v, n, l, i, j, m);
        } else {
          EarlierInTurn(f, v, n, log, i, j, m);
          if i >= |seen| && j < |l| && Within(f, f[n].left, m) { WalkOrder(f, v, f[n].left, seen, i, j, m); }
        }
      }
    }
  }

  /** The pre-order event and the left subtree of n come before everything else. */
  lemma EarlierInTurn<T>(f: State<T>, v: Visitor<T>, n: Node<T>, log: seq<Event<T>>, i: nat, j: nat, m: Node<T>)
    requires Forest(f) && n in f && f[n].left != null && f[n].left in f && Within(f, n, m) && GoesOn(v, log, Event(n, PreOrder))
    requires var l := Walk(f, v, f[n].left, Announce(v, log, Event(n, PreOrder)));
             |log| <= i < |l| && i < j < |AfterLeft(f, v, n, l)| && l <= AfterLeft(f, v, n, l)
    ensures var seen := Announce(v, log, Event(n, PreOrder));
            var l := Walk(f, v, f[n].left, seen);
            var all := AfterLeft(f, v, n, l);
            m in f && (InTurn(f, m, all[i], all[j]) || (i >= |seen| && j < |l| && Within(f, f[n].left, m)))
  {
    hide Forest, Below, Within, AfterLeft, Walk;
    var seen := Announce(v, log, Event(n, PreOrder));
    var l := Walk(f, v, f[n].left, seen);
    var all := AfterLeft(f, v, n, l);
    WalkPrefix(f, v, f[n].left, seen);
    assert all[i] == l[i];
    Around(f, n, m, all[i]);
    Around(f, n, m, all[j]);
    if i >= |seen| { WalkEvent(f, v, f[n].left, seen, i); } else { assert l[i] == seen[i]; }
    if j < |l| {
      WalkEvent(f, v, f[n].left, seen, j);
    } else {
      AfterLeftEvent(f, v, n, l, j);
    }
  }

  /** The log has the events of the subtree of n that were asked for and that no refused event cuts off, in the order of the stages. */
  ghost predicate Traversal<T>(f: State<T>, v: Visitor<T>, n: Node<T>, log: seq<Event<T>>)
    requires Forest(f) && n in f
  {
    && (forall x :: x in log ==> EventOf(f, n, x))
    && (forall m, c :: m in f && EventOf(f, n, Event(m, c)) ==>
          (Event(m, c) in log <==> Asked(v, Event(m, c)) && !exists k :: 0 <= k < |log| && CutAt(f, v, log, k, Event(m, c))))
    && (forall i, j, m :: 0 <= i < j < |log| && m in f && Within(f, n, m) ==> InTurn(f, m, log[i], log[j]))
    && forall i, j :: 0 <= i < j < |log| ==> log[i] != log[j]
  }

  lemma WalkIsTraversal<T>(f: State<T>, v: Visitor<T>, n: Node<T>)
    requires Forest(f) && n in f
    ensures Traversal(f, v, n, Walk(f, v, n, []))
  {
    hide Forest, Within, Asked, CutAt, Walk, InTurn;
    var log := Walk(f, v, n, []);
    assert log[0..] == log;
    forall x | x in log ensures EventOf(f, n, x) { WalkContents(f, v, n, [], x); }
    forall m, c | m in f && EventOf(f, n, Event(m, c))
      ensures Event(m, c) in log <==> Asked(v, Event(m, c)) && !exists k :: 0 <= k < |log| && CutAt(f, v, log, k, Event(m, c))
    {
      WalkContents(f, v, n, [], Event(m, c));
    }
    forall i, j, m | 0 <= i < j < |log| && m in f && Within(f, n, m) ensures InTurn(f, m, log[i], log[j]) {
      WalkOrder(f, v, n, [], i, j, m);
    }
    forall i, j | 0 <= i < j < |log| ensures log[i] != log[j] {
      WalkEvent(f, v, n, [], i);
      WalkOrder(f, v, n, [], i, j, log[i].node);
      OneTurn(f, log[i], log[j]);
    }
  }

  lemma OneTurn<T>(f: State<T>, x: Event<T>, y: Event<T>)
    requires Forest(f) && x.node in f && InTurn(f, x.node, x, y) && (x.context == Any <==> f[x.node].left == null)
    ensures x != y
  {
  }
}
