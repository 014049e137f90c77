/** The traversal that follows parent links with a current and a previous node, against the recursive one. */
module TreeVisits {
  import opened BinaryNodes
  import opened TreeWalks

  ghost function Larger<T>(f: State<T>, n: Node<T>): set<Node<T>>
    requires n in f
  {
    set m | m in f && f[m].size >= f[n].size
  }

  lemma LargerShrinks<T>(f: State<T>, n: Node<T>)
    requires Forest(f) && n in f && f[n].parent != null
    ensures f[n].parent in f && Larger(f, f[n].parent) < Larger(f, n)
    ensures f[f[n].parent].left != null && f[f[n].parent].right in f && f[f[n].parent].left in f
    ensures n == f[f[n].parent].left || n == f[f[n].parent].right
  {
    var p := f[n].parent;
    assert Linked(f, n) && Linked(f, p) && Sized(f, p);
    assert n in Larger(f, n) && n !in Larger(f, p);
  }

  /** What the ancestors of n add once n is done. */
  ghost function Rest<T>(f: State<T>, v: Visitor<T>, n: Node<T>, log: seq<Event<T>>): seq<Event<T>>
    requires Forest(f) && n in f
    decreases Larger(f, n)
  {
    var p := f[n].parent;
    if p == null then log
    else
      LargerShrinks(f, n);
      Rest(f, v, p, if n == f[p].left then AfterLeft(f, v, p, log) else AfterRight(v, p, log))
  }

  // ---- The loop ----

  /** What remains to be seen from the current node, given the node visited before. */
  ghost function Remaining<T>(f: State<T>, v: Visitor<T>, cur: Node?<T>, prev: Node<T>, log: seq<Event<T>>): seq<Event<T>>
    requires Forest(f) && (cur != null ==> cur in f)
  {
    if cur == null then log
    else if f[cur].left == null then Rest(f, v, cur, Walk(f, v, cur, log))
    else if prev == f[cur].left then Rest(f, v, cur, AfterLeft(f, v, cur, log))
    else if prev == f[cur].right then Rest(f, v, cur, AfterRight(v, cur, log))
    else Rest(f, v, cur, Walk(f, v, cur, log))
  }

  /** Steps that are left. */
  ghost function UpSteps<T>(f: State<T>, n: Node<T>): nat
    requires Forest(f) && n in f
    decreases Larger(f, n)
  {
    var p := f[n].parent;
    if p == null then 0
    else
      LargerShrinks(f, n);
      if n == f[p].left then 2 + 3 * f[f[p].right].size + UpSteps(f, p) else 1 + UpSteps(f, p)
  }

  ghost function Steps<T>(f: State<T>, cur: Node?<T>, prev: Node<T>): nat
    requires Forest(f) && (cur != null ==> cur in f)
  {
    if cur == null then 0
    else if f[cur].left != null && prev == f[cur].left then
      assert Linked(f, cur);
      2 + 3 * f[f[cur].right].size + UpSteps(f, cur)
    else if f[cur].left != null && prev == f[cur].right then 1 + UpSteps(f, cur)
    else 3 * f[cur].size + UpSteps(f, cur)
  }

  /** Going up from n. */
  lemma StepUp<T>(f: State<T>, v: Visitor<T>, n: Node<T>, log: seq<Event<T>>)
    requires Forest(f) && n in f
    ensures f[n].parent == null || f[n].parent in f
    ensures Remaining(f, v, f[n].parent, n, log) == Rest(f, v, n, log) && Steps(f, f[n].parent, n) == UpSteps(f, n)
  {
    hide Forest, Linked, Sized, Walk, AfterLeft, Larger;
    var p := f[n].parent;
    if p != null {
      LargerShrinks(f, n);
      Offspring(f, p);
    }
  }

  /** Going down from n to its left child. */
  lemma StepLeft<T>(f: State<T>, v: Visitor<T>, n: Node<T>, log: seq<Event<T>>)
    requires Forest(f) && n in f && f[n].left != null
    ensures f[n].left in f
    ensures Remaining(f, v, f[n].left, n, log) == Rest(f, v, n, AfterLeft(f, v, n, Walk(f, v, f[n].left, log)))
    ensures f[n].right in f && Steps(f, f[n].left, n) + 1 == 3 * f[n].size + UpSteps(f, n)
  {
    hide Forest, Linked, Sized, Walk, AfterLeft, Larger;
    var l := f[n].left;
    Offspring(f, n);
    Offspring(f, l);
    if f[l].left != null { Offspring(f, f[l].left); Offspring(f, f[l].right); }
  }

  /** Going down from n to its right child. */
  lemma StepRight<T>(f: State<T>, v: Visitor<T>, n: Node<T>, log: seq<Event<T>>)
    requires Forest(f) && n in f && f[n].left != null
    ensures f[n].right in f
    ensures Remaining(f, v, f[n].right, n, log) == Rest(f, v, n, AfterRight(v, n, Walk(f, v, f[n].right, log)))
    ensures Steps(f, f[n].right, n) == 1 + 3 * f[f[n].right].size + UpSteps(f, n)
  {
    hide Forest, Linked, Sized, Walk, AfterLeft, Larger;
    var r := f[n].right;
    Offspring(f, n);
    Offspring(f, r);
    if f[r].left != null { Offspring(f, f[r].left); Offspring(f, f[r].right); }
  }

  /** Announces an event, if it is wanted, and asks the visitor whether to go on. */
  method Invoke<T>(v: Visitor<T>, log: seq<Event<T>>, e: Event<T>) returns (seen: seq<Event<T>>, goOn: bool)
    ensures seen == Announce(v, log, e) && goOn == GoesOn(v, log, e)
  {
    seen, goOn := log, true;
    if Wants(v, e.context) {
      seen := log + [e];
      goOn := v.goOn(log, e);
    }
  }

  /** One turn of the loop at an inner node, before it is known whether the visitor wants to go on. */
  lemma InnerTurn<T>(f: State<T>, v: Visitor<T>, cur: Node<T>, prev: Node<T>, log: seq<Event<T>>)
    requires Forest(f) && cur in f && f[cur].left != null
    ensures f[cur].left in f && f[cur].right in f && f[cur].left != f[cur].right
    ensures prev == f[cur].left ==>
              var seen := Announce(v, log, Event(cur, InOrder));
              && Remaining(f, v, cur, prev, log) == (if GoesOn(v, log, Event(cur, InOrder)) then Remaining(f, v, f[cur].right, cur, seen) else Rest(f, v, cur, seen))
              && Steps(f, f[cur].right, cur) < Steps(f, cur, prev) && UpSteps(f, cur) < Steps(f, cur, prev)
    ensures prev == f[cur].right ==>
              Remaining(f, v, cur, prev, log) == Rest(f, v, cur, Announce(v, log, Event(cur, PostOrder))) && UpSteps(f, cur) < Steps(f, cur, prev)
    ensures prev != f[cur].left && prev != f[cur].right ==>
              var seen := Announce(v, log, Event(cur, PreOrder));
              && Remaining(f, v, cur, prev, log) == (if GoesOn(v, log, Event(cur, PreOrder)) then Remaining(f, v, f[cur].left, cur, seen) else Rest(f, v, cur, seen))
              && Steps(f, f[cur].left, cur) < Steps(f, cur, prev) && UpSteps(f, cur) < Steps(f, cur, prev)
  {
    Offspring(f, cur);
    hide Forest, Linked, Sized, Rest, UpSteps, Larger, Announce, GoesOn;
    StepLeft(f, v, cur, Announce(v, log, Event(cur, PreOrder)));
    StepRight(f, v, cur, Announce(v, log, Event(cur, InOrder)));
  }

  /** How a visit ends: the last branch of the loop asserts where it came from, in builds that check assertions. */
  datatype Visited<T> = Finished(log: seq<Event<T>>) | Refused(log: seq<Event<T>>)

  /** The loop comes to cur from a neighbour. */
  ghost predicate Adjacent<T>(f: State<T>, cur: Node?<T>, prev: Node<T>) {
    cur == null || (cur in f && (prev == f[cur].parent || prev == f[cur].left || prev == f[cur].right))
  }

  lemma StepsToNeighbour<T>(f: State<T>, n: Node<T>)
    requires Forest(f) && n in f
    ensures Adjacent(f, f[n].parent, n) && Adjacent(f, f[n].left, n) && Adjacent(f, f[n].right, n)
  {
    assert Linked(f, n);
  }

  /**
   Visits everything below start, and then goes on with what the ancestors of start have left. Where assertions
   are checked, a visit that starts at an inner node below the root is refused before it announces anything.
   */
  method Visit<T>(start: Node<T>, v: Visitor<T>, checked: bool, ghost s: set<Node<T>>) returns (r: Visited<T>)
    requires Forest(Snap(s)) && start in s
    ensures r.Refused? <==> checked && start.parent != null && start.left != null
    ensures r.Refused? ==> r.log == []
    ensures r.Finished? ==> r.log == Rest(Snap(s), v, start, Walk(Snap(s), v, start, []))
    ensures r.Finished? ==> exists a :: 0 <= a <= |r.log| && Traversal(Snap(s), v, start, r.log[..a]) && Beyond(Snap(s), v, start, r.log, a)
    ensures start.parent == null ==> r == Finished(Walk(Snap(s), v, start, [])) && Traversal(Snap(s), v, start, r.log)
  {
    hide Forest, Linked, Sized, Walk, Rest, Remaining, Steps, UpSteps, Announce, GoesOn, Adjacent, Traversal, Beyond;
    ghost var f := Snap(s);
    var log := [];
    var cur: Node?<T> := start;
    var prev: Node<T> := start;
    Entering(f, v, start, log);
    RestOfRoot(f, v, start);
    assert f[start] == start.Now();
    while cur != null
      invariant cur == null || cur in s
      invariant (cur == start && prev == start && log == [])
                || (Adjacent(f, cur, prev) && !(checked && start.parent != null && start.left != null))
      invariant Remaining(f, v, cur, prev, log) == Rest(f, v, start, Walk(f, v, start, []))
      decreases Steps(f, cur, prev)
    {
      var goOn: bool;
      var current := cur;
      assert f[current] == current.Now();
      Offspring(f, current);
      ComesFrom(f, current, prev);
      if current.left == null && current.right == null {
        LeafTurn(f, v, current, prev, log);
        log, goOn := Invoke(v, log, Event(current, Any));
        cur := current.parent;
      } else {
        InnerTurn(f, v, current, prev, log);
        if prev == current.left {
          log, goOn := Invoke(v, log, Event(current, InOrder));
          cur := current.right;
        } else if prev == current.right {
          log, goOn := Invoke(v, log, Event(current, PostOrder));
          cur := current.parent;
        } else {
          if checked && !(current.parent == null || prev == current.parent) {
            return Refused(log);
          }
          log, goOn := Invoke(v, log, Event(current, PreOrder));
          cur := current.left;
        }
      }
      prev := current;
      if !goOn { cur := current.parent; }
      StepUp(f, v, current, log);
      StepsToNeighbour(f, current);
    }
    NothingRemains(f, v, prev, log);
    WalkIsTraversal(f, v, start);
    RestIsBeyond(f, v, start, Walk(f, v, start, []));
    assert log[..|Walk(f, v, start, [])|] == Walk(f, v, start, []);
    r := Finished(log);
  }

  /** No node is its own neighbour, and a node that comes from a neighbour is no surprise to the assertion. */
  lemma ComesFrom<T>(f: State<T>, n: Node<T>, prev: Node<T>)
    requires Forest(f) && n in f
    ensures n != f[n].parent && n != f[n].left && n != f[n].right
    ensures Adjacent(f, n, prev) ==> prev == f[n].left || prev == f[n].right || prev == f[n].parent
  {
    assert Linked(f, n) && Sized(f, n);
    var p := f[n].parent;
    if p != null { assert Linked(f, p) && Sized(f, p); }
  }

  lemma Entering<T>(f: State<T>, v: Visitor<T>, n: Node<T>, log: seq<Event<T>>)
    requires Forest(f) && n in f
    ensures Remaining(f, v, n, n, log) == Rest(f, v, n, Walk(f, v, n, log))
  {
    hide Forest, Linked, Sized, Walk, Rest;
    Offspring(f, n);
  }

  lemma LeafTurn<T>(f: State<T>, v: Visitor<T>, cur: Node<T>, prev: Node<T>, log: seq<Event<T>>)
    requires Forest(f) && cur in f && f[cur].left == null
    ensures Remaining(f, v, cur, prev, log) == Rest(f, v, cur, Announce(v, log, Event(cur, Any))) && UpSteps(f, cur) < Steps(f, cur, prev)
  {
    Offspring(f, cur);
  }

  lemma NothingRemains<T>(f: State<T>, v: Visitor<T>, prev: Node<T>, log: seq<Event<T>>)
    requires Forest(f)
    ensures Remaining(f, v, null, prev, log) == log
  {
  }

  /** Starting at a root, there is nothing beyond the recursive traversal. */
  lemma RestOfRoot<T>(f: State<T>, v: Visitor<T>, n: Node<T>)
    requires Forest(f) && n in f
    ensures f[n].parent == null ==> forall log :: Rest(f, v, n, log) == log
  {
  }

  // ---- Starting elsewhere than at the root ----

  lemma {:induction false} WalkGrows<T>(f: State<T>, v: Visitor<T>, n: Node<T>, log: seq<Event<T>>)
    requires Forest(f) && n in f
    ensures |Walk(f, v, n, log)| >= |log|
    decreases f[n].size, 1
  {
    hide Forest, Linked, Sized;
    Offspring(f, n);
    if f[n].left != null {
      var seen := Announce(v, log, Event(n, PreOrder));
      WalkGrows(f, v, f[n].left, seen);
      AfterLeftGrows(f, v, n, Walk(f, v, f[n].left, seen));
    }
  }

  lemma {:induction false} AfterLeftGrows<T>(f: State<T>, v: Visitor<T>, n: Node<T>, log: seq<Event<T>>)
    requires Forest(f) && n in f && f[n].left != null
    ensures |AfterLeft(f, v, n, log)| >= |log|
    ensures v.post && v.internals ==> |AfterLeft(f, v, n, log)| > |log|
    decreases f[n].size, 0
  {
    hide Forest, Linked, Sized, Walk;
    Offspring(f, n);
    WalkGrows(f, v, f[n].right, Announce(v, log, Event(n, InOrder)));
  }

  lemma {:induction false} RestGrows<T>(f: State<T>, v: Visitor<T>, n: Node<T>, log: seq<Event<T>>)
    requires Forest(f) && n in f
    ensures |Rest(f, v, n, log)| >= |log|
    ensures v.post && v.internals && f[n].parent != null ==> |Rest(f, v, n, log)| > |log|
    decreases Larger(f, n)
  {
    hide Forest, Linked, Sized, Walk, AfterLeft, Larger;
    var p := f[n].parent;
    if p != null {
      LargerShrinks(f, n);
      if n == f[p].left {
        AfterLeftGrows(f, v, p, log);
        RestGrows(f, v, p, AfterLeft(f, v, p, log));
      } else {
        RestGrows(f, v, p, AfterRight(v, p, log));
      }
    }
  }

  /** To a visitor that wants post-order events of inner nodes, a visit is the recursive traversal only from a root. */
  lemma OnlyFromRoot<T>(f: State<T>, v: Visitor<T>, n: Node<T>, log: seq<Event<T>>)
    requires Forest(f) && n in f && v.post && v.internals
    ensures Rest(f, v, n, log) == log <==> f[n].parent == null
  {
    hide Forest, Linked, Sized, Walk, AfterLeft, Larger;
    RestGrows(f, v, n, log);
  }

  /** From the right child of a root the visit goes on to announce the root. */
  lemma BeyondStart<T>(f: State<T>, v: Visitor<T>, n: Node<T>, log: seq<Event<T>>)
    requires Forest(f) && n in f && v.post && v.internals
    requires f[n].parent != null && f[n].parent in f && f[f[n].parent].parent == null && f[f[n].parent].right == n
    ensures Rest(f, v, n, log) == log + [Event(f[n].parent, PostOrder)]
  {
    hide Walk, AfterLeft, Larger;
    assert Linked(f, f[n].parent);
    RestOfRoot(f, v, f[n].parent);
  }

  // ---- What the ancestors have left ----

  /** Some node can have the event x. */
  ghost predicate Proper<T>(f: State<T>, x: Event<T>) {
    x.node in f && (x.context == Any <==> f[x.node].left == null)
  }

  /** What the parent of n has left: its post-order event, and behind its left child also the other event and the right subtree. */
  ghost predicate LeftByParent<T>(f: State<T>, n: Node<T>, x: Event<T>)
    requires Forest(f) && n in f
  {
    var p := f[n].parent;
    && p != null && p in f
    && (x == Event(p, PostOrder)
        || (n == f[p].left && f[p].right != null && f[p].right in f && (x == Event(p, InOrder) || EventOf(f, f[p].right, x))))
  }

  /** The same for all ancestors. */
  ghost predicate LeftBehind<T>(f: State<T>, n: Node<T>, x: Event<T>)
    requires Forest(f) && n in f
    decreases Larger(f, n)
  {
    var p := f[n].parent;
    && p != null
    && (LargerShrinks(f, n);
        LeftByParent(f, n, x) || LeftBehind(f, p, x))
  }

  lemma ParentPlaces<T>(f: State<T>, n: Node<T>, x: Event<T>)
    requires Forest(f) && n in f && f[n].parent != null
    ensures var p := f[n].parent;
            && p in f && f[p].left != null && f[p].right != null && f[p].left in f && f[p].right in f && f[p].left != f[p].right
            && (n == f[p].left || n == f[p].right)
            && (Within(f, p, x.node) <==> x.node == p || Within(f, f[p].left, x.node) || Within(f, f[p].right, x.node))
            && !(x.node == p && (Within(f, f[p].left, x.node) || Within(f, f[p].right, x.node)))
            && !(Within(f, f[p].left, x.node) && Within(f, f[p].right, x.node))
            && (LeftByParent(f, n, x) ==> Within(f, p, x.node) && !Within(f, n, x.node) && Proper(f, x))
  {
    hide Forest, Below, Within, Larger;
    LargerShrinks(f, n);
    Offspring(f, f[n].parent);
    Places(f, f[n].parent, x);
  }

  lemma {:induction false} LeftBehindOutside<T>(f: State<T>, n: Node<T>, x: Event<T>)
    requires Forest(f) && n in f && LeftBehind(f, n, x)
    ensures !Within(f, n, x.node) && Proper(f, x)
    decreases Larger(f, n)
  {
    hide Forest, Below, Within, Larger, LeftByParent, Proper;
    LargerShrinks(f, n);
    ParentPlaces(f, n, x);
    if !LeftByParent(f, n, x) { LeftBehindOutside(f, f[n].parent, x); }
  }

  ghost function AfterChild<T>(f: State<T>, v: Visitor<T>, n: Node<T>, log: seq<Event<T>>): seq<Event<T>>
    requires Forest(f) && n in f && f[n].parent != null
  {
    LargerShrinks(f, n);
    var p := f[n].parent;
    if n == f[p].left then AfterLeft(f, v, p, log) else AfterRight(v, p, log)
  }

  /** What the parent of n adds once n is done. */
  lemma ParentAdds<T>(f: State<T>, v: Visitor<T>, n: Node<T>, log: seq<Event<T>>, x: Event<T>)
    requires Forest(f) && n in f && f[n].parent != null
    ensures var after := AfterChild(f, v, n, log);
            && log <= after
            && (LeftByParent(f, n, x) ==> (Has(after, |log|, x) <==> Asked(v, x) && !Cut(f, v, after, |log|, x)))
            && (!LeftByParent(f, n, x) ==> !Has(after, |log|, x))
            && (!LeftByParent(f, n, x) && (Proper(f, x) || !Within(f, f[n].parent, x.node)) ==> !Cut(f, v, after, |log|, x))
  {
    hide Forest, Below, Within, Larger, Has, Cut, Asked, AfterLeft, Announce, GoesOn;
    LargerShrinks(f, n);
    ParentPlaces(f, n, x);
    var p := f[n].parent;
    if n == f[p].left {
      AfterLeftPrefix(f, v, p, log);
      AfterLeftIs(f, v, p, log, x);
    } else {
      Announced(f, v, log, Event(p, PostOrder), x);
    }
  }

  /** After position a the log has what the ancestors of n have left, as far as it was asked for and not cut off. */
  ghost predicate Exactly<T>(f: State<T>, v: Visitor<T>, n: Node<T>, log: seq<Event<T>>, a: nat, x: Event<T>)
    requires Forest(f) && n in f
  {
    && (Has(log, a, x) <==> LeftBehind(f, n, x) && Asked(v, x) && !Cut(f, v, log, a, x))
    && (Proper(f, x) && !LeftBehind(f, n, x) ==> !Cut(f, v, log, a, x))
  }

  lemma {:induction false} RestIs<T>(f: State<T>, v: Visitor<T>, n: Node<T>, log: seq<Event<T>>, x: Event<T>)
    requires Forest(f) && n in f
    ensures log <= Rest(f, v, n, log) && Exactly(f, v, n, Rest(f, v, n, log), |log|, x)
    decreases Larger(f, n)
  {
    hide Forest, Below, Within, Larger, Asked, AfterLeft, AfterRight, LeftByParent;
    var p := f[n].parent;
    if p != null {
      hide Has, Cut, Proper;
      LargerShrinks(f, n);
      ParentPlaces(f, n, x);
      ParentAdds(f, v, n, log, x);
      var after := AfterChild(f, v, n, log);
      RestIs(f, v, p, after, x);
      Grown2(f, v, after, Rest(f, v, p, after), |log|, x);
      if LeftBehind(f, p, x) { LeftBehindOutside(f, p, x); }
    }
  }

  /** What a visit that starts at n announces beyond the subtree of n, from position a on. */
  ghost predicate Beyond<T>(f: State<T>, v: Visitor<T>, n: Node<T>, log: seq<Event<T>>, a: nat)
    requires Forest(f) && n in f && a <= |log|
  {
    && (forall x :: x in log[a..] ==> LeftBehind(f, n, x))
    && forall m, c :: m in f && LeftBehind(f, n, Event(m, c)) ==>
         (Event(m, c) in log[a..] <==> Asked(v, Event(m, c)) && !exists k :: a <= k < |log| && CutAt(f, v, log, k, Event(m, c)))
  }

  lemma RestIsBeyond<T>(f: State<T>, v: Visitor<T>, n: Node<T>, log: seq<Event<T>>)
    requires Forest(f) && n in f
    ensures log <= Rest(f, v, n, log) && Beyond(f, v, n, Rest(f, v, n, log), |log|)
  {
    hide Forest, Asked, CutAt, Rest, LeftBehind, Proper;
    var all := Rest(f, v, n, log);
    RestIs(f, v, n, log, Event(n, Any));
    forall x | x in all[|log|..] ensures LeftBehind(f, n, x) { RestIs(f, v, n, log, x); }
    forall m, c | m in f && LeftBehind(f, n, Event(m, c))
      ensures Event(m, c) in all[|log|..] <==> Asked(v, Event(m, c)) && !exists k :: |log| <= k < |all| && CutAt(f, v, all, k, Event(m, c))
    {
      RestIs(f, v, n, log, Event(m, c));
    }
  }
}
