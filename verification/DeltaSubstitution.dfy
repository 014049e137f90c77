/**
 Replacing dummy indices that deltas bind keeps the value of a product: each
 assignment of the new product expands to one of the old, and those it misses
 violate a delta.
 */
module DeltaSubstitution {
  import opened DeltaValues

  /** v is in the space of everything bound to i. */
  ghost predicate InAll(p: seq<Factor>, i: Index, v: int) {
    forall k: Index :: Bound(p, i, k) ==> v in k.space
  }

  /** space has every value that the deltas leave to i. */
  ghost predicate Covers(p: seq<Factor>, i: Index, space: Space) {
    forall v: int :: InAll(p, i, v) ==> v in space
  }

  /** A destination that i may be replaced with. */
  ghost predicate Suits(p: seq<Factor>, ext: set<Index>, i: Index, d: Index) {
    && d.space <= i.space && Covers(p, i, d.space)
    && if d in ext then Bound(p, i, d) else d !in Indices(p)
  }

  /** What collected rules must satisfy: indices share a destination only if a chain of deltas binds them. */
  ghost predicate Sound(p: seq<Factor>, ext: set<Index>, m: map<Index, Index>) {
    && m.Keys <= Indices(p) - ext
    && (forall i :: i in m ==> Suits(p, ext, i, m[i]))
    && forall i, j :: i in m && j in m && m[i] == m[j] ==> Bound(p, i, j)
  }

  function ValueOf(env: Assignment, s: Assignment, i: Index): int {
    if i in s then s[i] else if i in env then env[i] else 0
  }

  /** The values that the replaced indices of d take. */
  ghost function Expand(m: map<Index, Index>, env: Assignment, d: set<Index>, s: Assignment): Assignment {
    map i | i in d :: ValueOf(env, s, Rename(m, i))
  }

  lemma RenamedWhere(p: seq<Factor>, ext: set<Index>, m: map<Index, Index>, i: Index)
    requires Sound(p, ext, m) && i in Indices(p)
    ensures Rename(m, i) in Indices(Apply(m, p))
    ensures i in ext ==> Rename(m, i) == i
    ensures Rename(m, i).space <= i.space
  {
    AppliedIndices(m, p);
    if i in m { assert Suits(p, ext, i, m[i]); }
  }

  lemma ExpandInRange(p: seq<Factor>, env: Assignment, m: map<Index, Index>, s: Assignment)
    requires Proper(env) && Sound(p, env.Keys, m) && Ranges(s, Indices(Apply(m, p)) - env.Keys)
    ensures Ranges(Expand(m, env, Indices(p) - env.Keys, s), Indices(p) - env.Keys)
    ensures forall i :: i in Indices(p) ==>
              Rename(m, i) in env + s && (env + s)[Rename(m, i)] == ValueOf(env, Expand(m, env, Indices(p) - env.Keys, s), i)
  {
    hide Sound, Apply, Rename;
    var d := Indices(p) - env.Keys;
    var h := Expand(m, env, d, s);
    forall i | i in Indices(p)
      ensures Rename(m, i) in env + s && (env + s)[Rename(m, i)] == ValueOf(env, h, i)
      ensures i in d ==> h[i] in i.space
    {
      RenamedWhere(p, env.Keys, m, i);
    }
  }

  lemma ExpandKeepsSummand(t: Meaning, p: seq<Factor>, env: Assignment, m: map<Index, Index>, s: Assignment)
    requires Proper(env) && Sound(p, env.Keys, m) && Ranges(s, Indices(Apply(m, p)) - env.Keys)
    ensures Summand(t, Apply(m, p), env, s) == Summand(t, p, env, Expand(m, env, Indices(p) - env.Keys, s))
  {
    hide Sound, Apply, Rename, ProductValue;
    var h := Expand(m, env, Indices(p) - env.Keys, s);
    ExpandInRange(p, env, m, s);
    forall i | i in Indices(p) ensures Rename(m, i) in env + s && (env + s)[Rename(m, i)] == (env + h)[i] {}
    assert Indices(p) <= (env + h).Keys && Indices(Apply(m, p)) <= (env + s).Keys;
    RenamedValue(t, p, m, env + h, env + s);
  }

  lemma ExpandOneToOne(p: seq<Factor>, env: Assignment, m: map<Index, Index>, s: Assignment, u: Assignment)
    requires Sound(p, env.Keys, m)
    requires Ranges(s, Indices(Apply(m, p)) - env.Keys) && Ranges(u, Indices(Apply(m, p)) - env.Keys)
    requires Expand(m, env, Indices(p) - env.Keys, s) == Expand(m, env, Indices(p) - env.Keys, u)
    ensures s == u
  {
    hide Apply, ValueOf;
    var d := Indices(p) - env.Keys;
    forall k | k in s ensures s[k] == u[k] {
      var i := Source(p, env.Keys, m, k);
      assert Expand(m, env, d, s)[i] == ValueOf(env, s, k) && Expand(m, env, d, u)[i] == ValueOf(env, u, k);
      InAssignment(env, s, k);
      InAssignment(env, u, k);
    }
  }

  lemma InAssignment(env: Assignment, s: Assignment, k: Index)
    requires k in s
    ensures ValueOf(env, s, k) == s[k]
  {
  }

  /** A dummy of the new product stands for a dummy of the old one. */
  lemma Source(p: seq<Factor>, ext: set<Index>, m: map<Index, Index>, k: Index) returns (i: Index)
    requires Sound(p, ext, m) && k in Indices(Apply(m, p)) - ext
    ensures i in Indices(p) - ext && Rename(m, i) == k
  {
    AppliedIndices(m, p);
    i :| i in Indices(p) && Rename(m, i) == k;
  }

  /** Bound indices have values in each other's spaces. */
  lemma SatisfiedInAll(p: seq<Factor>, env: Assignment, s: Assignment, i: Index)
    requires Proper(env) && Ranges(s, Indices(p) - env.Keys) && Satisfies(p, env + s) && i in env + s
    ensures InAll(p, i, (env + s)[i])
  {
    forall k: Index | Bound(p, i, k) ensures (env + s)[i] in k.space {
      BoundAgrees(p, env + s, i, k);
    }
  }

  /** Dummies with one destination have one value; a dummy replaced with an external has its value. */
  lemma SameDestination(p: seq<Factor>, env: Assignment, m: map<Index, Index>, s: Assignment, i: Index, j: Index)
    requires Proper(env) && Sound(p, env.Keys, m) && Ranges(s, Indices(p) - env.Keys) && Satisfies(p, env + s)
    requires i in Indices(p) - env.Keys
    ensures j in Indices(p) - env.Keys && Rename(m, i) == Rename(m, j) ==> s[i] == s[j]
    ensures Rename(m, i) in env ==> env[Rename(m, i)] == s[i]
    ensures s[i] in Rename(m, i).space
  {
    assert (env + s)[i] == s[i];
    SatisfiedInAll(p, env, s, i);
    if i in m {
      assert Suits(p, env.Keys, i, m[i]);
      if m[i] in env { BoundAgrees(p, env + s, i, m[i]); }
    }
    if j in Indices(p) - env.Keys && Rename(m, i) == Rename(m, j) {
      if j in m { assert Suits(p, env.Keys, j, m[j]); }
      if i in m && j in m {
        BoundAgrees(p, env + s, i, j);
      }
    }
  }

  /** A dummy of d that becomes k. */
  ghost function SourceOf(d: set<Index>, m: map<Index, Index>, k: Index): Index {
    if exists i :: i in d && Rename(m, i) == k then
      var i :| i in d && Rename(m, i) == k; i
    else k
  }

  lemma SourceIsSource(p: seq<Factor>, ext: set<Index>, m: map<Index, Index>, k: Index)
    requires Sound(p, ext, m) && k in Indices(Apply(m, p)) - ext
    ensures SourceOf(Indices(p) - ext, m, k) in Indices(p) - ext && Rename(m, SourceOf(Indices(p) - ext, m, k)) == k
  {
    hide Sound, Apply, Rename;
    var i := Source(p, ext, m, k);
  }

  /** What the replaced indices take from an assignment of the old ones. */
  ghost function Collapse(p: seq<Factor>, ext: set<Index>, m: map<Index, Index>, s: Assignment): Assignment {
    map k | k in Indices(Apply(m, p)) - ext :: ValueOf(s, s, SourceOf(Indices(p) - ext, m, k))
  }

  /** An assignment that violates no delta is an expansion. */
  lemma SatisfiedIsExpansion(p: seq<Factor>, env: Assignment, m: map<Index, Index>, s: Assignment) returns (u: Assignment)
    requires Proper(env) && Sound(p, env.Keys, m) && Ranges(s, Indices(p) - env.Keys) && Satisfies(p, env + s)
    ensures Ranges(u, Indices(Apply(m, p)) - env.Keys) && Expand(m, env, Indices(p) - env.Keys, u) == s
  {
    hide Sound, Apply, Satisfies, Rename, SourceOf, Proper;
    u := Collapse(p, env.Keys, m, s);
    CollapseInRange(p, env, m, s);
    var d, d' := Indices(p) - env.Keys, Indices(Apply(m, p)) - env.Keys;
    var h := Expand(m, env, d, u);
    forall i | i in d ensures h[i] == s[i] {
      RenamedWhere(p, env.Keys, m, i);
      var k := Rename(m, i);
      if k in d' { SourceIsSource(p, env.Keys, m, k); }
      SameDestination(p, env, m, s, i, SourceOf(d, m, k));
    }
  }

  lemma CollapseInRange(p: seq<Factor>, env: Assignment, m: map<Index, Index>, s: Assignment)
    requires Proper(env) && Sound(p, env.Keys, m) && Ranges(s, Indices(p) - env.Keys) && Satisfies(p, env + s)
    ensures Ranges(Collapse(p, env.Keys, m, s), Indices(Apply(m, p)) - env.Keys)
  {
    hide Sound, Apply, Satisfies, Rename, SourceOf, Proper;
    forall k | k in Indices(Apply(m, p)) - env.Keys ensures Collapse(p, env.Keys, m, s)[k] in k.space {
      SourceIsSource(p, env.Keys, m, k);
      SameDestination(p, env, m, s, SourceOf(Indices(p) - env.Keys, m, k), k);
    }
  }

  /** The expansions of all assignments of the new dummies. */
  ghost function Expansions(p: seq<Factor>, env: Assignment, m: map<Index, Index>): map<Assignment, Assignment> {
    map u | u in Assignments(Indices(Apply(m, p)) - env.Keys) :: Expand(m, env, Indices(p) - env.Keys, u)
  }

  lemma ExpansionsMatch(t: Meaning, p: seq<Factor>, env: Assignment, m: map<Index, Index>, u: Assignment)
    requires Proper(env) && Sound(p, env.Keys, m) && u in Expansions(p, env, m)
    ensures Expansions(p, env, m)[u] in Assignments(Indices(p) - env.Keys)
    ensures Summand(t, p, env, Expansions(p, env, m)[u]) == Summand(t, Apply(m, p), env, u)
  {
    hide Sound, Apply, Expand, Ranges, Summand, Proper, Assignments;
    AssignmentsRange(Indices(Apply(m, p)) - env.Keys, u);
    ExpandInRange(p, env, m, u);
    AssignmentsRange(Indices(p) - env.Keys, Expansions(p, env, m)[u]);
    ExpandKeepsSummand(t, p, env, m, u);
  }

  lemma ExpansionsDiffer(p: seq<Factor>, env: Assignment, m: map<Index, Index>, u: Assignment, v: Assignment)
    requires Proper(env) && Sound(p, env.Keys, m) && u in Expansions(p, env, m) && v in Expansions(p, env, m) && u != v
    ensures Expansions(p, env, m)[u] != Expansions(p, env, m)[v]
  {
    hide Sound, Apply, Expand, Ranges, Proper, Assignments;
    AssignmentsRange(Indices(Apply(m, p)) - env.Keys, u);
    AssignmentsRange(Indices(Apply(m, p)) - env.Keys, v);
    if Expansions(p, env, m)[u] == Expansions(p, env, m)[v] { ExpandOneToOne(p, env, m, u, v); }
  }

  /** Assignments that are no expansions add nothing. */
  lemma OthersAreZero(t: Meaning, p: seq<Factor>, env: Assignment, m: map<Index, Index>, s: Assignment)
    requires Proper(env) && Sound(p, env.Keys, m) && s in Assignments(Indices(p) - env.Keys)
    ensures Summand(t, p, env, s) == 0.0 || exists u :: u in Expansions(p, env, m) && Expansions(p, env, m)[u] == s
  {
    hide Sound, Apply, Satisfies, Expand, Ranges, Summand, Proper, Assignments;
    AssignmentsRange(Indices(p) - env.Keys, s);
    ViolatedSummand(t, p, env, s);
    if Satisfies(p, env + s) {
      var u := SatisfiedIsExpansion(p, env, m, s);
      AssignmentsRange(Indices(Apply(m, p)) - env.Keys, u);
      assert u in Expansions(p, env, m);
    }
  }

  /** Applying sound rules keeps the value, whatever the tensors and the externals are. */
  lemma ApplyKeepsValue(t: Meaning, p: seq<Factor>, env: Assignment, m: map<Index, Index>)
    requires Proper(env) && Sound(p, env.Keys, m)
    ensures Value(t, Apply(m, p), env) == Value(t, p, env)
  {
    hide Sound, Apply, Expand, Ranges, Summand, Proper, Assignments, SumOver;
    var h := Expansions(p, env, m);
    forall u | u in h
      ensures h[u] in Assignments(Indices(p) - env.Keys) && Summand(t, p, env, h[u]) == Summand(t, Apply(m, p), env, u)
    {
      ExpansionsMatch(t, p, env, m, u);
    }
    forall u, v | u in h && v in h && u != v ensures h[u] != h[v] { ExpansionsDiffer(p, env, m, u, v); }
    SumImage(t, Apply(m, p), p, env, h.Keys, h);
    var image := set u | u in h.Keys :: h[u];
    assert h.Keys == Assignments(Indices(Apply(m, p)) - env.Keys);
    forall s | s in Assignments(Indices(p) - env.Keys) - image ensures Summand(t, p, env, s) == 0.0 {
      OthersAreZero(t, p, env, m, s);
    }
    SumRestrict(t, p, env, Assignments(Indices(p) - env.Keys), image);
  }

  lemma ViolatedSummand(t: Meaning, p: seq<Factor>, env: Assignment, s: Assignment)
    ensures !Satisfies(p, env + s) ==> Summand(t, p, env, s) == 0.0
  {
    if Indices(p) <= (env + s).Keys { ViolatedIsZero(t, p, env + s); }
  }

  lemma EmptyIsViolated(p: seq<Factor>, env: Assignment, s: Assignment, i: Index)
    requires Proper(env) && i in Indices(p) && Covers(p, i, {}) && Ranges(s, Indices(p) - env.Keys)
    ensures !Satisfies(p, env + s)
  {
    if Satisfies(p, env + s) { SatisfiedInAll(p, env, s, i); }
  }

  /** If the deltas leave an index no value, the product is zero. */
  lemma EmptyIsZero(t: Meaning, p: seq<Factor>, env: Assignment, i: Index)
    requires Proper(env) && i in Indices(p) && Covers(p, i, {})
    ensures Value(t, p, env) == 0.0
  {
    hide Satisfies, Summand;
    var d := Indices(p) - env.Keys;
    forall s | s in Assignments(d) - {} ensures Summand(t, p, env, s) == 0.0 {
      AssignmentsRange(d, s);
      EmptyIsViolated(p, env, s, i);
      ViolatedSummand(t, p, env, s);
    }
    SumRestrict(t, p, env, Assignments(d), {});
  }
}
