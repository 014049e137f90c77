/**
 Version numbers of configurations that are told apart by the identity of the objects they refer to, although
 the addresses of destroyed objects are used again.
 */
module ContextVersions {
  import opened Options

  /** An object by its address and the serial number of its creation; address 0 is no object. */
  datatype Ref = Ref(address: nat, serial: nat)

  /** The objects that live: serial numbers by address. */
  type Heap = map<nat, nat>

  datatype Key = Key(
    registry: Ref,
    spbasis: nat,
    canonicalizers: seq<(string, Ref)>,
    indexComparer: Ref,
    indexPairComparer: Ref,
    cardinalLabels: seq<string>,
    options: nat)

  /** A null pointer is always alive; the weak reference of any other tells whether its object still lives. */
  predicate Alive(h: Heap, r: Ref) {
    r.address == 0 || (r.address in h && h[r.address] == r.serial)
  }

  predicate AllAlive(h: Heap, cs: seq<(string, Ref)>) {
    forall k :: 0 <= k < |cs| ==> Alive(h, cs[k].1)
  }

  predicate AliveKey(h: Heap, k: Key) {
    Alive(h, k.registry) && Alive(h, k.indexComparer) && Alive(h, k.indexPairComparer) && AllAlive(h, k.canonicalizers)
  }

  /** How references are compared: by address. */
  predicate SameAddress(r: Ref, q: Ref) {
    r.address == q.address
  }

  predicate SameCanonicalizers(a: seq<(string, Ref)>, b: seq<(string, Ref)>) {
    |a| == |b| && forall k :: 0 <= k < |a| ==> a[k].0 == b[k].0 && SameAddress(a[k].1, b[k].1)
  }

  predicate Matches(k: Key, l: Key) {
    && SameAddress(k.registry, l.registry) && k.spbasis == l.spbasis
    && SameCanonicalizers(k.canonicalizers, l.canonicalizers)
    && SameAddress(k.indexComparer, l.indexComparer) && SameAddress(k.indexPairComparer, l.indexPairComparer)
    && k.cardinalLabels == l.cardinalLabels && k.options == l.options
  }

  /** No object has no serial number; all others are below next. */
  predicate Known(next: nat, r: Ref) {
    r.serial < next && (r.address == 0 ==> r.serial == 0)
  }

  predicate KnownKey(next: nat, k: Key) {
    && Known(next, k.registry) && Known(next, k.indexComparer) && Known(next, k.indexPairComparer)
    && forall i :: 0 <= i < |k.canonicalizers| ==> Known(next, k.canonicalizers[i].1)
  }

  /** Of living objects, one address means one object. */
  lemma AliveMatchesAreEqual(h: Heap, next: nat, k: Key, l: Key)
    requires AliveKey(h, k) && AliveKey(h, l) && KnownKey(next, k) && KnownKey(next, l) && Matches(k, l)
    ensures k == l
  {
    assert forall i :: 0 <= i < |k.canonicalizers| ==> k.canonicalizers[i] == l.canonicalizers[i];
    assert k.canonicalizers == l.canonicalizers;
  }

  // ---- The table ----

  type Versions = seq<(Key, nat)>

  function Find(versions: Versions, h: Heap, key: Key): (r: Option<nat>)
    ensures r.Some? ==> exists k :: 0 <= k < |versions| && versions[k].1 == r.value && AliveKey(h, versions[k].0) && Matches(versions[k].0, key)
    ensures r.None? ==> forall k :: 0 <= k < |versions| ==> !(AliveKey(h, versions[k].0) && Matches(versions[k].0, key))
  {
    if versions == [] then None
    else if AliveKey(h, versions[0].0) && Matches(versions[0].0, key) then Some(versions[0].1)
    else
      var r := Find(versions[1..], h, key);
      assert forall k :: 0 <= k < |versions[1..]| ==> versions[1..][k] == versions[k + 1];
      r
  }

  function Purge(versions: Versions, h: Heap): Versions {
    if versions == [] then []
    else (if AliveKey(h, versions[0].0) then [versions[0]] else []) + Purge(versions[1..], h)
  }

  lemma PurgeStep(versions: Versions, h: Heap, i: nat, kept: Versions)
    requires i < |versions|
    ensures kept + Purge(versions[i..], h)
            == (if AliveKey(h, versions[i].0) then kept + [versions[i]] else kept) + Purge(versions[i + 1..], h)
  {
    hide AliveKey;
    assert versions[i..][0] == versions[i] && versions[i..][1..] == versions[i + 1..];
  }

  lemma NothingToPurge(h: Heap)
    ensures Purge([], h) == []
  {
  }

  lemma {:induction false} PurgeKeepsAlive(versions: Versions, h: Heap)
    ensures forall e :: e in Purge(versions, h) <==> e in versions && AliveKey(h, e.0)
  {
    hide AliveKey;
    if versions != [] {
      PurgeKeepsAlive(versions[1..], h);
      assert forall e :: e in versions <==> e == versions[0] || e in versions[1..];
    }
  }

  /** The table, the last version and the version of key after a request. */
  function Lookup(versions: Versions, last: nat, h: Heap, key: Key): (Versions, nat, nat) {
    match Find(versions, h, key)
    case Some(v) => (versions, last, v)
    case None => (Purge(versions, h) + [(key, last + 1)], last + 1, last + 1)
  }

  class VersionTable {
    var versions: Versions
    var last: nat

    constructor ()
      ensures versions == [] && last == 0
    {
      versions, last := [], 0;
    }

    method FindVersion(h: Heap, key: Key) returns (r: Option<nat>)
      ensures r == Find(versions, h, key)
    {
      hide AliveKey, Matches;
      for i := 0 to |versions|
        invariant Find(versions, h, key) == Find(versions[i..], h, key)
      {
        assert versions[i..][0] == versions[i] && versions[i..][1..] == versions[i + 1..];
        if AliveKey(h, versions[i].0) && Matches(versions[i].0, key) { return Some(versions[i].1); }
      }
      return None;
    }

    method EraseDead(h: Heap) returns (kept: Versions)
      ensures kept == Purge(versions, h)
    {
      hide AliveKey, Purge;
      kept := [];
      assert versions[0..] == versions;
      for i := 0 to |versions|
        invariant kept + Purge(versions[i..], h) == Purge(versions, h)
      {
        PurgeStep(versions, h, i, kept);
        if AliveKey(h, versions[i].0) { kept := kept + [versions[i]]; }
      }
      NothingToPurge(h);
      assert versions[|versions|..] == [];
    }

    /** canonicalization_version. */
    method Version(h: Heap, key: Key) returns (v: nat)
      modifies this
      ensures (versions, last, v) == Lookup(old(versions), old(last), h, key)
      ensures (exists e :: e in old(versions) && e.1 == v && AliveKey(h, e.0) && Matches(e.0, key) && versions == old(versions) && last == old(last))
              || ((forall e :: e in old(versions) ==> !(AliveKey(h, e.0) && Matches(e.0, key)))
                  && v == last == old(last) + 1 && forall e :: e in versions <==> e == (key, v) || (e in old(versions) && AliveKey(h, e.0)))
    {
      hide Find, Purge;
      PurgeKeepsAlive(versions, h);
      var found := FindVersion(h, key);
      if found.Some? { return found.value; }
      var kept := EraseDead(h);
      last := last + 1;
      versions := kept + [(key, last)];
      v := last;
    }
  }

  // ---- Runs ----

  /** A context holds the objects of its key; 0 marks its version as stale. */
  datatype Context = Context(key: Key, cached: nat)

  datatype State = State(live: Heap, next: nat, versions: Versions, last: nat, contexts: map<nat, Context>, log: Versions)

  datatype Step =
    | Create(address: nat)
    | Destroy(address: nat)
    | Request(key: Key)
    | Configure(id: nat, config: Key)
    | Copy(source: nat, target: nat)
    | Drop(id: nat)
    | Version(id: nat)

  function Start(): State {
    State(map[], 1, [], 0, map[], [])
  }

  function Asked(s: State, key: Key): (State, nat) {
    var (versions, last, v) := Lookup(s.versions, s.last, s.live, key);
    (s.(versions := versions, last := last, log := s.log + [(key, v)]), v)
  }

  /** A key of objects that live can be named. */
  predicate CanName(s: State, key: Key) {
    AliveKey(s.live, key) && KnownKey(s.next, key)
  }

  /** Steps that are not possible change nothing: an object lives as long as a context holds it. */
  function Next(s: State, step: Step): State {
    match step
    case Create(a) =>
      if a != 0 && a !in s.live then s.(live := s.live[a := s.next], next := s.next + 1) else s
    case Destroy(a) =>
      if a in s.live && (forall id :: id in s.contexts ==> AliveKey(s.live - {a}, s.contexts[id].key)) then s.(live := s.live - {a}) else s
    case Request(key) =>
      if CanName(s, key) then Asked(s, key).0 else s
    case Configure(id, key) =>
      if CanName(s, key) then s.(contexts := s.contexts[id := Context(key, 0)]) else s
    case Copy(source, target) =>
      if source in s.contexts then s.(contexts := s.contexts[target := s.contexts[source]]) else s
    case Drop(id) =>
      s.(contexts := s.contexts - {id})
    case Version(id) =>
      if id !in s.contexts then s
      else if s.contexts[id].cached != 0 then s.(log := s.log + [(s.contexts[id].key, s.contexts[id].cached)])
      else
        var (n, v) := Asked(s, s.contexts[id].key);
        n.(contexts := s.contexts[id := Context(s.contexts[id].key, v)])
  }

  function Run(steps: seq<Step>): State {
    if steps == [] then Start() else Next(Run(steps[..|steps| - 1]), steps[|steps| - 1])
  }

  /** Two answers are the same version exactly if the keys name the same objects and equal settings. */
  ghost predicate Consistent(log: Versions) {
    forall i, j :: 0 <= i < |log| && 0 <= j < |log| ==> (log[i].0 == log[j].0 <==> log[i].1 == log[j].1)
  }

  ghost predicate Logged(log: Versions, next: nat, last: nat) {
    Consistent(log) && forall i :: 0 <= i < |log| ==> KnownKey(next, log[i].0) && 1 <= log[i].1 <= last
  }

  ghost predicate TableOk(s: State) {
    && (forall e :: e in s.versions ==> e in s.log)
    && forall e :: e in s.log && AliveKey(s.live, e.0) ==> e in s.versions
  }

  ghost predicate ContextsOk(s: State) {
    forall id :: id in s.contexts ==>
      CanName(s, s.contexts[id].key) && (s.contexts[id].cached != 0 ==> (s.contexts[id].key, s.contexts[id].cached) in s.log)
  }

  ghost predicate Inv(s: State) {
    && s.next >= 1 && (forall a :: a in s.live ==> a != 0 && s.live[a] < s.next)
    && Logged(s.log, s.next, s.last) && TableOk(s) && ContextsOk(s)
  }

  /** A new object is at no address that a known key names as living there. */
  lemma CreatedIsNew(h: Heap, next: nat, a: nat, k: Key)
    requires a !in h && a != 0 && KnownKey(next, k)
    ensures AliveKey(h[a := next], k) <==> AliveKey(h, k)
  {
    assert forall r: Ref :: Known(next, r) ==> (Alive(h[a := next], r) <==> Alive(h, r));
    var cs := k.canonicalizers;
    if AllAlive(h[a := next], cs) {
      forall i | 0 <= i < |cs| ensures Alive(h, cs[i].1) { assert Alive(h[a := next], cs[i].1); }
    }
    if AllAlive(h, cs) {
      forall i | 0 <= i < |cs| ensures Alive(h[a := next], cs[i].1) { assert Alive(h, cs[i].1); }
    }
  }

  lemma KnownLater(next: nat, k: Key)
    requires KnownKey(next, k)
    ensures KnownKey(next + 1, k)
  {
  }

  lemma DestroyedIsDead(h: Heap, a: nat, k: Key)
    requires AliveKey(h - {a}, k)
    ensures AliveKey(h, k)
  {
    assert forall r: Ref :: Alive(h - {a}, r) ==> Alive(h, r);
  }

  lemma MatchesItself(k: Key)
    ensures Matches(k, k)
  {
  }

  /** A version that is found was given for the same key. */
  lemma FoundIsLogged(s: State, key: Key, w: nat)
    requires Inv(s) && CanName(s, key) && Find(s.versions, s.live, key) == Some(w)
    ensures (key, w) in s.versions && (key, w) in s.log && w != 0
  {
    hide AliveKey, KnownKey, Matches, ContextsOk;
    var k :| 0 <= k < |s.versions| && s.versions[k].1 == w && AliveKey(s.live, s.versions[k].0) && Matches(s.versions[k].0, key);
    assert s.versions[k] in s.log;
    AliveMatchesAreEqual(s.live, s.next, s.versions[k].0, key);
    assert s.versions[k] == (key, w);
  }

  /** If none is found, none was given for the key. */
  lemma NotFoundIsNew(s: State, key: Key)
    requires TableOk(s) && CanName(s, key) && Find(s.versions, s.live, key).None?
    ensures forall e :: e in s.log ==> e.0 != key
  {
    hide AliveKey, KnownKey, Matches;
    MatchesItself(key);
    forall e | e in s.versions ensures !(AliveKey(s.live, e.0) && Matches(e.0, key)) {
      var k :| 0 <= k < |s.versions| && s.versions[k] == e;
    }
  }

  lemma TableFound(s: State, e: (Key, nat))
    requires TableOk(s) && e in s.versions
    ensures TableOk(s.(log := s.log + [e]))
  {
    hide AliveKey;
    assert forall d :: d in s.log + [e] <==> d in s.log || d == e;
  }

  lemma TableNew(s: State, e: (Key, nat))
    requires TableOk(s)
    ensures TableOk(s.(versions := Purge(s.versions, s.live) + [e], last := e.1, log := s.log + [e]))
  {
    hide AliveKey;
    assert forall d :: d in s.log + [e] <==> d in s.log || d == e;
    var kept := Purge(s.versions, s.live);
    PurgeKeepsAlive(s.versions, s.live);
    assert forall d :: d in kept + [e] <==> d in kept || d == e;
  }

  /** An answer is logged already or new. */
  lemma AskedKeeps(s: State, key: Key)
    requires Inv(s) && CanName(s, key)
    ensures Inv(Asked(s, key).0) && (key, Asked(s, key).1) in Asked(s, key).0.log && Asked(s, key).1 != 0
  {
    hide AliveKey, KnownKey, Matches, ContextsOk, TableOk, Logged, Find, Purge;
    var (n, v) := Asked(s, key);
    assert n.log[|s.log|] == (key, v);
    match Find(s.versions, s.live, key)
    case Some(w) =>
      FoundIsLogged(s, key, w);
      LogAgain(s.log, s.next, s.last, key, v);
      TableFound(s, (key, v));
      LogGrows(s, n);
    case None =>
      NotFoundIsNew(s, key);
      LogNew(s.log, s.next, s.last, key);
      TableNew(s, (key, v));
      LogGrows(s, n);
  }

  lemma LogAgain(log: Versions, next: nat, last: nat, key: Key, v: nat)
    requires Logged(log, next, last) && (key, v) in log
    ensures Logged(log + [(key, v)], next, last)
  {
    hide KnownKey;
    var k :| 0 <= k < |log| && log[k] == (key, v);
    var t := log + [(key, v)];
    assert forall i :: 0 <= i < |t| ==> t[i] == log[if i < |log| then i else k];
  }

  lemma LogNew(log: Versions, next: nat, last: nat, key: Key)
    requires Logged(log, next, last) && KnownKey(next, key) && forall e :: e in log ==> e.0 != key
    ensures Logged(log + [(key, last + 1)], next, last + 1)
  {
    hide KnownKey;
    assert forall i :: 0 <= i < |log| ==> log[i] in log;
  }

  lemma LogGrows(s: State, n: State)
    requires ContextsOk(s) && n.live == s.live && n.next == s.next && n.contexts == s.contexts && s.log <= n.log
    ensures ContextsOk(n)
  {
    forall e | e in s.log ensures e in n.log {
      var k :| 0 <= k < |s.log| && s.log[k] == e;
      assert n.log[k] == e;
    }
  }

  lemma NextKeeps(s: State, step: Step)
    requires Inv(s)
    ensures Inv(Next(s, step))
  {
    match step
    case Create(a) => CreateKeeps(s, a);
    case Destroy(a) => DestroyKeeps(s, a);
    case Request(key) => if CanName(s, key) { AskedKeeps(s, key); }
    case Configure(_, _) =>
    case Copy(_, _) =>
    case Drop(_) =>
    case Version(id) => VersionKeeps(s, id);
  }

  lemma CreateKeeps(s: State, a: nat)
    requires Inv(s)
    ensures Inv(Next(s, Create(a)))
  {
    hide AliveKey, KnownKey;
    if a != 0 && a !in s.live {
      forall k | KnownKey(s.next, k) ensures KnownKey(s.next + 1, k) && (AliveKey(s.live[a := s.next], k) <==> AliveKey(s.live, k)) {
        KnownLater(s.next, k);
        CreatedIsNew(s.live, s.next, a, k);
      }
      forall e | e in s.log ensures KnownKey(s.next, e.0) { var k :| 0 <= k < |s.log| && s.log[k] == e; }
    }
  }

  lemma DestroyKeeps(s: State, a: nat)
    requires Inv(s)
    ensures Inv(Next(s, Destroy(a)))
  {
    hide AliveKey, KnownKey;
    forall k | AliveKey(s.live - {a}, k) ensures AliveKey(s.live, k) { DestroyedIsDead(s.live, a, k); }
  }

  lemma VersionKeeps(s: State, id: nat)
    requires Inv(s)
    ensures Inv(Next(s, Version(id)))
  {
    hide AliveKey, KnownKey, Logged, Lookup;
    if id in s.contexts {
      var key, cached := s.contexts[id].key, s.contexts[id].cached;
      if cached != 0 {
        LogAgain(s.log, s.next, s.last, key, cached);
        LogGrows(s, Next(s, Version(id)));
      } else {
        AskedKeeps(s, key);
      }
    }
  }

  lemma {:induction false} RunKeeps(steps: seq<Step>)
    ensures Inv(Run(steps))
  {
    hide Inv;
    if steps == [] {
      StartOk();
    } else {
      RunKeeps(steps[..|steps| - 1]);
      NextKeeps(Run(steps[..|steps| - 1]), steps[|steps| - 1]);
    }
  }

  lemma StartOk()
    ensures Inv(Start())
  {
  }

  /** In every run, two answers agree exactly if they were given for the same living objects and equal settings. */
  lemma VersionsIdentify(steps: seq<Step>)
    ensures Consistent(Run(steps).log)
  {
    RunKeeps(steps);
  }

  /** In every run, the version that a context has cached is the one a new request would get. */
  lemma CachedAgrees(steps: seq<Step>, id: nat)
    requires id in Run(steps).contexts && Run(steps).contexts[id].cached != 0
    ensures var s := Run(steps); Asked(s, s.contexts[id].key).1 == s.contexts[id].cached
  {
    hide AliveKey, KnownKey, Lookup, Run;
    RunKeeps(steps);
    var s := Run(steps);
    var key := s.contexts[id].key;
    AskedKeeps(s, key);
    var n := Asked(s, key).0;
    assert n.log == s.log + [(key, Asked(s, key).1)];
    var k :| 0 <= k < |s.log| && s.log[k] == (key, s.contexts[id].cached);
    assert n.log[k] == s.log[k] && n.log[|s.log|] == (key, Asked(s, key).1);
  }

  // ---- What an answer is for ----

  /** The step gives context id another configuration, or takes it away. */
  predicate Reconfigures(step: Step, id: nat) {
    match step
    case Configure(i, _) => i == id
    case Copy(_, target) => target == id
    case Drop(i) => i == id
    case _ => false
  }

  lemma StepLeavesKey(s: State, step: Step, id: nat)
    requires id in s.contexts && !Reconfigures(step, id)
    ensures id in Next(s, step).contexts && Next(s, step).contexts[id].key == s.contexts[id].key
  {
    hide Lookup, AliveKey, KnownKey;
  }

  lemma {:induction false} KeyStays(steps: seq<Step>, between: seq<Step>, id: nat)
    requires id in Run(steps).contexts && forall step :: step in between ==> !Reconfigures(step, id)
    ensures id in Run(steps + between).contexts && Run(steps + between).contexts[id].key == Run(steps).contexts[id].key
    decreases |between|
  {
    hide Next;
    if between == [] {
      assert steps + between == steps;
    } else {
      var u, step := between[..|between| - 1], between[|between| - 1];
      KeyStays(steps, u, id);
      RunSnoc(steps + u, step);
      assert steps + between == (steps + u) + [step];
      StepLeavesKey(Run(steps + u), step, id);
    }
  }

  lemma RunSnoc(steps: seq<Step>, step: Step)
    ensures Run(steps + [step]) == Next(Run(steps), step)
  {
    hide Next;
    assert (steps + [step])[..|steps|] == steps;
  }

  /** The answer to a request by a context is for the key it has. */
  lemma AnswerIsForKey(steps: seq<Step>, id: nat)
    requires id in Run(steps).contexts
    ensures var log := Run(steps + [Version(id)]).log;
            |log| == |Run(steps).log| + 1 && log[|log| - 1].0 == Run(steps).contexts[id].key
  {
    hide Lookup;
    RunSnoc(steps, Version(id));
  }

  /** A request for a key of living objects is answered for that key. */
  lemma AnswerIsForRequest(steps: seq<Step>, key: Key)
    requires CanName(Run(steps), key)
    ensures var log := Run(steps + [Request(key)]).log;
            |log| == |Run(steps).log| + 1 && log[|log| - 1].0 == key
  {
    hide Lookup;
    RunSnoc(steps, Request(key));
  }

  /** In every run, the answer to a request by a context is for the configuration it was given last. */
  lemma AnswersConfigured(before: seq<Step>, id: nat, config: Key, between: seq<Step>)
    requires CanName(Run(before), config) && forall step :: step in between ==> !Reconfigures(step, id)
    ensures var log := Run(before + [Configure(id, config)] + between + [Version(id)]).log;
            log != [] && log[|log| - 1].0 == config
  {
    hide CanName, Run, Lookup;
    RunSnoc(before, Configure(id, config));
    KeyStays(before + [Configure(id, config)], between, id);
    AnswerIsForKey(before + [Configure(id, config)] + between, id);
  }

  /** A copy has the configuration of its source, and keeps it whatever becomes of the source. */
  lemma AnswersCopied(before: seq<Step>, source: nat, target: nat, between: seq<Step>)
    requires source in Run(before).contexts && forall step :: step in between ==> !Reconfigures(step, target)
    ensures var log := Run(before + [Copy(source, target)] + between + [Version(target)]).log;
            log != [] && log[|log| - 1].0 == Run(before).contexts[source].key
  {
    hide Run, Lookup;
    RunSnoc(before, Copy(source, target));
    KeyStays(before + [Copy(source, target)], between, target);
    AnswerIsForKey(before + [Copy(source, target)] + between, target);
  }
}
