/**
 The pairs given to set_nop_connections and set_nop_avoided_connections: they become a reverse mask if the
 input is known, else they wait in a cache that is replayed once it is.
 */
module WickMasks {
  import opened Sequences
  import opened WickProblem
  import opened Options

  datatype Outcome = Recorded | Cached | Duplicates | OutOfRange

  /** What is kept of the pairs: the mask, the pairs that wait for the input, and how many were recorded last. */
  datatype Pairs = Pairs(mask: seq<set<nat>>, waiting: seq<(int, int)>, total: nat)

  ghost predicate Within(pair: (int, int), n: nat) {
    0 <= pair.0 < n && 0 <= pair.1 < n
  }

  /** x and y are named by a pair, in either order. */
  ghost predicate Named(pairs: seq<(int, int)>, x: nat, y: nat) {
    (x, y) in pairs || (y, x) in pairs
  }

  method HasDuplicates(pairs: seq<(int, int)>) returns (dup: bool)
    ensures dup <==> !NoDup(pairs)
  {
    dup := false;
    var i := 0;
    while i < |pairs| && !dup
      invariant i <= |pairs|
      invariant !dup ==> NoDup(pairs[..i])
      invariant dup ==> !NoDup(pairs)
      decreases |pairs| - i, !dup
    {
      dup := pairs[i] in pairs[..i];
      if dup {
        var j :| 0 <= j < i && pairs[..i][j] == pairs[i];
        assert pairs[j] == pairs[i];
      } else {
        i := i + 1;
      }
    }
    assert !dup ==> pairs[..i] == pairs;
  }

  ghost predicate AllWithin(pairs: seq<(int, int)>, n: nat) {
    forall k :: 0 <= k < |pairs| ==> Within(pairs[k], n)
  }

  /** The reverse mask that names exactly the given pairs. */
  ghost function MaskOf(pairs: seq<(int, int)>, n: nat): (mask: seq<set<nat>>)
    ensures |mask| == n
  {
    seq(n, x requires 0 <= x < n => set y: nat | y < MAX_INPUT_SIZE && !Named(pairs, x, y))
  }

  /** What giving a list of pairs does, with an input of n normal operators or before the input is known. */
  ghost function Given(m: Pairs, pairs: seq<(int, int)>, input: Option<nat>): (Pairs, Outcome) {
    if !NoDup(pairs) then (m, Duplicates)
    else match input
      case None => (m.(waiting := pairs), Cached)
      case Some(n) =>
        if !AllWithin(pairs, n) then (m, OutOfRange)
        else (Pairs(if pairs == [] then m.mask else MaskOf(pairs, n), [], |pairs|), Recorded)
  }

  /** What is done with the waiting pairs when the input of n normal operators is known. */
  ghost function Replayed(m: Pairs, n: nat): (Pairs, Outcome) {
    if m.waiting == [] then (m, Recorded) else Given(m, m.waiting, Some(n))
  }

  class PairList {
    var mask: seq<set<nat>>
    var cache: seq<(int, int)>
    var total: nat

    constructor ()
      ensures Now() == Pairs([], [], 0)
    {
      mask, cache, total := [], [], 0;
    }

    ghost function Now(): Pairs
      reads this
    {
      Pairs(mask, cache, total)
    }

    /** The mask of the given pairs, bit by bit. */
    method Record(pairs: seq<(int, int)>, n: nat)
      requires n <= MAX_INPUT_SIZE && AllWithin(pairs, n)
      modifies `mask
      ensures mask == MaskOf(pairs, n)
    {
      mask := seq(n, _ => Flip({}));
      for k := 0 to |pairs|
        invariant |mask| == n
        invariant forall x: nat, y: nat :: x < n ==> (y in mask[x] <==> y < MAX_INPUT_SIZE && !Named(pairs[..k], x, y))
      {
        assert Within(pairs[k], n);
        var a, b := pairs[k].0, pairs[k].1;
        ghost var last := mask;
        mask := mask[a := mask[a] - {b}];
        mask := mask[b := mask[b] - {a}];
        forall x: nat, y: nat | x < n ensures y in mask[x] <==> y < MAX_INPUT_SIZE && !Named(pairs[..k + 1], x, y) {
          NamedSnoc(pairs, k, x, y);
          assert y in last[x] <==> y < MAX_INPUT_SIZE && !Named(pairs[..k], x, y);
        }
      }
      assert pairs[..|pairs|] == pairs;
      forall x: nat | x < n ensures mask[x] == MaskOf(pairs, n)[x] {
        forall y ensures y in mask[x] <==> y in MaskOf(pairs, n)[x] {}
      }
    }

    /** set_nop_pair_mask, and what its callers keep of its result. */
    method SetNopPairMask(pairs: seq<(int, int)>, input: Option<nat>) returns (outcome: Outcome)
      requires input.Some? ==> input.value <= MAX_INPUT_SIZE
      modifies this
      ensures (Now(), outcome) == Given(old(Now()), pairs, input)
      ensures outcome == Duplicates <==> exists i, j :: 0 <= i < j < |pairs| && pairs[i] == pairs[j]
      ensures outcome == OutOfRange ==> input.Some? && exists k :: 0 <= k < |pairs| && !Within(pairs[k], input.value)
      ensures outcome == Duplicates || outcome == OutOfRange ==> Now() == old(Now())
      ensures outcome == Cached ==> input.None? && mask == old(mask) && total == old(total) && cache == pairs
      ensures outcome == Recorded ==>
                && input.Some? && cache == [] && total == |pairs| && (forall k :: 0 <= k < |pairs| ==> Within(pairs[k], input.value))
                && if pairs == [] then mask == old(mask)
                   else |mask| == input.value
                        && forall x: nat, y: nat :: x < input.value ==> (y in mask[x] <==> y < MAX_INPUT_SIZE && !Named(pairs, x, y))
    {
      var dup := HasDuplicates(pairs);
      if dup {
        return Duplicates;
      }
      if input.None? {
        cache := pairs;
        return Cached;
      }
      var n := input.value;
      for k := 0 to |pairs|
        invariant AllWithin(pairs[..k], n) && Now() == old(Now())
      {
        assert pairs[k] == pairs[..k + 1][k];
        if pairs[k].0 >= n || pairs[k].1 >= n || pairs[k].0 < 0 || pairs[k].1 < 0 {
          assert !Within(pairs[k], n);
          return OutOfRange;
        }
        assert pairs[..k + 1] == pairs[..k] + [pairs[k]];
      }
      assert pairs[..|pairs|] == pairs;
      if pairs != [] {
        Record(pairs, n);
      }
      cache := [];
      total := |pairs|;
      outcome := Recorded;
    }

    /** What compute_nopseq does with the pairs that wait. */
    method Replay(n: nat) returns (outcome: Outcome)
      requires n <= MAX_INPUT_SIZE
      modifies this
      ensures (Now(), outcome) == Replayed(old(Now()), n)
    {
      outcome := Recorded;
      if cache != [] {
        outcome := SetNopPairMask(cache, Some(n));
      }
    }

    /** nop_pairs: the pairs that wait, or those the mask names. */
    method NopPairs() returns (pairs: seq<(int, int)>)
      ensures cache != [] ==> pairs == cache
      ensures cache == [] ==> NoDup(pairs)
      ensures cache == [] ==> forall i, j :: (i, j) in pairs <==> 0 <= i < j < |mask| && j !in mask[i]
    {
      if cache != [] { return cache; }
      pairs := [];
      for i := 0 to |mask|
        invariant NoDup(pairs)
        invariant forall a, b :: (a, b) in pairs <==> 0 <= a < i && a < b < |mask| && b !in mask[a]
      {
        for j := i + 1 to |mask|
          invariant NoDup(pairs)
          invariant forall a, b :: (a, b) in pairs <==>
                      (0 <= a < i && a < b < |mask| && b !in mask[a]) || (a == i && i < b < j && b !in mask[i])
        {
          if j !in mask[i] {
            NoDupConcat(pairs, [(i, j)]);
            pairs := pairs + [(i, j)];
          }
        }
      }
    }
  }

  lemma NamedSnoc(pairs: seq<(int, int)>, k: nat, x: nat, y: nat)
    requires k < |pairs|
    ensures Named(pairs[..k + 1], x, y) <==> Named(pairs[..k], x, y) || pairs[k] == (x, y) || pairs[k] == (y, x)
  {
    assert pairs[..k + 1] == pairs[..k] + [pairs[k]];
  }

  lemma NamedWithin(pairs: seq<(int, int)>, n: nat, x: nat, y: nat)
    requires (forall k :: 0 <= k < |pairs| ==> Within(pairs[k], n)) && Named(pairs, x, y)
    ensures x < n && y < n && Named(pairs, y, x)
  {
    var k :| 0 <= k < |pairs| && (pairs[k] == (x, y) || pairs[k] == (y, x));
    assert Within(pairs[k], n);
  }

  // ---- Before or after the input is known ----

  /** What is recorded is a reverse mask as the engine expects it, and it names exactly the given pairs. */
  lemma MaskNames(pairs: seq<(int, int)>, n: nat)
    requires n <= MAX_INPUT_SIZE && AllWithin(pairs, n)
    ensures ReverseMask(MaskOf(pairs, n), n)
    ensures forall x: nat, y: nat :: x < n ==> (y in Flip(MaskOf(pairs, n)[x]) <==> Named(pairs, x, y))
  {
    var mask := MaskOf(pairs, n);
    forall x: nat, y: nat | x < n ensures y in Flip(mask[x]) <==> Named(pairs, x, y) {
      if Named(pairs, x, y) { NamedWithin(pairs, n, x, y); }
    }
    hide MaskOf, Flip;
    forall x: nat, y: nat | x < n && y in Flip(mask[x]) ensures y < n && x in Flip(mask[y]) {
      NamedWithin(pairs, n, x, y);
    }
  }

  /** Giving a nonempty list before the input is known comes to the same as giving it after, errors included. */
  lemma ReplayIsGiving(m: Pairs, pairs: seq<(int, int)>, n: nat)
    requires pairs != [] && NoDup(pairs)
    ensures var (now, outcome) := Replayed(Given(m, pairs, None).0, n);
            && outcome == Given(m, pairs, Some(n)).1
            && now.mask == Given(m, pairs, Some(n)).0.mask && now.total == Given(m, pairs, Some(n)).0.total
            && (outcome == Recorded ==> now == Given(m, pairs, Some(n)).0)
  {
  }

  /** An empty list lifts no mask, but it takes the count back to 0 if the input is known, and only then. */
  lemma EmptyListKeepsMask(m: Pairs, n: nat)
    ensures Given(m, [], Some(n)).0 == Pairs(m.mask, [], 0)
    ensures Replayed(Given(m, [], None).0, n).0 == Pairs(m.mask, [], m.total)
  {
    assert NoDup<(int, int)>([]) && AllWithin([], n);
  }

  /** The mask is in force exactly if the count says so. */
  ghost predicate InStep(m: Pairs) {
    m.total == 0 <==> m.mask == []
  }

  /** That is kept by every list but an empty one given, with a known input, after a nonempty one. */
  lemma StaysInStep(m: Pairs, pairs: seq<(int, int)>, input: Option<nat>)
    requires InStep(m)
    ensures InStep(Given(m, pairs, input).0) <==> !(pairs == [] && input.Some? && m.mask != [])
  {
    if pairs == [] {
      assert NoDup(pairs) && (input.Some? ==> AllWithin(pairs, input.value));
    } else if input.Some? && input.value == 0 {
      assert !Within(pairs[0], input.value);
    }
  }

  /**
   The pairs read back name what was given, apart from a normal operator paired with itself: they name exactly
   the same if and only if there is no such pair.
   */
  lemma ReadBack(given: seq<(int, int)>, n: nat, pairs: seq<(int, int)>)
    requires n <= MAX_INPUT_SIZE && AllWithin(given, n)
    requires forall i, j :: (i, j) in pairs <==> 0 <= i < j < n && j !in MaskOf(given, n)[i]
    ensures forall x: nat, y: nat :: Named(pairs, x, y) <==> Named(given, x, y) && x != y
    ensures (forall x: nat, y: nat :: Named(pairs, x, y) <==> Named(given, x, y)) <==> forall x :: (x, x) !in given
  {
    forall x: nat, y: nat ensures Named(pairs, x, y) <==> Named(given, x, y) && x != y {
      if Named(given, x, y) { NamedWithin(given, n, x, y); }
      if x < n && y < n { assert y in MaskOf(given, n)[x] <==> !Named(given, x, y); assert x in MaskOf(given, n)[y] <==> !Named(given, y, x); }
    }
    forall x | (x, x) in given ensures x >= 0 && Named(given, x, x) {
      var k :| 0 <= k < |given| && given[k] == (x, x);
      assert Within(given[k], n);
    }
  }
}
