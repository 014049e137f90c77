/**
 Partitions of equivalent normal operators: the engine keeps, for each of them, the members that are not
 connected yet. Partition 0 means none; the others are numbered from 1.
 */
module NopPartitions {

  /** The members of partition k + 1 that have no connection. */
  function Unconnected(partitionOf: seq<nat>, counts: seq<nat>, k: nat): set<nat> {
    set x: nat | x < |partitionOf| && partitionOf[x] == k + 1 && (x < |counts| ==> counts[x] == 0)
  }

  function Partitions(partitionOf: seq<nat>, n: nat, counts: seq<nat>): (v: seq<set<nat>>)
    ensures |v| == n
  {
    seq(n, k requires 0 <= k < n => Unconnected(partitionOf, counts, k))
  }

  /** Every normal operator is assigned one of n partitions, or none. */
  predicate Assigned(partitionOf: seq<nat>, n: nat, nnops: nat) {
    nnops <= |partitionOf| && forall x :: 0 <= x < |partitionOf| ==> partitionOf[x] <= n
  }

  /** The partitions before anything is connected. */
  method InitTopologicalPartitions(partitionOf: seq<nat>, n: nat) returns (v: seq<set<nat>>)
    requires forall x :: 0 <= x < |partitionOf| ==> partitionOf[x] <= n
    ensures v == Partitions(partitionOf, n, [])
  {
    v := seq(n, _ => {});
    assert forall k :: 0 <= k < n ==> Unconnected([], [], k) == {};
    assert v == Partitions([], n, []);
    for cnt := 0 to |partitionOf|
      invariant v == Partitions(partitionOf[..cnt], n, [])
    {
      OneMore(partitionOf, n, cnt);
      var k := partitionOf[cnt];
      if k > 0 {
        v := v[k - 1 := v[k - 1] + {cnt}];
      }
    }
    assert partitionOf[..|partitionOf|] == partitionOf;
  }

  lemma OneMore(partitionOf: seq<nat>, n: nat, cnt: nat)
    requires cnt < |partitionOf| && partitionOf[cnt] <= n
    ensures var v, k := Partitions(partitionOf[..cnt], n, []), partitionOf[cnt];
            Partitions(partitionOf[..cnt + 1], n, []) == if k > 0 then v[k - 1 := v[k - 1] + {cnt}] else v
  {
    var u, t := partitionOf[..cnt], partitionOf[..cnt + 1];
    assert t == u + [partitionOf[cnt]];
    forall j: nat | j < n ensures Unconnected(t, [], j) == if partitionOf[cnt] == j + 1 then Unconnected(u, [], j) + {cnt} else Unconnected(u, [], j) {
      forall x: nat ensures x in Unconnected(t, [], j) <==> x in Unconnected(u, [], j) || (x == cnt && partitionOf[cnt] == j + 1) {}
    }
    var v, w, k := Partitions(u, n, []), Partitions(t, n, []), partitionOf[cnt];
    assert forall j: nat :: j < n ==> w[j] == Unconnected(t, [], j) && v[j] == Unconnected(u, [], j);
    assert w == if k > 0 then v[k - 1 := v[k - 1] + {cnt}] else v;
  }

  lemma NothingCounted(partitionOf: seq<nat>, n: nat, counts: seq<nat>)
    requires forall x :: 0 <= x < |counts| ==> counts[x] == 0
    ensures Partitions(partitionOf, n, counts) == Partitions(partitionOf, n, [])
  {
    assert forall k :: 0 <= k < n ==> Unconnected(partitionOf, counts, k) == Unconnected(partitionOf, [], k);
  }

  /** The first connection takes a normal operator out of its partition, and the last one undone puts it back. */
  lemma CountChanged(partitionOf: seq<nat>, n: nat, counts: seq<nat>, x: nat, c: nat)
    requires x < |counts| && Assigned(partitionOf, n, |counts|)
    ensures var v, w, k := Partitions(partitionOf, n, counts), Partitions(partitionOf, n, counts[x := c]), partitionOf[x];
            && (k > 0 ==> (x in v[k - 1] <==> counts[x] == 0))
            && w == if k == 0 || (counts[x] == 0 <==> c == 0) then v
                    else if c == 0 then v[k - 1 := v[k - 1] + {x}]
                    else v[k - 1 := v[k - 1] - {x}]
  {
    var v, w, k := Partitions(partitionOf, n, counts), Partitions(partitionOf, n, counts[x := c]), partitionOf[x];
    forall j: nat | j < n && j + 1 != k ensures w[j] == v[j] {}
    if k > 0 && counts[x] == 0 && c != 0 {
      assert w[k - 1] == v[k - 1] - {x};
    } else if k > 0 && counts[x] != 0 && c == 0 {
      assert w[k - 1] == v[k - 1] + {x};
    } else if k > 0 {
      assert w[k - 1] == v[k - 1];
    }
  }
}
