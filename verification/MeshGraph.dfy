/** The mesh graph (src/topology/graph.rs): per-node neighbour lists with update stamps. */
module MeshGraph {
  import opened Core
  import opened StableSort

  ghost predicate StrictlyIncreasing(s: seq<Key>)
  {
    forall i, j :: 0 <= i < j < |s| ==> s[i] < s[j]
  }

  ghost function Elements(s: seq<Key>): set<Key>
  {
    set x | x in s
  }

  /** Nodes whose last update is strictly older than `timeout` at `now`. */
  function StaleNodes(stamps: map<Key, nat>, now: nat, timeout: nat): set<Key>
  {
    set k | k in stamps && now - stamps[k] > timeout
  }

  /** `sort_unstable` on the distinct elements of a hash set: any enumeration gives the increasing list. */
  method SortedList(s: set<Key>) returns (list: seq<Key>)
    ensures StrictlyIncreasing(list)
    ensures Elements(list) == s
  {
    list := [];
    var rest := s;
    while rest != {}
      invariant rest <= s
      invariant StrictlyIncreasing(list)
      invariant Elements(list) == s - rest
      decreases rest
    {
      var x :| x in rest;
      ghost var before := list;
      list := Insert(x, list, (k: Key) => Finite(k));
      rest := rest - {x};
      InsertedDistinct(x, before, list);
    }
  }

  lemma InsertedDistinct(x: Key, before: seq<Key>, after: seq<Key>)
    requires StrictlyIncreasing(before) && x !in before
    requires after == Insert(x, before, (k: Key) => Finite(k))
    ensures StrictlyIncreasing(after) && Elements(after) == Elements(before) + {x}
    decreases before
  {
    var key := (k: Key) => Finite(k);
    if before != [] && !Leq(key(x), key(before[0])) {
      InsertedDistinct(x, before[1..], Insert(x, before[1..], key));
      var t := Insert(x, before[1..], key);
      forall j | 0 <= j < |t| ensures before[0] < t[j] {
        assert t[j] in Elements(t);
        assert t[j] == x || t[j] in before[1..];
      }
      assert Elements(before) == {before[0]} + Elements(before[1..]);
      assert after == [before[0]] + t;
    } else {
      assert after == [x] + before;
    }
  }

  lemma RemovedCount(all: set<Key>, gone: set<Key>)
    requires gone <= all
    ensures |all - gone| == |all| - |gone|
  {
  }

  lemma PrunedMeaning(edges: map<Key, seq<Key>>, stamps: map<Key, nat>, now: nat, timeout: nat)
    requires edges.Keys == stamps.Keys
    ensures var stale := StaleNodes(stamps, now, timeout);
            && (forall n :: n in edges - stale <==> n in edges && now - stamps[n] <= timeout)
            && |edges - stale| == |edges| - |stale|
  {
    var stale := StaleNodes(stamps, now, timeout);
    RemovedCount(edges.Keys, stale);
    assert (edges - stale).Keys == edges.Keys - stale;
    assert |edges - stale| == |(edges - stale).Keys| && |edges| == |edges.Keys|;
  }

  class MeshGraph {
    var edges: map<Key, seq<Key>>
    var lastUpdated: map<Key, nat>

    /** Every node with edges is stamped, and no list has self-edges or repetitions. */
    ghost predicate Valid()
      reads this
    {
      && edges.Keys == lastUpdated.Keys
      && forall n :: n in edges ==> StrictlyIncreasing(edges[n]) && n !in edges[n]
    }

    constructor ()
      ensures Valid() && edges == map[] && lastUpdated == map[]
    {
      edges, lastUpdated := map[], map[];
    }

    method ApplyUpdate(origin: Key, peers: seq<Key>, now: nat)
      requires Valid()
      modifies this
      ensures Valid()
      ensures edges.Keys == old(edges).Keys + {origin}
      ensures Elements(edges[origin]) == Elements(peers) - {origin}
      ensures forall n :: n in old(edges) && n != origin ==> edges[n] == old(edges)[n]
      ensures lastUpdated == old(lastUpdated)[origin := now]
    {
      var distinct: set<Key> := {};
      for i := 0 to |peers|
        invariant distinct == Elements(peers[..i]) - {origin}
      {
        if peers[i] != origin {
          distinct := distinct + {peers[i]};
        }
        assert peers[..i + 1] == peers[..i] + [peers[i]];
      }
      assert peers[..|peers|] == peers;
      var list := SortedList(distinct);
      assert origin !in Elements(list);
      edges := edges[origin := list];
      lastUpdated := lastUpdated[origin := now];
    }

    method RemoveNodes(nodes: set<Key>)
      modifies this
      ensures edges == old(edges) - nodes && lastUpdated == old(lastUpdated) - nodes
    {
      var rest := nodes;
      while rest != {}
        invariant rest <= nodes
        invariant edges == old(edges) - (nodes - rest)
        invariant lastUpdated == old(lastUpdated) - (nodes - rest)
        decreases rest
      {
        var k :| k in rest;
        edges := edges - {k};
        lastUpdated := lastUpdated - {k};
        rest := rest - {k};
        assert nodes - rest == (nodes - (rest + {k})) + {k};
      }
      assert nodes - rest == nodes;
    }

    /** Removes exactly the nodes whose last update is more than the timeout ago, and reports how many there were. */
    method PruneStaleEdges(timeout: nat, now: nat) returns (pruned: nat)
      requires Valid()
      modifies this
      ensures Valid()
      ensures forall n :: n in edges <==> n in old(edges) && now - old(lastUpdated)[n] <= timeout
      ensures forall n :: n in edges ==> edges[n] == old(edges)[n] && lastUpdated[n] == old(lastUpdated)[n]
      ensures edges == old(edges) - StaleNodes(old(lastUpdated), now, timeout)
      ensures pruned == |old(edges)| - |edges|
    {
      var stale := StaleNodes(lastUpdated, now, timeout);
      pruned := |stale|;
      RemoveNodes(stale);
      PrunedMeaning(old(edges), old(lastUpdated), now, timeout);
    }
  }
}
