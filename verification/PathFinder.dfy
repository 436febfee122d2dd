/** Relay path ranking (src/router/path_finder.rs, src/router/relay_router.rs): one breadth-first
    search per active peer, then a stable sort by distance to the nearest known relay. */
module PathFinder {
  import opened Core
  import opened StableSort

  type Edges = map<Key, seq<Key>>
  type Distances = map<Key, nat>

  ghost predicate Edge(edges: Edges, u: Key, v: Key)
  {
    u in edges && v in edges[u]
  }

  /** There is a directed walk of exactly `n` hops from `s` to `v`. */
  ghost predicate Walk(edges: Edges, s: Key, v: Key, n: nat)
    decreases n
  {
    if n == 0 then s == v
    else exists u: Key :: Walk(edges, s, u, n - 1) && Edge(edges, u, v)
  }

  /** `n` is the length of a shortest directed walk from `s` to `v`. */
  ghost predicate HopDistance(edges: Edges, s: Key, v: Key, n: nat)
  {
    Walk(edges, s, v, n) && forall j: nat :: j < n ==> !Walk(edges, s, v, j)
  }

  ghost predicate Attained(edges: Edges, dist: Distances, s: Key, v: Key, n: nat, m: int)
  {
    v in dist && HopDistance(edges, s, v, n) && m == n + dist[v]
  }

  /** `k` is the distance from `s` to a relay: the minimum, over the reachable nodes that have an entry
      in `dist`, of hop distance plus entry; `Infinite` when there is no such node. */
  ghost predicate IsRelayKey(edges: Edges, dist: Distances, s: Key, k: SortKey)
  {
    match k
    case Infinite => forall v: Key, n: nat :: Walk(edges, s, v, n) ==> v !in dist
    case Finite(m) =>
      && (exists v: Key, n: nat :: Attained(edges, dist, s, v, n, m))
      && (forall v: Key, n: nat :: Walk(edges, s, v, n) && v in dist ==> m <= n + dist[v])
  }

  lemma RelayKeyUnique(edges: Edges, dist: Distances, s: Key, j: SortKey, k: SortKey)
    requires IsRelayKey(edges, dist, s, j) && IsRelayKey(edges, dist, s, k)
    ensures j == k
  {
  }

  /** Nodes a search from `s` can ever meet. */
  ghost function Universe(edges: Edges, s: Key): set<Key>
  {
    (set u, v | u in edges && v in edges[u] :: v) + {s}
  }

  // ---- The search ---------------------------------------------------------------------------------

  ghost predicate QueueOrdered(queue: seq<(Key, nat)>)
  {
    forall i, j :: 0 <= i < j < |queue| ==>
                     queue[i].0 != queue[j].0 && queue[i].1 <= queue[j].1 <= queue[i].1 + 1
  }

  ghost predicate QueueMatches(queue: seq<(Key, nat)>, visited: set<Key>, depths: map<Key, nat>, done: set<Key>)
  {
    && depths.Keys == visited
    && (forall i :: 0 <= i < |queue| ==> queue[i].0 in visited - done && depths[queue[i].0] == queue[i].1)
    && (forall v :: v in visited - done ==> exists i :: 0 <= i < |queue| && queue[i].0 == v)
  }

  /** Every recorded depth is realised by a walk, and a finished node's neighbours are at most one deeper. */
  ghost predicate DepthsSound(edges: Edges, s: Key, depths: map<Key, nat>, done: set<Key>)
  {
    && s in depths && depths[s] == 0
    && done <= depths.Keys <= Universe(edges, s)
    && (forall v :: v in depths ==> Walk(edges, s, v, depths[v]))
    && (forall u, v :: u in done && Edge(edges, u, v) ==> v in depths && depths[v] <= depths[u] + 1)
  }

  ghost predicate DoneBelow(queue: seq<(Key, nat)>, depths: map<Key, nat>, done: set<Key>)
  {
    forall u, i :: u in done && u in depths && 0 <= i < |queue| ==> depths[u] <= queue[i].1
  }

  /** `best` is the minimum of depth plus entry over the finished nodes. */
  ghost predicate BestSoFar(dist: Distances, depths: map<Key, nat>, done: set<Key>, best: SortKey)
  {
    match best
    case Infinite => forall u :: u in done ==> u !in dist
    case Finite(m) =>
      && (exists u :: u in done && u in depths && u in dist && m == depths[u] + dist[u])
      && (forall u :: u in done && u in depths && u in dist ==> m <= depths[u] + dist[u])
  }

  ghost predicate Extends(depths: map<Key, nat>, depths': map<Key, nat>, depth: nat)
  {
    && depths.Keys <= depths'.Keys
    && (forall v :: v in depths ==> depths'[v] == depths[v])
    && (forall v :: v in depths' && v !in depths ==> depths'[v] == depth + 1)
  }

  lemma EnqueueKeeps(queue: seq<(Key, nat)>, visited: set<Key>, depths: map<Key, nat>, done: set<Key>, v: Key,
                     depth: nat)
    requires QueueOrdered(queue) && QueueMatches(queue, visited, depths, done) && done <= visited && v !in visited
    requires forall i :: 0 <= i < |queue| ==> depth <= queue[i].1 <= depth + 1
    ensures QueueOrdered(queue + [(v, depth + 1)])
    ensures QueueMatches(queue + [(v, depth + 1)], visited + {v}, depths[v := depth + 1], done)
  {
    var queue', visited' := queue + [(v, depth + 1)], visited + {v};
    forall w | w in visited' - done ensures exists j :: 0 <= j < |queue'| && queue'[j].0 == w {
      if w == v {
        assert queue'[|queue|].0 == v;
      } else {
        assert w in visited - done;
        var j :| 0 <= j < |queue| && queue[j].0 == w;
        assert queue'[j].0 == w;
      }
    }
  }

  /** The inner loop: enqueue the unvisited neighbours of a node at `depth`. */
  method VisitNeighbors(neighbors: seq<Key>, depth: nat, queue: seq<(Key, nat)>, visited: set<Key>,
                        ghost depths: map<Key, nat>, ghost done: set<Key>)
    returns (queue': seq<(Key, nat)>, visited': set<Key>, ghost depths': map<Key, nat>)
    requires QueueOrdered(queue) && QueueMatches(queue, visited, depths, done) && done <= visited
    requires forall i :: 0 <= i < |queue| ==> depth <= queue[i].1 <= depth + 1
    ensures QueueOrdered(queue') && QueueMatches(queue', visited', depths', done)
    ensures forall i :: 0 <= i < |queue'| ==> depth <= queue'[i].1 <= depth + 1
    ensures visited' == visited + (set v | v in neighbors)
    ensures Extends(depths, depths', depth)
  {
    queue', visited', depths' := queue, visited, depths;
    for i := 0 to |neighbors|
      invariant QueueOrdered(queue') && QueueMatches(queue', visited', depths', done)
      invariant forall i :: 0 <= i < |queue'| ==> depth <= queue'[i].1 <= depth + 1
      invariant visited' == visited + (set v | v in neighbors[..i])
      invariant Extends(depths, depths', depth)
    {
      var v := neighbors[i];
      assert neighbors[..i + 1] == neighbors[..i] + [v];
      if v !in visited' {
        EnqueueKeeps(queue', visited', depths', done, v, depth);
        visited' := visited' + {v};
        queue' := queue' + [(v, depth + 1)];
        depths' := depths'[v := depth + 1];
      }
    }
    assert neighbors[..|neighbors|] == neighbors;
  }

  /** Induction on the walk: once every met node is finished, recorded depths are shortest. */
  lemma {:induction false} DepthsComplete(edges: Edges, s: Key, depths: map<Key, nat>, v: Key, n: nat)
    requires DepthsSound(edges, s, depths, depths.Keys)
    requires Walk(edges, s, v, n)
    ensures v in depths && depths[v] <= n
    decreases n
  {
    if n == 0 {
    } else {
      var u :| Walk(edges, s, u, n - 1) && Edge(edges, u, v);
      DepthsComplete(edges, s, depths, u, n - 1);
    }
  }

  lemma SearchResult(edges: Edges, dist: Distances, s: Key, depths: map<Key, nat>, best: SortKey)
    requires DepthsSound(edges, s, depths, depths.Keys)
    requires BestSoFar(dist, depths, depths.Keys, best)
    ensures IsRelayKey(edges, dist, s, best)
  {
    forall v: Key, n: nat | Walk(edges, s, v, n) ensures v in depths && depths[v] <= n {
      DepthsComplete(edges, s, depths, v, n);
    }
    if best.Finite? {
      var u :| u in depths && u in dist && best.n == depths[u] + dist[u];
      assert HopDistance(edges, s, u, depths[u]);
      assert Attained(edges, dist, s, u, depths[u], best.n);
    }
  }

  lemma FinishNode(edges: Edges, s: Key, depths: map<Key, nat>, depths': map<Key, nat>,
                   done: set<Key>, u: Key, d: nat)
    requires DepthsSound(edges, s, depths, done)
    requires u in depths && depths[u] == d
    requires Extends(depths, depths', d)
    requires depths'.Keys == depths.Keys + (if u in edges then set v | v in edges[u] else {})
    requires forall v :: v in depths ==> depths[v] <= d + 1
    ensures DepthsSound(edges, s, depths', done + {u})
  {
    forall v | v in depths' && v !in depths ensures Walk(edges, s, v, d + 1) && v in Universe(edges, s) {
      assert Walk(edges, s, u, d) && Edge(edges, u, v);
    }
    hide Walk, Universe;
  }

  /** Taking the head off the queue: the rest still matches, and nothing met is deeper than one below it. */
  lemma PopHead(queue: seq<(Key, nat)>, visited: set<Key>, depths: map<Key, nat>, done: set<Key>)
    requires queue != [] && QueueOrdered(queue) && QueueMatches(queue, visited, depths, done)
    requires done <= visited && DoneBelow(queue, depths, done)
    ensures QueueOrdered(queue[1..]) && QueueMatches(queue[1..], visited, depths, done + {queue[0].0})
    ensures queue[0].0 in visited - done && depths[queue[0].0] == queue[0].1
    ensures forall v :: v in depths ==> depths[v] <= queue[0].1 + 1
    ensures forall v :: v in done + {queue[0].0} ==> depths[v] <= queue[0].1
  {
    var rest, done' := queue[1..], done + {queue[0].0};
    forall v | v in visited - done' ensures exists i :: 0 <= i < |rest| && rest[i].0 == v {
      assert v in visited - done;
      var i :| 0 <= i < |queue| && queue[i].0 == v;
      assert rest[i - 1].0 == v;
    }
    forall v | v in depths ensures depths[v] <= queue[0].1 + 1 {
      if v !in done {
        assert v in visited - done;
        var i :| 0 <= i < |queue| && queue[i].0 == v;
      }
    }
  }

  /** One breadth-first search, seen from outside its loop. */
  ghost predicate SearchState(edges: Edges, s: Key, queue: seq<(Key, nat)>, visited: set<Key>,
                              depths: map<Key, nat>, done: set<Key>)
  {
    && QueueOrdered(queue) && QueueMatches(queue, visited, depths, done)
    && DepthsSound(edges, s, depths, done)
    && DoneBelow(queue, depths, done)
  }

  /** One turn of the search loop: expand the head of the queue. */
  method ExpandHead(edges: Edges, ghost s: Key, queue: seq<(Key, nat)>, visited: set<Key>,
                    ghost depths: map<Key, nat>, ghost done: set<Key>)
    returns (queue': seq<(Key, nat)>, visited': set<Key>, ghost depths': map<Key, nat>)
    requires SearchState(edges, s, queue, visited, depths, done) && queue != []
    ensures SearchState(edges, s, queue', visited', depths', done + {queue[0].0})
    ensures visited' == visited + (if queue[0].0 in edges then set v | v in edges[queue[0].0] else {})
    ensures queue[0].0 in depths && depths[queue[0].0] == queue[0].1
    ensures queue[0].0 in Universe(edges, s) - done
    ensures forall v :: v in depths ==> v in depths' && depths'[v] == depths[v]
  {
    var (node, depth) := queue[0];
    PopHead(queue, visited, depths, done);
    var neighbors := if node in edges then edges[node] else [];
    queue', visited', depths' := VisitNeighbors(neighbors, depth, queue[1..], visited, depths, done + {node});
    FinishNode(edges, s, depths, depths', done, node, depth);
  }

  /** Breadth-first search from one peer: the distance to the nearest relay it can reach. */
  method RelayDistance(edges: Edges, dist: Distances, start: Key) returns (best: SortKey)
    ensures IsRelayKey(edges, dist, start, best)
  {
    var queue: seq<(Key, nat)> := [(start, 0)];
    var visited := {start};
    ghost var depths: map<Key, nat> := map[start := 0];
    ghost var done: set<Key> := {};
    best := Infinite;
    assert queue[0].0 == start;
    while queue != []
      invariant SearchState(edges, start, queue, visited, depths, done)
      invariant BestSoFar(dist, depths, done, best)
      decreases Universe(edges, start) - done
    {
      var (node, depth) := queue[0];
      ghost var depths0, best0 := depths, best;
      if node in dist {
        var total := depth + dist[node];
        best := if Leq(Finite(total), best) then Finite(total) else best;
      }
      queue, visited, depths := ExpandHead(edges, start, queue, visited, depths, done);
      BestStep(dist, depths0, depths, done, node, best0, best);
      done := done + {node};
    }
    assert visited - done == {};
    assert done == depths.Keys;
    SearchResult(edges, dist, start, depths, best);
  }

  lemma BestStep(dist: Distances, depths: map<Key, nat>, depths': map<Key, nat>, done: set<Key>, node: Key,
                 best: SortKey, best': SortKey)
    requires done <= depths.Keys && node in depths
    requires forall v :: v in depths ==> v in depths' && depths'[v] == depths[v]
    requires BestSoFar(dist, depths, done, best)
    requires best' == if node in dist && Leq(Finite(depths[node] + dist[node]), best)
                      then Finite(depths[node] + dist[node]) else best
    ensures BestSoFar(dist, depths', done + {node}, best')
  {
    if best'.Finite? && best' != best {
      assert node in done + {node} && node in depths' && node in dist && best'.n == depths'[node] + dist[node];
    } else if best.Finite? {
      var u :| u in done && u in depths && u in dist && best.n == depths[u] + dist[u];
      assert u in done + {node} && u in depths' && best.n == depths'[u] + dist[u];
    }
  }

  // ---- The ranking --------------------------------------------------------------------------------

  /** The sort key of a peer: its recorded distance, or `usize::MAX` when it has none. */
  function PathKey(paths: map<Key, nat>, peer: Key): SortKey
  {
    if peer in paths then Finite(paths[peer]) else Infinite
  }

  // ---- The key as a function -----------------------------------------------------------------------

  lemma {:induction false} LeastAttained(edges: Edges, dist: Distances, s: Key, v: Key, n: nat) returns (k: SortKey)
    requires Walk(edges, s, v, n) && v in dist
    ensures k.Finite? && IsRelayKey(edges, dist, s, k)
    decreases n + dist[v]
  {
    if w, j: nat :| Walk(edges, s, w, j) && w in dist && j + dist[w] < n + dist[v] {
      k := LeastAttained(edges, dist, s, w, j);
    } else {
      k := Finite(n + dist[v]);
      assert HopDistance(edges, s, v, n);
      assert Attained(edges, dist, s, v, n, k.n);
    }
  }

  /** Every node of every graph has a relay key. */
  lemma RelayKeyExists(edges: Edges, dist: Distances, s: Key)
    ensures exists k :: IsRelayKey(edges, dist, s, k)
  {
    if v, n: nat :| Walk(edges, s, v, n) && v in dist {
      var k := LeastAttained(edges, dist, s, v, n);
    } else {
      assert IsRelayKey(edges, dist, s, Infinite);
    }
  }

  /** The distance from `s` to a relay. */
  ghost function RelayKey(edges: Edges, dist: Distances, s: Key): (k: SortKey)
    ensures IsRelayKey(edges, dist, s, k)
  {
    RelayKeyExists(edges, dist, s);
    var k :| IsRelayKey(edges, dist, s, k);
    k
  }

  ghost function RelayKeys(edges: Edges, dist: Distances): Key -> SortKey
  {
    (p: Key) => RelayKey(edges, dist, p)
  }

  /** The ranking is the stable sort of the active peers by their true relay distance. */
  method RankNextHops(edges: Edges, dist: Distances, active: seq<Key>) returns (ranked: seq<Key>)
    ensures IsStableSort(active, ranked, RelayKeys(edges, dist))
  {
    if active == [] { return []; }
    var paths: map<Key, nat> := map[];
    for i := 0 to |active|
      invariant forall p :: p in active[..i] ==> PathKey(paths, p) == RelayKey(edges, dist, p)
      invariant forall p :: p in paths ==> p in active[..i]
    {
      var p := active[i];
      assert active[..i + 1] == active[..i] + [p];
      var best := RelayDistance(edges, dist, p);
      RelayKeyUnique(edges, dist, p, best, RelayKey(edges, dist, p));
      hide IsRelayKey, RelayKey;
      if best.Finite? {
        FiniteKeyIsNat(edges, dist, p, best);
        paths := paths[p := best.n];
      }
    }
    assert active[..|active|] == active;
    var byPath := (p: Key) => PathKey(paths, p);
    ranked := Sort(active, byPath);
    SortCongruence(active, byPath, RelayKeys(edges, dist));
    SortCorrect(active, RelayKeys(edges, dist));
  }

  lemma FiniteKeyIsNat(edges: Edges, dist: Distances, p: Key, k: SortKey)
    requires k.Finite? && IsRelayKey(edges, dist, p, k)
    ensures k.n >= 0
  {
    var v, n :| Attained(edges, dist, p, v, n, k.n);
  }

  /** `RelayRouter::select_next_hops`: the first `fanout` ranked peers, or all of them. */
  function SelectNextHops(fanout: nat, ranked: seq<Key>): (hops: seq<Key>)
  {
    if ranked == [] then []
    else if fanout >= |ranked| then ranked
    else ranked[..fanout]
  }

  /** The selection takes min(fanout, all) of the active peers and leaves out no strictly closer one. */
  lemma SelectionIsClosest(edges: Edges, dist: Distances, active: seq<Key>, ranked: seq<Key>, fanout: nat)
    requires IsStableSort(active, ranked, RelayKeys(edges, dist))
    ensures var hops := SelectNextHops(fanout, ranked);
            && |hops| == Min(fanout, |active|)
            && multiset(hops) <= multiset(active)
            && forall p, q :: p in hops && q in multiset(active) - multiset(hops)
                              ==> Leq(RelayKey(edges, dist, p), RelayKey(edges, dist, q))
  {
    var hops := SelectNextHops(fanout, ranked);
    var rest := ranked[|hops|..];
    assert ranked == hops + rest;
    assert |ranked| == |multiset(ranked)| == |multiset(active)| == |active|;
    assert multiset(active) - multiset(hops) == multiset(rest);
    hide SelectNextHops, RelayKey;
    forall p, q | p in hops && q in multiset(active) - multiset(hops)
      ensures Leq(RelayKey(edges, dist, p), RelayKey(edges, dist, q))
    {
      SelectedLeqRest(active, ranked, RelayKeys(edges, dist), |hops|, p, q);
    }
  }

  /** In numbers: a peer ranked before one that is `m` from a relay is at most `m` from a relay itself. */
  lemma RankedClosestFirst(edges: Edges, dist: Distances, active: seq<Key>, ranked: seq<Key>, i: nat, j: nat, m: int)
    returns (closer: int)
    requires IsStableSort(active, ranked, RelayKeys(edges, dist))
    requires i < j < |ranked| && IsRelayKey(edges, dist, ranked[j], Finite(m))
    ensures closer <= m && IsRelayKey(edges, dist, ranked[i], Finite(closer))
  {
    var key := RelayKeys(edges, dist);
    RelayKeyUnique(edges, dist, ranked[j], Finite(m), RelayKey(edges, dist, ranked[j]));
    hide IsRelayKey;
    assert Leq(key(ranked[i]), key(ranked[j]));
    closer := RelayKey(edges, dist, ranked[i]).n;
  }

  lemma SelectedLeqRest(active: seq<Key>, ranked: seq<Key>, key: Key -> SortKey, n: nat, p: Key, q: Key)
    requires IsStableSort(active, ranked, key) && n <= |ranked|
    requires p in ranked[..n] && q in multiset(ranked[n..])
    ensures Leq(key(p), key(q))
  {
    hide WithKey;
    var a :| 0 <= a < n && ranked[a] == p;
    assert q in ranked[n..];
    var b :| n <= b < |ranked| && ranked[b] == q;
  }

  // ---- The effect of losing edges -------------------------------------------------------------------

  lemma {:induction false} WalkSurvivesMoreEdges(fewer: Edges, edges: Edges, s: Key, v: Key, n: nat)
    requires forall u :: u in fewer ==> u in edges && edges[u] == fewer[u]
    requires Walk(fewer, s, v, n)
    ensures Walk(edges, s, v, n)
    decreases n
  {
    if n == 0 {
    } else {
      var u :| Walk(fewer, s, u, n - 1) && Edge(fewer, u, v);
      WalkSurvivesMoreEdges(fewer, edges, s, u, n - 1);
      assert Edge(edges, u, v);
    }
  }

  /** Forgetting nodes (stale pruning) never makes a peer look closer to a relay. */
  lemma PruningOnlyLengthens(edges: Edges, stale: set<Key>, dist: Distances, s: Key)
    ensures Leq(RelayKey(edges, dist, s), RelayKey(edges - stale, dist, s))
  {
    var after := RelayKey(edges - stale, dist, s);
    if after.Finite? {
      var v: Key, n: nat :| Attained(edges - stale, dist, s, v, n, after.n);
      WalkSurvivesMoreEdges(edges - stale, edges, s, v, n);
    }
  }
}
