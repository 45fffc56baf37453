/**
  `shortest_path`: queue-driven breadth-first search that records parent
  pointers, and the walk read back from them.
*/
module EntityPath {
  import opened Sequences
  import opened Wrappers
  import opened EntityGraph
  import EntityTraverse

  const U32_MAX: nat := 0xFFFF_FFFF

  // ---- Parent pointers ----

  /** Parent pointers go one rank down, so following them cannot cycle. */
  ghost predicate Ranked(parent: map<Uuid, Uuid>, rank: map<Uuid, nat>) {
    forall v :: v in parent ==> v in rank && parent[v] in rank && rank[v] == rank[parent[v]] + 1
  }

  ghost predicate Up(parent: map<Uuid, Uuid>, p: seq<Uuid>, i: nat)
    requires i < |p| - 1
  {
    p[i] in parent && parent[p[i]] == p[i + 1]
  }

  ghost predicate Down(parent: map<Uuid, Uuid>, p: seq<Uuid>, i: nat)
    requires i < |p| - 1
  {
    p[i + 1] in parent && parent[p[i + 1]] == p[i]
  }

  /** `p` follows parent pointers upward, one rank at a time. */
  ghost predicate Climbs(parent: map<Uuid, Uuid>, rank: map<Uuid, nat>, p: seq<Uuid>, to: Uuid) {
    && p != [] && p[0] == to && to in rank
    && (forall i {:trigger p[i]} :: 0 <= i < |p| ==> p[i] in rank && rank[p[i]] + i == rank[to])
    && (forall i :: 0 <= i < |p| - 1 ==> Up(parent, p, i))
  }

  lemma ClimbsFurther(parent: map<Uuid, Uuid>, rank: map<Uuid, nat>, p: seq<Uuid>, to: Uuid)
    requires Ranked(parent, rank) && Climbs(parent, rank, p, to) && p[|p| - 1] in parent
    ensures Climbs(parent, rank, p + [parent[p[|p| - 1]]], to)
  {
    var last := p[|p| - 1];
    var q := p + [parent[last]];
    assert last in parent && last in rank && rank[last] + |p| - 1 == rank[to];
    forall i | 0 <= i < |q|
      ensures q[i] in rank && rank[q[i]] + i == rank[to]
    {
      assert q[i] == if i < |p| then p[i] else parent[last];
    }
    forall i | 0 <= i < |q| - 1
      ensures Up(parent, q, i)
    {
      if i < |p| - 1 { assert Up(parent, p, i); }
    }
  }

  /** `p` comes down to `to` along parent pointers, one rank at a time. */
  ghost predicate Descends(parent: map<Uuid, Uuid>, rank: map<Uuid, nat>, p: seq<Uuid>, to: Uuid) {
    && p != [] && p[|p| - 1] == to && to in rank
    && (forall i {:trigger p[i]} :: 0 <= i < |p| ==> p[i] in rank && rank[p[i]] + |p| - 1 - i == rank[to])
    && (forall i :: 0 <= i < |p| - 1 ==> Down(parent, p, i))
  }

  lemma ClimbReversed(parent: map<Uuid, Uuid>, rank: map<Uuid, nat>, up: seq<Uuid>, to: Uuid)
    requires Climbs(parent, rank, up, to)
    ensures Descends(parent, rank, Reversed(up), to) && Reversed(up)[0] == up[|up| - 1]
  {
    var p := Reversed(up);
    assert |p| == |up| && p[0] == up[|up| - 1] && p[|p| - 1] == up[0];
    forall i | 0 <= i < |p|
      ensures p[i] in rank && rank[p[i]] + |p| - 1 - i == rank[to]
    {
      assert p[i] == up[|up| - 1 - i];
    }
    forall i | 0 <= i < |p| - 1
      ensures Down(parent, p, i)
    {
      assert Up(parent, up, |up| - 2 - i);
      assert p[i] == up[|up| - 1 - i] && p[i + 1] == up[|up| - 2 - i];
    }
  }

  /** `reconstruct_path`: climb to the root, then reverse. */
  method ReconstructPath(parent: map<Uuid, Uuid>, to: Uuid, ghost rank: map<Uuid, nat>) returns (path: seq<Uuid>)
    requires Ranked(parent, rank) && to in rank
    ensures Descends(parent, rank, path, to) && path[0] !in parent
  {
    path := [to];
    var node := to;
    while node in parent
      invariant Climbs(parent, rank, path, to) && node == path[|path| - 1]
      decreases rank[node]
    {
      ClimbsFurther(parent, rank, path, to);
      path := path + [parent[node]];
      node := parent[node];
    }
    ClimbReversed(parent, rank, path, to);
    path := Reversed(path);
  }

  // ---- The search ----

  /** Everything discovered has its true distance and hangs below its parent. */
  ghost predicate Tree(adj: Adjacency, from: Uuid, dist: map<Uuid, nat>, parent: map<Uuid, Uuid>) {
    && from in dist && dist[from] == 0
    && (forall v :: v in dist ==> HopsApart(adj, from, v, dist[v]))
    && (forall v :: v in parent <==> v in dist && v != from)
    && Ranked(parent, dist)
    && (forall v :: v in parent ==> v in Neighbors(adj, parent[v]))
  }

  /** The queue holds discovered entities of depth `d` and then `d + 1`. */
  ghost predicate Queued(dist: map<Uuid, nat>, queue: seq<Uuid>, d: nat) {
    && Distinct(queue)
    && (forall i {:trigger queue[i]} :: 0 <= i < |queue| ==> queue[i] in dist && d <= dist[queue[i]] <= d + 1)
    && (forall i, j :: 0 <= i < j < |queue| ==> dist[queue[i]] <= dist[queue[j]])
  }

  /** Whatever left the queue has had its neighbours discovered, `current` aside. */
  ghost predicate ClosedBut(adj: Adjacency, dist: map<Uuid, nat>, queue: seq<Uuid>, current: set<Uuid>) {
    forall v, w {:trigger v in dist, w in Neighbors(adj, v)} ::
      v in dist && v !in queue && v !in current && w in Neighbors(adj, v) ==> w in dist
  }

  ghost predicate Covers(adj: Adjacency, from: Uuid, dist: map<Uuid, nat>, d: nat) {
    forall v {:trigger Within(adj, from, v, d)} :: Within(adj, from, v, d) ==> v in dist
  }

  ghost predicate Frontier(adj: Adjacency, from: Uuid, dist: map<Uuid, nat>, queue: seq<Uuid>, d: nat) {
    Queued(dist, queue, d) && Covers(adj, from, dist, d)
  }

  /** Between two dequeues. */
  ghost predicate Searching(adj: Adjacency, from: Uuid, to: Uuid, dist: map<Uuid, nat>, parent: map<Uuid, Uuid>, queue: seq<Uuid>) {
    && Tree(adj, from, dist, parent)
    && to !in dist
    && ClosedBut(adj, dist, queue, {})
    && (queue != [] ==> queue[0] in dist && Frontier(adj, from, dist, queue, dist[queue[0]]))
  }

  /** While the first `n` neighbours of `current`, at depth `d`, have been looked at. */
  ghost predicate Scanning(adj: Adjacency, from: Uuid, to: Uuid, dist: map<Uuid, nat>, parent: map<Uuid, Uuid>,
                           queue: seq<Uuid>, current: Uuid, d: nat, n: nat) {
    && Tree(adj, from, dist, parent)
    && to !in dist
    && current in dist && dist[current] == d && current !in queue
    && ClosedBut(adj, dist, queue, {current})
    && Frontier(adj, from, dist, queue, d)
    && n <= |Neighbors(adj, current)|
    && (forall k :: 0 <= k < n ==> Neighbors(adj, current)[k] in dist)
  }

  lemma StartSearch(adj: Adjacency, from: Uuid, to: Uuid)
    requires from != to
    ensures Searching(adj, from, to, map[from := 0], map[], [from])
  {
    WithinSelf(adj, from);
  }

  lemma Dequeue(adj: Adjacency, from: Uuid, to: Uuid, dist: map<Uuid, nat>, parent: map<Uuid, Uuid>, queue: seq<Uuid>)
    requires Searching(adj, from, to, dist, parent, queue) && queue != []
    ensures Scanning(adj, from, to, dist, parent, queue[1..], queue[0], dist[queue[0]], 0)
  {
    var rest := queue[1..];
    assert queue == [queue[0]] + rest;
    forall i, j | 0 <= i < j < |rest|
      ensures rest[i] != rest[j] && dist[rest[i]] <= dist[rest[j]]
    {
      assert rest[i] == queue[i + 1] && rest[j] == queue[j + 1];
    }
    assert forall v :: v in queue <==> v == queue[0] || v in rest;
  }

  /** A neighbour not seen before is exactly one hop further than `current`. */
  lemma DiscoverDistance(adj: Adjacency, from: Uuid, dist: map<Uuid, nat>, current: Uuid, d: nat, n: Uuid)
    requires HopsApart(adj, from, current, d) && Covers(adj, from, dist, d)
    requires n in Neighbors(adj, current) && n !in dist
    ensures HopsApart(adj, from, n, d + 1)
  {
    WithinStep(adj, from, n, d);
    HopsIsFirstWithin(adj, from, n, d + 1);
  }

  lemma DiscoverTree(adj: Adjacency, from: Uuid, dist: map<Uuid, nat>, parent: map<Uuid, Uuid>, current: Uuid, n: Uuid)
    requires Tree(adj, from, dist, parent) && current in dist && Covers(adj, from, dist, dist[current])
    requires n in Neighbors(adj, current) && n !in dist
    ensures Tree(adj, from, dist[n := dist[current] + 1], parent[n := current])
  {
    DiscoverDistance(adj, from, dist, current, dist[current], n);
  }

  lemma DiscoverQueue(dist: map<Uuid, nat>, queue: seq<Uuid>, d: nat, n: Uuid)
    requires Queued(dist, queue, d) && n !in dist
    ensures Queued(dist[n := d + 1], queue + [n], d)
  {
    assert forall i :: 0 <= i < |queue| ==> queue[i] in dist;
  }

  lemma ScanNew(adj: Adjacency, from: Uuid, to: Uuid, dist: map<Uuid, nat>, parent: map<Uuid, Uuid>,
                queue: seq<Uuid>, current: Uuid, d: nat, j: nat)
    requires Scanning(adj, from, to, dist, parent, queue, current, d, j) && j < |Neighbors(adj, current)|
    requires Neighbors(adj, current)[j] !in dist && Neighbors(adj, current)[j] != to
    ensures var n := Neighbors(adj, current)[j];
            Scanning(adj, from, to, dist[n := d + 1], parent[n := current], queue + [n], current, d, j + 1)
  {
    var n := Neighbors(adj, current)[j];
    DiscoverTree(adj, from, dist, parent, current, n);
    DiscoverQueue(dist, queue, d, n);
  }

  lemma CurrentCloses(adj: Adjacency, dist: map<Uuid, nat>, queue: seq<Uuid>, current: Uuid)
    requires ClosedBut(adj, dist, queue, {current})
    requires forall k :: 0 <= k < |Neighbors(adj, current)| ==> Neighbors(adj, current)[k] in dist
    ensures ClosedBut(adj, dist, queue, {})
  {
    forall v, w | v in dist && v !in queue && w in Neighbors(adj, v)
      ensures w in dist
    {
      if v == current {
        var k :| 0 <= k < |Neighbors(adj, v)| && Neighbors(adj, v)[k] == w;
      }
    }
  }

  lemma FrontierMoves(adj: Adjacency, from: Uuid, dist: map<Uuid, nat>, parent: map<Uuid, Uuid>, queue: seq<Uuid>, d: nat)
    requires Tree(adj, from, dist, parent) && ClosedBut(adj, dist, queue, {}) && Frontier(adj, from, dist, queue, d)
    requires queue != []
    ensures Frontier(adj, from, dist, queue, dist[queue[0]])
  {
    var head := queue[0];
    assert head in dist && d <= dist[head] <= d + 1;
    if dist[head] == d + 1 {
      QueueMoves(dist, queue, d);
      CoverMoves(adj, from, dist, parent, queue, d);
    }
  }

  lemma QueueMoves(dist: map<Uuid, nat>, queue: seq<Uuid>, d: nat)
    requires Queued(dist, queue, d) && queue != [] && dist[queue[0]] == d + 1
    ensures Queued(dist, queue, d + 1)
  {
    forall i | 0 <= i < |queue|
      ensures queue[i] in dist && dist[queue[i]] == d + 1
    {
      assert i > 0 ==> dist[queue[0]] <= dist[queue[i]];
    }
  }

  lemma CoverMoves(adj: Adjacency, from: Uuid, dist: map<Uuid, nat>, parent: map<Uuid, Uuid>, queue: seq<Uuid>, d: nat)
    requires Tree(adj, from, dist, parent) && ClosedBut(adj, dist, queue, {}) && Queued(dist, queue, d)
    requires Covers(adj, from, dist, d) && queue != [] && dist[queue[0]] == d + 1
    ensures Covers(adj, from, dist, d + 1)
  {
    forall w | Within(adj, from, w, d + 1)
      ensures w in dist
    {
      HeadMoves(adj, from, dist, parent, queue, d, w);
    }
  }

  /** When `current` is done, the next head keeps the frontier property. */
  lemma ScanDone(adj: Adjacency, from: Uuid, to: Uuid, dist: map<Uuid, nat>, parent: map<Uuid, Uuid>,
                 queue: seq<Uuid>, current: Uuid, d: nat)
    requires Scanning(adj, from, to, dist, parent, queue, current, d, |Neighbors(adj, current)|)
    ensures Searching(adj, from, to, dist, parent, queue)
  {
    CurrentCloses(adj, dist, queue, current);
    if queue != [] {
      FrontierMoves(adj, from, dist, parent, queue, d);
    }
  }

  lemma HeadMoves(adj: Adjacency, from: Uuid, dist: map<Uuid, nat>, parent: map<Uuid, Uuid>, queue: seq<Uuid>, d: nat, w: Uuid)
    requires Tree(adj, from, dist, parent) && ClosedBut(adj, dist, queue, {}) && Queued(dist, queue, d)
    requires Covers(adj, from, dist, d) && queue != [] && dist[queue[0]] == d + 1
    requires Within(adj, from, w, d + 1)
    ensures w in dist
  {
    WithinStep(adj, from, w, d);
    if !Within(adj, from, w, d) {
      var v :| HopsApart(adj, from, v, d) && w in Neighbors(adj, v);
      HopsIsFirstWithin(adj, from, v, d);
      HopsUnique(adj, from, v, d, dist[v]);
    }
  }

  /** With an empty queue the discovered entities are closed, so `to` cannot be reached. */
  lemma {:induction false} ClosedWalk(adj: Adjacency, dist: map<Uuid, nat>, p: seq<Uuid>, n: nat)
    requires ClosedBut(adj, dist, [], {}) && IsWalk(adj, p) && p[0] in dist && n < |p|
    ensures p[n] in dist
  {
    if n > 0 {
      ClosedWalk(adj, dist, p, n - 1);
      var v, w := p[n - 1], p[n];
      assert p[n - 1 + 1] in Neighbors(adj, p[n - 1]);
      assert v in dist && w in Neighbors(adj, v);
    }
  }

  // ---- Reading the path back ----

  /** A shortest walk: no walk between the same ends is shorter, and no entity repeats. */
  ghost predicate ShortestWalk(adj: Adjacency, a: Uuid, b: Uuid, p: seq<Uuid>) {
    && WalkBetween(adj, a, b, p) && Distinct(p)
    && (forall q {:trigger WalkBetween(adj, a, b, q)} :: WalkBetween(adj, a, b, q) ==> |p| <= |q|)
  }

  lemma DescentIsWalk(adj: Adjacency, from: Uuid, to: Uuid, dist: map<Uuid, nat>, parent: map<Uuid, Uuid>, path: seq<Uuid>)
    requires Tree(adj, from, dist, parent)
    requires Descends(parent, dist, path, to) && path[0] !in parent
    ensures WalkBetween(adj, from, to, path)
  {
    var root := path[0];
    assert root in dist && root !in parent;
    forall i | 0 <= i < |path| - 1
      ensures path[i + 1] in Neighbors(adj, path[i])
    {
      assert Down(parent, path, i);
      var v := path[i + 1];
      assert v in parent && v in Neighbors(adj, parent[v]);
    }
  }

  lemma DescentRanks(parent: map<Uuid, Uuid>, rank: map<Uuid, nat>, path: seq<Uuid>, to: Uuid)
    requires Descends(parent, rank, path, to)
    ensures Distinct(path) && path[0] in rank && rank[path[0]] + |path| - 1 == rank[to]
  {
  }

  lemma DescentIsShortest(adj: Adjacency, from: Uuid, to: Uuid, dist: map<Uuid, nat>, parent: map<Uuid, Uuid>, path: seq<Uuid>)
    requires Tree(adj, from, dist, parent)
    requires Descends(parent, dist, path, to) && path[0] !in parent
    ensures ShortestWalk(adj, from, to, path)
  {
    DescentIsWalk(adj, from, to, dist, parent, path);
    DescentRanks(parent, dist, path, to);
    assert HopsApart(adj, from, to, dist[to]);
  }

  // ---- The method ----

  /** Everything a search from `from` can ever meet. */
  ghost function Universe(adj: Adjacency, from: Uuid): set<Uuid> {
    {from} + set v, w | v in adj && w in adj[v] :: w
  }

  lemma UniverseClosed(adj: Adjacency, from: Uuid, dist: map<Uuid, nat>, parent: map<Uuid, Uuid>)
    requires Tree(adj, from, dist, parent)
    ensures dist.Keys <= Universe(adj, from)
  {
    forall v | v in dist
      ensures v in Universe(adj, from)
    {
      if v != from { assert v in Neighbors(adj, parent[v]); }
    }
  }

  /** `bfs_shortest_path` */
  method BfsShortestPath(adj: Adjacency, from: Uuid, to: Uuid) returns (r: Option<seq<Uuid>>)
    ensures r.None? <==> !exists p :: WalkBetween(adj, from, to, p)
    ensures r.Some? ==> ShortestWalk(adj, from, to, r.value)
  {
    if from == to {
      assert WalkBetween(adj, from, to, [from]);
      return Some([from]);
    }
    var parent: map<Uuid, Uuid>, queue, visited := map[], [from], {from};
    ghost var dist: map<Uuid, nat> := map[from := 0];
    StartSearch(adj, from, to);
    while queue != []
      invariant Searching(adj, from, to, dist, parent, queue) && visited == dist.Keys
      decreases Universe(adj, from) - (dist.Keys - Members(queue))
    {
      Dequeue(adj, from, to, dist, parent, queue);
      var current := queue[0];
      ghost var d, done := dist[current], dist.Keys - Members(queue);
      queue := queue[1..];
      var neighbors := Neighbors(adj, current);
      for j := 0 to |neighbors|
        invariant Scanning(adj, from, to, dist, parent, queue, current, d, j) && visited == dist.Keys
        invariant done + {current} <= dist.Keys - Members(queue)
      {
        var n := neighbors[j];
        if n !in visited {
          DiscoverTree(adj, from, dist, parent, current, n);
          if n == to {
            var path := ReconstructPath(parent[n := current], to, dist[n := d + 1]);
            DescentIsShortest(adj, from, to, dist[n := d + 1], parent[n := current], path);
            return Some(path);
          }
          ScanNew(adj, from, to, dist, parent, queue, current, d, j);
          visited := visited + {n};
          parent := parent[n := current];
          dist := dist[n := d + 1];
          queue := queue + [n];
        }
      }
      ScanDone(adj, from, to, dist, parent, queue, current, d);
      UniverseClosed(adj, from, dist, parent);
    }
    forall p | WalkBetween(adj, from, to, p)
      ensures false
    {
      ClosedWalk(adj, dist, p, |p| - 1);
    }
    r := None;
  }

  /** A walk that repeats an entity can be cut short. */
  lemma CutWalk(adj: Adjacency, a: Uuid, b: Uuid, p: seq<Uuid>, i: nat, j: nat)
    requires WalkBetween(adj, a, b, p) && i < j < |p| && p[i] == p[j]
    ensures WalkBetween(adj, a, b, p[..i] + p[j..])
  {
    var q := p[..i] + p[j..];
    forall k | 0 <= k < |q| - 1
      ensures q[k + 1] in Neighbors(adj, q[k])
    {
      if k + 1 < i {
        assert q[k] == p[k] && q[k + 1] == p[k + 1];
      } else if k + 1 == i {
        assert q[k] == p[k] && q[k + 1] == p[k + 1];
      } else {
        assert q[k] == p[k - i + j] && q[k + 1] == p[k - i + j + 1];
      }
    }
  }

  lemma {:induction false} SimpleWalk(adj: Adjacency, a: Uuid, b: Uuid, p: seq<Uuid>) returns (q: seq<Uuid>)
    requires WalkBetween(adj, a, b, p)
    ensures WalkBetween(adj, a, b, q) && Distinct(q)
    decreases |p|
  {
    if Distinct(p) {
      q := p;
    } else {
      var i: nat, j: nat :| i < j < |p| && p[i] == p[j];
      CutWalk(adj, a, b, p, i, j);
      q := SimpleWalk(adj, a, b, p[..i] + p[j..]);
    }
  }

  lemma {:induction false} WalkStaysInside(adj: Adjacency, a: Uuid, p: seq<Uuid>, n: nat)
    requires IsWalk(adj, p) && p[0] == a && n < |p|
    ensures p[n] in Universe(adj, a)
  {
    if n > 0 {
      var v, w := p[n - 1], p[n];
      assert p[n - 1 + 1] in Neighbors(adj, p[n - 1]);
      assert v in adj && w in adj[v];
    }
  }

  lemma {:induction false} DistinctSize(p: seq<Uuid>, n: nat, all: set<Uuid>)
    requires Distinct(p) && n <= |p| && forall k :: 0 <= k < n ==> p[k] in all
    ensures n <= |all|
    decreases n
  {
    var used := set k | 0 <= k < n :: p[k];
    UsedSize(p, n);
    SubsetSize(used, all);
  }

  lemma {:induction false} UsedSize(p: seq<Uuid>, n: nat)
    requires Distinct(p) && n <= |p|
    ensures |set k | 0 <= k < n :: p[k]| == n
  {
    if n > 0 {
      UsedSize(p, n - 1);
      var before := set k | 0 <= k < n - 1 :: p[k];
      assert (set k | 0 <= k < n :: p[k]) == before + {p[n - 1]};
      assert p[n - 1] !in before;
    }
  }

  /** In a graph of at most 2^32 entities whatever is connected at all is connected within the loader's rounds. */
  lemma SmallGraph(adj: Adjacency, a: Uuid, b: Uuid)
    requires |Universe(adj, a)| <= 4294967296
    ensures Within(adj, a, b, U32_MAX) <==> exists p :: WalkBetween(adj, a, b, p)
  {
    if p :| WalkBetween(adj, a, b, p) {
      var q := SimpleWalk(adj, a, b, p);
      forall k | 0 <= k < |q|
        ensures q[k] in Universe(adj, a)
      {
        WalkStaysInside(adj, a, q, k);
      }
      DistinctSize(q, |q|, Universe(adj, a));
      assert |q| <= U32_MAX + 1;
    }
  }

  /**
    `EntityManager::shortest_path`: the loader stops after `u32::MAX` rounds, so
    that many hops are what the answer is about.
  */
  method ShortestPath(graph: Adjacency, from: Uuid, to: Uuid) returns (r: Option<seq<Uuid>>)
    ensures r.None? <==> !Within(graph, from, to, 4294967295)
    ensures r.Some? ==> ShortestWalk(graph, from, to, r.value)
    ensures |Universe(graph, from)| <= 4294967296 ==> (r.None? <==> !exists p :: WalkBetween(graph, from, to, p))
  {
    if |Universe(graph, from)| <= 4294967296 { SmallGraph(graph, from, to); }
    var adj := EntityTraverse.BuildAdjacency(graph, from, U32_MAX);
    r := BfsShortestPath(adj, from, to);
    EntityTraverse.TruncationConnects(adj, graph, from, to, U32_MAX);
    if r.Some? {
      TruncatedShortest(adj, graph, from, to, U32_MAX, r.value);
    }
  }

  lemma TruncatedShortest(adj: Adjacency, graph: Adjacency, a: Uuid, b: Uuid, depth: nat, p: seq<Uuid>)
    requires EntityTraverse.Truncation(adj, graph, a, depth) && ShortestWalk(adj, a, b, p)
    ensures ShortestWalk(graph, a, b, p)
  {
    EntityTraverse.TruncatedWalk(adj, graph, a, depth, p);
    EntityTraverse.TruncationConnects(adj, graph, a, b, depth);
    var near :| WalkBetween(graph, a, b, near) && |near| <= depth + 1;
    EntityTraverse.WalkTruncated(adj, graph, a, b, depth, near);
    forall q | WalkBetween(graph, a, b, q)
      ensures |p| <= |q|
    {
      if |q| <= depth + 1 { EntityTraverse.WalkTruncated(adj, graph, a, b, depth, q); }
    }
  }
}
