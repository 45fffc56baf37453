/**
  `traverse` end to end: the in-memory traversal loop, the loader that fetches
  only a depth-truncated adjacency list, and the proof that the truncation
  changes nothing.
*/
module EntityTraverse {
  import opened Sequences
  import opened EntityGraph
  import opened EntityBfs

  /** The innermost loop of both searches: mark what is new among `neighbors`. */
  method VisitNeighbors(neighbors: seq<Uuid>, visited0: set<Uuid>) returns (visited: set<Uuid>, found: seq<Uuid>)
    ensures found == Fresh(visited0, neighbors, |neighbors|)
    ensures visited == visited0 + Members(found)
  {
    visited, found := visited0, [];
    for j := 0 to |neighbors|
      invariant found == Fresh(visited0, neighbors, j)
      invariant visited == visited0 + Members(found)
    {
      if neighbors[j] !in visited {
        visited := visited + {neighbors[j]};
        found := found + [neighbors[j]];
      }
    }
  }

  ghost predicate Tagged(listed: seq<(Uuid, nat)>, s: seq<Uuid>, depth: nat) {
    |listed| == |s| && forall i :: 0 <= i < |s| ==> listed[i] == (s[i], depth)
  }

  lemma TaggedIsTag(listed: seq<(Uuid, nat)>, s: seq<Uuid>, depth: nat)
    ensures Tagged(listed, s, depth) <==> listed == Tag(s, depth, |s|)
  {
    TagAt(s, depth, |s|);
  }

  lemma TaggedConcat(l: seq<(Uuid, nat)>, s: seq<Uuid>, m: seq<(Uuid, nat)>, t: seq<Uuid>, depth: nat)
    requires Tagged(l, s, depth) && Tagged(m, t, depth)
    ensures Tagged(l + m, s + t, depth)
  {
  }

  /** One round of the traversal: expand the whole frontier. */
  method TraverseRound(adj: Adjacency, visited0: set<Uuid>, frontier: seq<Uuid>, depth: nat)
    returns (visited: set<Uuid>, next: seq<Uuid>, listed: seq<(Uuid, nat)>)
    ensures next == Sweep(adj, visited0, frontier, |frontier|)
    ensures visited == visited0 + Members(next)
    ensures listed == Tag(next, depth + 1, |next|)
  {
    visited, next, listed := visited0, [], [];
    for i := 0 to |frontier|
      invariant next == Sweep(adj, visited0, frontier, i)
      invariant visited == visited0 + Members(next)
      invariant Tagged(listed, next, depth + 1)
    {
      var found;
      visited, found := VisitNeighbors(Neighbors(adj, frontier[i]), visited);
      var pairs := Tag(found, depth + 1, |found|);
      TaggedIsTag(pairs, found, depth + 1);
      TaggedConcat(listed, next, pairs, found, depth + 1);
      next, listed := next + found, listed + pairs;
    }
    TaggedIsTag(listed, next, depth + 1);
  }

  /** The traversal with its result as an accumulator, which is how the loop runs. */
  function Accumulate(adj: Adjacency, visited: set<Uuid>, frontier: seq<Uuid>, depth: nat, rounds: nat,
                      result: seq<(Uuid, nat)>): seq<(Uuid, nat)>
    decreases rounds
  {
    if rounds == 0 || frontier == [] then result
    else
      var next := Sweep(adj, visited, frontier, |frontier|);
      Accumulate(adj, visited + Members(next), next, depth + 1, rounds - 1, result + Tag(next, depth + 1, |next|))
  }

  lemma {:induction false} AccumulateIsLevels(
      adj: Adjacency, visited: set<Uuid>, frontier: seq<Uuid>, depth: nat, rounds: nat, result: seq<(Uuid, nat)>)
    ensures Accumulate(adj, visited, frontier, depth, rounds, result) == result + Levels(adj, visited, frontier, depth, rounds)
    decreases rounds
  {
    if rounds > 0 && frontier != [] {
      var next := Sweep(adj, visited, frontier, |frontier|);
      var listed := Tag(next, depth + 1, |next|);
      AccumulateIsLevels(adj, visited + Members(next), next, depth + 1, rounds - 1, result + listed);
      Associate(result, listed, Levels(adj, visited + Members(next), next, depth + 1, rounds - 1));
    }
  }

  /** Bounded traversal over adjacency lists (`bfs_traverse`). */
  method BfsTraverse(adj: Adjacency, start: Uuid, maxDepth: nat) returns (result: seq<(Uuid, nat)>)
    ensures result == Traversal(adj, start, maxDepth)
  {
    var visited, frontier, depth := {start}, [start], 0;
    result := [(start, 0)];
    AccumulateIsLevels(adj, visited, frontier, depth, maxDepth, result);
    while depth < maxDepth && frontier != []
      invariant depth <= maxDepth
      invariant Accumulate(adj, visited, frontier, depth, maxDepth - depth, result) == Traversal(adj, start, maxDepth)
    {
      var listed;
      visited, frontier, listed := TraverseRound(adj, visited, frontier, depth);
      result := result + listed;
      depth := depth + 1;
    }
  }

  // ---- The truncated loader ----

  /** The part of `graph` that a loader stopping after `depth` rounds has fetched. */
  ghost predicate Truncation(adj: Adjacency, graph: Adjacency, a: Uuid, depth: nat) {
    && (forall v {:trigger v in adj} :: v in adj <==> depth > 0 && Within(graph, a, v, depth - 1))
    && (forall v :: v in adj ==> adj[v] == Neighbors(graph, v))
  }

  /** The neighbour lists of the first `n` frontier entities added to what is loaded. */
  function Record(graph: Adjacency, adj: Adjacency, frontier: seq<Uuid>, n: nat): Adjacency
    requires n <= |frontier|
  {
    if n == 0 then adj
    else Record(graph, adj, frontier, n - 1)[frontier[n - 1] := Neighbors(graph, frontier[n - 1])]
  }

  /** What the loader holds after `rounds` further rounds. */
  function Load(graph: Adjacency, visited: set<Uuid>, frontier: seq<Uuid>, adj: Adjacency, rounds: nat): Adjacency
    decreases rounds
  {
    if rounds == 0 || frontier == [] then adj
    else
      var next := Sweep(graph, visited, frontier, |frontier|);
      Load(graph, visited + Members(next), next, Record(graph, adj, frontier, |frontier|), rounds - 1)
  }

  /** One round of the loader: fetch and record the neighbours of the whole frontier. */
  method LoadRound(graph: Adjacency, visited0: set<Uuid>, frontier: seq<Uuid>, adj0: Adjacency)
    returns (visited: set<Uuid>, next: seq<Uuid>, adj: Adjacency)
    ensures next == Sweep(graph, visited0, frontier, |frontier|)
    ensures visited == visited0 + Members(next)
    ensures adj == Record(graph, adj0, frontier, |frontier|)
  {
    visited, next, adj := visited0, [], adj0;
    for i := 0 to |frontier|
      invariant next == Sweep(graph, visited0, frontier, i)
      invariant visited == visited0 + Members(next)
      invariant adj == Record(graph, adj0, frontier, i)
    {
      var neighbors, found := Neighbors(graph, frontier[i]), [];
      visited, found := VisitNeighbors(neighbors, visited);
      next := next + found;
      adj := adj[frontier[i] := neighbors];
    }
  }

  /** `build_adjacency`; `graph` holds the answers of the neighbour query. */
  method BuildAdjacency(graph: Adjacency, start: Uuid, maxDepth: nat) returns (adj: Adjacency)
    ensures Truncation(adj, graph, start, maxDepth)
  {
    adj := map[];
    var visited, frontier, depth := {start}, [start], 0;
    while depth < maxDepth && frontier != []
      invariant depth <= maxDepth
      invariant Load(graph, visited, frontier, adj, maxDepth - depth) == Load(graph, {start}, [start], map[], maxDepth)
    {
      visited, frontier, adj := LoadRound(graph, visited, frontier, adj);
      depth := depth + 1;
    }
    LoadIsTruncation(graph, start, maxDepth);
  }

  lemma {:induction false} RecordMeaning(graph: Adjacency, adj: Adjacency, frontier: seq<Uuid>, n: nat)
    requires n <= |frontier|
    requires forall v :: v in adj ==> adj[v] == Neighbors(graph, v)
    ensures forall v :: v in Record(graph, adj, frontier, n) <==> v in adj || exists k :: 0 <= k < n && frontier[k] == v
    ensures forall v :: v in Record(graph, adj, frontier, n) ==> Record(graph, adj, frontier, n)[v] == Neighbors(graph, v)
  {
    if n > 0 { RecordMeaning(graph, adj, frontier, n - 1); }
  }

  /** Adding the frontier to what is loaded gives everything within `depth` hops. */
  lemma RecordCompletesLayer(graph: Adjacency, a: Uuid, depth: nat, visited: set<Uuid>, frontier: seq<Uuid>, adj: Adjacency)
    requires AtLayer(graph, a, depth, visited, frontier) && Truncation(adj, graph, a, depth)
    ensures Truncation(Record(graph, adj, frontier, |frontier|), graph, a, depth + 1)
  {
    RecordMeaning(graph, adj, frontier, |frontier|);
    forall v
      ensures v in Record(graph, adj, frontier, |frontier|) <==> Within(graph, a, v, depth)
    {
      HopsIsFirstWithin(graph, a, v, depth);
      assert v in Record(graph, adj, frontier, |frontier|) <==> v in adj || v in frontier;
    }
  }

  /** Stopping early on an empty frontier means the component is exhausted. */
  lemma {:induction false} ExhaustedTruncation(
      graph: Adjacency, a: Uuid, depth: nat, visited: set<Uuid>, frontier: seq<Uuid>, adj: Adjacency, maxDepth: nat)
    requires AtLayer(graph, a, depth, visited, frontier) && Truncation(adj, graph, a, depth)
    requires depth <= maxDepth && frontier == []
    ensures Truncation(adj, graph, a, maxDepth)
    decreases maxDepth
  {
    if depth < maxDepth {
      ExhaustedTruncation(graph, a, depth, visited, frontier, adj, maxDepth - 1);
      EmptyLayer(graph, a, depth, visited, frontier);
      forall v
        ensures v in adj <==> Within(graph, a, v, maxDepth - 1)
      {
        HopsIsFirstWithin(graph, a, v, maxDepth - 1);
        NothingBeyond(graph, a, depth, maxDepth - 1, v);
      }
    }
  }

  lemma {:induction false} LoadMeaning(
      graph: Adjacency, a: Uuid, visited: set<Uuid>, frontier: seq<Uuid>, adj: Adjacency, depth: nat, rounds: nat)
    requires AtLayer(graph, a, depth, visited, frontier) && Truncation(adj, graph, a, depth)
    ensures Truncation(Load(graph, visited, frontier, adj, rounds), graph, a, depth + rounds)
    decreases rounds
  {
    if rounds > 0 && frontier == [] {
      ExhaustedTruncation(graph, a, depth, visited, frontier, adj, depth + rounds);
    } else if rounds > 0 {
      var next := Sweep(graph, visited, frontier, |frontier|);
      var visited', adj' := visited + Members(next), Record(graph, adj, frontier, |frontier|);
      LayerAdvances(graph, a, depth, visited, frontier);
      RecordCompletesLayer(graph, a, depth, visited, frontier, adj);
      LoadMeaning(graph, a, visited', next, adj', depth + 1, rounds - 1);
    }
  }

  lemma LoadIsTruncation(graph: Adjacency, start: Uuid, maxDepth: nat)
    ensures Truncation(Load(graph, {start}, [start], map[], maxDepth), graph, start, maxDepth)
  {
    StartLayer(graph, start);
    LoadMeaning(graph, start, {start}, [start], map[], 0, maxDepth);
  }

  lemma {:induction false} SweepAgrees(adj: Adjacency, graph: Adjacency, visited: set<Uuid>, f: seq<Uuid>, n: nat)
    requires n <= |f| && forall v :: v in f ==> Neighbors(adj, v) == Neighbors(graph, v)
    ensures Sweep(adj, visited, f, n) == Sweep(graph, visited, f, n)
  {
    if n > 0 { SweepAgrees(adj, graph, visited, f, n - 1); }
  }

  lemma FrontierLoaded(
      adj: Adjacency, graph: Adjacency, a: Uuid, visited: set<Uuid>, frontier: seq<Uuid>, depth: nat, rounds: nat)
    requires AtLayer(graph, a, depth, visited, frontier)
    requires Truncation(adj, graph, a, depth + rounds) && rounds > 0
    ensures forall v :: v in frontier ==> Neighbors(adj, v) == Neighbors(graph, v)
  {
    forall v | v in frontier
      ensures v in adj
    {
      assert HopsApart(graph, a, v, depth);
    }
  }

  /** The remaining rounds never look outside what was loaded. */
  lemma {:induction false} LevelsAgree(
      adj: Adjacency, graph: Adjacency, a: Uuid, visited: set<Uuid>, frontier: seq<Uuid>, depth: nat, rounds: nat)
    requires AtLayer(graph, a, depth, visited, frontier)
    requires Truncation(adj, graph, a, depth + rounds)
    ensures Levels(adj, visited, frontier, depth, rounds) == Levels(graph, visited, frontier, depth, rounds)
    decreases rounds
  {
    if rounds > 0 && frontier != [] {
      var next := Sweep(graph, visited, frontier, |frontier|);
      SameRound(adj, graph, a, visited, frontier, depth, rounds);
      LevelsStep(adj, visited, frontier, depth, rounds);
      LevelsStep(graph, visited, frontier, depth, rounds);
      LevelsAgree(adj, graph, a, visited + Members(next), next, depth + 1, rounds - 1);
    }
  }

  lemma SameRound(
      adj: Adjacency, graph: Adjacency, a: Uuid, visited: set<Uuid>, frontier: seq<Uuid>, depth: nat, rounds: nat)
    requires AtLayer(graph, a, depth, visited, frontier)
    requires Truncation(adj, graph, a, depth + rounds) && rounds > 0
    ensures var next := Sweep(graph, visited, frontier, |frontier|);
            && Sweep(adj, visited, frontier, |frontier|) == next
            && AtLayer(graph, a, depth + 1, visited + Members(next), next)
  {
    FrontierLoaded(adj, graph, a, visited, frontier, depth, rounds);
    SweepAgrees(adj, graph, visited, frontier, |frontier|);
    LayerAdvances(graph, a, depth, visited, frontier);
  }

  /** Truncating the graph at `maxDepth` does not change what `traverse` answers. */
  lemma TruncationLosesNothing(adj: Adjacency, graph: Adjacency, start: Uuid, maxDepth: nat)
    requires Truncation(adj, graph, start, maxDepth)
    ensures Traversal(adj, start, maxDepth) == Traversal(graph, start, maxDepth)
  {
    StartLayer(graph, start);
    LevelsAgree(adj, graph, start, {start}, [start], 0, maxDepth);
  }

  /** `EntityManager::traverse`: load, then traverse what was loaded. */
  method Traverse(graph: Adjacency, start: Uuid, maxDepth: nat) returns (result: seq<(Uuid, nat)>)
    ensures result == Traversal(graph, start, maxDepth)
    ensures DistinctKeys(result) && DepthOrdered(result)
    ensures forall v: Uuid, d: nat :: (v, d) in result <==> d <= maxDepth && HopsApart(graph, start, v, d)
  {
    var adj := BuildAdjacency(graph, start, maxDepth);
    result := BfsTraverse(adj, start, maxDepth);
    TruncationLosesNothing(adj, graph, start, maxDepth);
    TraversalMeaning(graph, start, maxDepth);
  }

  // ---- What truncation does to walks ----

  /** Every walk of the truncation is a walk of the graph. */
  lemma TruncatedWalk(adj: Adjacency, graph: Adjacency, a: Uuid, depth: nat, p: seq<Uuid>)
    requires Truncation(adj, graph, a, depth) && IsWalk(adj, p)
    ensures IsWalk(graph, p)
  {
    forall i | 0 <= i < |p| - 1
      ensures p[i + 1] in Neighbors(graph, p[i])
    {
      assert p[i + 1] in Neighbors(adj, p[i]);
    }
  }

  /** Every walk of the graph with at most `depth` edges is in the truncation. */
  lemma WalkTruncated(adj: Adjacency, graph: Adjacency, a: Uuid, b: Uuid, depth: nat, p: seq<Uuid>)
    requires Truncation(adj, graph, a, depth) && WalkBetween(graph, a, b, p) && |p| <= depth + 1
    ensures WalkBetween(adj, a, b, p)
  {
    forall i | 0 <= i < |p| - 1
      ensures p[i + 1] in Neighbors(adj, p[i])
    {
      WalkPrefix(graph, p, i + 1);
      assert Within(graph, a, p[i], depth - 1);
    }
  }

  /** The truncation connects exactly what at most `depth` hops connect. */
  lemma TruncationConnects(adj: Adjacency, graph: Adjacency, a: Uuid, b: Uuid, depth: nat)
    requires Truncation(adj, graph, a, depth)
    ensures (exists p :: WalkBetween(adj, a, b, p)) <==> Within(graph, a, b, depth)
  {
    forall p | WalkBetween(graph, a, b, p) && |p| <= depth + 1
      ensures WalkBetween(adj, a, b, p)
    {
      WalkTruncated(adj, graph, a, b, depth, p);
    }
    forall p | WalkBetween(adj, a, b, p)
      ensures Within(graph, a, b, depth)
    {
      TruncatedWalk(adj, graph, a, depth, p);
      if |p| == 1 {
        assert WalkBetween(graph, a, b, p);
      } else {
        WalkPrefix(adj, p, |p| - 1);
        var v := p[|p| - 2];
        assert v in adj;
        var q :| WalkBetween(graph, a, v, q) && |q| <= depth;
        assert b in Neighbors(graph, v);
        WalkExtends(graph, a, v, b, q);
      }
    }
  }
}
