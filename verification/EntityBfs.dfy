/**
  One breadth-first round as a function, and what any number of rounds lists:
  the entities at each distance, each once.
*/
module EntityBfs {
  import opened Sequences
  import opened EntityGraph

  /** First occurrences, among the first `n` of `s`, of entities not visited before. */
  function Fresh(visited: set<Uuid>, s: seq<Uuid>, n: nat): seq<Uuid>
    requires n <= |s|
  {
    if n == 0 then []
    else
      var r := Fresh(visited, s, n - 1);
      if s[n - 1] in visited || s[n - 1] in r then r else r + [s[n - 1]]
  }

  /** What the neighbour lists of the first `n` frontier entities add to `visited`. */
  function Sweep(adj: Adjacency, visited: set<Uuid>, frontier: seq<Uuid>, n: nat): seq<Uuid>
    requires n <= |frontier|
  {
    if n == 0 then []
    else
      var r := Sweep(adj, visited, frontier, n - 1);
      var neighbors := Neighbors(adj, frontier[n - 1]);
      r + Fresh(visited + Members(r), neighbors, |neighbors|)
  }

  function Tag(s: seq<Uuid>, depth: nat, n: nat): seq<(Uuid, nat)>
    requires n <= |s|
  {
    if n == 0 then [] else Tag(s, depth, n - 1) + [(s[n - 1], depth)]
  }

  /** What `rounds` further rounds append to the result. */
  function Levels(adj: Adjacency, visited: set<Uuid>, frontier: seq<Uuid>, depth: nat, rounds: nat): seq<(Uuid, nat)>
    decreases rounds
  {
    if rounds == 0 || frontier == [] then []
    else
      var next := Sweep(adj, visited, frontier, |frontier|);
      Tag(next, depth + 1, |next|) + Levels(adj, visited + Members(next), next, depth + 1, rounds - 1)
  }

  function Traversal(adj: Adjacency, start: Uuid, maxDepth: nat): seq<(Uuid, nat)> {
    [(start, 0)] + Levels(adj, {start}, [start], 0, maxDepth)
  }

  // ---- One round ----

  lemma {:induction false} FreshMeaning(visited: set<Uuid>, s: seq<Uuid>, n: nat)
    requires n <= |s|
    ensures forall w :: w in Fresh(visited, s, n) <==> w !in visited && exists k :: 0 <= k < n && s[k] == w
    ensures Distinct(Fresh(visited, s, n))
  {
    if n > 0 { FreshMeaning(visited, s, n - 1); }
  }

  lemma {:induction false} SweepMeaning(adj: Adjacency, visited: set<Uuid>, frontier: seq<Uuid>, n: nat)
    requires n <= |frontier|
    ensures forall w :: w in Sweep(adj, visited, frontier, n)
                   <==> w !in visited && exists k :: 0 <= k < n && w in Neighbors(adj, frontier[k])
    ensures Distinct(Sweep(adj, visited, frontier, n))
  {
    if n > 0 {
      SweepMeaning(adj, visited, frontier, n - 1);
      var r := Sweep(adj, visited, frontier, n - 1);
      var neighbors := Neighbors(adj, frontier[n - 1]);
      FreshMeaning(visited + Members(r), neighbors, |neighbors|);
      DistinctJoin(r, Fresh(visited + Members(r), neighbors, |neighbors|));
    }
  }

  lemma DistinctJoin(s: seq<Uuid>, t: seq<Uuid>)
    requires Distinct(s) && Distinct(t) && forall w :: w in t ==> w !in s
    ensures Distinct(s + t)
  {
    forall i, j | 0 <= i < |s| && 0 <= j < |t|
      ensures s[i] != t[j]
    {
      assert t[j] in t;
      assert s[i] in s;
    }
  }

  // ---- Layers ----

  /** Before round `depth`: everything within `depth` hops is visited, the frontier is what lies exactly there. */
  ghost predicate AtLayer(adj: Adjacency, a: Uuid, depth: nat, visited: set<Uuid>, frontier: seq<Uuid>) {
    && (forall v {:trigger v in visited} :: v in visited <==> Within(adj, a, v, depth))
    && (forall v {:trigger v in frontier} :: v in frontier <==> HopsApart(adj, a, v, depth))
    && Distinct(frontier)
  }

  lemma StartLayer(adj: Adjacency, start: Uuid)
    ensures AtLayer(adj, start, 0, {start}, [start])
  {
    WithinSelf(adj, start);
  }

  lemma LayerAdvances(adj: Adjacency, a: Uuid, depth: nat, visited: set<Uuid>, frontier: seq<Uuid>)
    requires AtLayer(adj, a, depth, visited, frontier)
    ensures var next := Sweep(adj, visited, frontier, |frontier|);
            AtLayer(adj, a, depth + 1, visited + Members(next), next)
  {
    var next := Sweep(adj, visited, frontier, |frontier|);
    SweepMeaning(adj, visited, frontier, |frontier|);
    forall w
      ensures w in visited + Members(next) <==> Within(adj, a, w, depth + 1)
      ensures w in next <==> HopsApart(adj, a, w, depth + 1)
    {
      WithinStep(adj, a, w, depth);
      HopsIsFirstWithin(adj, a, w, depth + 1);
      assert w in visited <==> Within(adj, a, w, depth);
      if w in next {
        var k :| 0 <= k < |frontier| && w in Neighbors(adj, frontier[k]);
        assert frontier[k] in frontier;
      }
      if exists v :: HopsApart(adj, a, v, depth) && w in Neighbors(adj, v) {
        var v :| HopsApart(adj, a, v, depth) && w in Neighbors(adj, v);
        assert v in frontier;
      }
    }
  }

  lemma EmptyLayer(adj: Adjacency, a: Uuid, depth: nat, visited: set<Uuid>, frontier: seq<Uuid>)
    requires AtLayer(adj, a, depth, visited, frontier) && frontier == []
    ensures forall v :: !HopsApart(adj, a, v, depth)
  {
    forall v
      ensures !HopsApart(adj, a, v, depth)
    {
      assert v !in frontier;
    }
  }

  // ---- What the rounds list ----

  ghost predicate DistinctKeys(r: seq<(Uuid, nat)>) {
    forall i, j :: 0 <= i < j < |r| ==> r[i].0 != r[j].0
  }

  ghost predicate DepthOrdered(r: seq<(Uuid, nat)>) {
    forall i, j :: 0 <= i < j < |r| ==> r[i].1 <= r[j].1
  }

  /** Entries deeper than `depth`, nearest first, none twice. */
  ghost predicate Shape(r: seq<(Uuid, nat)>, depth: nat) {
    && DepthOrdered(r)
    && (forall i, j :: 0 <= i < j < |r| ==> r[i] != r[j])
    && (forall i :: 0 <= i < |r| ==> r[i].1 > depth)
  }

  lemma {:induction false} TagAt(s: seq<Uuid>, depth: nat, n: nat)
    requires n <= |s|
    ensures |Tag(s, depth, n)| == n
    ensures forall i :: 0 <= i < n ==> Tag(s, depth, n)[i] == (s[i], depth)
  {
    if n > 0 { TagAt(s, depth, n - 1); }
  }

  lemma ShapeJoin(layer: seq<Uuid>, rest: seq<(Uuid, nat)>, depth: nat)
    requires Distinct(layer) && Shape(rest, depth + 1)
    ensures Shape(Tag(layer, depth + 1, |layer|) + rest, depth)
  {
    TagAt(layer, depth + 1, |layer|);
  }

  lemma {:induction false} LevelsShape(adj: Adjacency, visited: set<Uuid>, frontier: seq<Uuid>, depth: nat, rounds: nat)
    ensures Shape(Levels(adj, visited, frontier, depth, rounds), depth)
    decreases rounds
  {
    if rounds > 0 && frontier != [] {
      var next := Sweep(adj, visited, frontier, |frontier|);
      SweepMeaning(adj, visited, frontier, |frontier|);
      LevelsShape(adj, visited + Members(next), next, depth + 1, rounds - 1);
      ShapeJoin(next, Levels(adj, visited + Members(next), next, depth + 1, rounds - 1), depth);
    }
  }

  /** `r` lists `v` at depth `d` exactly when that is its distance, between the given depths. */
  ghost predicate ListsAt(adj: Adjacency, a: Uuid, r: seq<(Uuid, nat)>, lo: nat, hi: nat, v: Uuid, d: nat) {
    (v, d) in r <==> lo < d <= hi && HopsApart(adj, a, v, d)
  }

  lemma ListsAtJoin(adj: Adjacency, a: Uuid, visited: set<Uuid>, layer: seq<Uuid>, rest: seq<(Uuid, nat)>,
                    depth: nat, hi: nat, v: Uuid, d: nat)
    requires AtLayer(adj, a, depth + 1, visited, layer) && depth < hi
    requires ListsAt(adj, a, rest, depth + 1, hi, v, d)
    ensures ListsAt(adj, a, Tag(layer, depth + 1, |layer|) + rest, depth, hi, v, d)
  {
    var head := Tag(layer, depth + 1, |layer|);
    TagAt(layer, depth + 1, |layer|);
    assert v in layer <==> HopsApart(adj, a, v, depth + 1);
    if v in layer {
      var i :| 0 <= i < |layer| && layer[i] == v;
      assert head[i] == (v, depth + 1);
    }
    assert (v, d) in head + rest <==> (v, d) in head || (v, d) in rest;
  }

  lemma ListsAtNothing(adj: Adjacency, a: Uuid, visited: set<Uuid>, depth: nat, hi: nat, v: Uuid, d: nat)
    requires AtLayer(adj, a, depth, visited, [])
    ensures ListsAt(adj, a, [], depth, hi, v, d)
  {
    EmptyLayer(adj, a, depth, visited, []);
    if depth < d { NothingBeyond(adj, a, depth, d, v); }
  }

  /** One round: the new layer, then the remaining rounds from there. */
  lemma LevelsStep(adj: Adjacency, visited: set<Uuid>, frontier: seq<Uuid>, depth: nat, rounds: nat)
    requires rounds > 0 && frontier != []
    ensures var next := Sweep(adj, visited, frontier, |frontier|);
            Levels(adj, visited, frontier, depth, rounds)
            == Tag(next, depth + 1, |next|) + Levels(adj, visited + Members(next), next, depth + 1, rounds - 1)
  {
  }

  lemma {:induction false} LevelsMember(
      adj: Adjacency, a: Uuid, visited: set<Uuid>, frontier: seq<Uuid>, depth: nat, rounds: nat, r: seq<(Uuid, nat)>, v: Uuid, d: nat)
    requires AtLayer(adj, a, depth, visited, frontier) && r == Levels(adj, visited, frontier, depth, rounds)
    ensures ListsAt(adj, a, r, depth, depth + rounds, v, d)
    decreases rounds
  {
    if rounds == 0 {
    } else if frontier == [] {
      ListsAtNothing(adj, a, visited, depth, depth + rounds, v, d);
    } else {
      var next := Sweep(adj, visited, frontier, |frontier|);
      var seen := visited + Members(next);
      var rest := Levels(adj, seen, next, depth + 1, rounds - 1);
      LevelsStep(adj, visited, frontier, depth, rounds);
      LayerAdvances(adj, a, depth, visited, frontier);
      LevelsMember(adj, a, seen, next, depth + 1, rounds - 1, rest, v, d);
      ListsAtJoin(adj, a, seen, next, rest, depth, depth + rounds, v, d);
    }
  }

  lemma TraversalMember(adj: Adjacency, start: Uuid, maxDepth: nat, v: Uuid, d: nat)
    ensures (v, d) in Traversal(adj, start, maxDepth) <==> d <= maxDepth && HopsApart(adj, start, v, d)
  {
    StartLayer(adj, start);
    LevelsMember(adj, start, {start}, [start], 0, maxDepth, Levels(adj, {start}, [start], 0, maxDepth), v, d);
    WithinSelf(adj, start);
    if d == 0 { assert HopsApart(adj, start, v, 0) <==> v == start; }
  }

  /**
    The traversal lists exactly the entities at most `maxDepth` hops away, each
    once, with its true distance, nearest first.
  */
  lemma TraversalMeaning(adj: Adjacency, start: Uuid, maxDepth: nat)
    ensures var r := Traversal(adj, start, maxDepth);
            && DistinctKeys(r) && DepthOrdered(r)
            && forall v: Uuid, d: nat :: (v, d) in r <==> d <= maxDepth && HopsApart(adj, start, v, d)
  {
    var r := Traversal(adj, start, maxDepth);
    LevelsShape(adj, {start}, [start], 0, maxDepth);
    forall v: Uuid, d: nat
      ensures (v, d) in r <==> d <= maxDepth && HopsApart(adj, start, v, d)
    {
      TraversalMember(adj, start, maxDepth, v, d);
    }
    forall i, j | 0 <= i < j < |r|
      ensures r[i].0 != r[j].0
    {
      TraversalMember(adj, start, maxDepth, r[i].0, r[i].1);
      TraversalMember(adj, start, maxDepth, r[j].0, r[j].1);
      if r[i].0 == r[j].0 { HopsUnique(adj, start, r[i].0, r[i].1, r[j].1); }
    }
  }

  /** The graph is traversed from either side: `traverse` is symmetric. */
  lemma TraversalSymmetric(adj: Adjacency, rows: set<(Uuid, Uuid)>, a: Uuid, b: Uuid, d: nat, maxDepth: nat)
    requires Answers(adj, rows)
    ensures (b, d) in Traversal(adj, a, maxDepth) <==> (a, d) in Traversal(adj, b, maxDepth)
  {
    TraversalMember(adj, a, maxDepth, b, d);
    TraversalMember(adj, b, maxDepth, a, d);
    if HopsApart(adj, a, b, d) { HopsSymmetric(adj, rows, a, b, d); }
    if HopsApart(adj, b, a, d) { HopsSymmetric(adj, rows, b, a, d); }
  }
}
