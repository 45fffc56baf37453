/**
  The entity graph as walks: adjacency lists, reachability within a number of
  hops, and true distance. Everything here is reference material that knows
  nothing of breadth-first search.
*/
module EntityGraph {

  type Uuid = int

  /** Adjacency lists; an entity without an entry has no neighbours. */
  type Adjacency = map<Uuid, seq<Uuid>>

  function Neighbors(adj: Adjacency, v: Uuid): seq<Uuid> {
    if v in adj then adj[v] else []
  }

  function Members(s: seq<Uuid>): set<Uuid> {
    set x | x in s
  }

  // ---- Walks ----

  ghost predicate IsWalk(adj: Adjacency, p: seq<Uuid>) {
    p != [] && forall i {:trigger Neighbors(adj, p[i])} :: 0 <= i < |p| - 1 ==> p[i + 1] in Neighbors(adj, p[i])
  }

  ghost predicate WalkBetween(adj: Adjacency, a: Uuid, b: Uuid, p: seq<Uuid>) {
    IsWalk(adj, p) && p[0] == a && p[|p| - 1] == b
  }

  /** A walk of at most `d` edges leads from `a` to `b`. */
  ghost predicate Within(adj: Adjacency, a: Uuid, b: Uuid, d: nat) {
    exists p {:trigger WalkBetween(adj, a, b, p)} :: WalkBetween(adj, a, b, p) && |p| <= d + 1
  }

  /** `b` is `d` hops from `a`: a walk of `d` edges exists and none is shorter. */
  ghost predicate HopsApart(adj: Adjacency, a: Uuid, b: Uuid, d: nat) {
    && (exists p {:trigger WalkBetween(adj, a, b, p)} :: WalkBetween(adj, a, b, p) && |p| == d + 1)
    && (forall p {:trigger WalkBetween(adj, a, b, p)} :: WalkBetween(adj, a, b, p) ==> |p| >= d + 1)
  }

  lemma HopsIsFirstWithin(adj: Adjacency, a: Uuid, v: Uuid, d: nat)
    ensures HopsApart(adj, a, v, d) <==> Within(adj, a, v, d) && (d > 0 ==> !Within(adj, a, v, d - 1))
  {
  }

  lemma HopsUnique(adj: Adjacency, a: Uuid, v: Uuid, c: nat, d: nat)
    requires HopsApart(adj, a, v, c) && HopsApart(adj, a, v, d)
    ensures c == d
  {
  }

  lemma WalkExtends(adj: Adjacency, a: Uuid, v: Uuid, w: Uuid, p: seq<Uuid>)
    requires WalkBetween(adj, a, v, p) && w in Neighbors(adj, v)
    ensures WalkBetween(adj, a, w, p + [w])
  {
    var q := p + [w];
    forall i | 0 <= i < |q| - 1
      ensures q[i + 1] in Neighbors(adj, q[i])
    {
      if i < |p| - 1 { assert p[i + 1] in Neighbors(adj, p[i]); }
    }
  }

  lemma WalkPrefix(adj: Adjacency, p: seq<Uuid>, n: nat)
    requires IsWalk(adj, p) && 0 < n < |p|
    ensures WalkBetween(adj, p[0], p[n - 1], p[..n]) && p[n] in Neighbors(adj, p[n - 1])
  {
    forall i | 0 <= i < n - 1
      ensures p[..n][i + 1] in Neighbors(adj, p[..n][i])
    {
      assert p[i + 1] in Neighbors(adj, p[i]);
    }
    assert p[n - 1 + 1] in Neighbors(adj, p[n - 1]);
  }

  /** One more hop only ever starts at the outermost ring. */
  lemma WithinStep(adj: Adjacency, a: Uuid, w: Uuid, d: nat)
    ensures Within(adj, a, w, d + 1)
       <==> Within(adj, a, w, d) || exists v :: HopsApart(adj, a, v, d) && w in Neighbors(adj, v)
  {
    if Within(adj, a, w, d + 1) && !Within(adj, a, w, d) {
      var p :| WalkBetween(adj, a, w, p) && |p| <= d + 2;
      WalkPrefix(adj, p, d + 1);
      var v := p[d];
      forall q | WalkBetween(adj, a, v, q)
        ensures |q| >= d + 1
      {
        WalkExtends(adj, a, v, w, q);
      }
      assert HopsApart(adj, a, v, d);
    }
    forall v | HopsApart(adj, a, v, d) && w in Neighbors(adj, v)
      ensures Within(adj, a, w, d + 1)
    {
      var p :| WalkBetween(adj, a, v, p) && |p| == d + 1;
      WalkExtends(adj, a, v, w, p);
    }
  }

  /** Distances have no gaps: where a ring is empty, so are all later ones. */
  lemma {:induction false} NothingBeyond(adj: Adjacency, a: Uuid, c: nat, d: nat, w: Uuid)
    requires forall v :: !HopsApart(adj, a, v, c)
    requires c <= d
    ensures !HopsApart(adj, a, w, d)
    decreases d
  {
    if c < d {
      HopsIsFirstWithin(adj, a, w, d);
      WithinStep(adj, a, w, d - 1);
      var c' := d - 1;
      forall v
        ensures !HopsApart(adj, a, v, c')
      {
        NothingBeyond(adj, a, c, c', v);
      }
    }
  }

  lemma WithinSelf(adj: Adjacency, a: Uuid)
    ensures forall v :: Within(adj, a, v, 0) <==> v == a
    ensures forall v :: HopsApart(adj, a, v, 0) <==> v == a
  {
    assert WalkBetween(adj, a, a, [a]);
  }

  // ---- The relation table ----

  /**
    What the neighbour query answers: both columns of the relation table, in
    whatever order the database returns them.
  */
  ghost predicate Answers(adj: Adjacency, rows: set<(Uuid, Uuid)>) {
    forall v: Uuid, w: Uuid :: w in Neighbors(adj, v) <==> (v, w) in rows || (w, v) in rows
  }

  function Reversed(p: seq<Uuid>): seq<Uuid> {
    seq(|p|, i requires 0 <= i < |p| => p[|p| - 1 - i])
  }

  lemma WalkReversed(adj: Adjacency, rows: set<(Uuid, Uuid)>, a: Uuid, b: Uuid, p: seq<Uuid>)
    requires Answers(adj, rows) && WalkBetween(adj, a, b, p)
    ensures WalkBetween(adj, b, a, Reversed(p)) && |Reversed(p)| == |p|
  {
    var r := Reversed(p);
    forall i | 0 <= i < |r| - 1
      ensures r[i + 1] in Neighbors(adj, r[i])
    {
      var j := |p| - 2 - i;
      assert p[j + 1] in Neighbors(adj, p[j]);
      assert r[i] == p[j + 1] && r[i + 1] == p[j];
    }
  }

  /** The graph is undirected: distance is the same from either end. */
  lemma HopsSymmetric(adj: Adjacency, rows: set<(Uuid, Uuid)>, a: Uuid, b: Uuid, d: nat)
    requires Answers(adj, rows) && HopsApart(adj, a, b, d)
    ensures HopsApart(adj, b, a, d)
  {
    var p :| WalkBetween(adj, a, b, p) && |p| == d + 1;
    WalkReversed(adj, rows, a, b, p);
    forall q | WalkBetween(adj, b, a, q)
      ensures |q| >= d + 1
    {
      WalkReversed(adj, rows, b, a, q);
    }
  }
}
