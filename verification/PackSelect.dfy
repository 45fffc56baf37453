/**
  Greedy selection under a size budget. The results hold for whatever order the
  segments are tried in; the order itself is priority, authority, confidence.
*/
module PackSelect {
  import opened Authority
  import opened IndexOrder
  import opened PackAccount
  import opened Sorting

  // ---- The order ----

  /** Priority, then authority, then confidence, each descending. */
  predicate NotAfter(a: Segment, b: Segment) {
    a.priority > b.priority
    || (a.priority == b.priority
        && (Rank(a.authority) > Rank(b.authority)
            || (Rank(a.authority) == Rank(b.authority) && a.confidence >= b.confidence)))
  }

  /** The comparator on indices; an index out of range compares like the default segment. */
  function At(segs: seq<Segment>, i: nat): Segment {
    if i < |segs| then segs[i] else Segment("", "", 0, L3Inferred, 0.0)
  }

  function Comparator(segs: seq<Segment>): (nat, nat) -> bool {
    (a: nat, b: nat) => NotAfter(At(segs, a), At(segs, b))
  }

  function Order(segs: seq<Segment>): seq<nat> {
    Sort(Indices(|segs|), Comparator(segs))
  }

  lemma ComparatorTotal(segs: seq<Segment>)
    ensures TotalPreorder(Comparator(segs))
  {
  }

  /** The sorted indices are a permutation, most important first. */
  lemma OrderMeaning(segs: seq<Segment>)
    ensures Permutes(Order(segs), |segs|)
    ensures forall j, k :: 0 <= j < k < |segs| ==> NotAfter(segs[Order(segs)[j]], segs[Order(segs)[k]])
  {
    ComparatorTotal(segs);
    SortedIndices(|segs|, Comparator(segs));
  }

  /** A later segment has no higher priority; at equal priority it does not outrank; at equal rank it is no surer. */
  lemma OrderSpelledOut(segs: seq<Segment>, j: nat, k: nat)
    requires j < k < |segs|
    ensures |Order(segs)| == |segs| && Order(segs)[j] < |segs| && Order(segs)[k] < |segs|
    ensures var a, b := segs[Order(segs)[j]], segs[Order(segs)[k]];
            && a.priority >= b.priority
            && (a.priority == b.priority ==> !Outranks(b.authority, a.authority))
            && (a.priority == b.priority && a.authority == b.authority ==> a.confidence >= b.confidence)
  {
    OrderMeaning(segs);
    RankOrder(segs[Order(segs)[k]].authority, segs[Order(segs)[j]].authority);
  }

  // ---- Greedy selection ----

  /** What is selected among the first `n` of `order`. */
  function Pick(segs: seq<Segment>, order: seq<nat>, budget: nat, n: nat): set<nat>
    requires n <= |order|
  {
    if n == 0 then {}
    else
      var s := Pick(segs, order, budget, n - 1);
      if Total(segs, s + {order[n - 1]}) <= budget then s + {order[n - 1]} else s
  }

  function Picked(segs: seq<Segment>, order: seq<nat>, budget: nat): set<nat> {
    Pick(segs, order, budget, |order|)
  }

  lemma {:induction false} PickWithin(segs: seq<Segment>, order: seq<nat>, budget: nat, n: nat)
    requires n <= |order|
    ensures Total(segs, Pick(segs, order, budget, n)) <= budget
    ensures forall i :: i in Pick(segs, order, budget, n) ==> exists k :: 0 <= k < n && order[k] == i
  {
    if n > 0 {
      PickWithin(segs, order, budget, n - 1);
    } else {
      EmptyTotal(segs, |segs|);
    }
  }

  lemma {:induction false} EmptyTotal(segs: seq<Segment>, n: nat)
    requires n <= |segs|
    ensures Account(segs, {}, n) == 0
  {
    if n > 0 { EmptyTotal(segs, n - 1); }
  }

  lemma {:induction false} PickGrows(segs: seq<Segment>, order: seq<nat>, budget: nat, m: nat, n: nat)
    requires m <= n <= |order|
    ensures Pick(segs, order, budget, m) <= Pick(segs, order, budget, n)
    decreases n
  {
    if m < n { PickGrows(segs, order, budget, m, n - 1); }
  }

  /** A segment is selected exactly if it fits when its turn comes. */
  lemma PickedIff(segs: seq<Segment>, order: seq<nat>, budget: nat, k: nat)
    requires Permutes(order, |segs|) && k < |order|
    ensures order[k] in Picked(segs, order, budget)
       <==> Total(segs, Pick(segs, order, budget, k) + {order[k]}) <= budget
  {
    PickGrows(segs, order, budget, k + 1, |order|);
    if Total(segs, Pick(segs, order, budget, k) + {order[k]}) > budget {
      PickWithin(segs, order, budget, k);
      PickedLater(segs, order, budget, k, |order|);
    }
  }

  lemma {:induction false} PickedLater(segs: seq<Segment>, order: seq<nat>, budget: nat, k: nat, n: nat)
    requires Permutes(order, |segs|) && k < n <= |order|
    requires order[k] !in Pick(segs, order, budget, k + 1)
    ensures order[k] !in Pick(segs, order, budget, n)
    decreases n
  {
    if k + 1 < n { PickedLater(segs, order, budget, k, n - 1); }
  }

  lemma PickedInRange(segs: seq<Segment>, order: seq<nat>, budget: nat)
    requires Permutes(order, |segs|)
    ensures forall i :: i in Picked(segs, order, budget) ==> i < |segs|
  {
    PickWithin(segs, order, budget, |order|);
  }

  // ---- Maximality ----

  /** No dropped segment still fits, even where its section header is already paid for. */
  lemma PickedIsMaximal(segs: seq<Segment>, order: seq<nat>, budget: nat, i: nat)
    requires Permutes(order, |segs|) && i < |segs| && i !in Picked(segs, order, budget)
    ensures var s := Picked(segs, order, budget);
            Total(segs, s) + Extra(segs, s, i, |segs|) > budget
  {
    assert i in order;
    var k :| 0 <= k < |order| && order[k] == i;
    var s, early := Picked(segs, order, budget), Pick(segs, order, budget, k);
    PickedIff(segs, order, budget, k);
    PickGrows(segs, order, budget, k, |order|);
    PickedInRange(segs, order, budget);
    TotalGrows(segs, early + {i}, s + {i});
    TotalAdd(segs, s, i);
  }

  /** What comes at or before position `k` of the order. */
  ghost function Prefix(order: seq<nat>, k: nat): set<nat>
    requires k <= |order|
  {
    if k == 0 then {} else Prefix(order, k - 1) + {order[k - 1]}
  }

  lemma {:induction false} PickInPrefix(segs: seq<Segment>, order: seq<nat>, budget: nat, k: nat)
    requires k <= |order| && Permutes(order, |segs|)
    ensures Pick(segs, order, budget, k) <= Prefix(order, k)
    ensures forall i :: i in Prefix(order, k) ==> i < |segs|
  {
    if k > 0 { PickInPrefix(segs, order, budget, k - 1); }
  }

  /** A segment is kept whenever everything up to and including it fits. */
  lemma FittingPrefixIsKept(segs: seq<Segment>, order: seq<nat>, budget: nat, k: nat)
    requires Permutes(order, |segs|) && k < |order|
    requires Total(segs, Prefix(order, k + 1)) <= budget
    ensures order[k] in Picked(segs, order, budget)
  {
    PickedIff(segs, order, budget, k);
    PickInPrefix(segs, order, budget, k + 1);
    PickInPrefix(segs, order, budget, k);
    TotalGrows(segs, Pick(segs, order, budget, k) + {order[k]}, Prefix(order, k + 1));
  }

  // ---- Priority ----

  /**
    Among all selections within the budget the greedy one is first in priority:
    where any other first differs from it, greedy keeps the segment and the
    other gave it up.
  */
  lemma PickedIsFirstInPriority(segs: seq<Segment>, order: seq<nat>, budget: nat, t: set<nat>) returns (k: nat)
    requires Permutes(order, |segs|)
    requires (forall i :: i in t ==> i < |segs|) && Total(segs, t) <= budget
    requires t != Picked(segs, order, budget)
    ensures k < |order|
    ensures order[k] in Picked(segs, order, budget) && order[k] !in t
    ensures forall j :: 0 <= j < k ==> (order[j] in Picked(segs, order, budget) <==> order[j] in t)
  {
    var s := Picked(segs, order, budget);
    PickedInRange(segs, order, budget);
    var i :| i < |segs| && (i in s) != (i in t);
    assert i in order;
    var n :| 0 <= n < |order| && order[n] == i;
    k := FirstDifference(order, s, t, n);
    if order[k] !in s {
      PickedIff(segs, order, budget, k);
      var early := Pick(segs, order, budget, k);
      PickWithin(segs, order, budget, k);
      PickGrows(segs, order, budget, k, |order|);
      assert early + {order[k]} <= t;
      TotalGrows(segs, early + {order[k]}, t);
    }
  }
}
