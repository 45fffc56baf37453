/**
  The shrinker's greedy choice over what it knows of each segment: a priority
  and a token count. Priority 100 and above is always kept.
*/
module ShrinkSelect {
  import opened IndexOrder
  import opened Sorting

  datatype Item = Item(priority: nat, tokens: nat)

  predicate MustKeep(x: Item) {
    x.priority >= 100
  }

  /** Higher priority first, smaller first among equals. */
  predicate NotAfter(a: Item, b: Item) {
    a.priority > b.priority || (a.priority == b.priority && a.tokens <= b.tokens)
  }

  function At(items: seq<Item>, i: nat): Item {
    if i < |items| then items[i] else Item(0, 0)
  }

  function Comparator(items: seq<Item>): (nat, nat) -> bool {
    (a: nat, b: nat) => NotAfter(At(items, a), At(items, b))
  }

  function Order(items: seq<Item>): seq<nat> {
    Sort(Indices(|items|), Comparator(items))
  }

  ghost predicate ByPriority(items: seq<Item>, order: seq<nat>)
    requires Permutes(order, |items|)
  {
    forall j, k :: 0 <= j < k < |order| ==> items[order[j]].priority >= items[order[k]].priority
  }

  /** The sorted indices are a permutation, by priority descending and then by size ascending. */
  lemma OrderMeaning(items: seq<Item>)
    ensures Permutes(Order(items), |items|) && ByPriority(items, Order(items))
    ensures forall j, k :: 0 <= j < k < |items| ==> NotAfter(items[Order(items)[j]], items[Order(items)[k]])
    ensures forall j, k :: 0 <= j < k < |items| ==>
              var a, b := items[Order(items)[j]], items[Order(items)[k]];
              a.priority >= b.priority && (a.priority == b.priority ==> a.tokens <= b.tokens)
  {
    assert TotalPreorder(Comparator(items));
    SortedIndices(|items|, Comparator(items));
  }

  lemma OrderPermutes(items: seq<Item>)
    ensures Permutes(Order(items), |items|)
  {
    OrderMeaning(items);
  }

  // ---- Keeping ----

  datatype Keeping = Keeping(kept: set<nat>, total: nat)

  function Keep(items: seq<Item>, order: seq<nat>, budget: nat, n: nat): Keeping
    requires n <= |order| && Permutes(order, |items|)
  {
    if n == 0 then Keeping({}, 0)
    else
      var k := Keep(items, order, budget, n - 1);
      var x := items[order[n - 1]];
      if MustKeep(x) || k.total + x.tokens <= budget then Keeping(k.kept + {order[n - 1]}, k.total + x.tokens) else k
  }

  function Kept(items: seq<Item>, budget: nat): set<nat> {
    OrderMeaning(items);
    Keep(items, Order(items), budget, |items|).kept
  }

  /** The token counts of the items below `n` in `s`. */
  function TokenSum(items: seq<Item>, s: set<nat>, n: nat): nat
    requires n <= |items|
  {
    if n == 0 then 0 else TokenSum(items, s, n - 1) + if n - 1 in s then items[n - 1].tokens else 0
  }

  lemma {:induction false} TokenSumAdd(items: seq<Item>, s: set<nat>, i: nat, n: nat)
    requires i < |items| && i !in s && n <= |items|
    ensures TokenSum(items, s + {i}, n) == TokenSum(items, s, n) + if i < n then items[i].tokens else 0
  {
    if n > 0 { TokenSumAdd(items, s, i, n - 1); }
  }

  lemma {:induction false} TokenSumEmpty(items: seq<Item>, n: nat)
    requires n <= |items|
    ensures TokenSum(items, {}, n) == 0
  {
    if n > 0 { TokenSumEmpty(items, n - 1); }
  }

  lemma {:induction false} TokenSumGrows(items: seq<Item>, s: set<nat>, t: set<nat>, n: nat)
    requires n <= |items| && forall i :: 0 <= i < n && i in s ==> i in t
    ensures TokenSum(items, s, n) <= TokenSum(items, t, n)
  {
    if n > 0 { TokenSumGrows(items, s, t, n - 1); }
  }

  /** What is kept was tried. */
  lemma {:induction false} KeptWasTried(items: seq<Item>, order: seq<nat>, budget: nat, n: nat)
    requires n <= |order| && Permutes(order, |items|)
    ensures forall i :: i in Keep(items, order, budget, n).kept ==> exists j :: 0 <= j < n && order[j] == i
  {
    if n > 0 { KeptWasTried(items, order, budget, n - 1); }
  }

  /** The running total is the sum over what is kept. */
  lemma {:induction false} KeepTotal(items: seq<Item>, order: seq<nat>, budget: nat, n: nat)
    requires n <= |order| && Permutes(order, |items|)
    ensures var k := Keep(items, order, budget, n); k.total == TokenSum(items, k.kept, |items|)
  {
    if n == 0 {
      TokenSumEmpty(items, |items|);
    } else {
      KeepTotal(items, order, budget, n - 1);
      KeptWasTried(items, order, budget, n - 1);
      TokenSumAdd(items, Keep(items, order, budget, n - 1).kept, order[n - 1], |items|);
    }
  }

  lemma {:induction false} MustKeepIsKept(items: seq<Item>, order: seq<nat>, budget: nat, n: nat, j: nat)
    requires j < n <= |order| && Permutes(order, |items|) && MustKeep(items[order[j]])
    ensures order[j] in Keep(items, order, budget, n).kept
    decreases n
  {
    if j < n - 1 { MustKeepIsKept(items, order, budget, n - 1, j); }
  }

  ghost predicate OnlyMustKeep(items: seq<Item>, s: set<nat>) {
    forall i :: i in s ==> i < |items| && MustKeep(items[i])
  }

  /** Within the budget, or nothing but what must be kept. */
  lemma {:induction false} KeepBound(items: seq<Item>, order: seq<nat>, budget: nat, n: nat)
    requires n <= |order| && Permutes(order, |items|) && ByPriority(items, order)
    ensures var k := Keep(items, order, budget, n); k.total <= budget || OnlyMustKeep(items, k.kept)
  {
    if n > 0 {
      KeepBound(items, order, budget, n - 1);
      KeptWasTried(items, order, budget, n - 1);
    }
  }

  lemma {:induction false} KeepGrows(items: seq<Item>, order: seq<nat>, budget: nat, m: nat, n: nat)
    requires m <= n <= |order| && Permutes(order, |items|)
    ensures Keep(items, order, budget, m).kept <= Keep(items, order, budget, n).kept
    ensures Keep(items, order, budget, m).total <= Keep(items, order, budget, n).total
    decreases n
  {
    if m < n { KeepGrows(items, order, budget, m, n - 1); }
  }

  /** An item is kept exactly if it must be or it fits when its turn comes. */
  lemma KeptIff(items: seq<Item>, order: seq<nat>, budget: nat, k: nat)
    requires Permutes(order, |items|) && k < |order|
    ensures order[k] in Keep(items, order, budget, |order|).kept
       <==> MustKeep(items[order[k]]) || Keep(items, order, budget, k).total + items[order[k]].tokens <= budget
  {
    KeepGrows(items, order, budget, k + 1, |order|);
    KeptWasTried(items, order, budget, k);
    KeptLater(items, order, budget, k, |order|);
  }

  lemma {:induction false} KeptLater(items: seq<Item>, order: seq<nat>, budget: nat, k: nat, n: nat)
    requires Permutes(order, |items|) && k < n <= |order|
    ensures order[k] in Keep(items, order, budget, n).kept ==> order[k] in Keep(items, order, budget, k + 1).kept
    decreases n
  {
    if k + 1 < n { KeptLater(items, order, budget, k, n - 1); }
  }

  /** No dropped item still fits. */
  lemma DroppedDoesNotFit(items: seq<Item>, budget: nat, i: nat)
    requires i < |items| && i !in Kept(items, budget)
    ensures TokenSum(items, Kept(items, budget), |items|) + items[i].tokens > budget
  {
    var order := Order(items);
    OrderMeaning(items);
    assert i in order;
    var k :| 0 <= k < |order| && order[k] == i;
    KeptIff(items, order, budget, k);
    KeepGrows(items, order, budget, k, |order|);
    KeepTotal(items, order, budget, |order|);
  }

  /**
    Everything that must be kept survives; either the kept token counts sum to
    at most the budget, or exactly that is kept; and no dropped item still fits.
  */
  lemma KeptMeaning(items: seq<Item>, budget: nat)
    ensures var s := Kept(items, budget);
            && (forall i :: i in s ==> i < |items|)
            && (forall i :: 0 <= i < |items| && MustKeep(items[i]) ==> i in s)
            && (TokenSum(items, s, |items|) <= budget
                || forall i :: 0 <= i < |items| ==> (i in s <==> MustKeep(items[i])))
            && (forall i :: 0 <= i < |items| && i !in s ==> TokenSum(items, s, |items|) + items[i].tokens > budget)
  {
    var order, s := Order(items), Kept(items, budget);
    OrderMeaning(items);
    KeptWasTried(items, order, budget, |items|);
    KeepTotal(items, order, budget, |items|);
    KeepBound(items, order, budget, |items|);
    forall i | 0 <= i < |items| && MustKeep(items[i])
      ensures i in s
    {
      assert i in order;
      var j :| 0 <= j < |order| && order[j] == i;
      MustKeepIsKept(items, order, budget, |items|, j);
    }
    forall i | 0 <= i < |items| && i !in s
      ensures TokenSum(items, s, |items|) + items[i].tokens > budget
    {
      DroppedDoesNotFit(items, budget, i);
    }
  }

  // ---- Priority ----

  lemma KeptBefore(items: seq<Item>, order: seq<nat>, budget: nat, t: set<nat>, k: nat)
    requires Permutes(order, |items|) && k < |order|
    requires forall j :: 0 <= j < k ==> (order[j] in Keep(items, order, budget, |order|).kept <==> order[j] in t)
    ensures Keep(items, order, budget, k).kept <= t
  {
    KeptWasTried(items, order, budget, k);
    KeepGrows(items, order, budget, k, |order|);
  }

  /**
    Among all selections within the budget the greedy one is first in priority:
    where any other first differs from it, greedy keeps the item and the other
    gave it up.
  */
  lemma KeptIsFirstInPriority(items: seq<Item>, budget: nat, t: set<nat>) returns (k: nat)
    requires (forall i :: i in t ==> i < |items|) && TokenSum(items, t, |items|) <= budget
    requires t != Kept(items, budget)
    ensures k < |Order(items)| && Order(items)[k] in Kept(items, budget) && Order(items)[k] !in t
    ensures forall j :: 0 <= j < k ==> (Order(items)[j] in Kept(items, budget) <==> Order(items)[j] in t)
  {
    var order, s := Order(items), Kept(items, budget);
    OrderMeaning(items);
    KeptMeaning(items, budget);
    var i :| (i in s) != (i in t);
    assert i in order;
    var n: nat :| n < |order| && order[n] == i;
    k := FirstDifference(order, s, t, n);
    var x := order[k];
    var early := Keep(items, order, budget, k).kept;
    KeptIff(items, order, budget, k);
    KeptWasTried(items, order, budget, k);
    KeepTotal(items, order, budget, k);
    KeptBefore(items, order, budget, t, k);
    TokenSumAdd(items, early, x, |items|);
    if x in t { TokenSumGrows(items, early + {x}, t, |items|); }
  }

  // ---- When nothing is dropped ----

  ghost predicate AllBelow(s: set<nat>, n: nat) {
    forall i :: 0 <= i < n ==> i in s
  }

  lemma {:induction false} KeepsEverything(items: seq<Item>, order: seq<nat>, budget: nat, all: set<nat>, n: nat)
    requires n <= |order| && Permutes(order, |items|) && AllBelow(all, |items|)
    requires TokenSum(items, all, |items|) <= budget || forall i :: 0 <= i < |items| ==> MustKeep(items[i])
    ensures forall j :: 0 <= j < n ==> order[j] in Keep(items, order, budget, n).kept
  {
    if n > 0 {
      KeepsEverything(items, order, budget, all, n - 1);
      var k, i := Keep(items, order, budget, n - 1), order[n - 1];
      KeepTotal(items, order, budget, n - 1);
      KeptWasTried(items, order, budget, n - 1);
      TokenSumAdd(items, k.kept, i, |items|);
      TokenSumGrows(items, k.kept + {i}, all, |items|);
    }
  }

  /** Items that fit together, or that must all be kept, are all kept. */
  lemma KeptIsEverything(items: seq<Item>, budget: nat, all: set<nat>)
    requires AllBelow(all, |items|)
    requires TokenSum(items, all, |items|) <= budget || forall i :: 0 <= i < |items| ==> MustKeep(items[i])
    ensures AllBelow(Kept(items, budget), |items|)
  {
    var order := Order(items);
    OrderMeaning(items);
    KeepsEverything(items, order, budget, all, |items|);
    forall i | 0 <= i < |items|
      ensures i in Kept(items, budget)
    {
      assert i in order;
    }
  }
}
