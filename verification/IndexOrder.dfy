/**
  Sorting and selecting by index: the vectors of indices that the packer and the
  shrinker sort, pick from, and put back into document order.
*/
module IndexOrder {
  import opened Sequences
  import opened Sorting

  function Indices(n: nat): seq<nat> {
    if n == 0 then [] else Indices(n - 1) + [n - 1]
  }

  ghost predicate Permutes(order: seq<nat>, n: nat) {
    && |order| == n
    && (forall k :: 0 <= k < n ==> order[k] < n)
    && (forall j, k :: 0 <= j < k < n ==> order[j] != order[k])
    && (forall i :: 0 <= i < n ==> i in order)
  }

  lemma {:induction false} IndicesAt(n: nat)
    ensures |Indices(n)| == n && forall k :: 0 <= k < n ==> Indices(n)[k] == k
  {
    if n > 0 { IndicesAt(n - 1); }
  }

  lemma {:induction false} DistinctCounts(s: seq<nat>, n: nat)
    requires forall k :: 0 <= k < n <= |s| ==> s[k] == k
    requires n <= |s|
    ensures forall x: nat :: multiset(s[..n])[x] == if x < n then 1 else 0
  {
    if n > 0 {
      DistinctCounts(s, n - 1);
      assert s[..n] == s[..n - 1] + [s[n - 1]];
    }
  }

  lemma {:induction false} CountsDistinct(r: seq<nat>, j: nat, k: nat)
    requires j < k < |r| && r[j] == r[k]
    ensures multiset(r)[r[j]] >= 2
  {
    assert r == r[..k] + [r[k]] + r[k + 1..];
    assert r[j] in multiset(r[..k]) by { assert r[..k][j] == r[j]; }
  }

  /** Whatever has the indices below n as its members, each once, is a permutation of them. */
  lemma SameAsIndices(r: seq<nat>, n: nat)
    requires multiset(r) == multiset(Indices(n))
    ensures Permutes(r, n)
  {
    var base := Indices(n);
    IndicesAt(n);
    SameMembers(r, base);
    assert base[..n] == base;
    DistinctCounts(base, n);
    forall k | 0 <= k < n
      ensures r[k] < n
    {
      assert r[k] in r;
    }
    forall i | 0 <= i < n
      ensures i in r
    {
      assert base[i] == i;
    }
    forall j, k | 0 <= j < k < n
      ensures r[j] != r[k]
    {
      if r[j] == r[k] { CountsDistinct(r, j, k); }
    }
  }

  /** Sorting the indices by any comparator gives a permutation in that order. */
  lemma SortedIndices(n: nat, le: (nat, nat) -> bool)
    requires TotalPreorder(le)
    ensures Permutes(Sort(Indices(n), le), n)
    ensures forall j, k :: 0 <= j < k < n ==> le(Sort(Indices(n), le)[j], Sort(Indices(n), le)[k])
  {
    SortPermutes(Indices(n), le);
    SortSorts(Indices(n), le);
    SameAsIndices(Sort(Indices(n), le), n);
  }

  // ---- Ascending order of the selection ----

  function AtMost(): (nat, nat) -> bool {
    (a: nat, b: nat) => a <= b
  }

  function Ascending(s: set<nat>, n: nat): seq<nat> {
    if n == 0 then [] else Ascending(s, n - 1) + if n - 1 in s then [n - 1] else []
  }

  lemma {:induction false} AscendingMeaning(s: set<nat>, n: nat)
    ensures var r := Ascending(s, n);
            && (forall i :: i in r <==> i in s && i < n)
            && (forall j, k :: 0 <= j < k < |r| ==> r[j] < r[k])
  {
    if n > 0 {
      AscendingMeaning(s, n - 1);
      var r := Ascending(s, n - 1);
      assert forall k :: 0 <= k < |r| ==> r[k] in r;
    }
  }

  lemma {:induction false} LevelOfDistinct(s: seq<nat>, x: nat)
    requires Distinct(s)
    ensures LevelWith(s, x, AtMost()) == if x in s then [x] else []
  {
    if s != [] {
      LevelOfDistinct(s[1..], x);
      if s[0] == x {
        forall k | 0 <= k < |s[1..]|
          ensures s[1..][k] != x
        {
          assert s[1..][k] == s[k + 1];
        }
      }
      assert s == [s[0]] + s[1..];
    }
  }

  /** Sorting the selected indices lists the selection in assembly order. */
  lemma SortedSelection(selected: seq<nat>, s: set<nat>, n: nat)
    requires Distinct(selected) && (forall i :: i in selected <==> i in s) && (forall i :: i in s ==> i < n)
    ensures Sort(selected, AtMost()) == Ascending(s, n)
  {
    var r := Ascending(s, n);
    AscendingMeaning(s, n);
    forall x
      ensures LevelWith(r, x, AtMost()) == LevelWith(selected, x, AtMost())
    {
      LevelOfDistinct(r, x);
      LevelOfDistinct(selected, x);
    }
    SortIsTheStableSort(r, selected, AtMost());
  }

  /** Fewer selected than there are means some index is missing, and conversely. */
  lemma {:induction false} DroppedIff(selected: seq<nat>, s: set<nat>, n: nat)
    requires Distinct(selected) && (forall i :: i in selected <==> i in s) && (forall i :: i in s ==> i < n)
    ensures |selected| < n <==> exists i :: 0 <= i < n && i !in s
  {
    SizeOfDistinct(selected, s);
    var all := Below(n);
    BelowSize(n);
    assert s <= all;
    if exists i :: 0 <= i < n && i !in s {
      SubsetSize(s, all);
    } else {
      assert s == all;
    }
  }

  ghost function Below(n: nat): set<nat> {
    if n == 0 then {} else Below(n - 1) + {n - 1}
  }

  lemma {:induction false} BelowSize(n: nat)
    ensures |Below(n)| == n && forall i: nat :: i in Below(n) <==> i < n
  {
    if n > 0 { BelowSize(n - 1); }
  }

  lemma {:induction false} SizeOfDistinct(selected: seq<nat>, s: set<nat>)
    requires Distinct(selected) && (forall i :: i in selected <==> i in s)
    ensures |selected| == |s|
  {
    if selected == [] {
      assert s == {};
    } else {
      var x := selected[0];
      assert selected == [x] + selected[1..];
      SizeOfDistinct(selected[1..], s - {x});
    }
  }

  /** The first position at which two selections differ. */
  lemma FirstDifference(order: seq<nat>, s: set<nat>, t: set<nat>, n: nat) returns (k: nat)
    requires n < |order| && (order[n] in s) != (order[n] in t)
    ensures k <= n && (order[k] in s) != (order[k] in t)
    ensures forall j :: 0 <= j < k ==> (order[j] in s <==> order[j] in t)
  {
    k := 0;
    while (order[k] in s) == (order[k] in t)
      invariant k <= n && forall j :: 0 <= j < k ==> (order[j] in s <==> order[j] in t)
      decreases n - k
    {
      k := k + 1;
    }
  }
}
