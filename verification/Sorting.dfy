/**
  The stable sort that the control plane calls on its vectors (`sort_by`,
  `sort_by_key`). A comparator is given as `le(a, b)`: "a may stand before b".
  A sort is pinned down by three facts, proved here of `Sort` and shown to
  leave only one possible result.
*/
module Sorting {

  ghost predicate TotalPreorder<T(!new)>(le: (T, T) -> bool) {
    && (forall x, y :: le(x, y) || le(y, x))
    && (forall x, y, z :: le(x, y) && le(y, z) ==> le(x, z))
  }

  ghost predicate SortedBy<T>(s: seq<T>, le: (T, T) -> bool) {
    forall i, j :: 0 <= i < j < |s| ==> le(s[i], s[j])
  }

  /** Two entries that the comparator cannot tell apart. */
  predicate Level<T>(x: T, y: T, le: (T, T) -> bool) {
    le(x, y) && le(y, x)
  }

  /** The entries of `s` level with `x`, in the order in which they occur. */
  function LevelWith<T>(s: seq<T>, x: T, le: (T, T) -> bool): seq<T> {
    if s == [] then []
    else (if Level(x, s[0], le) then [s[0]] else []) + LevelWith(s[1..], x, le)
  }

  /** Equal entries keep their relative order. */
  ghost predicate StableWith<T(!new)>(r: seq<T>, s: seq<T>, le: (T, T) -> bool) {
    forall x :: LevelWith(r, x, le) == LevelWith(s, x, le)
  }

  function Insert<T>(x: T, s: seq<T>, le: (T, T) -> bool): seq<T> {
    if s == [] then [x]
    else if le(x, s[0]) then [x] + s
    else [s[0]] + Insert(x, s[1..], le)
  }

  function Sort<T>(s: seq<T>, le: (T, T) -> bool): seq<T> {
    if s == [] then [] else Insert(s[0], Sort(s[1..], le), le)
  }

  lemma {:induction false} InsertPermutes<T>(x: T, s: seq<T>, le: (T, T) -> bool)
    ensures multiset(Insert(x, s, le)) == multiset{x} + multiset(s)
  {
    if s != [] {
      assert s == [s[0]] + s[1..];
      if !le(x, s[0]) {
        InsertPermutes(x, s[1..], le);
      }
    }
  }

  lemma {:induction false} SortPermutes<T>(s: seq<T>, le: (T, T) -> bool)
    ensures multiset(Sort(s, le)) == multiset(s)
    ensures |Sort(s, le)| == |s|
  {
    if s != [] {
      assert s == [s[0]] + s[1..];
      SortPermutes(s[1..], le);
      InsertPermutes(s[0], Sort(s[1..], le), le);
    }
    assert |multiset(Sort(s, le))| == |multiset(s)|;
  }

  /** A permutation has the same members. */
  lemma SameMembers<T>(r: seq<T>, s: seq<T>)
    requires multiset(r) == multiset(s)
    ensures |r| == |s|
    ensures forall x :: x in r <==> x in s
  {
    assert |multiset(r)| == |multiset(s)|;
    forall x
      ensures x in r <==> x in s
    {
      assert x in r <==> x in multiset(r);
      assert x in s <==> x in multiset(s);
    }
  }

  lemma {:induction false} InsertSorted<T(!new)>(x: T, s: seq<T>, le: (T, T) -> bool)
    requires TotalPreorder(le) && SortedBy(s, le)
    ensures SortedBy(Insert(x, s, le), le)
  {
    if s == [] {
    } else if le(x, s[0]) {
      forall j | 0 <= j < |s|
        ensures le(x, s[j])
      {
        assert j == 0 || le(s[0], s[j]);
      }
    } else {
      InsertSorted(x, s[1..], le);
      InsertPermutes(x, s[1..], le);
      var r := Insert(x, s[1..], le);
      forall j | 0 <= j < |r|
        ensures le(s[0], r[j])
      {
        assert r[j] in multiset(r);
        assert r[j] == x || r[j] in s[1..];
      }
    }
  }

  lemma {:induction false} SortSorts<T(!new)>(s: seq<T>, le: (T, T) -> bool)
    requires TotalPreorder(le)
    ensures SortedBy(Sort(s, le), le)
  {
    if s != [] {
      SortSorts(s[1..], le);
      InsertSorted(s[0], Sort(s[1..], le), le);
    }
  }

  lemma {:induction false} InsertStable<T(!new)>(x: T, s: seq<T>, y: T, le: (T, T) -> bool)
    requires TotalPreorder(le)
    ensures LevelWith(Insert(x, s, le), y, le) == LevelWith([x] + s, y, le)
  {
    assert ([x] + s)[1..] == s;
    if s != [] && !le(x, s[0]) {
      InsertStable(x, s[1..], y, le);
      assert ([x] + s[1..])[1..] == s[1..];
      assert ([s[0]] + Insert(x, s[1..], le))[1..] == Insert(x, s[1..], le);
      assert !(Level(y, x, le) && Level(y, s[0], le));
    }
  }

  lemma {:induction false} SortStable<T(!new)>(s: seq<T>, le: (T, T) -> bool)
    requires TotalPreorder(le)
    ensures StableWith(Sort(s, le), s, le)
  {
    if s != [] {
      SortStable(s[1..], le);
      forall y
        ensures LevelWith(Sort(s, le), y, le) == LevelWith(s, y, le)
      {
        InsertStable(s[0], Sort(s[1..], le), y, le);
        assert ([s[0]] + Sort(s[1..], le))[1..] == Sort(s[1..], le);
      }
    }
  }

  lemma {:induction false} LevelWithMembers<T(!new)>(s: seq<T>, x: T, le: (T, T) -> bool)
    requires TotalPreorder(le)
    ensures forall y :: y in LevelWith(s, x, le) <==> y in s && Level(x, y, le)
  {
    if s != [] {
      LevelWithMembers(s[1..], x, le);
    }
  }

  /** Sortedness and stability leave exactly one result. */
  lemma {:induction false} StableSortUnique<T(!new)>(r: seq<T>, q: seq<T>, le: (T, T) -> bool)
    requires TotalPreorder(le)
    requires SortedBy(r, le) && SortedBy(q, le) && StableWith(r, q, le)
    ensures r == q
  {
    if q != [] {
      LevelWithMembers(q, q[0], le);
      assert q[0] in LevelWith(q, q[0], le) && LevelWith(q, q[0], le) == LevelWith(r, q[0], le);
    }
    if r != [] {
      LevelWithMembers(r, r[0], le);
      LevelWithMembers(q, r[0], le);
      assert r[0] in LevelWith(q, r[0], le);
      LevelWithMembers(r, q[0], le);
      LevelWithMembers(q, q[0], le);
      assert q[0] in LevelWith(r, q[0], le);
      assert Level(r[0], q[0], le);
      assert LevelWith(r, r[0], le)[0] == r[0];
      assert LevelWith(q, r[0], le)[0] == q[0];
      forall x
        ensures LevelWith(r[1..], x, le) == LevelWith(q[1..], x, le)
      {
        var head := if Level(x, r[0], le) then [r[0]] else [];
        assert LevelWith(r, x, le) == head + LevelWith(r[1..], x, le);
        assert LevelWith(q, x, le) == head + LevelWith(q[1..], x, le);
        assert LevelWith(r[1..], x, le) == LevelWith(r, x, le)[|head|..];
      }
      StableSortUnique(r[1..], q[1..], le);
      assert r == [r[0]] + r[1..] && q == [q[0]] + q[1..];
    }
  }

  /** Every stable sort agrees with `Sort`, so `Sort` is the library's sort. */
  lemma SortIsTheStableSort<T(!new)>(r: seq<T>, s: seq<T>, le: (T, T) -> bool)
    requires TotalPreorder(le)
    ensures SortedBy(r, le) && StableWith(r, s, le) <==> r == Sort(s, le)
  {
    SortSorts(s, le);
    SortStable(s, le);
    if SortedBy(r, le) && StableWith(r, s, le) {
      StableSortUnique(r, Sort(s, le), le);
    }
  }

  /** The first entry of a sort is the earliest one that may stand before all others. */
  lemma {:induction false} SortHead<T(!new)>(s: seq<T>, le: (T, T) -> bool) returns (k: nat)
    requires TotalPreorder(le) && s != []
    ensures k < |s| && |Sort(s, le)| == |s| && Sort(s, le)[0] == s[k]
    ensures forall i :: 0 <= i < |s| ==> le(s[k], s[i])
    ensures forall i :: 0 <= i < k ==> !le(s[i], s[k])
  {
    SortPermutes(s, le);
    SortPermutes(s[1..], le);
    if |s| == 1 {
      k := 0;
    } else {
      var m := SortHead(s[1..], le);
      k := if le(s[0], s[1..][m]) then 0 else m + 1;
      forall i | 0 <= i < |s|
        ensures le(s[k], s[i])
      {
        if i > 0 { assert le(s[1..][m], s[1..][i - 1]); }
      }
      forall i | 0 <= i < k
        ensures !le(s[i], s[k])
      {
        if i > 0 { assert !le(s[1..][i - 1], s[1..][m]); }
      }
    }
  }

  /** An already sorted sequence is left alone. */
  lemma {:induction false} SortIdentity<T>(s: seq<T>, le: (T, T) -> bool)
    requires SortedBy(s, le)
    ensures Sort(s, le) == s
  {
    if s != [] {
      SortIdentity(s[1..], le);
      assert |s| > 1 ==> le(s[0], s[1]);
    }
  }
}
