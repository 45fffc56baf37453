/** Facts about sequences and sets that several components need. */
module Sequences {
  ghost predicate Distinct<T>(s: seq<T>) {
    forall i, j :: 0 <= i < j < |s| ==> s[i] != s[j]
  }

  lemma Associate<T>(a: seq<T>, b: seq<T>, c: seq<T>)
    ensures (a + b) + c == a + (b + c)
  {
  }

  /** A subset is no larger, and smaller unless it is the whole set. */
  lemma SubsetSize<T>(s: set<T>, t: set<T>)
    requires s <= t
    ensures |s| <= |t| && (s != t ==> |s| < |t|)
  {
    assert t == s + (t - s);
    if s != t {
      var x :| x in t - s;
      assert |t - s| > 0;
    }
  }

  /** A set has two different members exactly if its size exceeds one. */
  lemma SizeAboveOne<T>(s: set<T>)
    ensures |s| > 1 <==> exists x, y :: x in s && y in s && x != y
  {
    if |s| > 1 {
      var x :| x in s;
      assert |s - {x}| > 0;
      var y :| y in s - {x};
    } else if |s| == 1 {
      var x :| x in s;
      assert s == {x} by { assert |s - {x}| == 0; }
    }
  }
}
