/**
  The size account behind the token-budget packer: what a set of selected
  segments is charged, independent of the order in which they were selected.
*/
module PackAccount {
  import opened Authority

  /** Text is modelled as its UTF-8 bytes, one `char` a byte, since the packer counts bytes. */
  datatype Segment = Segment(text: string, section: string, priority: nat, authority: AuthorityLevel, confidence: real)

  /** Some selected segment before `n` belongs to `section`. */
  predicate Seen(segs: seq<Segment>, s: set<nat>, n: nat, section: string)
    requires n <= |segs|
  {
    exists j :: 0 <= j < n && j in s && segs[j].section == section
  }

  /** Header line, separator and slack for the first selected segment of a section. */
  function HeaderCost(section: string): nat {
    |section| + 6
  }

  function TextCost(seg: Segment): nat {
    |seg.text| + 1
  }

  /** The charge for the selected segments before `n`. */
  function Account(segs: seq<Segment>, s: set<nat>, n: nat): nat
    requires n <= |segs|
  {
    if n == 0 then 0
    else
      Account(segs, s, n - 1)
      + if n - 1 !in s then 0
        else TextCost(segs[n - 1]) + if Seen(segs, s, n - 1, segs[n - 1].section) then 0 else HeaderCost(segs[n - 1].section)
  }

  function Total(segs: seq<Segment>, s: set<nat>): nat {
    Account(segs, s, |segs|)
  }

  /** What selecting `i` in addition costs: its text, and the header if its section is new. */
  function Extra(segs: seq<Segment>, s: set<nat>, i: nat, n: nat): nat
    requires i < |segs| && n <= |segs|
  {
    TextCost(segs[i]) + if Seen(segs, s, n, segs[i].section) then 0 else HeaderCost(segs[i].section)
  }

  lemma SeenAdd(segs: seq<Segment>, s: set<nat>, i: nat, n: nat, section: string)
    requires i < |segs| && n <= |segs|
    ensures Seen(segs, s + {i}, n, section) <==> Seen(segs, s, n, section) || (i < n && segs[i].section == section)
  {
  }

  lemma {:induction false} AccountAdd(segs: seq<Segment>, s: set<nat>, i: nat, n: nat)
    requires i < |segs| && i !in s && n <= |segs|
    ensures Account(segs, s + {i}, n) == Account(segs, s, n) + if i < n then Extra(segs, s, i, n) else 0
  {
    if n > 0 {
      AccountAdd(segs, s, i, n - 1);
      SeenAdd(segs, s, i, n - 1, segs[n - 1].section);
      assert Seen(segs, s, n, segs[i].section)
        <==> Seen(segs, s, n - 1, segs[i].section) || (n - 1 in s && segs[n - 1].section == segs[i].section);
    }
  }

  /** The loop's running account, in whatever order segments are picked, is the account of the set. */
  lemma TotalAdd(segs: seq<Segment>, s: set<nat>, i: nat)
    requires i < |segs| && i !in s
    ensures Total(segs, s + {i}) == Total(segs, s) + Extra(segs, s, i, |segs|)
  {
    AccountAdd(segs, s, i, |segs|);
  }

  /** Selecting less is never charged more. */
  lemma {:induction false} TotalGrows(segs: seq<Segment>, s: set<nat>, t: set<nat>)
    requires s <= t && forall i :: i in t ==> i < |segs|
    ensures Total(segs, s) <= Total(segs, t)
    decreases t - s
  {
    if t - s != {} {
      var i :| i in t - s;
      TotalAdd(segs, s, i);
      TotalGrows(segs, s + {i}, t);
    } else {
      assert s == t;
    }
  }
}
