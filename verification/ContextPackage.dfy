/**
  Shrinking a context package: keep segments greedily by priority until the
  token budget is used up, never dropping identity, and print what is left.
*/
module ContextPackage {
  import opened Sequences
  import opened IndexOrder
  import opened Sorting
  import opened TextLines
  import opened SectionSplit
  import opened SectionClean
  import opened SectionExact
  import opened ShrinkSelect
  import SectionPriority

  /** Characters over four. */
  function EstimateTokens(text: string): nat {
    |text| / 4
  }

  /** What the shrinker looks at: most of what follows holds for any such measure. */
  type Measure = Segment -> Item

  /** The package's own: priority by header, tokens of the full text. */
  function Standard(): Measure {
    (seg: Segment) => Item(SectionPriority.Priority(seg.header), EstimateTokens(FullText(seg)))
  }

  /** Token counts are those of the full texts. */
  ghost predicate CountsTokens(m: Measure) {
    forall seg {:trigger m(seg)} :: m(seg).tokens == EstimateTokens(FullText(seg))
  }

  function Items(m: Measure, segs: seq<Segment>, n: nat): (r: seq<Item>)
    requires n <= |segs|
    ensures |r| == n
  {
    if n == 0 then [] else Items(m, segs, n - 1) + [m(segs[n - 1])]
  }

  lemma {:induction false} ItemsAt(m: Measure, segs: seq<Segment>, n: nat)
    requires n <= |segs|
    ensures forall i :: 0 <= i < n ==> Items(m, segs, n)[i] == m(segs[i])
  {
    if n > 0 { ItemsAt(m, segs, n - 1); }
  }

  function KeptIn(m: Measure, segs: seq<Segment>, budget: nat): set<nat> {
    Kept(Items(m, segs, |segs|), budget)
  }

  function KeptSegments(m: Measure, segs: seq<Segment>, budget: nat): seq<Segment> {
    Select(segs, KeptIn(m, segs, budget), |segs|)
  }

  /** What shrinking leaves of a text. */
  function Shrunk(m: Measure, text: string, budget: nat): string {
    if Split(text) == [] then text else Join(KeptSegments(m, Split(text), budget))
  }

  function Dropped(m: Measure, text: string, budget: nat): int {
    |Split(text)| - |KeptSegments(m, Split(text), budget)|
  }

  // ---- Sums over what is kept ----

  function LengthSum(segs: seq<Segment>, n: nat): nat
    requires n <= |segs|
  {
    if n == 0 then 0 else LengthSum(segs, n - 1) + |FullText(segs[n - 1])|
  }

  function ListTokens(m: Measure, segs: seq<Segment>, n: nat): nat
    requires n <= |segs|
  {
    if n == 0 then 0 else ListTokens(m, segs, n - 1) + m(segs[n - 1]).tokens
  }

  lemma {:induction false} ListTokensPrefix(m: Measure, a: seq<Segment>, b: seq<Segment>, n: nat)
    requires n <= |a|
    ensures ListTokens(m, a + b, n) == ListTokens(m, a, n)
  {
    if n > 0 { ListTokensPrefix(m, a, b, n - 1); }
  }

  lemma ListTokensSnoc(m: Measure, a: seq<Segment>, seg: Segment)
    ensures ListTokens(m, a + [seg], |a + [seg]|) == ListTokens(m, a, |a|) + m(seg).tokens
  {
    ListTokensPrefix(m, a, [seg], |a|);
  }

  /** Summing over the kept indices or over the kept segments is the same. */
  lemma {:induction false} SelectTokens(m: Measure, segs: seq<Segment>, s: set<nat>, n: nat)
    requires n <= |segs|
    ensures ListTokens(m, Select(segs, s, n), |Select(segs, s, n)|) == TokenSum(Items(m, segs, |segs|), s, n)
  {
    if n > 0 {
      ItemsAt(m, segs, |segs|);
      SelectTokens(m, segs, s, n - 1);
      var before := Select(segs, s, n - 1);
      if n - 1 in s {
        ListTokensSnoc(m, before, segs[n - 1]);
      } else {
        assert Select(segs, s, n) == before + [] == before;
      }
    }
  }

  lemma {:induction false} JoinLength(segs: seq<Segment>, i: nat)
    requires i < |segs|
    ensures |JoinFrom(segs, i)| == LengthSum(segs, |segs|) - LengthSum(segs, i) + 2 * (|segs| - 1 - i)
    decreases |segs| - i
  {
    if i < |segs| - 1 { JoinLength(segs, i + 1); }
  }

  lemma {:induction false} LengthOverTokens(m: Measure, segs: seq<Segment>, n: nat)
    requires n <= |segs| && CountsTokens(m)
    ensures LengthSum(segs, n) <= 4 * ListTokens(m, segs, n) + 3 * n
  {
    if n > 0 {
      LengthOverTokens(m, segs, n - 1);
      Quarter(|FullText(segs[n - 1])|);
    }
  }

  lemma Quarter(n: nat)
    ensures 4 * (n / 4) <= n <= 4 * (n / 4) + 3
  {
  }

  // ---- The bound ----

  predicate IsIdentity(m: Measure, seg: Segment) {
    MustKeep(m(seg))
  }

  /** The token counts of the kept segments. */
  function KeptTokens(m: Measure, text: string, budget: nat): nat {
    var kept := KeptSegments(m, Split(text), budget);
    ListTokens(m, kept, |kept|)
  }

  /**
    No identity segment is dropped. Either the kept token counts sum to at most
    the budget or exactly the identity segments are kept. With `k` kept, blank
    lines and rounding add at most `(5k - 2) / 4` tokens to that sum.
  */
  lemma ShrinkBound(m: Measure, text: string, budget: nat)
    requires CountsTokens(m)
    ensures var segs, s := Split(text), KeptIn(m, Split(text), budget);
            && (forall i :: 0 <= i < |segs| && IsIdentity(m, segs[i]) ==> i in s)
            && (KeptTokens(m, text, budget) <= budget
                || forall i :: 0 <= i < |segs| ==> (i in s <==> IsIdentity(m, segs[i])))
    ensures var k := |KeptSegments(m, Split(text), budget)|;
            EstimateTokens(Shrunk(m, text, budget)) <= if k == 0 then 0 else KeptTokens(m, text, budget) + (5 * k - 2) / 4
  {
    var segs := Split(text);
    var items := Items(m, segs, |segs|);
    ItemsAt(m, segs, |segs|);
    KeptMeaning(items, budget);
    SelectTokens(m, segs, Kept(items, budget), |segs|);
    var kept := KeptSegments(m, segs, budget);
    if kept != [] {
      JoinLength(kept, 0);
      LengthOverTokens(m, kept, |kept|);
    } else if segs == [] {
      EmptySplit(text);
    }
  }

  /** Characters beyond the last full token, summed over the segments. */
  function Over(segs: seq<Segment>, n: nat): nat
    requires n <= |segs|
  {
    if n == 0 then 0 else Over(segs, n - 1) + |FullText(segs[n - 1])| % 4
  }

  lemma {:induction false} LengthExact(m: Measure, segs: seq<Segment>, n: nat)
    requires n <= |segs| && CountsTokens(m)
    ensures LengthSum(segs, n) == 4 * ListTokens(m, segs, n) + Over(segs, n)
  {
    if n > 0 {
      LengthExact(m, segs, n - 1);
      QuarterAndRest(m(segs[n - 1]).tokens, |FullText(segs[n - 1])|);
    }
  }

  lemma QuarterAndRest(q: nat, n: nat)
    requires q == n / 4
    ensures n == 4 * q + n % 4
  {
  }

  /** What is left of the budget covers the rests of the kept segments and the blank lines between them. */
  predicate RestsFit(m: Measure, text: string, budget: nat) {
    var kept := KeptSegments(m, Split(text), budget);
    kept == [] || Over(kept, |kept|) + 2 * (|kept| - 1) <= 4 * (budget - KeptTokens(m, text, budget)) + 3
  }

  /** The shrunk text is within the budget exactly if the rests fit. */
  lemma ShrinkFitsIff(m: Measure, text: string, budget: nat)
    requires CountsTokens(m)
    ensures EstimateTokens(Shrunk(m, text, budget)) <= budget <==> RestsFit(m, text, budget)
  {
    var kept := KeptSegments(m, Split(text), budget);
    if kept != [] {
      JoinLength(kept, 0);
      LengthExact(m, kept, |kept|);
    } else if Split(text) == [] {
      EmptySplit(text);
    }
  }

  /** Only the empty text has no segments. */
  lemma EmptySplit(text: string)
    requires Split(text) == []
    ensures text == ""
  {
    var ls := Lines(text);
    assert ls == [] || ParseLines(EMPTY, ls, |ls|) == ParseLine(ParseLines(EMPTY, ls, |ls| - 1), ls[|ls| - 1]);
  }

  // ---- Idempotence ----

  lemma {:induction false} SelectAll(segs: seq<Segment>, s: set<nat>, n: nat)
    requires n <= |segs| && AllBelow(s, |segs|)
    ensures Select(segs, s, n) == segs[..n]
  {
    if n > 0 {
      SelectAll(segs, s, n - 1);
      assert segs[..n] == segs[..n - 1] + [segs[n - 1]];
    }
  }

  lemma {:induction false} SelectMembers(segs: seq<Segment>, s: set<nat>, n: nat, j: nat)
    requires n <= |segs| && j < |Select(segs, s, n)|
    ensures exists i :: 0 <= i < n && i in s && Select(segs, s, n)[j] == segs[i]
  {
    if n > 0 && j < |Select(segs, s, n - 1)| { SelectMembers(segs, s, n - 1, j); }
  }

  /** Shrinking what was kept keeps all of it. */
  lemma KeptIsStable(m: Measure, segs: seq<Segment>, budget: nat)
    ensures var kept := KeptSegments(m, segs, budget); KeptSegments(m, kept, budget) == kept
  {
    var items := Items(m, segs, |segs|);
    var kept := KeptSegments(m, segs, budget);
    var all := Below(|kept|);
    BelowSize(|kept|);
    KeptMeaning(items, budget);
    ItemsAt(m, segs, |segs|);
    SelectTokens(m, segs, Kept(items, budget), |segs|);
    SelectAll(kept, all, |kept|);
    SelectTokens(m, kept, all, |kept|);
    assert kept[..|kept|] == kept;
    ItemsAt(m, kept, |kept|);
    if TokenSum(items, Kept(items, budget), |segs|) > budget {
      forall j | 0 <= j < |kept|
        ensures MustKeep(Items(m, kept, |kept|)[j])
      {
        SelectMembers(segs, Kept(items, budget), |segs|, j);
      }
    }
    KeptIsEverything(Items(m, kept, |kept|), budget, all);
    SelectAll(kept, KeptIn(m, kept, budget), |kept|);
  }

  /**
    Where the segments are printable, shrinking twice with the same budget is
    shrinking once, and the second time drops nothing.
  */
  lemma ShrinkIdempotent(m: Measure, text: string, budget: nat)
    requires PrintableList(Split(text))
    ensures Shrunk(m, Shrunk(m, text, budget), budget) == Shrunk(m, text, budget)
    ensures Dropped(m, Shrunk(m, text, budget), budget) == 0
  {
    var segs := Split(text);
    var kept := KeptSegments(m, segs, budget);
    if segs == [] {
      EmptySplit(text);
    } else {
      PrintableReadsBack(segs, KeptIn(m, segs, budget));
      if kept != [BLANK] {
        KeptIsStable(m, segs, budget);
      }
    }
  }

  /** In particular for text without carriage returns and nameless headers. */
  lemma CleanShrinkIdempotent(m: Measure, text: string, budget: nat)
    requires CleanText(text)
    ensures Shrunk(m, Shrunk(m, text, budget), budget) == Shrunk(m, text, budget)
    ensures Dropped(m, Shrunk(m, text, budget), budget) == 0
  {
    CleanSplits(text);
    ShrinkIdempotent(m, text, budget);
  }

  /** Segments that fit together are all kept. */
  lemma AllKept(m: Measure, segs: seq<Segment>, budget: nat)
    requires ListTokens(m, segs, |segs|) <= budget
    ensures KeptSegments(m, segs, budget) == segs
  {
    var n := |segs|;
    var all := Below(n);
    BelowSize(n);
    SelectAll(segs, all, n);
    SelectTokens(m, segs, all, n);
    assert segs[..n] == segs;
    KeptIsEverything(Items(m, segs, n), budget, all);
    SelectAll(segs, KeptIn(m, segs, budget), n);
  }

  lemma ShrunkOne(m: Measure, text: string, seg: Segment, budget: nat)
    requires Split(text) == [seg] && m(seg).tokens <= budget
    ensures Shrunk(m, text, budget) == FullText(seg)
  {
    assert ListTokens(m, [seg], 1) == m(seg).tokens;
    AllKept(m, [seg], budget);
  }

  /** A bare header line that ends in a carriage return is read without it. */
  lemma BareHeader(header: string)
    requires '\n' !in header
    ensures Split("## " + (header + "\r") + "\n" + "") == [Segment(header, "")]
  {
    OneSection(header + "\r", "");
    var line := "## " + (header + "\r");
    assert StripCr(line) == "## " + header && ("## " + header)[3..] == header;
  }

  /** The condition is needed: every pass takes one more carriage return off a header. */
  lemma CarriageReturnsAreNotIdempotent(m: Measure, header: string, budget: nat)
    requires '\n' !in header
    requires m(Segment(header + "\r", "")).tokens <= budget && m(Segment(header, "")).tokens <= budget
    ensures var text := "## " + (header + "\r" + "\r") + "\n" + "";
            Shrunk(m, Shrunk(m, text, budget), budget) != Shrunk(m, text, budget)
  {
    var once, twice := Segment(header + "\r", ""), Segment(header, "");
    BareHeader(header + "\r");
    ShrunkOne(m, "## " + (header + "\r" + "\r") + "\n" + "", once, budget);
    BareHeader(header);
    ShrunkOne(m, FullText(once), twice, budget);
    assert |FullText(once)| == |header| + 5;
  }

  /** What is reported as dropped is the number of segments that are not kept. */
  lemma {:induction false} DroppedCount(segs: seq<Segment>, s: set<nat>, n: nat)
    requires n <= |segs|
    ensures n - |Select(segs, s, n)| == |set i | 0 <= i < n && i !in s|
  {
    if n > 0 {
      DroppedCount(segs, s, n - 1);
      var before := set i | 0 <= i < n - 1 && i !in s;
      assert (set i | 0 <= i < n && i !in s) == before + if n - 1 in s then {} else {n - 1};
    }
  }

  lemma DroppedMeaning(m: Measure, text: string, budget: nat)
    ensures Dropped(m, text, budget) == |set i | 0 <= i < |Split(text)| && i !in KeptIn(m, Split(text), budget)|
  {
    DroppedCount(Split(text), KeptIn(m, Split(text), budget), |Split(text)|);
  }

  // ---- The method ----

  /** State of the keeping loop after `k` tries. */
  ghost predicate Keeps(items: seq<Item>, order: seq<nat>, budget: nat, k: nat, kept: seq<nat>, total: nat)
    requires k <= |order| && Permutes(order, |items|)
  {
    var done := Keep(items, order, budget, k);
    Distinct(kept) && (forall i :: i in kept <==> i in done.kept) && total == done.total
  }

  lemma KeepsNext(items: seq<Item>, order: seq<nat>, budget: nat, k: nat, kept: seq<nat>, total: nat)
    requires k < |order| && Permutes(order, |items|) && Keeps(items, order, budget, k, kept, total)
    ensures var x := items[order[k]];
            if MustKeep(x) || total + x.tokens <= budget
            then Keeps(items, order, budget, k + 1, kept + [order[k]], total + x.tokens)
            else Keeps(items, order, budget, k + 1, kept, total)
  {
    KeptWasTried(items, order, budget, k);
    assert order[k] !in kept;
    assert Distinct(kept + [order[k]]);
  }

  lemma {:induction false} SelectIsAscending(segs: seq<Segment>, s: set<nat>, n: nat)
    requires n <= |segs|
    ensures |Select(segs, s, n)| == |Ascending(s, n)|
    ensures forall j :: 0 <= j < |Ascending(s, n)| ==> Ascending(s, n)[j] < n && Select(segs, s, n)[j] == segs[Ascending(s, n)[j]]
  {
    if n > 0 { SelectIsAscending(segs, s, n - 1); }
  }

  /** The keeping loop, most important first. */
  method KeepGreedily(items: seq<Item>, budget: nat) returns (kept: seq<nat>)
    ensures Distinct(kept) && forall i :: i in kept <==> i in Kept(items, budget)
  {
    var order := Order(items);
    OrderPermutes(items);
    kept := [];
    var total: nat := 0;
    for k := 0 to |order|
      invariant Keeps(items, order, budget, k, kept, total)
    {
      KeepsNext(items, order, budget, k, kept, total);
      var x := items[order[k]];
      if x.priority >= 100 {
        kept, total := kept + [order[k]], total + x.tokens;
        continue;
      }
      if total + x.tokens <= budget {
        kept, total := kept + [order[k]], total + x.tokens;
      }
    }
  }

  /** Back into document order. */
  method InDocumentOrder(segs: seq<Segment>, kept: seq<nat>, ghost s: set<nat>) returns (left: seq<Segment>)
    requires Distinct(kept) && (forall i :: i in kept <==> i in s) && (forall i :: i in s ==> i < |segs|)
    ensures left == Select(segs, s, |segs|)
  {
    SortedSelection(kept, s, |segs|);
    SelectIsAscending(segs, s, |segs|);
    var sorted := Sort(kept, AtMost());
    left := [];
    for k := 0 to |sorted|
      invariant |left| == k && forall j :: 0 <= j < k ==> left[j] == segs[sorted[j]]
    {
      left := left + [segs[sorted[k]]];
    }
    assert left == Select(segs, s, |segs|);
  }

  /** `shrink_text`, measuring segments by `m`. */
  method ShrinkText(m: Measure, text: string, budget: nat) returns (result: string, dropped: int)
    ensures result == Shrunk(m, text, budget) && dropped == Dropped(m, text, budget)
  {
    var segs := SplitSegments(text);
    if segs == [] {
      return text, 0;
    }
    var items := Items(m, segs, |segs|);
    var kept := KeepGreedily(items, budget);
    KeptMeaning(items, budget);
    var left := InDocumentOrder(segs, kept, KeptIn(m, segs, budget));
    dropped := |segs| - |left|;
    result := Join(left);
  }

  lemma StandardCounts()
    ensures CountsTokens(Standard())
  {
  }

  /** What must be kept is exactly what mentions identity in its header. */
  lemma IdentityMeaning(seg: Segment)
    ensures IsIdentity(Standard(), seg) <==> SectionPriority.Tier(seg.header) == 0
    ensures Standard()(seg).tokens == |FullText(seg)| / 4
  {
    SectionPriority.PriorityMeaning(seg.header);
  }

  // ---- The package ----

  /** The parts of a context package that shrinking reads and rewrites. */
  class Package {
    var compressedContext: string

    constructor (text: string)
      ensures compressedContext == text
    {
      compressedContext := text;
    }

    function TokenCount(): nat
      reads this
    {
      EstimateTokens(compressedContext)
    }

    /** Nothing happens within the budget; beyond it the text is shrunk. */
    method ShrinkToBudget(budget: nat) returns (dropped: int)
      modifies this
      ensures old(TokenCount()) <= budget ==> dropped == 0 && compressedContext == old(compressedContext)
      ensures old(TokenCount()) > budget ==>
                && dropped == Dropped(Standard(), old(compressedContext), budget)
                && compressedContext == Shrunk(Standard(), old(compressedContext), budget)
      ensures TokenCount() <= budget
         <==> old(TokenCount()) <= budget || RestsFit(Standard(), old(compressedContext), budget)
    {
      if TokenCount() <= budget {
        return 0;
      }
      StandardCounts();
      ShrinkFitsIff(Standard(), compressedContext, budget);
      compressedContext, dropped := ShrinkText(Standard(), compressedContext, budget);
    }
  }
}
