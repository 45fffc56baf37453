/**
  Shrinking is idempotent, for whatever priorities and token counts segments
  have and for whatever budget, exactly on texts with printable segments. A
  carriage return at the end of a line disturbs it under every measure; a later
  section without name does under some, where it is kept next to the first.
*/
module ShrinkExact {
  import opened Wrappers
  import opened IndexOrder
  import opened Sorting
  import opened TextLines
  import opened SectionSplit
  import opened SectionClean
  import opened SectionExact
  import opened SectionMelt
  import opened ShrinkSelect
  import opened ContextPackage
  import opened ShrinkTwice

  ghost predicate AlwaysIdempotent(text: string) {
    forall m: Measure, b: nat {:trigger Shrunk(m, text, b)} :: Shrunk(m, Shrunk(m, text, b), b) == Shrunk(m, text, b)
  }

  // ---- What is kept when nothing must be ----

  ghost predicate Mild(m: Measure) {
    forall seg {:trigger m(seg)} :: !MustKeep(m(seg)) && m(seg).tokens >= 1
  }

  /** Within the budget, and maximal. */
  lemma MildlyKept(m: Measure, segs: seq<Segment>, budget: nat)
    requires Mild(m)
    ensures var kept := KeptSegments(m, segs, budget);
            && ListTokens(m, kept, |kept|) <= budget
            && (forall i :: 0 <= i < |segs| && i !in KeptIn(m, segs, budget) ==>
                  ListTokens(m, kept, |kept|) + m(segs[i]).tokens > budget)
  {
    var items := Items(m, segs, |segs|);
    ItemsAt(m, segs, |segs|);
    KeptMeaning(items, budget);
    SelectTokens(m, segs, Kept(items, budget), |segs|);
    if TokenSum(items, Kept(items, budget), |segs|) > budget {
      assert forall i :: 0 <= i < |segs| ==> i !in Kept(items, budget);
      NothingSums(items, Kept(items, budget), |segs|);
    }
  }

  lemma {:induction false} NothingSums(items: seq<Item>, s: set<nat>, n: nat)
    requires n <= |items| && forall i :: 0 <= i < n ==> i !in s
    ensures TokenSum(items, s, n) == 0
  {
    if n > 0 { NothingSums(items, s, n - 1); }
  }

  /** Each kept segment costs at least one token, and any one no more than all. */
  lemma {:induction false} TokensCount(m: Measure, kept: seq<Segment>, n: nat, j: nat)
    requires Mild(m) && n <= |kept|
    ensures ListTokens(m, kept, n) >= n
    ensures j < n ==> ListTokens(m, kept, n) >= m(kept[j]).tokens + n - 1
  {
    if n > 0 { TokensCount(m, kept, n - 1, j); }
  }

  /** What costs more than the budget is not kept. */
  lemma TooDear(m: Measure, seg: Segment, budget: nat)
    requires Mild(m) && m(seg).tokens > budget
    ensures KeptSegments(m, [seg], budget) == []
  {
    MildlyKept(m, [seg], budget);
    var kept := KeptSegments(m, [seg], budget);
    if kept != [] {
      SelectMembers([seg], KeptIn(m, [seg], budget), 1, 0);
      TokensCount(m, kept, |kept|, 0);
    }
  }

  // ---- A segment that does not read back ----

  ghost predicate IdempotentUnder(m: Measure, text: string) {
    forall b: nat :: Shrunk(m, Shrunk(m, text, b), b) == Shrunk(m, text, b)
  }

  /** Under any one measure: idempotent exactly if at every budget what is kept stays put. */
  lemma IdempotentUnderIff(m: Measure, text: string)
    ensures IdempotentUnder(m, text) <==> forall b: nat :: StaysPut(m, KeptSegments(m, Split(text), b), b)
  {
    forall b: nat
      ensures Shrunk(m, Shrunk(m, text, b), b) == Shrunk(m, text, b)
         <==> StaysPut(m, KeptSegments(m, Split(text), b), b)
    {
      SecondPassIff(m, text, b);
    }
  }

  /** With room for everything all segments are kept, so each must be printable. */
  lemma PrintableIsNeeded(m: Measure, text: string, i: nat)
    requires IdempotentUnder(m, text) && i < |Split(text)|
    ensures Printable(Split(text)[i])
  {
    var segs := Split(text);
    var b := ListTokens(m, segs, |segs|);
    AllKept(m, segs, b);
    SecondPassIff(m, text, b);
    assert Printable(BLANK) by { assert SplitNl("") == [""]; }
  }

  ghost predicate NamedAfterFirst(segs: seq<Segment>) {
    forall i :: 0 < i < |segs| ==> segs[i].header != ""
  }

  /** In particular, where all later sections have a name it is exactly printability, whatever the measure. */
  lemma NamedIdempotentIff(m: Measure, text: string)
    ensures IdempotentUnder(m, text) && NamedAfterFirst(Split(text)) <==> PrintableList(Split(text))
  {
    if PrintableList(Split(text)) {
      forall b: nat
        ensures Shrunk(m, Shrunk(m, text, b), b) == Shrunk(m, text, b)
      {
        ShrinkIdempotent(m, text, b);
      }
    }
    if IdempotentUnder(m, text) && NamedAfterFirst(Split(text)) {
      forall i | 0 <= i < |Split(text)|
        ensures Printable(Split(text)[i])
      {
        PrintableIsNeeded(m, text, i);
      }
    }
  }

  // ---- A later segment without header ----

  lemma {:induction false} HeadSelected(segs: seq<Segment>, s: set<nat>, n: nat)
    requires 0 < n <= |segs| && 0 in s
    ensures Select(segs, s, n) != [] && Select(segs, s, n)[0] == segs[0]
  {
    if n > 1 { HeadSelected(segs, s, n - 1); }
  }

  lemma {:induction false} BothSelected(segs: seq<Segment>, s: set<nat>, i: nat, n: nat)
    requires 0 < i < n <= |segs| && 0 in s && i in s
    ensures |Select(segs, s, n)| >= 2
  {
    if i == n - 1 { HeadSelected(segs, s, n - 1); } else { BothSelected(segs, s, i, n - 1); }
  }

  /** Two copies of `seg` can be had. */
  function Twin(seg: Segment): Measure {
    (x: Segment) => if x == seg then Item(50, 1) else Item(0, 3)
  }

  lemma TwinsAreKept(segs: seq<Segment>, i: nat)
    requires 0 < i < |segs| && segs[0] == segs[i]
    ensures KeptSegments(Twin(segs[0]), segs, 2) == [segs[0], segs[i]]
  {
    var m := Twin(segs[0]);
    var kept := KeptSegments(m, segs, 2);
    MildlyKept(m, segs, 2);
    TokensCount(m, kept, |kept|, 0);
    TokensCount(m, kept, |kept|, 1);
    if 0 in KeptIn(m, segs, 2) && i in KeptIn(m, segs, 2) { BothSelected(segs, KeptIn(m, segs, 2), i, |segs|); }
  }

  /** `a` comes first and leaves room for one `b`. */
  function Pair(a: Segment, b: Segment): Measure {
    (x: Segment) => if x == a then Item(60, 2) else if x == b then Item(50, 1) else Item(0, 4)
  }

  /** An item that may stand before all others is tried first. */
  lemma FirstIsKept(items: seq<Item>, budget: nat)
    requires items != [] && items[0].tokens <= budget
    requires forall i :: 0 <= i < |items| ==> NotAfter(items[0], items[i])
    ensures 0 in Kept(items, budget)
  {
    var order := Order(items);
    OrderMeaning(items);
    IndicesAt(|items|);
    assert TotalPreorder(Comparator(items));
    var k := SortHead(Indices(|items|), Comparator(items));
    assert Comparator(items)(0, k);
    assert order[0] == 0;
    assert Keep(items, order, budget, 0).total == 0;
    assert 0 in Keep(items, order, budget, 1).kept;
    KeepGrows(items, order, budget, 1, |items|);
  }

  lemma PairIsKept(segs: seq<Segment>, i: nat)
    requires 0 < i < |segs| && segs[0] != segs[i]
    ensures KeptSegments(Pair(segs[0], segs[i]), segs, 3) == [segs[0], segs[i]]
  {
    var m := Pair(segs[0], segs[i]);
    var s, kept := KeptIn(m, segs, 3), KeptSegments(m, segs, 3);
    ItemsAt(m, segs, |segs|);
    FirstIsKept(Items(m, segs, |segs|), 3);
    HeadSelected(segs, s, |segs|);
    MildlyKept(m, segs, 3);
    TokensCount(m, kept, |kept|, 0);
    assert ListTokens(m, kept, 1) == ListTokens(m, kept, 0) + 2;
    if i in s { BothSelected(segs, s, i, |segs|); }
    if |kept| > 1 { assert ListTokens(m, kept, 2) == ListTokens(m, kept, 1) + m(kept[1]).tokens; }
  }

  /** Kept as a pair, the two melt into one segment that is dropped or prints shorter. */
  lemma PairMelts(m: Measure, text: string, budget: nat, a: Segment, b: Segment)
    requires Mild(m) && Shaped(a) && Shaped(b) && b.header == ""
    requires KeptSegments(m, Split(text), budget) == [a, b]
    requires forall x {:trigger m(x)} :: x != a && x != b ==> m(x).tokens > budget
    ensures !AlwaysIdempotent(text)
  {
    var t := FullText(a) + "\n\n" + FullText(b);
    JoinTwo(a, b);
    assert Shrunk(m, text, budget) == t;
    SecondMelts(a, b);
    var c := Split(t)[0];
    assert Split(t) == [c];
    if c != a && c != b { TooDear(m, c, budget); }
    var kept := KeptSegments(m, [c], budget);
    assert Select([c], KeptIn(m, [c], budget), 0) == [];
    assert kept == [] || kept == [c];
    assert Shrunk(m, t, budget) == Join(kept);
    assert |Join(kept)| < |t|;
  }

  lemma NamelessChanges(text: string, i: nat)
    requires 0 < i < |Split(text)| && Split(text)[i].header == ""
    ensures !AlwaysIdempotent(text)
  {
    var segs := Split(text);
    SplitIsShaped(text);
    if segs[0] == segs[i] {
      TwinsAreKept(segs, i);
      PairMelts(Twin(segs[0]), text, 2, segs[0], segs[i]);
    } else {
      PairIsKept(segs, i);
      PairMelts(Pair(segs[0], segs[i]), text, 3, segs[0], segs[i]);
    }
  }

  // ---- The equivalence ----

  /** Shrinking is idempotent under every measure and budget exactly where the segments are printable. */
  lemma ShrinkIdempotentIff(text: string)
    ensures AlwaysIdempotent(text) <==> PrintableList(Split(text))
  {
    var segs := Split(text);
    NamedIdempotentIff(Standard(), text);
    if PrintableList(segs) {
      forall m: Measure, b: nat
        ensures Shrunk(m, Shrunk(m, text, b), b) == Shrunk(m, text, b)
      {
        ShrinkIdempotent(m, text, b);
      }
    }
    if AlwaysIdempotent(text) {
      forall i | 0 < i < |segs|
        ensures segs[i].header != ""
      {
        if segs[i].header == "" { NamelessChanges(text, i); }
      }
      assert IdempotentUnder(Standard(), text);
    }
  }

  // ---- The package's own measure ----

  lemma OneIsDropped(m: Measure, seg: Segment, budget: nat)
    requires !MustKeep(m(seg)) && m(seg).tokens > budget
    ensures KeptSegments(m, [seg], budget) == []
  {
    SelectSize([seg], KeptIn(m, [seg], budget), 1);
    assert [seg][..1] == [seg] && ListTokens(m, [seg], 1) == ListTokens(m, [seg], 0) + m(seg).tokens;
    if KeptSegments(m, [seg], budget) == [seg] { KeptIsAffordable(m, [seg], budget); }
  }

  const ABC := Segment("", "abc")
  const NAMELESS := "abc" + "\n" + ("## " + "\n" + "abc")
  const MELTED := "abc" + "\n\n" + "abc"

  lemma AbcPrints()
    ensures SplitNl("abc") == ["abc"] && Lines("abc") == ["abc"] && Printable(ABC)
  {
    assert Newline("abc", 0) == 3;
  }

  lemma NamelessLines()
    ensures Lines(NAMELESS) == ["abc", "## ", "abc"]
  {
    AbcPrints();
    LinesCons("abc", "## " + "\n" + "abc");
    LinesCons("## ", "abc");
    assert ["abc"] + (["## "] + ["abc"]) == ["abc", "## ", "abc"];
  }

  const OPEN := Section("", "abc" + "\n")

  lemma NamelessParses()
    ensures ParseLine(EMPTY, "abc") == Parse([], Some(OPEN))
    ensures ParseLine(Parse([], Some(OPEN)), "## ") == Parse([ABC], Some(Section("", "")))
    ensures ParseLine(Parse([ABC], Some(Section("", ""))), "abc") == Parse([ABC], Some(OPEN))
    ensures Close(Parse([ABC], Some(OPEN))) == [ABC, ABC]
  {
    TrimNewline("abc");
    assert NewSegment("", "abc" + "\n") == ABC;
    assert "" + "abc" + "\n" == "abc" + "\n" && "## "[3..] == "";
    assert [ABC] + [ABC] == [ABC, ABC] && [] + [ABC] == [ABC];
  }

  lemma {:induction false} ParseThree(a: string, b: string, c: string)
    ensures ParseLines(EMPTY, [a, b, c], 3) == ParseLine(ParseLine(ParseLine(EMPTY, a), b), c)
  {
    var ls := [a, b, c];
    assert ParseLines(EMPTY, ls, 1) == ParseLine(ParseLines(EMPTY, ls, 0), a);
    assert ParseLines(EMPTY, ls, 2) == ParseLine(ParseLines(EMPTY, ls, 1), b);
  }

  lemma NamelessSplits()
    ensures Split(NAMELESS) == [ABC, ABC]
  {
    NamelessLines();
    ParseThree("abc", "## ", "abc");
    NamelessParses();
  }

  lemma MeltedSplits()
    ensures Split(MELTED) == [Segment("", MELTED)] && Join([ABC, ABC]) == MELTED
  {
    var segs, whole := [ABC, ABC], Segment("", MELTED);
    AbcPrints();
    JoinTwo(ABC, ABC);
    assert RawFrom(segs, 1) == [ABC];
    assert RawFrom(segs, 0) == [Absorb(ABC, ABC)] + [ABC][1..] == [whole];
    assert TrimFrom([whole], 1) == [];
    assert MELTED[7] == 'c' && |MELTED| == 8;
    SplitOfMeltedJoin(segs);
  }

  lemma AbcTokens(m: Measure)
    requires m == Standard()
    ensures m(ABC).tokens == 0 && m(Segment("", MELTED)) == Item(50, 2)
  {
  }

  /** A nameless header changes what the package itself does: the second pass drops what the first one kept. */
  lemma NamelessIsDropped(m: Measure)
    requires m == Standard()
    ensures Shrunk(m, NAMELESS, 0) == MELTED && Shrunk(m, MELTED, 0) == ""
  {
    NamelessSplits();
    MeltedSplits();
    AbcTokens(m);
    assert ListTokens(m, [ABC, ABC], 1) == ListTokens(m, [ABC, ABC], 0) + 0;
    AllKept(m, [ABC, ABC], 0);
    OneIsDropped(m, Segment("", MELTED), 0);
  }
}
