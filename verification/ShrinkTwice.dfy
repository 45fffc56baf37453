/**
  When is shrinking what was shrunk the same as shrinking once? For every
  measure, text and budget the answer is read off the list that the first pass
  keeps.
*/
module ShrinkTwice {
  import opened IndexOrder
  import opened TextLines
  import opened SectionSplit
  import opened SectionClean
  import opened SectionMelt
  import opened CarriageReturns
  import opened ShrinkSelect
  import opened ContextPackage

  // ---- When everything is kept ----

  /** The segments fit the budget together, or each of them must be kept. */
  predicate Affordable(m: Measure, segs: seq<Segment>, budget: nat) {
    ListTokens(m, segs, |segs|) <= budget || forall i :: 0 <= i < |segs| ==> MustKeep(m(segs[i]))
  }

  lemma AffordableIsKept(m: Measure, segs: seq<Segment>, budget: nat)
    requires Affordable(m, segs, budget)
    ensures KeptSegments(m, segs, budget) == segs
  {
    var n := |segs|;
    var all := Below(n);
    BelowSize(n);
    ItemsAt(m, segs, n);
    SelectAll(segs, all, n);
    SelectTokens(m, segs, all, n);
    assert segs[..n] == segs;
    KeptIsEverything(Items(m, segs, n), budget, all);
    SelectAll(segs, KeptIn(m, segs, budget), n);
  }

  lemma KeptIsAffordable(m: Measure, segs: seq<Segment>, budget: nat)
    requires KeptSegments(m, segs, budget) == segs
    ensures Affordable(m, segs, budget)
  {
    var items := Items(m, segs, |segs|);
    ItemsAt(m, segs, |segs|);
    KeptMeaning(items, budget);
    SelectTokens(m, segs, Kept(items, budget), |segs|);
    SelectSize(segs, Kept(items, budget), |segs|);
  }

  // ---- Sizes ----

  lemma {:induction false} LengthSumPrefix(a: seq<Segment>, b: seq<Segment>, n: nat)
    requires n <= |a|
    ensures LengthSum(a + b, n) == LengthSum(a, n)
  {
    if n > 0 { LengthSumPrefix(a, b, n - 1); }
  }

  lemma LengthSumSnoc(a: seq<Segment>, seg: Segment)
    ensures LengthSum(a + [seg], |a + [seg]|) == LengthSum(a, |a|) + |FullText(seg)|
  {
    LengthSumPrefix(a, [seg], |a|);
  }

  lemma {:induction false} SelectLength(segs: seq<Segment>, s: set<nat>, n: nat, part: seq<Segment>)
    requires n <= |segs| && part == Select(segs, s, n)
    ensures LengthSum(part, |part|) <= LengthSum(segs, n)
  {
    if n > 0 {
      var before := Select(segs, s, n - 1);
      SelectLength(segs, s, n - 1, before);
      if n - 1 in s {
        LengthSumSnoc(before, segs[n - 1]);
      } else {
        assert part == before + [] == before;
      }
    }
  }

  /** Leaving something out makes the print shorter. */
  lemma PartIsShorter(segs: seq<Segment>, s: set<nat>)
    ensures var part := Select(segs, s, |segs|);
            part != [] && part != segs ==> |Join(part)| < |Join(segs)|
  {
    var part := Select(segs, s, |segs|);
    SelectSize(segs, s, |segs|);
    SelectLength(segs, s, |segs|, part);
    assert segs[..|segs|] == segs;
    if part != [] {
      JoinLength(part, 0);
      JoinLength(segs, 0);
    }
  }

  lemma {:induction false} TrimFromAt(segs: seq<Segment>, i: nat)
    requires i <= |segs|
    ensures |TrimFrom(segs, i)| == |segs| - i
    ensures forall k :: 0 <= k < |segs| - i ==> TrimFrom(segs, i)[k] == TrimSegment(segs[i + k])
    decreases |segs| - i
  {
    if i < |segs| { TrimFromAt(segs, i + 1); }
  }

  lemma TrimLength(seg: Segment, trimmed: Segment)
    requires trimmed == TrimSegment(seg)
    ensures |FullText(trimmed)| <= |FullText(seg)|
    ensures !Trimmed(seg.body) ==> |FullText(trimmed)| < |FullText(seg)|
  {
  }

  ghost predicate TrimmedTo(segs: seq<Segment>, trimmed: seq<Segment>) {
    |segs| == |trimmed| && forall k :: 0 <= k < |segs| ==> trimmed[k] == TrimSegment(segs[k])
  }

  function SumOf(f: Segment -> nat, segs: seq<Segment>, n: nat): nat
    requires n <= |segs|
  {
    if n == 0 then 0 else SumOf(f, segs, n - 1) + f(segs[n - 1])
  }

  function Size(): Segment -> nat {
    (seg: Segment) => |FullText(seg)|
  }

  lemma {:induction false} LengthSumIsSum(segs: seq<Segment>, n: nat)
    requires n <= |segs|
    ensures LengthSum(segs, n) == SumOf(Size(), segs, n)
  {
    if n > 0 { LengthSumIsSum(segs, n - 1); }
  }

  lemma {:induction false} SumNotMore(f: Segment -> nat, a: seq<Segment>, b: seq<Segment>, n: nat)
    requires n <= |a| == |b| && forall k :: 0 <= k < |a| ==> f(a[k]) <= f(b[k])
    ensures SumOf(f, a, n) <= SumOf(f, b, n)
  {
    if n > 0 { SumNotMore(f, a, b, n - 1); }
  }

  lemma {:induction false} SumLess(f: Segment -> nat, a: seq<Segment>, b: seq<Segment>, n: nat, j: nat)
    requires j < n <= |a| == |b| && (forall k :: 0 <= k < |a| ==> f(a[k]) <= f(b[k])) && f(a[j]) < f(b[j])
    ensures SumOf(f, a, n) < SumOf(f, b, n)
    decreases n
  {
    if j < n - 1 { SumLess(f, a, b, n - 1, j); } else { SumNotMore(f, a, b, n - 1); }
  }

  lemma TrimSum(segs: seq<Segment>, trimmed: seq<Segment>)
    requires TrimmedTo(segs, trimmed)
    ensures LengthSum(trimmed, |segs|) <= LengthSum(segs, |segs|)
    ensures !AllTrimmed(segs) ==> LengthSum(trimmed, |segs|) < LengthSum(segs, |segs|)
  {
    var f := Size();
    forall k | 0 <= k < |segs|
      ensures f(trimmed[k]) <= f(segs[k]) && (!Trimmed(segs[k].body) ==> f(trimmed[k]) < f(segs[k]))
    {
      TrimLength(segs[k], trimmed[k]);
    }
    LengthSumIsSum(segs, |segs|);
    LengthSumIsSum(trimmed, |segs|);
    SumNotMore(f, trimmed, segs, |segs|);
    if j: nat :| j < |segs| && !Trimmed(segs[j].body) {
      SumLess(f, trimmed, segs, |segs|, j);
    }
  }

  lemma TrimmedShorter(segs: seq<Segment>, trimmed: seq<Segment>)
    requires segs != [] && TrimmedTo(segs, trimmed)
    ensures |Join(trimmed)| <= |Join(segs)|
    ensures !AllTrimmed(segs) ==> |Join(trimmed)| < |Join(segs)|
  {
    TrimSum(segs, trimmed);
    JoinLength(segs, 0);
    JoinLength(trimmed, 0);
  }

  /** Trimming changes the print exactly if some body was not trimmed. */
  lemma TrimmedPrint(segs: seq<Segment>)
    requires segs != []
    ensures |Join(TrimFrom(segs, 0))| <= |Join(segs)|
    ensures Join(TrimFrom(segs, 0)) == Join(segs) <==> AllTrimmed(segs)
  {
    TrimFromAt(segs, 0);
    TrimmedShorter(segs, TrimFrom(segs, 0));
    if AllTrimmed(segs) {
      TrimNothing(segs, 0);
      assert segs[0..] == segs;
    }
  }

  lemma MeltedPrint(kept: seq<Segment>)
    requires kept != [] && AllTrimmed(kept)
    ensures |Join(Melted(kept))| <= |Join(kept)|
    ensures Join(Melted(kept)) == Join(kept) <==> NoBlankEnds(kept)
  {
    RawPrintsTheSame(kept, 0);
    TrimmedPrint(RawFrom(kept, 0));
    RawTrimmed(kept, 0);
  }

  lemma SomethingPrinted(kept: seq<Segment>)
    requires kept != [] && kept != [BLANK]
    ensures Join(kept) != ""
  {
    if |kept| == 1 {
      assert kept == [kept[0]];
    }
  }

  // ---- The second pass ----

  /** All of it can be read back, no nameless blank ends a section, and what melts together is affordable. */
  predicate StaysPut(m: Measure, kept: seq<Segment>, budget: nat) {
    || kept == [] || kept == [BLANK]
    || (&& (forall i :: 0 <= i < |kept| ==> Printable(kept[i]))
        && NoBlankEnds(kept)
        && Affordable(m, Melted(kept), budget))
  }

  lemma PrintableStaysPutIff(m: Measure, kept: seq<Segment>, budget: nat)
    requires kept != [] && kept != [BLANK] && forall i :: 0 <= i < |kept| ==> Printable(kept[i])
    ensures Shrunk(m, Join(kept), budget) == Join(kept) <==> NoBlankEnds(kept) && Affordable(m, Melted(kept), budget)
  {
    var melted := Melted(kept);
    SplitOfMeltedJoin(kept);
    MeltedPrint(kept);
    SomethingPrinted(kept);
    var again := KeptSegments(m, melted, budget);
    PartIsShorter(melted, KeptIn(m, melted, budget));
    TrimFromAt(RawFrom(kept, 0), 0);
    assert Shrunk(m, Join(kept), budget) == Join(again);
    if again == melted {
      KeptIsAffordable(m, melted, budget);
    }
    if Affordable(m, melted, budget) {
      AffordableIsKept(m, melted, budget);
    }
  }

  lemma UnprintableMoves(m: Measure, kept: seq<Segment>, i: nat, budget: nat)
    requires ShapedList(kept) && i < |kept| && !Printable(kept[i])
    ensures Shrunk(m, Join(kept), budget) != Join(kept)
  {
    var t := Join(kept);
    UnprintableHasCrLf(kept[i]);
    JoinHasCrLf(kept, 0, i);
    PassLosesCr(t, KeptIn(m, Split(t), budget));
    if Split(t) == [] { EmptySplit(t); }
  }

  lemma {:induction false} SelectShaped(segs: seq<Segment>, s: set<nat>, n: nat)
    requires ShapedList(segs) && n <= |segs|
    ensures ShapedList(Select(segs, s, n))
  {
    if n > 0 { SelectShaped(segs, s, n - 1); }
  }

  /** For every measure, text and budget: a second pass changes nothing exactly if what the first kept stays put. */
  lemma SecondPassIff(m: Measure, text: string, budget: nat)
    ensures Shrunk(m, Shrunk(m, text, budget), budget) == Shrunk(m, text, budget)
       <==> StaysPut(m, KeptSegments(m, Split(text), budget), budget)
  {
    var segs := Split(text);
    var kept := KeptSegments(m, segs, budget);
    SplitIsShaped(text);
    SelectShaped(segs, KeptIn(m, segs, budget), |segs|);
    if segs == [] {
      EmptySplit(text);
    } else if kept == [] || kept == [BLANK] {
      assert Join(kept) == "" && Lines("") == [];
    } else if i :| 0 <= i < |kept| && !Printable(kept[i]) {
      UnprintableMoves(m, kept, i, budget);
    } else {
      PrintableStaysPutIff(m, kept, budget);
    }
  }
}
