/**
  How far shrinking can miss its budget, and for how many segments it cannot: the
  bound is attained for every number of them, and only up to one is safe.
*/
module ShrinkFit {
  import opened SectionSplit
  import opened SectionClean
  import opened ShrinkSelect
  import opened ContextPackage
  import opened TextLines
  import SectionPriority

  // ---- The overshoot is attained ----

  function Copies(seg: Segment, k: nat): seq<Segment> {
    if k == 0 then [] else Copies(seg, k - 1) + [seg]
  }

  lemma {:induction false} CopiesAt(seg: Segment, k: nat)
    ensures |Copies(seg, k)| == k && forall i :: 0 <= i < k ==> Copies(seg, k)[i] == seg
  {
    if k > 0 { CopiesAt(seg, k - 1); }
  }

  lemma {:induction false} CopiesSums(m: Measure, segs: seq<Segment>, seg: Segment, n: nat)
    requires n <= |segs| && forall i :: 0 <= i < |segs| ==> segs[i] == seg
    ensures LengthSum(segs, n) == n * |FullText(seg)|
    ensures ListTokens(m, segs, n) == n * m(seg).tokens
  {
    if n > 0 {
      CopiesSums(m, segs, seg, n - 1);
      assert n * |FullText(seg)| == (n - 1) * |FullText(seg)| + |FullText(seg)|;
      assert n * m(seg).tokens == (n - 1) * m(seg).tokens + m(seg).tokens;
    }
  }

  /** A bare header of seven characters: one token and three characters over. */
  const SEVEN := Segment("abc", "")

  lemma SevenPrints()
    ensures Printable(SEVEN) && |FullText(SEVEN)| == 7
  {
    assert SplitNl("") == [""];
  }

  /** For every `k` a text of `k` segments keeps them all within its budget and overshoots by exactly `(5k - 2) / 4`. */
  lemma ShrinkBoundIsTight(m: Measure, k: nat) returns (text: string, budget: nat)
    requires k >= 1 && CountsTokens(m)
    ensures |KeptSegments(m, Split(text), budget)| == k && KeptTokens(m, text, budget) == budget
    ensures EstimateTokens(Shrunk(m, text, budget)) == budget + (5 * k - 2) / 4
  {
    var segs := Copies(SEVEN, k);
    CopiesAt(SEVEN, k);
    SevenPrints();
    text, budget := Join(segs), k;
    SplitOfJoin(segs);
    SevensSizes(m, segs);
    AllKept(m, segs, budget);
  }

  lemma SevensSizes(m: Measure, segs: seq<Segment>)
    requires segs != [] && CountsTokens(m) && forall i :: 0 <= i < |segs| ==> segs[i] == SEVEN
    ensures ListTokens(m, segs, |segs|) == |segs|
    ensures EstimateTokens(Join(segs)) == |segs| + (5 * |segs| - 2) / 4
  {
    var k := |segs|;
    SevenPrints();
    CopiesSums(m, segs, SEVEN, k);
    assert m(SEVEN).tokens == 1;
    JoinLength(segs, 0);
    assert |Join(segs)| == 4 * k + (5 * k - 2);
  }

  // ---- How many segments are safe ----

  ghost predicate NoIdentity(m: Measure, segs: seq<Segment>) {
    forall i :: 0 <= i < |segs| ==> !IsIdentity(m, segs[i])
  }

  /** Every text of n segments, none of them identity, shrinks to within every budget. */
  ghost predicate AlwaysFits(m: Measure, n: nat) {
    forall text: string, b: nat {:trigger Shrunk(m, text, b)} ::
      |Split(text)| == n && NoIdentity(m, Split(text)) ==> EstimateTokens(Shrunk(m, text, b)) <= b
  }

  lemma OneFits(m: Measure, text: string, b: nat)
    requires CountsTokens(m) && |Split(text)| <= 1 && NoIdentity(m, Split(text))
    ensures EstimateTokens(Shrunk(m, text, b)) <= b
  {
    var segs := Split(text);
    ShrinkBound(m, text, b);
    SelectSize(segs, KeptIn(m, segs, b), |segs|);
  }

  lemma ManyOvershoot(m: Measure, n: nat)
    requires CountsTokens(m) && !IsIdentity(m, SEVEN) && n >= 2
    ensures !AlwaysFits(m, n)
  {
    var segs := Copies(SEVEN, n);
    CopiesAt(SEVEN, n);
    SevenPrints();
    SplitOfJoin(segs);
    SevensSizes(m, segs);
    AllKept(m, segs, n);
    var text := Join(segs);
    assert Shrunk(m, text, n) == text && Split(text) == segs;
    assert (5 * n - 2) / 4 >= 1;
  }

  /** Before the call: a number of segments without identity guarantees the budget exactly if it is at most one. */
  lemma AlwaysFitsIff(m: Measure, n: nat)
    requires CountsTokens(m) && !IsIdentity(m, SEVEN)
    ensures AlwaysFits(m, n) <==> n <= 1
  {
    if n <= 1 {
      forall text: string, b: nat | |Split(text)| == n && NoIdentity(m, Split(text))
        ensures EstimateTokens(Shrunk(m, text, b)) <= b
      {
        OneFits(m, text, b);
      }
    } else {
      ManyOvershoot(m, n);
    }
  }

  /** In particular for the package's own measure. */
  lemma PackageFitsIff(n: nat)
    ensures AlwaysFits(Standard(), n) <==> n <= 1
  {
    StandardCounts();
    SevenIsNotIdentity();
    AlwaysFitsIff(Standard(), n);
  }

  lemma SevenIsNotIdentity()
    ensures !IsIdentity(Standard(), SEVEN)
  {
    SectionPriority.IdentityIsTop("abc");
    assert SectionPriority.Lower("abc", 1) == SectionPriority.Lower("abc", 0) + "a";
    assert SectionPriority.Lower("abc", 2) == SectionPriority.Lower("abc", 1) + "b";
    assert SectionPriority.Lower("abc", 3) == SectionPriority.Lower("abc", 2) + "c";
    assert |SectionPriority.WORDS[0].0| == 8;
  }
}
