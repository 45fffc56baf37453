/**
  The round trip is exact: kept subsequences of a text's segments read back in
  every case only if the segments are printable. A line that ends in a carriage
  return loses it, and a later segment without header melts into the one before.
*/
module SectionExact {
  import opened Wrappers
  import opened TextLines
  import opened SectionSplit
  import opened SectionClean

  // ---- Text that holds one section ----

  lemma {:induction false} NoHeaderLines(b: string)
    requires NoHeaderLine(b)
    ensures forall j :: 0 <= j < |Lines(b)| ==> !IsHeader(Lines(b)[j])
    decreases |b|
  {
    if b != "" {
      var k := Newline(b, 0);
      assert !HeaderAt(b, 0);
      if k < |b| {
        var rest := b[k + 1..];
        forall p | 0 <= p < |rest| && LineStart(rest, p)
          ensures !HeaderAt(rest, p)
        {
          assert !HeaderAt(b, k + 1 + p);
        }
        NoHeaderLines(rest);
      }
    }
  }

  function Reread(body: string): string {
    TrimEnd(Unlines(Lines(body), |Lines(body)|))
  }

  lemma OneSection(header: string, body: string)
    requires '\n' !in header && NoHeaderLine(body)
    ensures Split("## " + header + "\n" + body) == [Segment(StripCr("## " + header)[3..], Reread(body))]
  {
    var line := "## " + header;
    assert forall j :: 3 <= j < |line| ==> line[j] == header[j - 3];
    LinesCons(line, body);
    NoHeaderLines(body);
    var first, rest := StripCr(line), Lines(body);
    assert IsHeader(first);
    var open := Parse([], Some(Section(first[3..], "")));
    assert ParseLines(EMPTY, [first], 1) == ParseLine(ParseLines(EMPTY, [first], 0), first) == open;
    ParseAll(EMPTY, [first], rest, |[first] + rest|);
    ParseBody(open, rest, |rest|);
    assert "" + Unlines(rest, |rest|) == Unlines(rest, |rest|);
  }

  lemma OnePreamble(body: string)
    requires body != "" && NoHeaderLine(body)
    ensures Split(body) == [Segment("", Reread(body))]
  {
    NoHeaderLines(body);
    ReadPreamble(Lines(body), |Lines(body)|);
  }

  // ---- Carriage returns get lost ----

  function CrCount(t: string): nat {
    if t == "" then 0 else CrCount(t[..|t| - 1]) + if t[|t| - 1] == '\r' then 1 else 0
  }

  lemma {:induction false} CrConcat(a: string, b: string)
    ensures CrCount(a + b) == CrCount(a) + CrCount(b)
  {
    if b == "" {
      assert a + b == a;
    } else {
      assert (a + b)[..|a + b| - 1] == a + b[..|b| - 1];
      CrConcat(a, b[..|b| - 1]);
    }
  }

  lemma {:induction false} CrTrim(t: string)
    ensures CrCount(TrimEnd(t)) <= CrCount(t)
  {
    if !Trimmed(t) { CrTrim(t[..|t| - 1]); }
  }

  lemma CrStrip(line: string)
    ensures CrCount(StripCr(line)) == CrCount(line) - if line != "" && line[|line| - 1] == '\r' then 1 else 0
  {
  }

  lemma CrLine(line: string, rest: string)
    ensures CrCount(line + "\n" + rest) == CrCount(line) + CrCount(rest)
  {
    CrConcat(line + "\n", rest);
    assert (line + "\n")[..|line|] == line;
  }

  lemma UnlinesCons(line: string, ls: seq<string>)
    ensures Unlines([line] + ls, |[line] + ls|) == line + "\n" + Unlines(ls, |ls|)
  {
    UnlinesConcat([line], ls, |ls|);
    assert Unlines([line], 1) == "" + line + "\n";
  }

  /** Reading lines and writing them out loses the carriage returns at their ends. */
  lemma {:induction false} RereadCr(t: string)
    requires t != "" ==> t[|t| - 1] != '\n' && t[|t| - 1] != '\r'
    ensures CrCount(Unlines(Lines(t), |Lines(t)|)) <= CrCount(t)
    ensures !NoCrLines(t) ==> CrCount(Unlines(Lines(t), |Lines(t)|)) < CrCount(t)
    decreases |t|
  {
    if t != "" {
      var k := Newline(t, 0);
      if k == |t| {
        LastLineCr(t);
      } else {
        var head, rest := t[..k], t[k + 1..];
        assert t == head + "\n" + rest;
        RereadCr(rest);
        CrLine(head, rest);
        NextLineCr(head, Lines(rest));
        if PlainLine(head) && NoCrLines(rest) {
          PlainSplit(t, k);
        }
      }
    }
  }

  lemma LastLineCr(t: string)
    requires t != "" && Newline(t, 0) == |t| && t[|t| - 1] != '\r'
    ensures NoCrLines(t) && CrCount(Unlines(Lines(t), |Lines(t)|)) == CrCount(t)
  {
    assert SplitNl(t) == [t] && PlainLine(t);
    UnlinesCons(t, []);
    CrLine(t, "");
  }

  lemma NextLineCr(head: string, ls: seq<string>)
    ensures CrCount(Unlines([StripCr(head)] + ls, |[StripCr(head)] + ls|))
         == CrCount(head) + CrCount(Unlines(ls, |ls|)) - if head != "" && head[|head| - 1] == '\r' then 1 else 0
  {
    CrStrip(head);
    UnlinesCons(StripCr(head), ls);
    CrLine(StripCr(head), Unlines(ls, |ls|));
  }

  lemma PlainSplit(t: string, k: nat)
    requires k < |t| && k == Newline(t, 0) && PlainLine(t[..k]) && NoCrLines(t[k + 1..])
    ensures NoCrLines(t)
  {
    var rest := t[k + 1..];
    assert SplitNl(t) == [t[..k]] + SplitNl(rest);
  }

  // ---- One segment alone ----

  lemma RereadSame(body: string)
    requires Trimmed(body) && Reread(body) == body
    ensures NoCrLines(body)
  {
    RereadCr(body);
    CrTrim(Unlines(Lines(body), |Lines(body)|));
  }

  /** A shaped segment that reads back when kept alone is printable. */
  lemma AloneReadsBack(seg: Segment)
    requires Shaped(seg) && Split(FullText(seg)) == Readable([seg])
    ensures Printable(seg)
  {
    if seg == BLANK {
      assert SplitNl("") == [""];
    } else {
      if seg.header != "" {
        OneSection(seg.header, seg.body);
        HeaderKept(seg.header);
      } else {
        OnePreamble(seg.body);
      }
      RereadSame(seg.body);
      ShapedPrints(seg);
    }
  }

  lemma HeaderKept(header: string)
    requires header != "" && '\n' !in header && StripCr("## " + header)[3..] == header
    ensures PlainLine(header)
  {
    var line := "## " + header;
    assert line[|line| - 1] == header[|header| - 1];
  }

  // ---- Two segments, the second without header ----

  lemma NoHeaderLineJoin(a: string, b: string)
    requires NoHeaderLine(a) && NoHeaderLine(b)
    ensures NoHeaderLine(a + "\n\n" + b)
  {
    var c := a + "\n\n" + b;
    assert c[|a|] == '\n' && c[|a| + 1] == '\n';
    forall p | 0 <= p < |c| && LineStart(c, p)
      ensures !HeaderAt(c, p)
    {
      if p < |a| {
        assert LineStart(a, p) && !HeaderAt(a, p);
      } else if p >= |a| + 2 {
        var q := p - |a| - 2;
        assert LineStart(b, q) && !HeaderAt(b, q);
      }
    }
  }

  lemma SecondMelts(a: Segment, b: Segment)
    requires Shaped(a) && Shaped(b) && b.header == ""
    ensures |Split(FullText(a) + "\n\n" + FullText(b))| == 1
  {
    var rest := a.body + "\n\n" + b.body;
    NoHeaderLineJoin(a.body, b.body);
    if a.header == "" {
      OnePreamble(rest);
    } else {
      OneSection(a.header, rest);
      assert FullText(a) + "\n\n" + b.body == "## " + a.header + "\n" + rest;
    }
  }

  // ---- Selections of one and two ----

  lemma {:induction false} SelectNone(segs: seq<Segment>, s: set<nat>, n: nat)
    requires n <= |segs| && forall i :: 0 <= i < n ==> i !in s
    ensures Select(segs, s, n) == []
  {
    if n > 0 { SelectNone(segs, s, n - 1); }
  }

  lemma {:induction false} SelectOne(segs: seq<Segment>, s: set<nat>, i: nat, n: nat)
    requires i < n <= |segs| && i in s && forall j :: 0 <= j < n && j != i ==> j !in s
    ensures Select(segs, s, n) == [segs[i]]
    decreases n
  {
    if i == n - 1 { SelectNone(segs, s, n - 1); } else { SelectOne(segs, s, i, n - 1); }
  }

  lemma {:induction false} SelectTwo(segs: seq<Segment>, s: set<nat>, i: nat, n: nat)
    requires 0 < i < n <= |segs| && 0 in s && i in s && forall j :: 0 < j < n && j != i ==> j !in s
    ensures Select(segs, s, n) == [segs[0], segs[i]]
    decreases n
  {
    if i == n - 1 { SelectOne(segs, s, 0, n - 1); } else { SelectTwo(segs, s, i, n - 1); }
  }

  // ---- The equivalence ----

  ghost predicate AlwaysReadsBack(segs: seq<Segment>) {
    forall s: set<nat> :: Split(Join(Select(segs, s, |segs|))) == Readable(Select(segs, s, |segs|))
  }

  lemma JoinTwo(a: Segment, b: Segment)
    ensures Join([a, b]) == FullText(a) + "\n\n" + FullText(b)
  {
    assert JoinFrom([a, b], 1) == FullText(b);
    assert JoinFrom([a, b], 0) == FullText(a) + "\n\n" + JoinFrom([a, b], 1);
  }

  lemma KeptAlone(segs: seq<Segment>, i: nat)
    requires ShapedList(segs) && AlwaysReadsBack(segs) && i < |segs|
    ensures Printable(segs[i])
  {
    SelectOne(segs, {i}, i, |segs|);
    assert Join([segs[i]]) == FullText(segs[i]);
    AloneReadsBack(segs[i]);
  }

  lemma KeptWithFirst(segs: seq<Segment>, i: nat)
    requires ShapedList(segs) && AlwaysReadsBack(segs) && 0 < i < |segs|
    ensures segs[i].header != ""
  {
    var a, b := segs[0], segs[i];
    SelectTwo(segs, {0, i}, i, |segs|);
    assert Split(Join([a, b])) == [a, b];
    JoinTwo(a, b);
    if b.header == "" { SecondMelts(a, b); }
  }

  /** For any text: every kept subsequence of its segments reads back exactly when the segments are printable. */
  lemma ReadsBackIffPrintable(text: string)
    ensures AlwaysReadsBack(Split(text)) <==> PrintableList(Split(text))
  {
    var segs := Split(text);
    SplitIsShaped(text);
    if PrintableList(segs) {
      PrintableAlwaysReadsBack(segs);
    }
    if AlwaysReadsBack(segs) {
      ReadsBackPrintable(segs);
    }
  }

  lemma PrintableAlwaysReadsBack(segs: seq<Segment>)
    requires PrintableList(segs)
    ensures AlwaysReadsBack(segs)
  {
    forall s: set<nat>
      ensures Split(Join(Select(segs, s, |segs|))) == Readable(Select(segs, s, |segs|))
    {
      PrintableReadsBack(segs, s);
    }
  }

  lemma ReadsBackPrintable(segs: seq<Segment>)
    requires ShapedList(segs) && AlwaysReadsBack(segs)
    ensures PrintableList(segs)
  {
    forall i | 0 <= i < |segs|
      ensures Printable(segs[i])
    {
      KeptAlone(segs, i);
    }
    forall i | 0 < i < |segs|
      ensures segs[i].header != ""
    {
      KeptWithFirst(segs, i);
    }
  }
}
