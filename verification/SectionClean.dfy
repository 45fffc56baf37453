/**
  Which texts split into printable segments: those without carriage returns and
  without a header line that names nothing.
*/
module SectionClean {
  import opened Wrappers
  import opened TextLines
  import opened SectionSplit

  // ---- Header lines by position ----

  predicate LineStart(b: string, p: nat)
    requires p < |b|
  {
    p == 0 || b[p - 1] == '\n'
  }

  predicate HeaderAt(b: string, p: nat) {
    p + 3 <= |b| && b[p] == '#' && b[p + 1] == '#' && b[p + 2] == ' '
  }

  ghost predicate NoHeaderLine(b: string) {
    forall p {:trigger HeaderAt(b, p)} :: 0 <= p < |b| && LineStart(b, p) ==> !HeaderAt(b, p)
  }

  lemma NoHeaderLinePrefix(b: string, n: nat)
    requires NoHeaderLine(b) && n <= |b|
    ensures NoHeaderLine(b[..n])
  {
    forall p | 0 <= p < n && LineStart(b[..n], p)
      ensures !HeaderAt(b[..n], p)
    {
      assert !HeaderAt(b, p);
    }
  }

  lemma {:induction false} NoHeaderLineSplit(b: string)
    requires NoHeaderLine(b)
    ensures forall j :: 0 <= j < |SplitNl(b)| ==> !IsHeader(SplitNl(b)[j])
    decreases |b|
  {
    var k := Newline(b, 0);
    if b != "" { assert !HeaderAt(b, 0); }
    if k < |b| {
      var rest := b[k + 1..];
      forall p | 0 <= p < |rest| && LineStart(rest, p)
        ensures !HeaderAt(rest, p)
      {
        assert !HeaderAt(b, k + 1 + p);
      }
      NoHeaderLineSplit(rest);
    }
  }

  /** A body under construction: complete lines, none of them a header. */
  ghost predicate OpenBody(b: string) {
    NoHeaderLine(b) && (b != "" ==> b[|b| - 1] == '\n')
  }

  lemma OpenBodyGrows(b: string, line: string)
    requires OpenBody(b) && !IsHeader(line) && '\n' !in line
    ensures OpenBody(b + line + "\n")
  {
    var c := b + line + "\n";
    assert forall q :: 0 <= q < |line| ==> line[q] != '\n' && c[|b| + q] == line[q];
    assert c[|c| - 1] == '\n';
    forall p | 0 <= p < |c| && LineStart(c, p)
      ensures !HeaderAt(c, p)
    {
      if p < |b| {
        assert c[|b| - 1] == b[|b| - 1];
        assert LineStart(b, p) && !HeaderAt(b, p);
      }
    }
  }

  // ---- What any split has ----

  /** A header on one line, and a trimmed body without header lines. */
  ghost predicate Shaped(seg: Segment) {
    '\n' !in seg.header && Trimmed(seg.body) && NoHeaderLine(seg.body)
  }

  ghost predicate ShapedList(segs: seq<Segment>) {
    forall i :: 0 <= i < |segs| ==> Shaped(segs[i])
  }

  ghost predicate ParseShaped(p: Parse) {
    ShapedList(p.segments) && (p.current.Some? ==> '\n' !in p.current.value.header && OpenBody(p.current.value.body))
  }

  lemma CloseShaped(p: Parse)
    requires ParseShaped(p)
    ensures ShapedList(Close(p))
  {
    if p.current.Some? {
      var b := p.current.value.body;
      NoHeaderLinePrefix(b, |TrimEnd(b)|);
    }
  }

  lemma ParseLineShaped(p: Parse, line: string)
    requires ParseShaped(p) && '\n' !in line
    ensures ParseShaped(ParseLine(p, line))
  {
    if IsHeader(line) {
      CloseShaped(p);
      assert forall c :: c in line[3..] ==> c in line;
    } else if p.current.Some? {
      OpenBodyGrows(p.current.value.body, line);
    } else {
      OpenBodyGrows("", line);
      assert "" + line + "\n" == line + "\n";
    }
  }

  lemma {:induction false} ParseLinesShaped(ls: seq<string>, n: nat)
    requires n <= |ls| && forall j :: 0 <= j < |ls| ==> '\n' !in ls[j]
    ensures ParseShaped(ParseLines(EMPTY, ls, n))
  {
    if n > 0 {
      ParseLinesShaped(ls, n - 1);
      ParseLineShaped(ParseLines(EMPTY, ls, n - 1), ls[n - 1]);
    }
  }

  lemma {:induction false} LinesHaveNoNewline(t: string)
    ensures forall j :: 0 <= j < |Lines(t)| ==> '\n' !in Lines(t)[j] && forall c :: c in Lines(t)[j] ==> c in t
    decreases |t|
  {
    if t != "" {
      var k := Newline(t, 0);
      if k < |t| {
        var head, rest := t[..k], t[k + 1..];
        assert forall c :: c in rest ==> c in t;
        assert forall c :: c in head ==> c in t;
        assert forall c :: c in StripCr(head) ==> c in head;
        LinesHaveNoNewline(rest);
      }
    }
  }

  /** Whatever the text, its segments are shaped. */
  lemma SplitIsShaped(text: string)
    ensures ShapedList(Split(text))
  {
    LinesHaveNoNewline(text);
    ParseLinesShaped(Lines(text), |Lines(text)|);
    CloseShaped(ParseLines(EMPTY, Lines(text), |Lines(text)|));
  }

  /** A shaped segment is printable if none of its lines ends in a carriage return. */
  lemma ShapedPrints(seg: Segment)
    requires Shaped(seg) && PlainLine(seg.header) && NoCrLines(seg.body)
    ensures Printable(seg)
  {
    NoHeaderLineSplit(seg.body);
  }

  // ---- Clean text ----

  /** No carriage return, and no header line without a name. */
  predicate CleanText(text: string) {
    '\r' !in text && forall j :: 0 <= j < |Lines(text)| ==> Lines(text)[j] != "## "
  }

  ghost predicate NoCr(seg: Segment) {
    '\r' !in seg.header && '\r' !in seg.body
  }

  /** What the parser keeps on lines without carriage return and nameless headers. */
  ghost predicate ParseClean(p: Parse) {
    && (forall i :: 0 <= i < |p.segments| ==> NoCr(p.segments[i]) && (i > 0 ==> p.segments[i].header != ""))
    && (p.segments != [] ==> p.current.Some?)
    && (p.current.Some? ==> var c := p.current.value;
        '\r' !in c.header && '\r' !in c.body && (c.header == "" ==> p.segments == []))
  }

  lemma CloseClean(p: Parse)
    requires ParseClean(p)
    ensures var r := Close(p); forall i :: 0 <= i < |r| ==> NoCr(r[i]) && (i > 0 ==> r[i].header != "")
  {
    if p.current.Some? {
      var b := p.current.value.body;
      assert forall c :: c in TrimEnd(b) ==> c in b;
    }
  }

  lemma ParseLineClean(p: Parse, line: string)
    requires ParseClean(p) && '\r' !in line && line != "## "
    ensures ParseClean(ParseLine(p, line))
  {
    if IsHeader(line) {
      CloseClean(p);
      var header := line[3..];
      assert forall c :: c in header ==> c in line;
      assert line == "## " + header && "## " + "" == "## ";
    }
  }

  lemma {:induction false} ParseLinesClean(ls: seq<string>, n: nat)
    requires n <= |ls| && forall j :: 0 <= j < |ls| ==> '\r' !in ls[j] && ls[j] != "## "
    ensures ParseClean(ParseLines(EMPTY, ls, n))
  {
    if n > 0 {
      ParseLinesClean(ls, n - 1);
      ParseLineClean(ParseLines(EMPTY, ls, n - 1), ls[n - 1]);
    }
  }

  lemma NoCrPrints(seg: Segment)
    requires Shaped(seg) && NoCr(seg)
    ensures Printable(seg)
  {
    SplitHasNoNewlines(seg.body);
    forall j | 0 <= j < |SplitNl(seg.body)|
      ensures PlainLine(SplitNl(seg.body)[j])
    {
      var line := SplitNl(seg.body)[j];
      if line != "" { assert line[|line| - 1] in seg.body; }
    }
    ShapedPrints(seg);
  }

  /** Clean text splits into segments that read back. */
  lemma CleanSplits(text: string)
    requires CleanText(text)
    ensures PrintableList(Split(text))
  {
    var segs := Split(text);
    LinesHaveNoNewline(text);
    SplitIsShaped(text);
    ParseLinesClean(Lines(text), |Lines(text)|);
    CloseClean(ParseLines(EMPTY, Lines(text), |Lines(text)|));
    forall i | 0 <= i < |segs|
      ensures Printable(segs[i])
    {
      NoCrPrints(segs[i]);
    }
  }

  // ---- Kept subsequences ----

  /** The segments with index below `n` in `s`, in document order. */
  function Select(segs: seq<Segment>, s: set<nat>, n: nat): seq<Segment>
    requires n <= |segs|
  {
    if n == 0 then [] else Select(segs, s, n - 1) + if n - 1 in s then [segs[n - 1]] else []
  }

  lemma {:induction false} SelectSize(segs: seq<Segment>, s: set<nat>, n: nat)
    requires n <= |segs|
    ensures |Select(segs, s, n)| <= n
    ensures |Select(segs, s, n)| == n ==> Select(segs, s, n) == segs[..n] && forall i :: 0 <= i < n ==> i in s
  {
    if n > 0 {
      SelectSize(segs, s, n - 1);
      assert segs[..n] == segs[..n - 1] + [segs[n - 1]];
    }
  }

  lemma {:induction false} SelectPrintable(segs: seq<Segment>, s: set<nat>, n: nat)
    requires PrintableList(segs) && n <= |segs|
    ensures PrintableList(Select(segs, s, n))
    ensures n == 0 ==> Select(segs, s, n) == []
  {
    if n > 0 {
      SelectPrintable(segs, s, n - 1);
    }
  }

  /** A lone blank preamble prints as nothing. */
  function Readable(kept: seq<Segment>): seq<Segment> {
    if kept == [BLANK] then [] else kept
  }

  lemma PrintableReadsBack(segs: seq<Segment>, s: set<nat>)
    requires PrintableList(segs)
    ensures var kept := Select(segs, s, |segs|); Split(Join(kept)) == Readable(kept)
  {
    SelectPrintable(segs, s, |segs|);
    var kept := Select(segs, s, |segs|);
    if kept == [BLANK] {
      assert Join(kept) == "" && Lines("") == [];
    } else {
      SplitOfJoin(kept);
    }
  }

  /** Round trip for clean text: whatever subsequence of its segments is kept, the joined output splits into just those. */
  lemma KeptSegmentsReadBack(text: string, s: set<nat>)
    requires CleanText(text)
    ensures var kept := Select(Split(text), s, |Split(text)|); Split(Join(kept)) == Readable(kept)
  {
    CleanSplits(text);
    PrintableReadsBack(Split(text), s);
  }
}
