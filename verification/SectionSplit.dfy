/**
  Splitting context text into `## ` sections, and the parser and printer pair
  this makes with joining the full texts of segments again.
*/
module SectionSplit {
  import opened Sequences
  import opened Wrappers
  import opened TextLines

  datatype Segment = Segment(header: string, body: string)

  /** `Segment::new` trims the body; the priority is a function of the header. */
  function NewSegment(header: string, body: string): Segment {
    Segment(header, TrimEnd(body))
  }

  function FullText(seg: Segment): string {
    if seg.header == "" then seg.body else "## " + seg.header + "\n" + seg.body
  }

  // ---- The parser ----

  predicate IsHeader(line: string) {
    |line| >= 3 && line[0] == '#' && line[1] == '#' && line[2] == ' '
  }

  datatype Section = Section(header: string, body: string)

  /** Finished segments and the one being read. */
  datatype Parse = Parse(segments: seq<Segment>, current: Option<Section>)

  function Close(p: Parse): seq<Segment> {
    match p.current
    case None => p.segments
    case Some(c) => p.segments + [NewSegment(c.header, c.body)]
  }

  function ParseLine(p: Parse, line: string): Parse {
    if IsHeader(line) then Parse(Close(p), Some(Section(line[3..], "")))
    else
      match p.current
      case Some(c) => Parse(p.segments, Some(Section(c.header, c.body + line + "\n")))
      case None => Parse(p.segments, Some(Section("", line + "\n")))
  }

  function ParseLines(p: Parse, ls: seq<string>, n: nat): Parse
    requires n <= |ls|
  {
    if n == 0 then p else ParseLine(ParseLines(p, ls, n - 1), ls[n - 1])
  }

  const EMPTY := Parse([], None)

  function Split(text: string): seq<Segment> {
    Close(ParseLines(EMPTY, Lines(text), |Lines(text)|))
  }

  /** `split_segments`; its last fallback never applies, since any text has a first line. */
  method SplitSegments(text: string) returns (segments: seq<Segment>)
    ensures segments == Split(text)
    ensures segments == [] <==> text == ""
  {
    var lines := Lines(text);
    var p := EMPTY;
    for i := 0 to |lines|
      invariant p == ParseLines(EMPTY, lines, i)
      invariant p.current.Some? <==> i > 0
      invariant p.current.None? ==> p.segments == []
    {
      p := ParseLine(p, lines[i]);
    }
    segments := p.segments;
    if p.current.Some? {
      segments := segments + [NewSegment(p.current.value.header, p.current.value.body)];
    }
    if segments == [] && text != "" {
      segments := segments + [NewSegment("", text)];
    }
  }

  // ---- The printer ----

  /** Full texts from the `i`-th segment on, separated by blank lines. */
  function JoinFrom(segs: seq<Segment>, i: nat): string
    requires i < |segs|
    decreases |segs| - i
  {
    if i == |segs| - 1 then FullText(segs[i]) else FullText(segs[i]) + "\n\n" + JoinFrom(segs, i + 1)
  }

  function Join(segs: seq<Segment>): string {
    if segs == [] then "" else JoinFrom(segs, 0)
  }

  // ---- What reads back ----

  /** A segment whose lines are its own. */
  predicate Plain(seg: Segment) {
    && PlainLine(seg.header)
    && NoCrLines(seg.body)
    && forall j :: 0 <= j < |SplitNl(seg.body)| ==> !IsHeader(SplitNl(seg.body)[j])
  }

  /** A segment that survives printing and reading. */
  predicate Printable(seg: Segment) {
    Plain(seg) && Trimmed(seg.body)
  }

  /** Only a preamble may be without header. */
  predicate PrintableList(segs: seq<Segment>) {
    && (forall i :: 0 <= i < |segs| ==> Printable(segs[i]))
    && (forall i :: 0 < i < |segs| ==> segs[i].header != "")
  }

  /** The same for segments that are plain and need not be trimmed. */
  predicate PlainList(segs: seq<Segment>) {
    && (forall i :: 0 <= i < |segs| ==> Plain(segs[i]))
    && (forall i :: 0 < i < |segs| ==> segs[i].header != "")
  }

  const BLANK := Segment("", "")

  /** The lines of a printed segment: the header line, if any, and the body. */
  function HeadLines(seg: Segment): seq<string> {
    if seg.header == "" then [] else ["## " + seg.header]
  }

  lemma {:induction false} ParseConcat(p: Parse, a: seq<string>, b: seq<string>, n: nat)
    requires n <= |b|
    ensures ParseLines(p, a + b, |a| + n) == ParseLines(ParseLines(p, a, |a|), b, n)
  {
    if n > 0 {
      ParseConcat(p, a, b, n - 1);
      assert (a + b)[|a| + n - 1] == b[n - 1];
    } else {
      ParsePrefix(p, a, b, |a|);
    }
  }

  lemma {:induction false} ParsePrefix(p: Parse, a: seq<string>, b: seq<string>, n: nat)
    requires n <= |a|
    ensures ParseLines(p, a + b, n) == ParseLines(p, a, n)
  {
    if n > 0 { ParsePrefix(p, a, b, n - 1); }
  }

  /** Lines that are no headers go to the open section. */
  lemma {:induction false} ParseBody(p: Parse, ls: seq<string>, n: nat)
    requires n <= |ls| && p.current.Some? && forall j :: 0 <= j < n ==> !IsHeader(ls[j])
    ensures ParseLines(p, ls, n)
         == Parse(p.segments, Some(Section(p.current.value.header, p.current.value.body + Unlines(ls, n))))
  {
    if n > 0 {
      ParseBody(p, ls, n - 1);
      Regroup(p.current.value.body, Unlines(ls, n - 1), ls[n - 1], "\n");
      assert p.current.value.body + Unlines(ls, n) == p.current.value.body + Unlines(ls, n - 1) + ls[n - 1] + "\n";
    } else {
      assert p.current.value.body + "" == p.current.value.body;
    }
  }

  lemma ParseHeaderLine(p: Parse, header: string)
    ensures ParseLine(p, "## " + header) == Parse(Close(p), Some(Section(header, "")))
  {
    assert ("## " + header)[3..] == header;
  }

  // ---- Printing a segment as lines ----

  lemma HeadUnlines(seg: Segment)
    ensures Unlines(HeadLines(seg), |HeadLines(seg)|) + seg.body == FullText(seg)
  {
    if seg.header == "" {
      assert "" + seg.body == seg.body;
    } else {
      assert Unlines(HeadLines(seg), 1) == "" + ("## " + seg.header) + "\n";
    }
  }

  lemma HeadPlain(seg: Segment)
    requires Plain(seg)
    ensures forall j :: 0 <= j < |HeadLines(seg)| ==> PlainLine(HeadLines(seg)[j])
  {
    if seg.header != "" {
      var line := "## " + seg.header;
      assert forall j :: 3 <= j < |line| ==> line[j] == seg.header[j - 3];
    }
  }

  /** The lines of a printed segment that is followed by more. */
  function BlockLines(seg: Segment): seq<string> {
    HeadLines(seg) + (SplitNl(seg.body) + [""])
  }

  lemma BlockUnlines(seg: Segment)
    ensures Unlines(BlockLines(seg), |BlockLines(seg)|) == FullText(seg) + "\n\n"
  {
    var parts := SplitNl(seg.body);
    UnlinesOfSplit(seg.body);
    UnlinesConcat(parts, [""], 1);
    assert Unlines([""], 1) == "" + "" + "\n";
    assert Unlines(parts + [""], |parts + [""]|) == seg.body + "\n\n";
    UnlinesConcat(HeadLines(seg), parts + [""], |parts + [""]|);
    HeadUnlines(seg);
    Regroup(Unlines(HeadLines(seg), |HeadLines(seg)|), seg.body, "\n\n", "");
    assert Unlines(HeadLines(seg), |HeadLines(seg)|) + (seg.body + "\n\n")
        == (Unlines(HeadLines(seg), |HeadLines(seg)|) + seg.body) + "\n\n";
  }

  lemma SegmentLines(seg: Segment, rest: string)
    requires Plain(seg)
    ensures Lines(FullText(seg) + "\n\n" + rest) == BlockLines(seg) + Lines(rest)
  {
    var ls := BlockLines(seg);
    BlockUnlines(seg);
    HeadPlain(seg);
    forall j | 0 <= j < |ls|
      ensures PlainLine(ls[j])
    {
      var h := |HeadLines(seg)|;
      if h <= j < |ls| - 1 { assert ls[j] == SplitNl(seg.body)[j - h]; }
    }
    LinesOfUnlines(ls, |ls|, rest);
    assert ls[..|ls|] == ls;
  }

  lemma LastSegmentLines(seg: Segment)
    requires Plain(seg)
    ensures Lines(FullText(seg)) == HeadLines(seg) + Lines(seg.body)
  {
    var head := HeadLines(seg);
    HeadUnlines(seg);
    HeadPlain(seg);
    LinesOfUnlines(head, |head|, seg.body);
    assert head[..|head|] == head;
  }

  // ---- Reading it back ----

  /** Reading the lines of one segment closes what was open and opens the segment. */
  lemma ReadBlock(p: Parse, seg: Segment, body: seq<string>)
    requires seg.header != "" || (p == EMPTY && body != [])
    requires forall j :: 0 <= j < |body| ==> !IsHeader(body[j])
    ensures ParseLines(p, HeadLines(seg) + body, |HeadLines(seg) + body|)
         == Parse(Close(p), Some(Section(seg.header, Unlines(body, |body|))))
  {
    var head := HeadLines(seg);
    if seg.header != "" {
      var open := Parse(Close(p), Some(Section(seg.header, "")));
      ParseHeaderLine(p, seg.header);
      assert ParseLines(p, head, 1) == ParseLine(ParseLines(p, head, 0), head[0]) == open;
      ParseConcat(p, head, body, |body|);
      ParseBody(open, body, |body|);
      assert "" + Unlines(body, |body|) == Unlines(body, |body|);
    } else {
      assert head + body == body;
      ReadPreamble(body, |body|);
    }
  }

  lemma {:induction false} ReadPreamble(body: seq<string>, n: nat)
    requires 0 < n <= |body| && forall j :: 0 <= j < |body| ==> !IsHeader(body[j])
    ensures ParseLines(EMPTY, body, n) == Parse([], Some(Section("", Unlines(body, n))))
  {
    if n == 1 {
      assert ParseLines(EMPTY, body, 1) == ParseLine(ParseLines(EMPTY, body, 0), body[0]);
      assert Unlines(body, 1) == "" + body[0] + "\n" == body[0] + "\n";
    } else {
      ReadPreamble(body, n - 1);
      assert !IsHeader(body[n - 1]);
      assert Unlines(body, n) == Unlines(body, n - 1) + body[n - 1] + "\n";
    }
  }

  function TrimSegment(seg: Segment): Segment {
    NewSegment(seg.header, seg.body)
  }

  /** The parser's state after one more segment. */
  function AfterBlock(p: Parse, seg: Segment): Parse {
    Parse(Close(p), Some(Section(seg.header, Unlines(SplitNl(seg.body) + [""], |SplitNl(seg.body) + [""]|))))
  }

  lemma AfterBlockCloses(p: Parse, seg: Segment)
    ensures Close(AfterBlock(p, seg)) == Close(p) + [TrimSegment(seg)]
  {
    var parts := SplitNl(seg.body);
    UnlinesOfSplit(seg.body);
    UnlinesConcat(parts, [""], 1);
    assert Unlines([""], 1) == "" + "" + "\n";
    TrimNewline(seg.body);
    TrimNewline(seg.body + "\n");
  }

  lemma ReadNext(p: Parse, seg: Segment)
    requires Plain(seg) && (seg.header != "" || p == EMPTY)
    ensures ParseLines(p, BlockLines(seg), |BlockLines(seg)|) == AfterBlock(p, seg)
  {
    var body := SplitNl(seg.body) + [""];
    forall j | 0 <= j < |body|
      ensures !IsHeader(body[j])
    {
      if j < |body| - 1 { assert body[j] == SplitNl(seg.body)[j]; }
    }
    ReadBlock(p, seg, body);
  }

  /** From state `p` the lines `ls` add the segments `out`. */
  ghost predicate Reads(p: Parse, ls: seq<string>, out: seq<Segment>) {
    Result(p, ls) == Close(p) + out
  }

  function Result(p: Parse, ls: seq<string>): seq<Segment> {
    Close(ParseLines(p, ls, |ls|))
  }

  lemma ParseAll(p: Parse, a: seq<string>, b: seq<string>, n: nat)
    requires n == |a + b|
    ensures ParseLines(p, a + b, n) == ParseLines(ParseLines(p, a, |a|), b, |b|)
  {
    ParseConcat(p, a, b, |b|);
  }

  lemma ResultConcat(p: Parse, a: seq<string>, b: seq<string>, q: Parse, r: Parse)
    requires q == ParseLines(p, a, |a|) && r == ParseLines(q, b, |b|)
    ensures Result(p, a + b) == Close(r) && Result(q, b) == Close(r)
  {
    ParseAll(p, a, b, |a + b|);
  }

  lemma ReadsConcat(p: Parse, a: seq<string>, q: Parse, b: seq<string>, seg: Segment, out: seq<Segment>)
    requires ParseLines(p, a, |a|) == q && Close(q) == Close(p) + [seg] && Reads(q, b, out)
    ensures Reads(p, a + b, [seg] + out)
  {
    ResultConcat(p, a, b, q, ParseLines(q, b, |b|));
    Associate(Close(p), [seg], out);
  }

  lemma ReadLast(p: Parse, seg: Segment)
    requires Plain(seg) && (seg.header != "" || (p == EMPTY && seg.body != ""))
    ensures Reads(p, HeadLines(seg) + Lines(seg.body), [TrimSegment(seg)])
  {
    LinesOfSplit(seg.body);
    TrimFinished(seg.body);
    ReadBlock(p, seg, Lines(seg.body));
  }

  /** The printed text from the `i`-th segment on, as lines. */
  function JoinLines(segs: seq<Segment>, i: nat): seq<string>
    requires i < |segs|
    decreases |segs| - i
  {
    if i == |segs| - 1 then HeadLines(segs[i]) + Lines(segs[i].body)
    else BlockLines(segs[i]) + JoinLines(segs, i + 1)
  }

  lemma {:induction false} LinesOfJoin(segs: seq<Segment>, i: nat)
    requires PlainList(segs) && i < |segs|
    ensures Lines(JoinFrom(segs, i)) == JoinLines(segs, i)
    decreases |segs| - i
  {
    if i == |segs| - 1 {
      LastSegmentLines(segs[i]);
    } else {
      LinesOfJoin(segs, i + 1);
      SegmentLines(segs[i], JoinFrom(segs, i + 1));
    }
  }

  /** The segments from the `i`-th on, with trimmed bodies. */
  function TrimFrom(segs: seq<Segment>, i: nat): seq<Segment>
    requires i <= |segs|
    decreases |segs| - i
  {
    if i == |segs| then [] else [TrimSegment(segs[i])] + TrimFrom(segs, i + 1)
  }

  /** Reading what was printed from the `i`-th segment on appends exactly those segments, trimmed. */
  lemma {:induction false} ReadFrom(segs: seq<Segment>, i: nat, p: Parse)
    requires PlainList(segs) && i < |segs| && segs != [BLANK]
    requires i == 0 ==> p == EMPTY
    ensures Reads(p, JoinLines(segs, i), TrimFrom(segs, i))
    decreases |segs| - i
  {
    var seg := segs[i];
    if i == |segs| - 1 {
      ReadEnd(segs, p);
    } else {
      ReadNext(p, seg);
      AfterBlockCloses(p, seg);
      ReadFrom(segs, i + 1, AfterBlock(p, seg));
      ReadsConcat(p, BlockLines(seg), AfterBlock(p, seg), JoinLines(segs, i + 1), TrimSegment(seg), TrimFrom(segs, i + 1));
    }
  }

  lemma ReadEnd(segs: seq<Segment>, p: Parse)
    requires PlainList(segs) && segs != [] && segs != [BLANK]
    requires |segs| == 1 ==> p == EMPTY
    ensures Reads(p, JoinLines(segs, |segs| - 1), TrimFrom(segs, |segs| - 1))
  {
    LastOf(segs);
    ReadLast(p, segs[|segs| - 1]);
  }

  lemma LastOf(segs: seq<Segment>)
    requires PlainList(segs) && segs != [] && segs != [BLANK]
    ensures var seg := segs[|segs| - 1];
            && JoinLines(segs, |segs| - 1) == HeadLines(seg) + Lines(seg.body)
            && TrimFrom(segs, |segs| - 1) == [TrimSegment(seg)]
            && (seg.header == "" ==> |segs| == 1 && seg.body != "")
  {
    var seg := segs[|segs| - 1];
    assert TrimFrom(segs, |segs|) == [];
    assert |segs| == 1 ==> segs == [seg];
  }

  /** Splitting the joined text of plain segments gives them back with trimmed bodies. */
  lemma SplitOfPlainJoin(segs: seq<Segment>)
    requires PlainList(segs) && segs != [BLANK]
    ensures Split(Join(segs)) == TrimFrom(segs, 0)
  {
    if segs != [] {
      LinesOfJoin(segs, 0);
      ReadFrom(segs, 0, EMPTY);
      assert Close(EMPTY) + TrimFrom(segs, 0) == TrimFrom(segs, 0);
      assert Split(Join(segs)) == Result(EMPTY, JoinLines(segs, 0));
    }
  }

  lemma {:induction false} TrimNothing(segs: seq<Segment>, i: nat)
    requires i <= |segs| && forall k :: i <= k < |segs| ==> Trimmed(segs[k].body)
    ensures TrimFrom(segs, i) == segs[i..]
    decreases |segs| - i
  {
    if i < |segs| {
      TrimNothing(segs, i + 1);
      assert segs[i..] == [segs[i]] + segs[i + 1..];
    }
  }

  /** Round trip: splitting the joined text of printable segments gives the segments back. */
  lemma SplitOfJoin(segs: seq<Segment>)
    requires PrintableList(segs) && segs != [BLANK]
    ensures Split(Join(segs)) == segs
  {
    SplitOfPlainJoin(segs);
    TrimNothing(segs, 0);
    assert segs[0..] == segs;
  }

  // ---- What splitting means ----

  /** The lines of the blocks from the `i`-th on: a header line, then the lines below it. */
  function BlocksFrom(blocks: seq<(string, seq<string>)>, i: nat): seq<string>
    requires i <= |blocks|
    decreases |blocks| - i
  {
    if i == |blocks| then [] else (["## " + blocks[i].0] + blocks[i].1) + BlocksFrom(blocks, i + 1)
  }

  /** One segment a block: its header and its lines, trimmed at the end. */
  function SegmentsFrom(blocks: seq<(string, seq<string>)>, i: nat): seq<Segment>
    requires i <= |blocks|
    decreases |blocks| - i
  {
    if i == |blocks| then []
    else [Segment(blocks[i].0, TrimEnd(Unlines(blocks[i].1, |blocks[i].1|)))] + SegmentsFrom(blocks, i + 1)
  }

  ghost predicate NoHeaders(ls: seq<string>) {
    forall j :: 0 <= j < |ls| ==> !IsHeader(ls[j])
  }

  lemma ReadOneBlock(p: Parse, header: string, ls: seq<string>)
    requires NoHeaders(ls)
    ensures ParseLines(p, ["## " + header] + ls, |["## " + header] + ls|)
         == Parse(Close(p), Some(Section(header, Unlines(ls, |ls|))))
  {
    var head := ["## " + header];
    var open := Parse(Close(p), Some(Section(header, "")));
    ParseHeaderLine(p, header);
    assert ParseLines(p, head, 1) == ParseLine(ParseLines(p, head, 0), head[0]) == open;
    ParseAll(p, head, ls, |head + ls|);
    ParseBody(open, ls, |ls|);
    assert "" + Unlines(ls, |ls|) == Unlines(ls, |ls|);
  }

  lemma {:induction false} ReadBlocks(p: Parse, blocks: seq<(string, seq<string>)>, i: nat)
    requires i <= |blocks| && forall k :: 0 <= k < |blocks| ==> NoHeaders(blocks[k].1)
    ensures Reads(p, BlocksFrom(blocks, i), SegmentsFrom(blocks, i))
    decreases |blocks| - i
  {
    if i == |blocks| {
      assert Close(p) + [] == Close(p);
    } else {
      var header, ls := blocks[i].0, blocks[i].1;
      var q := Parse(Close(p), Some(Section(header, Unlines(ls, |ls|))));
      ReadOneBlock(p, header, ls);
      ReadBlocks(q, blocks, i + 1);
      ReadsConcat(p, ["## " + header] + ls, q, BlocksFrom(blocks, i + 1),
                  Segment(header, TrimEnd(Unlines(ls, |ls|))), SegmentsFrom(blocks, i + 1));
    }
  }

  /**
    For any text: if its lines are some lines without header, then blocks of a
    header line and lines without header, the segments are the first lines, if
    any, under no name, and then one segment for each block.
  */
  lemma SplitMeaning(text: string, preamble: seq<string>, blocks: seq<(string, seq<string>)>)
    requires Lines(text) == preamble + BlocksFrom(blocks, 0)
    requires NoHeaders(preamble) && forall k :: 0 <= k < |blocks| ==> NoHeaders(blocks[k].1)
    ensures Split(text)
         == (if preamble == [] then [] else [Segment("", TrimEnd(Unlines(preamble, |preamble|)))]) + SegmentsFrom(blocks, 0)
  {
    if preamble == [] {
      ReadBlocks(EMPTY, blocks, 0);
      assert preamble + BlocksFrom(blocks, 0) == BlocksFrom(blocks, 0);
    } else {
      var q := Parse([], Some(Section("", Unlines(preamble, |preamble|))));
      ReadPreamble(preamble, |preamble|);
      ReadBlocks(q, blocks, 0);
      ResultConcat(EMPTY, preamble, BlocksFrom(blocks, 0), q, ParseLines(q, BlocksFrom(blocks, 0), |BlocksFrom(blocks, 0)|));
    }
  }

  /** And the lines of every text are of that form. */
  lemma {:induction false} LinesHaveBlocks(ls: seq<string>) returns (preamble: seq<string>, blocks: seq<(string, seq<string>)>)
    ensures ls == preamble + BlocksFrom(blocks, 0)
    ensures NoHeaders(preamble) && forall k :: 0 <= k < |blocks| ==> NoHeaders(blocks[k].1)
    decreases |ls|
  {
    if ls == [] {
      preamble, blocks := [], [];
    } else {
      var rest, more := LinesHaveBlocks(ls[1..]);
      assert ls == [ls[0]] + ls[1..];
      if IsHeader(ls[0]) {
        preamble, blocks := [], [(ls[0][3..], rest)] + more;
        BlocksCons((ls[0][3..], rest), more);
        assert "## " + ls[0][3..] == ls[0];
      } else {
        preamble, blocks := [ls[0]] + rest, more;
      }
    }
  }

  lemma {:induction false} BlocksShift(b: (string, seq<string>), blocks: seq<(string, seq<string>)>, i: nat)
    requires i <= |blocks|
    ensures BlocksFrom([b] + blocks, i + 1) == BlocksFrom(blocks, i)
    decreases |blocks| - i
  {
    if i < |blocks| {
      BlocksShift(b, blocks, i + 1);
      assert ([b] + blocks)[i + 1] == blocks[i];
    }
  }

  lemma BlocksCons(b: (string, seq<string>), blocks: seq<(string, seq<string>)>)
    ensures BlocksFrom([b] + blocks, 0) == ["## " + b.0] + b.1 + BlocksFrom(blocks, 0)
  {
    BlocksShift(b, blocks, 0);
  }
}
