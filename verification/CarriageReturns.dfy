/**
  Every pass over a text takes carriage returns off the ends of its lines, so a
  text that has one there is never what shrinking gives back.
*/
module CarriageReturns {
  import opened Wrappers
  import opened TextLines
  import opened SectionSplit
  import opened SectionClean
  import opened SectionExact

  /** Some line ends in a carriage return. */
  ghost predicate HasCrLf(t: string) {
    exists p {:trigger t[p]} :: 0 <= p < |t| - 1 && t[p] == '\r' && t[p + 1] == '\n'
  }

  lemma {:induction false} LinesLoseCr(t: string)
    ensures CrCount(Unlines(Lines(t), |Lines(t)|)) <= CrCount(t)
    ensures HasCrLf(t) ==> CrCount(Unlines(Lines(t), |Lines(t)|)) < CrCount(t)
    decreases |t|
  {
    if t != "" {
      var k := Newline(t, 0);
      if k == |t| {
        UnlinesCons(t, []);
        CrLine(t, "");
      } else {
        var head, rest := t[..k], t[k + 1..];
        assert t == head + "\n" + rest;
        LinesLoseCr(rest);
        CrLine(head, rest);
        NextLineCr(head, Lines(rest));
        if HasCrLf(t) && (head == "" || head[|head| - 1] != '\r') { LaterCrLf(t, k); }
      }
    }
  }

  lemma LaterCrLf(t: string, k: nat)
    requires HasCrLf(t) && k < |t| && k == Newline(t, 0) && (k == 0 || t[k - 1] != '\r')
    ensures HasCrLf(t[k + 1..])
  {
    var p :| 0 <= p < |t| - 1 && t[p] == '\r' && t[p + 1] == '\n';
    var rest := t[k + 1..];
    assert p > k;
    assert rest[p - k - 1] == '\r' && rest[p - k] == '\n';
  }

  // ---- What the parser takes in ----

  function SegmentCr(seg: Segment): nat {
    CrCount(seg.header) + CrCount(seg.body)
  }

  function SegmentsCr(segs: seq<Segment>, n: nat): nat
    requires n <= |segs|
  {
    if n == 0 then 0 else SegmentsCr(segs, n - 1) + SegmentCr(segs[n - 1])
  }

  /** What the open section holds. */
  function OpenCr(c: Option<Section>): nat {
    if c.Some? then CrCount(c.value.header) + CrCount(c.value.body) else 0
  }

  function ParseCr(p: Parse): nat {
    SegmentsCr(p.segments, |p.segments|) + OpenCr(p.current)
  }

  lemma {:induction false} SegmentsCrPrefix(a: seq<Segment>, b: seq<Segment>, n: nat)
    requires n <= |a|
    ensures SegmentsCr(a + b, n) == SegmentsCr(a, n)
  {
    if n > 0 { SegmentsCrPrefix(a, b, n - 1); }
  }

  lemma CloseCr(p: Parse)
    ensures SegmentsCr(Close(p), |Close(p)|) <= ParseCr(p)
  {
    if p.current.Some? {
      var c := p.current.value;
      CrTrim(c.body);
      SegmentsCrPrefix(p.segments, [NewSegment(c.header, c.body)], |p.segments|);
    }
  }

  lemma CrAppend(body: string, line: string)
    ensures CrCount(body + line + "\n") == CrCount(body) + CrCount(line)
  {
    CrConcat(body, line);
    CrLine(body + line, "");
    assert body + line + "\n" + "" == body + line + "\n";
  }

  lemma CrDrop(line: string, n: nat)
    requires n <= |line|
    ensures CrCount(line[n..]) <= CrCount(line)
  {
    assert line == line[..n] + line[n..];
    CrConcat(line[..n], line[n..]);
  }

  lemma OpenLineCr(c: Option<Section>, line: string)
    ensures var header, body := (if c.Some? then c.value.header else ""), (if c.Some? then c.value.body else "");
            OpenCr(Some(Section(header, body + line + "\n"))) == OpenCr(c) + CrCount(line)
  {
    CrAppend(if c.Some? then c.value.body else "", line);
  }

  lemma ParseLineCr(p: Parse, line: string)
    ensures ParseCr(ParseLine(p, line)) <= ParseCr(p) + CrCount(line)
  {
    if IsHeader(line) {
      CloseCr(p);
      CrDrop(line, 3);
    } else {
      OpenLineCr(p.current, line);
      assert "" + line == line;
    }
  }

  function LinesCr(ls: seq<string>, n: nat): nat
    requires n <= |ls|
  {
    if n == 0 then 0 else LinesCr(ls, n - 1) + CrCount(ls[n - 1])
  }

  lemma {:induction false} UnlinesCr(ls: seq<string>, n: nat)
    requires n <= |ls|
    ensures CrCount(Unlines(ls, n)) == LinesCr(ls, n)
  {
    if n > 0 {
      UnlinesCr(ls, n - 1);
      CrAppend(Unlines(ls, n - 1), ls[n - 1]);
    }
  }

  lemma {:induction false} ParseLinesCr(ls: seq<string>, n: nat, p: Parse)
    requires n <= |ls| && p == ParseLines(EMPTY, ls, n)
    ensures ParseCr(p) <= LinesCr(ls, n)
  {
    if n > 0 {
      var before := ParseLines(EMPTY, ls, n - 1);
      ParseLinesCr(ls, n - 1, before);
      ParseLineCr(before, ls[n - 1]);
    }
  }

  // ---- What is printed ----

  lemma {:induction false} SelectCr(segs: seq<Segment>, s: set<nat>, n: nat)
    requires n <= |segs|
    ensures SegmentsCr(Select(segs, s, n), |Select(segs, s, n)|) <= SegmentsCr(segs, n)
  {
    if n > 0 {
      SelectCr(segs, s, n - 1);
      var before := Select(segs, s, n - 1);
      SegmentsCrPrefix(before, [segs[n - 1]], |before|);
      assert before + [] == before;
    }
  }

  lemma FullTextCr(seg: Segment)
    ensures CrCount(FullText(seg)) == SegmentCr(seg)
  {
    CrLine("## " + seg.header, seg.body);
    CrConcat("## ", seg.header);
    assert CrCount("## ") == 0 by {
      assert "## "[..2] == "##" && "##"[..1] == "#" && "#"[..0] == "";
    }
  }

  lemma {:induction false} JoinCr(segs: seq<Segment>, i: nat)
    requires i < |segs|
    ensures CrCount(JoinFrom(segs, i)) == SegmentsCr(segs, |segs|) - SegmentsCr(segs, i)
    decreases |segs| - i
  {
    FullTextCr(segs[i]);
    if i < |segs| - 1 {
      JoinCr(segs, i + 1);
      var full, rest := FullText(segs[i]), JoinFrom(segs, i + 1);
      CrLine(full, "\n" + rest);
      CrLine("", rest);
      assert full + "\n\n" + rest == full + "\n" + ("\n" + rest) && "" + "\n" + rest == "\n" + rest;
    }
  }

  /** Whatever is kept of a text with a carriage return before a newline has fewer of them. */
  lemma PassLosesCr(t: string, s: set<nat>)
    requires HasCrLf(t)
    ensures Join(Select(Split(t), s, |Split(t)|)) != t
  {
    var p := ParseLines(EMPTY, Lines(t), |Lines(t)|);
    var kept := Select(Split(t), s, |Split(t)|);
    LinesLoseCr(t);
    ParseLinesCr(Lines(t), |Lines(t)|, p);
    UnlinesCr(Lines(t), |Lines(t)|);
    CloseCr(p);
    SelectCr(Split(t), s, |Split(t)|);
    if kept != [] { JoinCr(kept, 0); }
  }

  // ---- Where they come from ----

  lemma CrLfInside(a: string, b: string, c: string)
    requires HasCrLf(b)
    ensures HasCrLf(a + b + c)
  {
    var p :| 0 <= p < |b| - 1 && b[p] == '\r' && b[p + 1] == '\n';
    var t := a + b + c;
    assert t[|a| + p] == '\r' && t[|a| + p + 1] == '\n';
  }

  lemma {:induction false} BodyCrLf(t: string)
    requires !NoCrLines(t) && (t != "" ==> t[|t| - 1] != '\r')
    ensures HasCrLf(t)
    decreases |t|
  {
    var k := Newline(t, 0);
    if k < |t| {
      var rest := t[k + 1..];
      if PlainLine(t[..k]) {
        if NoCrLines(rest) { PlainSplit(t, k); }
        BodyCrLf(rest);
        CrLfInside(t[..k + 1], rest, "");
        assert t == t[..k + 1] + rest + "";
      } else {
        assert t[k - 1] == '\r' && t[k - 1 + 1] == '\n';
      }
    }
  }

  /** A segment that is not printable has a line that ends in a carriage return. */
  lemma UnprintableHasCrLf(seg: Segment)
    requires Shaped(seg) && !Printable(seg)
    ensures HasCrLf(FullText(seg))
  {
    if PlainLine(seg.header) && NoCrLines(seg.body) { ShapedPrints(seg); }
    if seg.header == "" {
      BodyCrLf(seg.body);
    } else if PlainLine(seg.header) {
      BodyCrLf(seg.body);
      CrLfInside("## " + seg.header + "\n", seg.body, "");
      assert FullText(seg) == "## " + seg.header + "\n" + seg.body + "";
    } else {
      var t := FullText(seg);
      assert t[|seg.header| + 2] == '\r' && t[|seg.header| + 2 + 1] == '\n';
    }
  }

  lemma CrLfEither(a: string, b: string)
    requires HasCrLf(a) || HasCrLf(b)
    ensures HasCrLf(a + "\n\n" + b)
  {
    var t := a + "\n\n" + b;
    if HasCrLf(a) {
      CrLfInside("", a, "\n\n" + b);
      assert "" + a + ("\n\n" + b) == t;
    } else {
      CrLfInside(a + "\n\n", b, "");
      assert t + "" == t;
    }
  }

  lemma {:induction false} JoinHasCrLf(segs: seq<Segment>, i: nat, j: nat)
    requires i <= j < |segs| && HasCrLf(FullText(segs[j]))
    ensures HasCrLf(JoinFrom(segs, i))
    decreases |segs| - i
  {
    if i < |segs| - 1 {
      if i < j { JoinHasCrLf(segs, i + 1, j); }
      CrLfEither(FullText(segs[i]), JoinFrom(segs, i + 1));
    }
  }
}
