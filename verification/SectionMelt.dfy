/**
  What becomes of sections without a name: when a kept list is printed and read
  again, each nameless segment melts into the section before it.
*/
module SectionMelt {
  import opened Sequences
  import opened TextLines
  import opened SectionSplit

  /** The segments from the `i`-th on, each with the nameless ones that follow it, a blank line apart. */
  function RawFrom(segs: seq<Segment>, i: nat): (r: seq<Segment>)
    requires i < |segs|
    ensures r != [] && r[0].header == segs[i].header
    decreases |segs| - i
  {
    if i == |segs| - 1 then [segs[i]]
    else
      var rest := RawFrom(segs, i + 1);
      if segs[i + 1].header == "" then [Absorb(segs[i], rest[0])] + rest[1..] else [segs[i]] + rest
  }

  function Absorb(seg: Segment, nameless: Segment): Segment {
    Segment(seg.header, seg.body + "\n\n" + nameless.body)
  }

  /** The same with bodies trimmed, as the parser leaves them. */
  function Melted(segs: seq<Segment>): seq<Segment> {
    if segs == [] then [] else TrimFrom(RawFrom(segs, 0), 0)
  }

  // ---- It prints the same ----

  /** What follows the first segment in print. */
  function Tail(segs: seq<Segment>): string {
    if segs == [] then "" else "\n\n" + JoinFrom(segs, 0)
  }

  lemma {:induction false} JoinShift(x: Segment, segs: seq<Segment>, i: nat)
    requires i < |segs|
    ensures JoinFrom([x] + segs, i + 1) == JoinFrom(segs, i)
    decreases |segs| - i
  {
    var all := [x] + segs;
    assert all[i + 1] == segs[i] && |all| == |segs| + 1;
    if i < |segs| - 1 {
      JoinShift(x, segs, i + 1);
      assert JoinFrom(all, i + 1) == FullText(segs[i]) + "\n\n" + JoinFrom(all, i + 2);
    }
  }

  lemma JoinCons(x: Segment, segs: seq<Segment>)
    ensures JoinFrom([x] + segs, 0) == FullText(x) + Tail(segs)
  {
    if segs == [] {
      assert [x] + segs == [x];
    } else {
      JoinShift(x, segs, 0);
      assert FullText(x) + "\n\n" + JoinFrom(segs, 0) == FullText(x) + ("\n\n" + JoinFrom(segs, 0));
    }
  }

  lemma AbsorbPrints(x: Segment, y: Segment, segs: seq<Segment>)
    requires y.header == ""
    ensures JoinFrom([Absorb(x, y)] + segs, 0) == FullText(x) + "\n\n" + JoinFrom([y] + segs, 0)
  {
    JoinCons(Absorb(x, y), segs);
    JoinCons(y, segs);
    assert FullText(Absorb(x, y)) == FullText(x) + "\n\n" + y.body;
    assert FullText(x) + "\n\n" + y.body + Tail(segs) == FullText(x) + "\n\n" + (y.body + Tail(segs));
  }

  lemma {:induction false} RawPrintsTheSame(segs: seq<Segment>, i: nat)
    requires i < |segs|
    ensures JoinFrom(RawFrom(segs, i), 0) == JoinFrom(segs, i)
    decreases |segs| - i
  {
    if i < |segs| - 1 {
      RawPrintsTheSame(segs, i + 1);
      var rest := RawFrom(segs, i + 1);
      assert rest == [rest[0]] + rest[1..];
      if segs[i + 1].header == "" {
        AbsorbPrints(segs[i], rest[0], rest[1..]);
      } else {
        JoinCons(segs[i], rest);
        assert FullText(segs[i]) + Tail(rest) == FullText(segs[i]) + "\n\n" + JoinFrom(rest, 0);
      }
    }
  }

  // ---- It is plain, and its later sections are named ----

  lemma Rebracket(a: string, b: string, c: string, d: string)
    ensures a + b + c + d == a + (b + c + d)
    ensures (a + "\n") + ("\n" + b) == a + "\n\n" + b
  {
  }

  lemma SplitConsConcat(line: string, rest: string, p: seq<string>, q: seq<string>)
    requires (forall j :: 0 <= j < |line| ==> line[j] != '\n') && SplitNl(rest) == p + q
    ensures SplitNl(line + "\n" + rest) == [line] + p + q
  {
    SplitCons(line, rest);
    Associate([line], p, q);
  }

  lemma {:induction false} SplitConcat(a: string, b: string)
    ensures SplitNl(a + "\n" + b) == SplitNl(a) + SplitNl(b)
    decreases |a|
  {
    var k := Newline(a, 0);
    if k == |a| {
      SplitCons(a, b);
    } else {
      var head, rest := a[..k], a[k + 1..];
      assert a == head + "\n" + rest;
      SplitConcat(rest, b);
      SplitCons(head, rest);
      SplitConsConcat(head, rest + "\n" + b, SplitNl(rest), SplitNl(b));
      Rebracket(head + "\n", rest, "\n", b);
    }
  }

  lemma SplitBlankBetween(a: string, b: string)
    ensures SplitNl(a + "\n\n" + b) == SplitNl(a) + [""] + SplitNl(b)
  {
    SplitConcat(a, "\n" + b);
    SplitCons("", b);
    Rebracket(a, b, "", "");
    assert "" + "\n" + b == "\n" + b;
    Associate(SplitNl(a), [""], SplitNl(b));
  }

  ghost predicate BodyLines(parts: seq<string>) {
    forall j :: 0 <= j < |parts| ==> PlainLine(parts[j]) && !IsHeader(parts[j])
  }

  lemma BodyLinesJoin(a: seq<string>, b: seq<string>)
    requires BodyLines(a) && BodyLines(b)
    ensures BodyLines(a + [""] + b)
  {
  }

  lemma AbsorbIsPlain(x: Segment, y: Segment)
    requires Plain(x) && Plain(y)
    ensures Plain(Absorb(x, y))
  {
    SplitBlankBetween(x.body, y.body);
    BodyLinesJoin(SplitNl(x.body), SplitNl(y.body));
  }

  ghost predicate AllPlain(segs: seq<Segment>) {
    forall i :: 0 <= i < |segs| ==> Plain(segs[i])
  }

  lemma PlainCons(x: Segment, segs: seq<Segment>)
    requires Plain(x) && PlainList(segs) && (segs != [] ==> segs[0].header != "")
    ensures PlainList([x] + segs)
  {
  }

  lemma {:induction false} RawIsPlain(segs: seq<Segment>, i: nat)
    requires AllPlain(segs) && i < |segs|
    ensures PlainList(RawFrom(segs, i))
    decreases |segs| - i
  {
    if i < |segs| - 1 {
      RawIsPlain(segs, i + 1);
      var rest := RawFrom(segs, i + 1);
      if segs[i + 1].header == "" {
        AbsorbIsPlain(segs[i], rest[0]);
        var tail := rest[1..];
        assert forall k :: 0 <= k < |tail| ==> tail[k] == rest[k + 1];
        PlainCons(Absorb(segs[i], rest[0]), tail);
      } else {
        PlainCons(segs[i], rest);
      }
    }
  }

  lemma RawIsBlank(segs: seq<Segment>)
    requires segs != []
    ensures RawFrom(segs, 0) == [BLANK] ==> segs == [BLANK]
  {
    if |segs| == 1 {
      assert segs == [segs[0]];
    } else {
      var rest := RawFrom(segs, 1);
      if segs[1].header == "" {
        assert |Absorb(segs[0], rest[0]).body| >= 2;
      } else {
        assert |RawFrom(segs, 0)| == 1 + |rest| >= 2;
      }
    }
  }

  /** Printing any plain segments and reading them again gives the melted list. */
  lemma SplitOfMeltedJoin(segs: seq<Segment>)
    requires AllPlain(segs) && segs != [] && segs != [BLANK]
    ensures Split(Join(segs)) == Melted(segs)
  {
    RawIsBlank(segs);
    RawPrintsTheSame(segs, 0);
    RawIsPlain(segs, 0);
    SplitOfPlainJoin(RawFrom(segs, 0));
  }

  // ---- When it prints the same even trimmed ----

  /** A nameless segment without text ends the section it melts into. */
  predicate BlankEnd(segs: seq<Segment>, j: nat) {
    j < |segs| && segs[j] == BLANK && (j + 1 == |segs| || segs[j + 1].header != "")
  }

  predicate NoBlankEnds(segs: seq<Segment>) {
    forall j :: 0 < j < |segs| ==> !BlankEnd(segs, j)
  }

  ghost predicate AllTrimmed(segs: seq<Segment>) {
    forall k :: 0 <= k < |segs| ==> Trimmed(segs[k].body)
  }

  lemma AbsorbTrimmed(x: Segment, y: Segment)
    ensures Trimmed(Absorb(x, y).body) <==> y.body != "" && Trimmed(y.body)
  {
    var t := Absorb(x, y).body;
    if y.body == "" {
      assert t[|t| - 1] == '\n';
    } else {
      assert t[|t| - 1] == y.body[|y.body| - 1];
    }
  }

  lemma TrimmedCons(x: Segment, segs: seq<Segment>)
    ensures AllTrimmed([x] + segs) <==> Trimmed(x.body) && AllTrimmed(segs)
  {
    var all := [x] + segs;
    if AllTrimmed(all) {
      assert Trimmed(all[0].body);
      forall k | 0 <= k < |segs|
        ensures Trimmed(segs[k].body)
      {
        assert Trimmed(all[k + 1].body);
      }
    }
  }

  ghost predicate NoBlankEndsAfter(segs: seq<Segment>, i: nat) {
    forall j :: i < j < |segs| ==> !BlankEnd(segs, j)
  }

  lemma {:induction false} RawTrimmed(segs: seq<Segment>, i: nat)
    requires AllTrimmed(segs) && i < |segs|
    ensures AllTrimmed(RawFrom(segs, i)) <==> NoBlankEndsAfter(segs, i)
    ensures RawFrom(segs, i)[0].body == "" <==> segs[i].body == "" && (i + 1 == |segs| || segs[i + 1].header != "")
    decreases |segs| - i
  {
    if i < |segs| - 1 {
      RawTrimmed(segs, i + 1);
      var rest := RawFrom(segs, i + 1);
      assert NoBlankEndsAfter(segs, i) <==> NoBlankEndsAfter(segs, i + 1) && !BlankEnd(segs, i + 1);
      if segs[i + 1].header == "" {
        AbsorbTrimmed(segs[i], rest[0]);
        TrimmedCons(Absorb(segs[i], rest[0]), rest[1..]);
        TrimmedCons(rest[0], rest[1..]);
        assert rest == [rest[0]] + rest[1..];
      } else {
        TrimmedCons(segs[i], rest);
      }
    }
  }
}
