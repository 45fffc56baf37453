/** Text as lines: the parts of the standard string API that section splitting relies on. */
module TextLines {

  /** First newline at or after `i`, or the length. */
  function Newline(t: string, i: nat): (k: nat)
    requires i <= |t|
    ensures i <= k <= |t| && (k < |t| ==> t[k] == '\n')
    ensures forall j :: i <= j < k ==> t[j] != '\n'
    decreases |t| - i
  {
    if i == |t| || t[i] == '\n' then i else Newline(t, i + 1)
  }

  function StripCr(line: string): string {
    if line != "" && line[|line| - 1] == '\r' then line[..|line| - 1] else line
  }

  /** `str::lines`: a line ends at a newline, which is dropped with a carriage return before it. */
  function Lines(t: string): seq<string>
    decreases |t|
  {
    if t == "" then []
    else
      var k := Newline(t, 0);
      if k == |t| then [t] else [StripCr(t[..k])] + Lines(t[k + 1..])
  }

  /** The first `n` lines, each with its newline. */
  function Unlines(ls: seq<string>, n: nat): string
    requires n <= |ls|
  {
    if n == 0 then "" else Unlines(ls, n - 1) + ls[n - 1] + "\n"
  }

  /** Split at every newline; there is always at least one part. */
  function SplitNl(t: string): (r: seq<string>)
    ensures r != []
    decreases |t|
  {
    var k := Newline(t, 0);
    if k == |t| then [t] else [t[..k]] + SplitNl(t[k + 1..])
  }

  predicate PlainLine(line: string) {
    (forall j :: 0 <= j < |line| ==> line[j] != '\n') && (line != "" ==> line[|line| - 1] != '\r')
  }

  // ---- Lines of assembled text ----

  lemma LinesCons(line: string, rest: string)
    requires forall j :: 0 <= j < |line| ==> line[j] != '\n'
    ensures Lines(line + "\n" + rest) == [StripCr(line)] + Lines(rest)
  {
    var t := line + "\n" + rest;
    assert t[|line|] == '\n';
    assert forall j :: 0 <= j < |line| ==> t[j] == line[j];
    assert Newline(t, 0) == |line|;
    assert t[..|line|] == line && t[|line| + 1..] == rest;
  }

  lemma Regroup(a: string, b: string, c: string, d: string)
    ensures ((a + b) + c) + d == a + ((b + c) + d)
  {
  }

  lemma TakeNext(ls: seq<string>, n: nat, more: seq<string>)
    requires 0 < n <= |ls|
    ensures ls[..n - 1] + ([ls[n - 1]] + more) == ls[..n] + more
  {
  }

  /** Lines written out are read back. */
  lemma {:induction false} LinesOfUnlines(ls: seq<string>, n: nat, rest: string)
    requires n <= |ls| && forall j :: 0 <= j < n ==> PlainLine(ls[j])
    ensures Lines(Unlines(ls, n) + rest) == ls[..n] + Lines(rest)
  {
    if n == 0 {
      assert "" + rest == rest;
    } else {
      var tail := ls[n - 1] + "\n" + rest;
      Regroup(Unlines(ls, n - 1), ls[n - 1], "\n", rest);
      LinesOfUnlines(ls, n - 1, tail);
      LinesCons(ls[n - 1], rest);
      assert StripCr(ls[n - 1]) == ls[n - 1];
      TakeNext(ls, n, Lines(rest));
    }
  }

  lemma {:induction false} UnlinesConcat(a: seq<string>, b: seq<string>, n: nat)
    requires n <= |b|
    ensures Unlines(a + b, |a| + n) == Unlines(a, |a|) + Unlines(b, n)
  {
    if n > 0 {
      UnlinesConcat(a, b, n - 1);
      assert (a + b)[|a| + n - 1] == b[n - 1];
    } else {
      UnlinesPrefix(a, b, |a|);
      assert Unlines(a, |a|) + "" == Unlines(a, |a|);
    }
  }

  lemma {:induction false} UnlinesPrefix(a: seq<string>, b: seq<string>, n: nat)
    requires n <= |a|
    ensures Unlines(a + b, n) == Unlines(a, n)
  {
    if n > 0 { UnlinesPrefix(a, b, n - 1); }
  }

  /** Splitting and writing out adds just the final newline. */
  lemma {:induction false} UnlinesOfSplit(t: string)
    ensures Unlines(SplitNl(t), |SplitNl(t)|) == t + "\n"
    decreases |t|
  {
    var k := Newline(t, 0);
    if k == |t| {
      assert Unlines([t], 1) == "" + t + "\n";
    } else {
      var head, tail := [t[..k]], SplitNl(t[k + 1..]);
      UnlinesOfSplit(t[k + 1..]);
      UnlinesConcat(head, tail, |tail|);
      assert Unlines(head, 1) == "" + t[..k] + "\n";
      assert t == t[..k] + "\n" + t[k + 1..];
    }
  }

  /** No line of `t` ends in a carriage return. */
  predicate NoCrLines(t: string) {
    forall j :: 0 <= j < |SplitNl(t)| ==> PlainLine(SplitNl(t)[j])
  }

  /** The lines written out again: the text, with a newline at the end if it has any line. */
  function Finished(t: string): string {
    if t == "" || t[|t| - 1] == '\n' then t else t + "\n"
  }

  lemma FinishedCons(head: string, rest: string)
    ensures Finished(head + "\n" + rest) == head + "\n" + Finished(rest)
  {
    var t := head + "\n" + rest;
    if rest == "" {
      assert t[|t| - 1] == '\n';
    } else {
      assert t[|t| - 1] == rest[|rest| - 1];
    }
  }

  lemma AllPlainCons(line: string, parts: seq<string>)
    requires forall j :: 0 <= j < |[line] + parts| ==> PlainLine(([line] + parts)[j])
    ensures PlainLine(line) && forall j :: 0 <= j < |parts| ==> PlainLine(parts[j])
  {
    var all := [line] + parts;
    assert PlainLine(all[0]);
    forall j | 0 <= j < |parts|
      ensures PlainLine(parts[j])
    {
      assert PlainLine(all[j + 1]);
    }
  }

  lemma SplitCons(line: string, rest: string)
    requires forall j :: 0 <= j < |line| ==> line[j] != '\n'
    ensures SplitNl(line + "\n" + rest) == [line] + SplitNl(rest)
  {
    var t := line + "\n" + rest;
    assert t[|line|] == '\n';
    assert forall j :: 0 <= j < |line| ==> t[j] == line[j];
    assert Newline(t, 0) == |line|;
    assert t[..|line|] == line && t[|line| + 1..] == rest;
  }

  lemma NoCrCons(line: string, rest: string)
    requires (forall j :: 0 <= j < |line| ==> line[j] != '\n') && NoCrLines(line + "\n" + rest)
    ensures PlainLine(line) && NoCrLines(rest)
  {
    SplitCons(line, rest);
    AllPlainCons(line, SplitNl(rest));
  }

  ghost predicate IsPrefix(a: seq<string>, b: seq<string>) {
    |a| <= |b| && forall j :: 0 <= j < |a| ==> a[j] == b[j]
  }

  lemma PrefixCons(line: string, a: seq<string>, b: seq<string>)
    requires IsPrefix(a, b)
    ensures IsPrefix([line] + a, [line] + b)
    ensures Unlines([line] + a, |[line] + a|) == line + "\n" + Unlines(a, |a|)
  {
    UnlinesConcat([line], a, |a|);
    assert Unlines([line], 1) == "" + line + "\n";
  }

  /** The lines are the parts of the text, and rewriting them finishes it. */
  ghost predicate Rewrites(t: string) {
    IsPrefix(Lines(t), SplitNl(t)) && Unlines(Lines(t), |Lines(t)|) == Finished(t)
  }

  lemma RewritesLine(t: string)
    requires forall j :: 0 <= j < |t| ==> t[j] != '\n'
    ensures Rewrites(t)
  {
    if t != "" {
      assert Newline(t, 0) == |t|;
      PrefixCons(t, [], []);
      assert [t] + [] == [t];
    }
  }

  lemma RewritesCons(line: string, rest: string)
    requires PlainLine(line) && Rewrites(rest)
    ensures Rewrites(line + "\n" + rest)
  {
    LinesCons(line, rest);
    SplitCons(line, rest);
    PrefixCons(line, Lines(rest), SplitNl(rest));
    FinishedCons(line, rest);
  }

  lemma {:induction false} LinesOfSplit(t: string)
    requires NoCrLines(t)
    ensures Rewrites(t)
    decreases |t|
  {
    var k := Newline(t, 0);
    if k == |t| {
      RewritesLine(t);
    } else {
      var head, rest := t[..k], t[k + 1..];
      assert t == head + "\n" + rest;
      NoCrCons(head, rest);
      LinesOfSplit(rest);
      RewritesCons(head, rest);
    }
  }

  lemma {:induction false} SplitHasNoNewlines(t: string)
    ensures forall i, j :: 0 <= i < |SplitNl(t)| && 0 <= j < |SplitNl(t)[i]| ==> SplitNl(t)[i][j] != '\n'
    ensures forall i, j :: 0 <= i < |SplitNl(t)| && 0 <= j < |SplitNl(t)[i]| ==> SplitNl(t)[i][j] in t
    decreases |t|
  {
    var k := Newline(t, 0);
    if k < |t| {
      var rest := t[k + 1..];
      SplitHasNoNewlines(rest);
      assert forall c :: c in rest ==> c in t;
    }
  }

  // ---- Trimming ----

  /** Unicode white space, as `trim_end` removes it. */
  predicate IsWhitespace(c: char) {
    || '\U{9}' <= c <= '\U{D}' || c == ' ' || c == '\U{85}' || c == '\U{A0}' || c == '\U{1680}'
    || '\U{2000}' <= c <= '\U{200A}' || c == '\U{2028}' || c == '\U{2029}' || c == '\U{202F}' || c == '\U{205F}' || c == '\U{3000}'
  }

  predicate Trimmed(t: string) {
    t == "" || !IsWhitespace(t[|t| - 1])
  }

  function TrimEnd(t: string): (r: string)
    ensures Trimmed(r) && |r| <= |t| && t[..|r|] == r
  {
    if Trimmed(t) then t else TrimEnd(t[..|t| - 1])
  }

  lemma TrimNewline(t: string)
    ensures TrimEnd(t + "\n") == TrimEnd(t)
  {
    assert (t + "\n")[..|t|] == t;
  }

  lemma TrimFinished(t: string)
    ensures TrimEnd(Finished(t)) == TrimEnd(t)
  {
    TrimNewline(t);
  }

  /** Only white space is cut off. */
  lemma {:induction false} TrimMeaning(t: string)
    ensures forall i :: |TrimEnd(t)| <= i < |t| ==> IsWhitespace(t[i])
  {
    if !Trimmed(t) {
      var shorter := t[..|t| - 1];
      TrimMeaning(shorter);
      forall i | |TrimEnd(t)| <= i < |t|
        ensures IsWhitespace(t[i])
      {
        if i < |t| - 1 { assert shorter[i] == t[i]; }
      }
    }
  }
}
