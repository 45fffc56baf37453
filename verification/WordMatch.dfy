/**
  The router's whole-word matcher and the intent detection built on it. Text is
  modelled as its UTF-8 bytes, one `char` a byte.
*/
module WordMatch {

  predicate IsAsciiAlphanumeric(c: char) {
    '0' <= c <= '9' || 'A' <= c <= 'Z' || 'a' <= c <= 'z'
  }

  predicate OccursAt(h: string, n: string, i: nat) {
    i + |n| <= |h| && forall k :: 0 <= k < |n| ==> h[i + k] == n[k]
  }

  /** Not preceded and not followed by an alphanumeric byte. */
  predicate BoundedAt(h: string, n: string, i: nat)
    requires i + |n| <= |h|
  {
    && (i == 0 || !IsAsciiAlphanumeric(h[i - 1]))
    && (i + |n| == |h| || !IsAsciiAlphanumeric(h[i + |n|]))
  }

  /** The reference: some occurrence is bounded on both sides. */
  ghost predicate HasWord(h: string, n: string) {
    exists i: nat :: OccursAt(h, n, i) && BoundedAt(h, n, i)
  }

  // ---- The loop ----

  /** First occurrence at or after `from` (`str::find` on the rest); `|h| + 1` when there is none. */
  function FindFrom(h: string, n: string, from: nat): (r: nat)
    ensures r <= |h| ==> from <= r && OccursAt(h, n, r)
    ensures forall i: nat :: from <= i < r ==> !OccursAt(h, n, i)
    decreases |h| + 1 - from
  {
    if from > |h| then from
    else if OccursAt(h, n, from) then from
    else FindFrom(h, n, from + 1)
  }

  /** What the loop answers when it resumes at `from`. */
  predicate Scan(h: string, n: string, from: nat)
    requires n != ""
    decreases |h| + 1 - from
  {
    var start := FindFrom(h, n, from);
    if start > |h| then false
    else BoundedAt(h, n, start) || Scan(h, n, start + |n|)
  }

  predicate Matches(h: string, n: string) {
    0 < |n| <= |h| && Scan(h, n, 0)
  }

  /** `matches_word` */
  method MatchesWord(haystack: string, needle: string) returns (r: bool)
    ensures r == Matches(haystack, needle)
  {
    if |needle| == 0 || |needle| > |haystack| {
      return false;
    }
    var from := 0;
    var start := FindFrom(haystack, needle, from);
    while start <= |haystack|
      invariant start == FindFrom(haystack, needle, from)
      invariant Scan(haystack, needle, from) == Scan(haystack, needle, 0)
      decreases |haystack| + 1 - from
    {
      if BoundedAt(haystack, needle, start) {
        return true;
      }
      from := start + |needle|;
      start := FindFrom(haystack, needle, from);
    }
    return false;
  }

  // ---- When skipping past a match is harmless ----

  /** The needle, shifted right by `k`, agrees with itself. */
  predicate SelfOverlap(n: string, k: nat) {
    0 < k < |n| && forall j :: 0 <= j < |n| - k ==> n[k + j] == n[j]
  }

  /** Every proper self-overlap starts just after an alphanumeric byte. */
  predicate OverlapSafe(n: string) {
    forall k: nat :: 0 < k < |n| && SelfOverlap(n, k) ==> IsAsciiAlphanumeric(n[k - 1])
  }

  /** An occurrence inside another one is a self-overlap of the needle. */
  lemma OverlapOfOccurrences(h: string, n: string, s: nat, i: nat)
    requires OccursAt(h, n, s) && OccursAt(h, n, i) && s < i < s + |n|
    ensures SelfOverlap(n, i - s) && h[i - 1] == n[i - s - 1]
  {
    forall j | 0 <= j < |n| - (i - s)
      ensures n[i - s + j] == n[j]
    {
      assert h[s + (i - s + j)] == n[i - s + j];
      assert h[i + j] == n[j];
    }
    assert h[s + (i - s - 1)] == n[i - s - 1];
  }

  lemma {:induction false} ScanSound(h: string, n: string, from: nat)
    requires n != "" && Scan(h, n, from)
    ensures HasWord(h, n)
    decreases |h| + 1 - from
  {
    var start := FindFrom(h, n, from);
    if !BoundedAt(h, n, start) { ScanSound(h, n, start + |n|); }
  }

  lemma {:induction false} ScanComplete(h: string, n: string, from: nat, i: nat)
    requires n != "" && OverlapSafe(n)
    requires from <= i && OccursAt(h, n, i) && BoundedAt(h, n, i)
    ensures Scan(h, n, from)
    decreases |h| + 1 - from
  {
    var start := FindFrom(h, n, from);
    assert start <= i;
    if !BoundedAt(h, n, start) {
      if i < start + |n| {
        OverlapOfOccurrences(h, n, start, i);
        assert false;
      }
      ScanComplete(h, n, start + |n|, i);
    }
  }

  /** Whatever the needle, a match is a real one. */
  lemma MatchesSound(h: string, n: string)
    requires Matches(h, n)
    ensures HasWord(h, n)
  {
    ScanSound(h, n, 0);
  }

  /** For overlap-safe needles the skipping loop decides the reference. */
  lemma MatchesIsHasWord(h: string, n: string)
    requires n != "" && OverlapSafe(n)
    ensures Matches(h, n) <==> HasWord(h, n)
  {
    if Matches(h, n) { MatchesSound(h, n); }
    if HasWord(h, n) {
      var i: nat :| OccursAt(h, n, i) && BoundedAt(h, n, i);
      ScanComplete(h, n, 0, i);
    }
  }

  // ---- Other needles do lose matches ----

  /** An alphanumeric byte other than `c`. */
  function Other(c: char): (r: char)
    ensures r != c && IsAsciiAlphanumeric(r)
  {
    if c == 'a' then 'b' else 'a'
  }

  /** A text in which the needle overlaps itself by a shift of `k`, the first copy being unbounded. */
  function Overlapped(n: string, k: nat): string
    requires 0 < k < |n|
  {
    [Other(n[0])] + n[..k] + n
  }

  lemma OverlappedOccurrences(n: string, k: nat)
    requires SelfOverlap(n, k)
    ensures var h := Overlapped(n, k);
            !OccursAt(h, n, 0) && OccursAt(h, n, 1) && OccursAt(h, n, k + 1)
  {
    var h := Overlapped(n, k);
    assert h[0 + 0] != n[0];
    forall j | 0 <= j < |n|
      ensures h[1 + j] == n[j]
    {
      if j >= k { assert n[k + (j - k)] == n[j - k]; }
    }
  }

  /** The loop stops at the copy at 1 and resumes too late for the one at `k + 1`. */
  lemma SecondCopyIsSkipped(h: string, n: string, k: nat)
    requires 0 < k < |n| && |h| == 1 + k + |n|
    requires !OccursAt(h, n, 0) && OccursAt(h, n, 1)
    requires IsAsciiAlphanumeric(h[0])
    ensures !Matches(h, n)
  {
    assert FindFrom(h, n, 0) == 1;
    assert !BoundedAt(h, n, 1);
    assert FindFrom(h, n, 1 + |n|) > |h|;
    assert !Scan(h, n, 1 + |n|);
  }

  lemma OverlappedIsLost(n: string, k: nat)
    requires SelfOverlap(n, k) && !IsAsciiAlphanumeric(n[k - 1])
    ensures HasWord(Overlapped(n, k), n) && !Matches(Overlapped(n, k), n)
  {
    var h := Overlapped(n, k);
    OverlappedOccurrences(n, k);
    SecondCopyIsSkipped(h, n, k);
    assert h[k] == n[k - 1];
    assert BoundedAt(h, n, k + 1);
  }

  /** The loop agrees with the reference on every text exactly when the needle is overlap-safe. */
  lemma SkippingIsExactIff(n: string)
    requires n != ""
    ensures (forall h :: Matches(h, n) <==> HasWord(h, n)) <==> OverlapSafe(n)
  {
    if OverlapSafe(n) {
      forall h
        ensures Matches(h, n) <==> HasWord(h, n)
      {
        MatchesIsHasWord(h, n);
      }
    } else {
      var k: nat :| 0 < k < |n| && SelfOverlap(n, k) && !IsAsciiAlphanumeric(n[k - 1]);
      OverlappedIsLost(n, k);
    }
  }

  // ---- Intent detection ----

  datatype RequestIntent = Chat | PersonalTask | BusinessQuery | DecisionSupport | DeepResearch

  const DECISION: seq<string> := ["decision", "decide", "recommend", "should we"]
  const RESEARCH: seq<string> := ["research", "analyze", "investigate", "compare"]
  const BUSINESS: seq<string> := ["product", "order", "supplier", "quality"]
  const PERSONAL: seq<string> := ["my", "i"]

  /** The keyword tables in the order in which they are tried. */
  const TABLES: seq<(seq<string>, RequestIntent)> :=
    [(DECISION, DecisionSupport), (RESEARCH, DeepResearch), (BUSINESS, BusinessQuery), (PERSONAL, PersonalTask)]

  method AnyKeyword(query: string, keywords: seq<string>) returns (r: bool)
    ensures r <==> exists k :: 0 <= k < |keywords| && Matches(query, keywords[k])
  {
    for i := 0 to |keywords|
      invariant forall k :: 0 <= k < i ==> !Matches(query, keywords[k])
    {
      var m := MatchesWord(query, keywords[i]);
      if m { return true; }
    }
    return false;
  }

  /** `detect_intent` on an already lowercased query. */
  method DetectIntent(query: string) returns (r: RequestIntent)
    ensures r == FirstIntent(query, 0)
  {
    for t := 0 to |TABLES|
      invariant FirstIntent(query, 0) == FirstIntent(query, t)
    {
      var hit := AnyKeyword(query, TABLES[t].0);
      KeywordsSafe(t);
      forall k | 0 <= k < |TABLES[t].0|
        ensures Matches(query, TABLES[t].0[k]) <==> HasWord(query, TABLES[t].0[k])
      {
        MatchesIsHasWord(query, TABLES[t].0[k]);
      }
      if hit { return TABLES[t].1; }
    }
    return Chat;
  }

  ghost predicate Mentions(query: string, keywords: seq<string>) {
    exists k :: 0 <= k < |keywords| && HasWord(query, keywords[k])
  }

  /** The first table, from `t` on, of which the query contains a whole word or phrase. */
  ghost function FirstIntent(query: string, t: nat): RequestIntent
    requires t <= |TABLES|
    decreases |TABLES| - t
  {
    if t == |TABLES| then Chat
    else if Mentions(query, TABLES[t].0) then TABLES[t].1
    else FirstIntent(query, t + 1)
  }

  /** A needle without inner separators is overlap-safe. */
  lemma AlphanumericSafe(n: string)
    requires forall i :: 0 <= i < |n| ==> IsAsciiAlphanumeric(n[i])
    ensures OverlapSafe(n)
  {
  }

  /** Every keyword in the tables is overlap-safe, the phrase with a space included. */
  lemma KeywordsSafe(t: nat)
    requires t < |TABLES|
    ensures forall k :: 0 <= k < |TABLES[t].0| ==> TABLES[t].0[k] != "" && OverlapSafe(TABLES[t].0[k])
  {
    forall k | 0 <= k < |TABLES[t].0|
      ensures TABLES[t].0[k] != "" && OverlapSafe(TABLES[t].0[k])
    {
      var n := TABLES[t].0[k];
      if n == "should we" {
        assert n[7 + 0] != n[0];
      } else {
        AlphanumericSafe(n);
      }
    }
  }

  /** The intents and the words that decide them, in order. */
  lemma IntentMeaning(q: string)
    ensures FirstIntent(q, 0)
         == if HasWord(q, "decision") || HasWord(q, "decide") || HasWord(q, "recommend") || HasWord(q, "should we")
            then DecisionSupport
            else if HasWord(q, "research") || HasWord(q, "analyze") || HasWord(q, "investigate") || HasWord(q, "compare")
            then DeepResearch
            else if HasWord(q, "product") || HasWord(q, "order") || HasWord(q, "supplier") || HasWord(q, "quality")
            then BusinessQuery
            else if HasWord(q, "my") || HasWord(q, "i") then PersonalTask
            else Chat
  {
    MentionsFour(q, "decision", "decide", "recommend", "should we");
    MentionsFour(q, "research", "analyze", "investigate", "compare");
    MentionsFour(q, "product", "order", "supplier", "quality");
    MentionsTwo(q, "my", "i");
    assert FirstIntent(q, 4) == Chat;
    assert FirstIntent(q, 3) == if Mentions(q, PERSONAL) then PersonalTask else FirstIntent(q, 4);
    assert FirstIntent(q, 2) == if Mentions(q, BUSINESS) then BusinessQuery else FirstIntent(q, 3);
    assert FirstIntent(q, 1) == if Mentions(q, RESEARCH) then DeepResearch else FirstIntent(q, 2);
  }

  lemma MentionsFour(q: string, a: string, b: string, c: string, d: string)
    ensures Mentions(q, [a, b, c, d]) <==> HasWord(q, a) || HasWord(q, b) || HasWord(q, c) || HasWord(q, d)
  {
    var ws := [a, b, c, d];
    assert ws[0] == a && ws[1] == b && ws[2] == c && ws[3] == d;
  }

  lemma MentionsTwo(q: string, a: string, b: string)
    ensures Mentions(q, [a, b]) <==> HasWord(q, a) || HasWord(q, b)
  {
    var ws := [a, b];
    assert ws[0] == a && ws[1] == b;
  }
}
