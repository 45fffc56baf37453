/**
  Cursor pagination of search results: the cursor is the printed offset of the
  next page in the score-sorted result list. Scores are an opaque total order.
*/
module SearchPaging {
  import opened Wrappers
  import opened Sorting

  datatype Hit = Hit(gene: string, score: int)

  const USIZE_MAX: nat := 0xFFFF_FFFF_FFFF_FFFF

  // ---- Cursors are decimal numbers ----

  function Digit(d: nat): char
    requires d < 10
  {
    "0123456789"[d]
  }

  /** `usize::to_string` */
  function Decimal(n: nat): (r: string)
    ensures r != ""
  {
    if n < 10 then [Digit(n)] else Decimal(n / 10) + [Digit(n % 10)]
  }

  function DigitValue(c: char): Option<nat> {
    if '0' <= c <= '9' then Some(c as int - '0' as int) else None
  }

  /** The number written by the first `n` characters, unless one is no digit or the value overflows. */
  function ParseDigits(s: string, n: nat): Option<nat>
    requires n <= |s|
  {
    if n == 0 then Some(0)
    else
      match (ParseDigits(s, n - 1), DigitValue(s[n - 1]))
      case (Some(v), Some(d)) => if 10 * v + d > USIZE_MAX then None else Some(10 * v + d)
      case _ => None
  }

  /** `str::parse::<usize>`: one leading plus sign is accepted. */
  function ParseUsize(s: string): Option<nat> {
    if s == "" then None
    else if s[0] == '+' then (if |s| == 1 then None else ParseDigits(s[1..], |s| - 1))
    else ParseDigits(s, |s|)
  }

  lemma DigitRoundTrip(d: nat)
    requires d < 10
    ensures DigitValue(Digit(d)) == Some(d) && Digit(d) != '+'
  {
  }

  lemma {:induction false} ParsePrefix(a: string, b: string, n: nat)
    requires n <= |a|
    ensures ParseDigits(a + b, n) == ParseDigits(a, n)
  {
    if n > 0 { ParsePrefix(a, b, n - 1); }
  }

  lemma {:induction false} ParseDecimalDigits(n: nat)
    requires n <= USIZE_MAX
    ensures ParseDigits(Decimal(n), |Decimal(n)|) == Some(n) && Decimal(n)[0] != '+'
  {
    DigitRoundTrip(n % 10);
    if n < 10 {
      assert ParseDigits([Digit(n)], 0) == Some(0);
    } else {
      ParseDecimalDigits(n / 10);
      ParsePrefix(Decimal(n / 10), [Digit(n % 10)], |Decimal(n / 10)|);
      assert 10 * (n / 10) + n % 10 == n;
    }
  }

  /** A printed offset is read back. */
  lemma CursorRoundTrip(n: nat)
    requires n <= USIZE_MAX
    ensures ParseUsize(Decimal(n)) == Some(n)
  {
    ParseDecimalDigits(n);
  }

  // ---- One page ----

  function ByScore(): (Hit, Hit) -> bool {
    (a: Hit, b: Hit) => a.score >= b.score
  }

  function Clamp(limit: nat): (r: nat)
    ensures 1 <= r <= 100 && (1 <= limit <= 100 ==> r == limit)
  {
    if limit < 1 then 1 else if limit > 100 then 100 else limit
  }

  /** A cursor that is no number starts from the beginning. */
  function Offset(cursor: Option<string>): nat {
    match cursor
    case None => 0
    case Some(c) => (match ParseUsize(c) case None => 0 case Some(n) => n)
  }

  function Min(a: nat, b: nat): nat {
    if a <= b then a else b
  }

  function PageAt(sorted: seq<Hit>, offset: nat, limit: nat): seq<Hit> {
    var from := Min(offset, |sorted|);
    sorted[from..Min(from + limit, |sorted|)]
  }

  /** The cursor put on every item of the page, if anything is left. */
  function NextCursor(sorted: seq<Hit>, offset: nat, limit: nat): Option<string> {
    var next := offset + |PageAt(sorted, offset, limit)|;
    if next < |sorted| then Some(Decimal(next)) else None
  }

  /** The end of `search`: sort by score, skip to the cursor, take a page. */
  method SearchPage(results: seq<Hit>, cursor: Option<string>, limit: nat) returns (page: seq<Hit>, next: Option<string>)
    ensures var sorted := Sort(results, ByScore());
            && page == PageAt(sorted, Offset(cursor), Clamp(limit))
            && next == NextCursor(sorted, Offset(cursor), Clamp(limit))
            && (next.Some? ==> page != [])
  {
    var sorted := Sort(results, ByScore());
    var offset := Offset(cursor);
    var clamped := Clamp(limit);
    page := PageAt(sorted, offset, clamped);
    next := None;
    if offset + |page| < |sorted| {
      next := Some(Decimal(offset + |page|));
    }
  }

  lemma PageContents(sorted: seq<Hit>, offset: nat, asked: nat)
    ensures var page := PageAt(sorted, offset, asked);
            && |page| == (if offset >= |sorted| then 0 else if |sorted| - offset < asked then |sorted| - offset else asked)
            && forall k :: 0 <= k < |page| ==> page[k] == sorted[offset + k]
  {
  }

  lemma NextMeaning(sorted: seq<Hit>, offset: nat, asked: nat)
    requires |sorted| <= USIZE_MAX
    ensures var n, next := offset + |PageAt(sorted, offset, asked)|, NextCursor(sorted, offset, asked);
            (next.Some? <==> n < |sorted|) && (next.Some? ==> ParseUsize(next.value) == Some(n))
  {
    var n := offset + |PageAt(sorted, offset, asked)|;
    if n < |sorted| { CursorRoundTrip(n); }
  }

  lemma OffsetMeaning(cursor: Option<string>, n: nat)
    ensures cursor.None? || ParseUsize(cursor.value).None? ==> Offset(cursor) == 0
    ensures cursor.Some? && ParseUsize(cursor.value) == Some(n) ==> Offset(cursor) == n
  {
  }

  /**
    A page holds the hits from the offset on, at least one and at most a hundred
    being asked for; the cursor, given exactly if hits remain, reads as the next
    offset. No cursor, or one that is no number, means the beginning.
  */
  lemma PageMeaning(sorted: seq<Hit>, cursor: Option<string>, limit: nat, asked: nat, offset: nat)
    requires |sorted| <= USIZE_MAX
    requires asked == if limit == 0 then 1 else if limit > 100 then 100 else limit
    requires if cursor.Some? && ParseUsize(cursor.value).Some? then ParseUsize(cursor.value) == Some(offset) else offset == 0
    ensures Offset(cursor) == offset && Clamp(limit) == asked
    ensures var page, next := PageAt(sorted, offset, asked), NextCursor(sorted, offset, asked);
            && |page| == (if offset >= |sorted| then 0 else if |sorted| - offset < asked then |sorted| - offset else asked)
            && (forall k :: 0 <= k < |page| ==> page[k] == sorted[offset + k])
            && (next.Some? <==> offset + |page| < |sorted|)
            && (next.Some? ==> ParseUsize(next.value) == Some(offset + |page|))
  {
    OffsetMeaning(cursor, offset);
    PageContents(sorted, offset, asked);
    NextMeaning(sorted, offset, asked);
  }

  // ---- Following the cursor ----

  /** The pages a client sees that starts at `cursor` and follows `next_cursor`. */
  function Crawl(sorted: seq<Hit>, cursor: Option<string>, limit: nat): seq<seq<Hit>>
    requires 1 <= limit && |sorted| <= USIZE_MAX
    decreases |sorted| - Offset(cursor)
  {
    var offset := Offset(cursor);
    var page := PageAt(sorted, offset, limit);
    match NextCursor(sorted, offset, limit)
    case None => [page]
    case Some(c) =>
      CursorRoundTrip(offset + |page|);
      [page] + Crawl(sorted, Some(c), limit)
  }

  function Flatten(pages: seq<seq<Hit>>): seq<Hit> {
    if pages == [] then [] else pages[0] + Flatten(pages[1..])
  }

  /** All pages but the last are full, and only an empty result has an empty page. */
  ghost predicate Full(pages: seq<seq<Hit>>, limit: nat) {
    && pages != []
    && (forall k :: 0 <= k < |pages| - 1 ==> |pages[k]| == limit)
    && |pages[|pages| - 1]| <= limit
    && (|pages| > 1 ==> pages[|pages| - 1] != [])
  }

  /** `pages` cut `hits` into consecutive full pages, each hit in exactly one place. */
  ghost predicate Cuts(pages: seq<seq<Hit>>, hits: seq<Hit>, limit: nat) {
    Full(pages, limit) && Flatten(pages) == hits
  }

  /** The consecutive pages from an offset on, with no cursor in between. */
  function Pages(sorted: seq<Hit>, offset: nat, limit: nat): (pages: seq<seq<Hit>>)
    requires 1 <= limit
    ensures offset <= |sorted| ==> Cuts(pages, sorted[offset..], limit)
    decreases |sorted| - offset
  {
    var page := PageAt(sorted, offset, limit);
    var next := offset + |page|;
    if next < |sorted| then
      PageSplits(sorted, offset, limit);
      var rest := Pages(sorted, next, limit);
      JoinPage(page, rest, sorted[next..], limit);
      [page] + rest
    else
      LastPage(page, limit);
      [page]
  }

  /** Printing the offset and reading it back loses nothing on the way. */
  lemma {:induction false} CrawlIsPages(sorted: seq<Hit>, cursor: Option<string>, limit: nat)
    requires 1 <= limit && |sorted| <= USIZE_MAX
    ensures Crawl(sorted, cursor, limit) == Pages(sorted, Offset(cursor), limit)
    decreases |sorted| - Offset(cursor)
  {
    var offset := Offset(cursor);
    var next := offset + |PageAt(sorted, offset, limit)|;
    if next < |sorted| {
      CursorRoundTrip(next);
      CrawlIsPages(sorted, Some(Decimal(next)), limit);
    }
  }

  /** A page and what comes after it; only the last page may be short. */
  lemma PageSplits(sorted: seq<Hit>, offset: nat, limit: nat)
    requires 1 <= limit && offset <= |sorted|
    ensures var page := PageAt(sorted, offset, limit);
            && offset + |page| <= |sorted| && |page| <= limit
            && page + sorted[offset + |page|..] == sorted[offset..]
            && (offset + |page| < |sorted| ==> |page| == limit)
            && (offset + |page| == |sorted| ==> page == sorted[offset..])
  {
  }

  lemma LastPage(page: seq<Hit>, limit: nat)
    ensures |page| <= limit ==> Cuts([page], page, limit)
  {
    assert [page][1..] == [];
  }

  lemma JoinPage(page: seq<Hit>, rest: seq<seq<Hit>>, tail: seq<Hit>, limit: nat)
    requires |page| == limit && tail != [] && Cuts(rest, tail, limit)
    ensures Cuts([page] + rest, page + tail, limit)
  {
    var pages := [page] + rest;
    assert pages[1..] == rest;
    if |rest| == 1 {
      assert rest[1..] == [] && Flatten([]) == [];
      assert tail == rest[0] + Flatten(rest[1..]) == rest[0];
    }
  }

  /** Full pages are as few as the limit allows: the total divided by it, rounded up. */
  lemma PageCount(pages: seq<seq<Hit>>, hits: seq<Hit>, limit: nat)
    requires 1 <= limit && Cuts(pages, hits, limit) && hits != []
    ensures |pages| == (|hits| + limit - 1) / limit
  {
    PageCountBounds(pages, hits, limit);
    Quotient(|hits|, limit, |pages|);
  }

  lemma {:induction false} PageCountBounds(pages: seq<seq<Hit>>, hits: seq<Hit>, limit: nat)
    requires 1 <= limit && Cuts(pages, hits, limit) && hits != []
    ensures (|pages| - 1) * limit < |hits| <= |pages| * limit
    decreases |pages|
  {
    var rest := pages[1..];
    if rest == [] {
      assert hits == pages[0] + Flatten(rest) == pages[0];
    } else {
      assert rest[|rest| - 1] == pages[|pages| - 1] != [];
      assert |rest| > 1 ==> rest[0] == pages[1];
      assert Flatten(rest) == rest[0] + Flatten(rest[1..]);
      PageCountBounds(rest, Flatten(rest), limit);
      OneMore(|rest|, |Flatten(rest)|, limit);
      assert |pages| == |rest| + 1;
    }
  }

  lemma OneMore(n: nat, total: nat, limit: nat)
    requires n >= 1 && (n - 1) * limit < total <= n * limit
    ensures n * limit < total + limit <= (n + 1) * limit
  {
  }

  lemma Quotient(total: nat, limit: nat, n: nat)
    requires 1 <= limit && 1 <= n && (n - 1) * limit < total <= n * limit
    ensures n == (total + limit - 1) / limit
  {
    var q := (total + limit - 1) / limit;
    Monotone(q + 1, n, limit);
    Monotone(n + 1, q, limit);
    assert (q + 1) * limit == q * limit + limit;
    assert (n + 1) * limit == (n - 1) * limit + 2 * limit;
  }

  lemma Monotone(a: nat, b: nat, limit: nat)
    ensures a <= b ==> a * limit <= b * limit
  {
  }

  /** The total divided by the limit, rounded up; an empty result still has one page. */
  function PagesNeeded(total: nat, limit: nat): nat
    requires 1 <= limit
  {
    if total == 0 then 1 else (total + limit - 1) / limit
  }

  /** Following the cursor cuts any list into full pages, as few as possible. */
  lemma CrawlCuts(sorted: seq<Hit>, limit: nat)
    requires 1 <= limit && |sorted| <= USIZE_MAX
    ensures Cuts(Crawl(sorted, None, limit), sorted, limit)
    ensures |Crawl(sorted, None, limit)| == PagesNeeded(|sorted|, limit)
  {
    CrawlIsPages(sorted, None, limit);
    assert sorted[0..] == sorted;
    if sorted != [] { PageCount(Pages(sorted, 0, limit), sorted, limit); }
  }

  lemma SortedByScore(results: seq<Hit>)
    ensures var sorted := Sort(results, ByScore());
            && |sorted| == |results| && multiset(sorted) == multiset(results)
            && forall j, k :: 0 <= j < k < |sorted| ==> sorted[j].score >= sorted[k].score
  {
    var sorted := Sort(results, ByScore());
    SortPermutes(results, ByScore());
    SortSorts(results, ByScore());
    forall j, k | 0 <= j < k < |sorted|
      ensures sorted[j].score >= sorted[k].score
    {
      assert ByScore()(sorted[j], sorted[k]);
    }
  }

  /**
    From the start, following the cursor visits the score-sorted list as
    consecutive pages that cover each result exactly once, in as many pages as
    the clamped limit needs.
  */
  lemma CrawlCoversOnce(results: seq<Hit>, sorted: seq<Hit>, limit: nat, clamped: nat)
    requires |results| <= USIZE_MAX && sorted == Sort(results, ByScore())
    requires clamped == if limit == 0 then 1 else if limit > 100 then 100 else limit
    ensures |sorted| == |results| && multiset(sorted) == multiset(results)
    ensures forall j, k :: 0 <= j < k < |sorted| ==> sorted[j].score >= sorted[k].score
    ensures Cuts(Crawl(sorted, None, clamped), sorted, clamped)
    ensures |Crawl(sorted, None, clamped)| == PagesNeeded(|results|, clamped)
  {
    SortedByScore(results);
    CrawlCuts(sorted, clamped);
  }
}
