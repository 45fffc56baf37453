/**
  Rendering the selected segments in assembly order with section headers, and
  the budget guarantee that relates the rendered text to the selection's
  account although the two use different orders.
*/
module PackRender {
  import opened PackAccount

  /** The text so far and the section it ends in. */
  datatype Page = Page(text: string, section: string)

  /** `## <section>` with a blank line before it unless the page is empty. */
  function WithHeader(page: Page, section: string): string {
    (if page.text == "" then "" else page.text + "\n") + "## " + section + "\n"
  }

  function RenderOne(page: Page, seg: Segment): Page {
    var head := if seg.section != page.section then WithHeader(page, seg.section) else page.text;
    Page(head + seg.text + "\n", seg.section)
  }

  /** The selected segments before `n`, in assembly order. */
  function Render(segs: seq<Segment>, s: set<nat>, n: nat): Page
    requires n <= |segs|
  {
    if n == 0 then Page("", "")
    else
      var page := Render(segs, s, n - 1);
      if n - 1 in s then RenderOne(page, segs[n - 1]) else page
  }

  /** Segments of one section stand together. */
  ghost predicate Contiguous(segs: seq<Segment>) {
    forall i, j, k :: 0 <= i < j < k < |segs| && segs[i].section == segs[k].section ==> segs[j].section == segs[i].section
  }

  /** The page ends in the section of the last selected segment. */
  lemma {:induction false} PageSection(segs: seq<Segment>, s: set<nat>, n: nat)
    requires n <= |segs|
    ensures var page := Render(segs, s, n);
            if page.text == "" then page.section == "" && forall j :: 0 <= j < n ==> j !in s
            else exists j :: 0 <= j < n && j in s && segs[j].section == page.section && forall k :: j < k < n ==> k !in s
  {
    if n > 0 {
      PageSection(segs, s, n - 1);
      if n - 1 in s {
        var page := Render(segs, s, n);
        assert page.text != "" && segs[n - 1].section == page.section;
      }
    }
  }

  /** With contiguous sections a header is printed only for the first selected segment of its section. */
  lemma HeaderIsFirst(segs: seq<Segment>, s: set<nat>, n: nat)
    requires Contiguous(segs) && n < |segs| && Seen(segs, s, n, segs[n].section)
    ensures Render(segs, s, n).section == segs[n].section
  {
    PageSection(segs, s, n);
    var i :| 0 <= i < n && i in s && segs[i].section == segs[n].section;
    var page := Render(segs, s, n);
    var j :| 0 <= j < n && j in s && segs[j].section == page.section && forall k :: j < k < n ==> k !in s;
    assert i <= j;
  }

  /** The rendered text never exceeds the account. */
  lemma {:induction false} RenderWithinAccount(segs: seq<Segment>, s: set<nat>, n: nat)
    requires Contiguous(segs) && n <= |segs|
    ensures |Render(segs, s, n).text| <= Account(segs, s, n)
  {
    if n > 0 {
      RenderWithinAccount(segs, s, n - 1);
      if n - 1 in s && Seen(segs, s, n - 1, segs[n - 1].section) {
        HeaderIsFirst(segs, s, n - 1);
      }
    }
  }

  /** How many sections the selected segments before `n` come from. */
  function Sections(segs: seq<Segment>, s: set<nat>, n: nat): nat
    requires n <= |segs|
  {
    if n == 0 then 0
    else Sections(segs, s, n - 1) + if n - 1 in s && !Seen(segs, s, n - 1, segs[n - 1].section) then 1 else 0
  }

  lemma {:induction false} NoSections(segs: seq<Segment>, s: set<nat>, n: nat)
    requires n <= |segs|
    ensures Sections(segs, s, n) == 0 <==> Render(segs, s, n).text == ""
  {
    if n > 0 {
      NoSections(segs, s, n - 1);
      PageSection(segs, s, n - 1);
    }
  }

  /** What headers printed again for a section already seen add to the text. */
  function Reprinted(segs: seq<Segment>, s: set<nat>, n: nat): nat
    requires n <= |segs|
  {
    if n == 0 then 0
    else
      Reprinted(segs, s, n - 1)
      + var section := segs[n - 1].section;
        if n - 1 in s && Seen(segs, s, n - 1, section) && Render(segs, s, n - 1).section != section then |section| + 5 else 0
  }

  /**
    The exact size of the text for named sections in any order: it falls short
    of the account by one byte a section and one more, and exceeds it by what
    is printed again.
  */
  lemma {:induction false} RenderSlack(segs: seq<Segment>, s: set<nat>, n: nat)
    requires n <= |segs| && forall i :: 0 <= i < |segs| ==> segs[i].section != ""
    ensures var k := Sections(segs, s, n);
            Account(segs, s, n) + Reprinted(segs, s, n) == |Render(segs, s, n).text| + k + if k == 0 then 0 else 1
  {
    if n > 0 {
      RenderSlack(segs, s, n - 1);
      NoSections(segs, s, n - 1);
      PageSection(segs, s, n - 1);
      if n - 1 in s && !Seen(segs, s, n - 1, segs[n - 1].section) {
        assert Render(segs, s, n - 1).section != segs[n - 1].section;
      }
    }
  }

  /** Contiguous sections print no header again. */
  lemma {:induction false} ContiguousNeverReprints(segs: seq<Segment>, s: set<nat>, n: nat)
    requires Contiguous(segs) && n <= |segs|
    ensures Reprinted(segs, s, n) == 0
  {
    if n > 0 {
      ContiguousNeverReprints(segs, s, n - 1);
      if n - 1 in s && Seen(segs, s, n - 1, segs[n - 1].section) {
        HeaderIsFirst(segs, s, n - 1);
      }
    }
  }
}
