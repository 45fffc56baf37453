/**
  What the rendered text is, said without the rendering loop: the sections in
  their order, each with its header line and its kept texts, a blank line apart.
*/
module PackLayout {
  import opened PackAccount
  import opened PackRender

  // ---- The document ----

  /** The kept texts of one section among the first `n` segments, in assembly order. */
  function KeptTexts(segs: seq<Segment>, s: set<nat>, section: string, n: nat): seq<string>
    requires n <= |segs|
  {
    if n == 0 then []
    else
      KeptTexts(segs, s, section, n - 1)
      + if n - 1 in s && segs[n - 1].section == section then [segs[n - 1].text] else []
  }

  /** The first `k` texts, each on a line of its own. */
  function Lined(texts: seq<string>, k: nat): string
    requires k <= |texts|
  {
    if k == 0 then "" else Lined(texts, k - 1) + texts[k - 1] + "\n"
  }

  function Block(section: string, texts: seq<string>): string {
    "## " + section + "\n" + Lined(texts, |texts|)
  }

  function Glued(before: string, block: string): string {
    (if before == "" then "" else before + "\n") + block
  }

  /** The blocks of the first `m` names that have texts, a blank line apart. */
  function Document(names: seq<string>, lists: seq<seq<string>>, m: nat): string
    requires m <= |names| == |lists|
  {
    if m == 0 then ""
    else
      var before := Document(names, lists, m - 1);
      if lists[m - 1] == [] then before else Glued(before, Block(names[m - 1], lists[m - 1]))
  }

  /** The kept texts of each of the first `m` names. */
  function KeptLists(names: seq<string>, segs: seq<Segment>, s: set<nat>, n: nat, m: nat): (r: seq<seq<string>>)
    requires m <= |names| && n <= |segs|
    ensures |r| == m && forall p :: 0 <= p < m ==> r[p] == KeptTexts(segs, s, names[p], n)
  {
    if m == 0 then [] else KeptLists(names, segs, s, n, m - 1) + [KeptTexts(segs, s, names[m - 1], n)]
  }

  /** The whole text: every name with something kept, in order. */
  function Layout(names: seq<string>, segs: seq<Segment>, s: set<nat>): string {
    Document(names, KeptLists(names, segs, s, |segs|, |names|), |names|)
  }

  // ---- Adding one text ----

  lemma {:induction false} DocumentSame(names: seq<string>, a: seq<seq<string>>, b: seq<seq<string>>, m: nat)
    requires m <= |names| == |a| == |b| && forall q :: 0 <= q < m ==> a[q] == b[q]
    ensures Document(names, a, m) == Document(names, b, m)
  {
    if m > 0 { DocumentSame(names, a, b, m - 1); }
  }

  lemma {:induction false} DocumentEnds(names: seq<string>, a: seq<seq<string>>, p: nat, m: nat)
    requires p <= m <= |names| == |a| && forall q :: p <= q < m ==> a[q] == []
    ensures Document(names, a, m) == Document(names, a, p)
    decreases m
  {
    if p < m { DocumentEnds(names, a, p, m - 1); }
  }

  lemma {:induction false} LinedPrefix(a: seq<string>, b: seq<string>, k: nat)
    requires k <= |a|
    ensures Lined(a + b, k) == Lined(a, k)
  {
    if k > 0 { LinedPrefix(a, b, k - 1); }
  }

  lemma BlockGrows(section: string, texts: seq<string>, text: string)
    ensures Block(section, texts + [text]) == Block(section, texts) + text + "\n"
  {
    LinedPrefix(texts, [text], |texts|);
    var lines := Lined(texts, |texts|);
    assert Lined(texts + [text], |texts + [text]|) == lines + text + "\n";
    assert "## " + section + "\n" + (lines + text + "\n") == "## " + section + "\n" + lines + text + "\n";
  }

  lemma BlockStarts(section: string, text: string)
    ensures Block(section, [] + [text]) == "## " + section + "\n" + text + "\n"
  {
    BlockGrows(section, [], text);
    assert Block(section, []) == "## " + section + "\n";
  }

  lemma GluedGrows(before: string, block: string, text: string)
    ensures Glued(before, block + text + "\n") == Glued(before, block) + text + "\n"
  {
  }

  /** A text for the last name in use goes to the end; for a later one it starts a block. */
  lemma DocumentGrows(names: seq<string>, lists: seq<seq<string>>, p: nat, text: string)
    requires p < |names| == |lists| && forall q :: p < q < |names| ==> lists[q] == []
    ensures Document(names, lists[p := lists[p] + [text]], |names|)
         == if lists[p] == [] then Glued(Document(names, lists, |names|), "## " + names[p] + "\n" + text + "\n")
            else Document(names, lists, |names|) + text + "\n"
  {
    var after := lists[p := lists[p] + [text]];
    DocumentEnds(names, lists, p + 1, |names|);
    DocumentEnds(names, after, p + 1, |names|);
    DocumentSame(names, lists, after, p);
    BlockGrows(names[p], lists[p], text);
    BlockStarts(names[p], text);
    GluedGrows(Document(names, lists, p), Block(names[p], lists[p]), text);
  }

  // ---- Sections in the order of their names ----

  /** The sections follow the names: segment i has the name at `place[i]`, and places never go back. */
  ghost predicate Follows(segs: seq<Segment>, names: seq<string>, place: seq<nat>) {
    && |place| == |segs|
    && (forall p, q :: 0 <= p < q < |names| ==> names[p] != names[q])
    && (forall p :: 0 <= p < |names| ==> names[p] != "")
    && (forall i :: 0 <= i < |segs| ==> place[i] < |names| && segs[i].section == names[place[i]])
    && (forall i, j :: 0 <= i < j < |segs| ==> place[i] <= place[j])
  }

  lemma {:induction false} NoTexts(segs: seq<Segment>, s: set<nat>, section: string, n: nat)
    requires n <= |segs|
    ensures KeptTexts(segs, s, section, n) == [] <==> !Seen(segs, s, n, section)
  {
    if n > 0 { NoTexts(segs, s, section, n - 1); }
  }

  /** Names after the last place have nothing kept. */
  lemma NothingLater(segs: seq<Segment>, s: set<nat>, names: seq<string>, place: seq<nat>, n: nat, q: nat)
    requires Follows(segs, names, place) && n <= |segs| && q < |names|
    requires forall i :: 0 <= i < n ==> place[i] < q
    ensures KeptTexts(segs, s, names[q], n) == []
  {
    NoTexts(segs, s, names[q], n);
    forall j | 0 <= j < n
      ensures segs[j].section != names[q]
    {
      assert place[j] < q;
    }
  }

  /** The page's section is that of the last kept segment. */
  lemma SectionStands(segs: seq<Segment>, s: set<nat>, names: seq<string>, place: seq<nat>, n: nat)
    requires Follows(segs, names, place) && n < |segs|
    ensures Render(segs, s, n).section == segs[n].section <==> Seen(segs, s, n, segs[n].section)
  {
    PageSection(segs, s, n);
    var page := Render(segs, s, n);
    if i :| 0 <= i < n && i in s && segs[i].section == segs[n].section {
      assert page.text != "";
      var j :| 0 <= j < n && j in s && segs[j].section == page.section && forall k :: j < k < n ==> k !in s;
      assert i <= j && place[i] <= place[j] <= place[n];
      assert place[i] == place[n];
    } else {
      assert segs[n].section == names[place[n]] != "";
    }
  }

  lemma ListsGrow(segs: seq<Segment>, s: set<nat>, names: seq<string>, place: seq<nat>, n: nat)
    requires Follows(segs, names, place) && n < |segs|
    ensures var lists := KeptLists(names, segs, s, n, |names|);
            KeptLists(names, segs, s, n + 1, |names|)
            == if n in s then lists[place[n] := lists[place[n]] + [segs[n].text]] else lists
  {
    var lists, after := KeptLists(names, segs, s, n, |names|), KeptLists(names, segs, s, n + 1, |names|);
    forall p | 0 <= p < |names|
      ensures after[p] == if n in s && p == place[n] then lists[p] + [segs[n].text] else lists[p]
    {
      assert p != place[n] ==> names[p] != segs[n].section;
      assert KeptTexts(segs, s, names[p], n) + [] == KeptTexts(segs, s, names[p], n);
    }
  }

  lemma LaterAreEmpty(segs: seq<Segment>, s: set<nat>, names: seq<string>, place: seq<nat>, n: nat)
    requires Follows(segs, names, place) && n < |segs|
    ensures forall q :: place[n] < q < |names| ==> KeptLists(names, segs, s, n, |names|)[q] == []
  {
    forall q | place[n] < q < |names|
      ensures KeptTexts(segs, s, names[q], n) == []
    {
      NothingLater(segs, s, names, place, n, q);
    }
  }

  lemma Regrouped(a: string, b: string, c: string, d: string)
    ensures a + "## " + b + c + d + c == a + ("## " + b + c + d + c)
    ensures "" + "## " + b + c + d + c == "## " + b + c + d + c
  {
  }

  lemma Printed(page: Page, seg: Segment)
    ensures RenderOne(page, seg).text
         == if page.section != seg.section then Glued(page.text, "## " + seg.section + "\n" + seg.text + "\n")
            else page.text + seg.text + "\n"
  {
    Regrouped(page.text + "\n", seg.section, "\n", seg.text);
    Regrouped("", seg.section, "\n", seg.text);
  }

  lemma NextText(segs: seq<Segment>, s: set<nat>, names: seq<string>, place: seq<nat>, n: nat, lists: seq<seq<string>>)
    requires Follows(segs, names, place) && n < |segs| && n in s && lists == KeptLists(names, segs, s, n, |names|)
    requires Render(segs, s, n).text == Document(names, lists, |names|)
    ensures RenderOne(Render(segs, s, n), segs[n]).text
         == Document(names, lists[place[n] := lists[place[n]] + [segs[n].text]], |names|)
  {
    LaterAreEmpty(segs, s, names, place, n);
    DocumentGrows(names, lists, place[n], segs[n].text);
    SectionStands(segs, s, names, place, n);
    NoTexts(segs, s, segs[n].section, n);
    Printed(Render(segs, s, n), segs[n]);
  }

  lemma {:induction false} RenderIsDocument(segs: seq<Segment>, s: set<nat>, names: seq<string>, place: seq<nat>, n: nat)
    requires Follows(segs, names, place) && n <= |segs|
    ensures Render(segs, s, n).text == Document(names, KeptLists(names, segs, s, n, |names|), |names|)
  {
    if n == 0 {
      DocumentEnds(names, KeptLists(names, segs, s, 0, |names|), 0, |names|);
    } else {
      RenderIsDocument(segs, s, names, place, n - 1);
      ListsGrow(segs, s, names, place, n - 1);
      if n - 1 in s { NextText(segs, s, names, place, n - 1, KeptLists(names, segs, s, n - 1, |names|)); }
    }
  }

  // ---- Contiguous sections ----

  /** The sections of the first `n` segments, in the order in which they first occur. */
  function SectionNames(segs: seq<Segment>, n: nat): seq<string>
    requires n <= |segs|
  {
    if n == 0 then []
    else
      var before := SectionNames(segs, n - 1);
      if segs[n - 1].section in before then before else before + [segs[n - 1].section]
  }

  /** One more segment, of the last name. */
  lemma FollowsSnoc(segs: seq<Segment>, names: seq<string>, place: seq<nat>, seg: Segment)
    requires Follows(segs, names, place) && names != [] && seg.section == names[|names| - 1]
    ensures Follows(segs + [seg], names, place + [|names| - 1])
  {
  }

  lemma FollowsName(segs: seq<Segment>, names: seq<string>, place: seq<nat>, name: string)
    requires Follows(segs, names, place) && name != "" && name !in names
    ensures Follows(segs, names + [name], place)
  {
  }

  /** Contiguous, named sections follow their names. */
  lemma {:induction false} ContiguousFollows(segs: seq<Segment>, n: nat) returns (place: seq<nat>)
    requires Contiguous(segs) && n <= |segs| && forall i :: 0 <= i < |segs| ==> segs[i].section != ""
    ensures Follows(segs[..n], SectionNames(segs, n), place)
    ensures n > 0 ==> SectionNames(segs, n) != [] && place[n - 1] == |SectionNames(segs, n)| - 1
  {
    if n == 0 {
      place := [];
    } else {
      var before := ContiguousFollows(segs, n - 1);
      if segs[n - 1].section in SectionNames(segs, n - 1) { LastStands(segs, n, before); }
      place := FollowsNext(segs[..n - 1], SectionNames(segs, n - 1), before, segs[n - 1], SectionNames(segs, n));
      assert segs[..n - 1] + [segs[n - 1]] == segs[..n];
    }
  }

  /** One more segment, of the last name or of a new one. */
  lemma FollowsNext(segs: seq<Segment>, names: seq<string>, place: seq<nat>, seg: Segment, after: seq<string>)
    returns (all: seq<nat>)
    requires Follows(segs, names, place) && seg.section != ""
    requires if seg.section in names then after == names && seg.section == names[|names| - 1]
             else after == names + [seg.section]
    ensures Follows(segs + [seg], after, all) && after != [] && |all| == |segs| + 1 && all[|segs|] == |after| - 1
  {
    if seg.section !in names { FollowsName(segs, names, place, seg.section); }
    FollowsSnoc(segs, after, place, seg);
    all := place + [|after| - 1];
  }

  /** A section that occurred before is still the last one. */
  lemma LastStands(segs: seq<Segment>, n: nat, place: seq<nat>)
    requires Contiguous(segs) && 0 < n <= |segs| && segs[n - 1].section in SectionNames(segs, n - 1)
    requires Follows(segs[..n - 1], SectionNames(segs, n - 1), place)
    requires n > 1 ==> SectionNames(segs, n - 1) != [] && place[n - 2] == |SectionNames(segs, n - 1)| - 1
    ensures var names := SectionNames(segs, n - 1); names != [] && names[|names| - 1] == segs[n - 1].section
  {
    var names := SectionNames(segs, n - 1);
    NamesOccur(segs, n - 1, segs[n - 1].section);
    var i :| 0 <= i < n - 1 && segs[i].section == segs[n - 1].section;
    assert segs[..n - 1][n - 2] == segs[n - 2];
    assert segs[n - 2].section == segs[n - 1].section;
  }

  lemma {:induction false} NamesOccur(segs: seq<Segment>, n: nat, section: string)
    requires n <= |segs|
    ensures section in SectionNames(segs, n) <==> exists i :: 0 <= i < n && segs[i].section == section
  {
    if n > 0 { NamesOccur(segs, n - 1, section); }
  }

  /** With contiguous, named sections the text is their layout in the order of first occurrence. */
  lemma RenderedText(segs: seq<Segment>, s: set<nat>)
    requires Contiguous(segs) && forall i :: 0 <= i < |segs| ==> segs[i].section != ""
    ensures Render(segs, s, |segs|).text == Layout(SectionNames(segs, |segs|), segs, s)
  {
    var place := ContiguousFollows(segs, |segs|);
    assert segs[..|segs|] == segs;
    RenderIsDocument(segs, s, SectionNames(segs, |segs|), place, |segs|);
  }
}
