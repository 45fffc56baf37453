/**
  The context assembler's packing step and the way `assemble` builds its input:
  seven labelled groups in a fixed order, low-confidence texts marked.
*/
module ContextAssembler {
  import opened Sequences
  import opened Authority
  import opened IndexOrder
  import opened PackAccount
  import opened PackSelect
  import opened PackRender
  import opened PackLayout
  import opened Sorting

  const CHARS_PER_TOKEN: nat := 4
  const USIZE_MAX: nat := 0xFFFF_FFFF_FFFF_FFFF

  function EstimateTokens(text: string): nat {
    |text| / CHARS_PER_TOKEN
  }

  function ResolveBudget(planBudget: nat, defaultBudget: nat): nat {
    if planBudget == 0 then defaultBudget else planBudget
  }

  /** The multiplication saturates. */
  function CharBudget(budget: nat): nat {
    if budget * CHARS_PER_TOKEN > USIZE_MAX then USIZE_MAX else budget * CHARS_PER_TOKEN
  }

  /** Rendering a list of indices one by one. */
  function RenderList(segs: seq<Segment>, list: seq<nat>, k: nat): Page
    requires k <= |list| && forall j :: 0 <= j < |list| ==> list[j] < |segs|
  {
    if k == 0 then Page("", "") else RenderOne(RenderList(segs, list, k - 1), segs[list[k - 1]])
  }

  lemma {:induction false} RenderListPrefix(segs: seq<Segment>, list: seq<nat>, more: seq<nat>, k: nat)
    requires k <= |list| && forall j :: 0 <= j < |list + more| ==> (list + more)[j] < |segs|
    ensures forall j :: 0 <= j < |list| ==> list[j] < |segs|
    ensures RenderList(segs, list + more, k) == RenderList(segs, list, k)
  {
    assert forall j :: 0 <= j < |list| ==> (list + more)[j] == list[j];
    if k > 0 { RenderListPrefix(segs, list, more, k - 1); }
  }

  lemma RenderListSnoc(segs: seq<Segment>, list: seq<nat>, i: nat)
    requires i < |segs| && forall j :: 0 <= j < |list| ==> list[j] < |segs|
    ensures forall j :: 0 <= j < |list + [i]| ==> (list + [i])[j] < |segs|
    ensures RenderList(segs, list + [i], |list + [i]|) == RenderOne(RenderList(segs, list, |list|), segs[i])
  {
    RenderListPrefix(segs, list, [i], |list|);
  }

  lemma AscendingInRange(segs: seq<Segment>, s: set<nat>, n: nat)
    requires n <= |segs|
    ensures forall j :: 0 <= j < |Ascending(s, n)| ==> Ascending(s, n)[j] < |segs|
  {
    AscendingMeaning(s, n);
    var r := Ascending(s, n);
    assert forall j :: 0 <= j < |r| ==> r[j] in r;
  }

  lemma {:induction false} RenderAscending(segs: seq<Segment>, s: set<nat>, n: nat)
    requires n <= |segs|
    ensures forall j :: 0 <= j < |Ascending(s, n)| ==> Ascending(s, n)[j] < |segs|
    ensures RenderList(segs, Ascending(s, n), |Ascending(s, n)|) == Render(segs, s, n)
  {
    AscendingInRange(segs, s, n);
    if n > 0 {
      RenderAscending(segs, s, n - 1);
      if n - 1 in s {
        RenderListSnoc(segs, Ascending(s, n - 1), n - 1);
      } else {
        assert Ascending(s, n) == Ascending(s, n - 1);
      }
    }
  }

  // ---- The method ----

  /** What is kept under a token budget. */
  function Kept(segs: seq<Segment>, budget: nat): set<nat> {
    Picked(segs, Order(segs), CharBudget(budget))
  }

  /** State of the greedy loop after `k` tries. */
  ghost predicate Greedy(segs: seq<Segment>, order: seq<nat>, budget: nat, k: nat,
                         selected: seq<nat>, total: nat, seen: set<string>, compressed: bool)
    requires k <= |order|
  {
    var s := Pick(segs, order, budget, k);
    && Distinct(selected) && (forall i :: i in selected <==> i in s)
    && total == Total(segs, s)
    && (forall section :: section in seen <==> Seen(segs, s, |segs|, section))
    && (compressed <==> |selected| < k) && |selected| <= k
  }

  lemma GreedyStep(segs: seq<Segment>, order: seq<nat>, budget: nat, k: nat,
                   selected: seq<nat>, total: nat, seen: set<string>, compressed: bool)
    requires Permutes(order, |segs|) && k < |order|
    requires Greedy(segs, order, budget, k, selected, total, seen, compressed)
    ensures var seg := segs[order[k]];
            var charge := TextCost(seg) + if seg.section in seen then 0 else HeaderCost(seg.section);
            if total + charge > budget
            then Greedy(segs, order, budget, k + 1, selected, total, seen, true)
            else Greedy(segs, order, budget, k + 1, selected + [order[k]], total + charge, seen + {seg.section}, compressed)
  {
    var i := order[k];
    var s := Pick(segs, order, budget, k);
    PickWithin(segs, order, budget, k);
    assert i !in s;
    TotalAdd(segs, s, i);
    forall section
      ensures Seen(segs, s + {i}, |segs|, section) <==> Seen(segs, s, |segs|, section) || segs[i].section == section
    {
      SeenAdd(segs, s, i, |segs|, section);
    }
    assert Distinct(selected + [i]);
  }

  ghost predicate Named(segs: seq<Segment>) {
    forall i :: 0 <= i < |segs| ==> segs[i].section != ""
  }

  /** The greedy loop: take what fits, in order of importance. */
  method SelectGreedily(segs: seq<Segment>, budget: nat) returns (selected: seq<nat>, compressed: bool)
    ensures Distinct(selected) && (forall i :: i in selected <==> i in Kept(segs, budget))
    ensures forall i :: i in Kept(segs, budget) ==> i < |segs|
    ensures compressed <==> |selected| < |segs|
  {
    var order := Order(segs);
    OrderMeaning(segs);
    var charBudget := CharBudget(budget);
    var total: nat, seen: set<string> := 0, {};
    selected, compressed := [], false;
    EmptyTotal(segs, |segs|);
    for k := 0 to |order|
      invariant Greedy(segs, order, charBudget, k, selected, total, seen, compressed)
    {
      GreedyStep(segs, order, charBudget, k, selected, total, seen, compressed);
      var seg := segs[order[k]];
      var headerChars := if seg.section !in seen then |seg.section| + 6 else 0;
      var segChars := |seg.text| + 1;
      if total + headerChars + segChars > charBudget {
        compressed := true;
        continue;
      }
      total := total + headerChars + segChars;
      seen := seen + {seg.section};
      selected := selected + [order[k]];
    }
    PickedInRange(segs, order, charBudget);
  }

  /** The rendering loop, over the selection in assembly order. */
  method RenderSelection(segs: seq<Segment>, selected: seq<nat>, ghost s: set<nat>) returns (text: string)
    requires Distinct(selected) && (forall i :: i in selected <==> i in s) && (forall i :: i in s ==> i < |segs|)
    ensures text == Render(segs, s, |segs|).text
  {
    SortedSelection(selected, s, |segs|);
    var list := Sort(selected, AtMost());
    RenderAscending(segs, s, |segs|);
    text := "";
    var current := "";
    for k := 0 to |list|
      invariant Page(text, current) == RenderList(segs, list, k)
    {
      var seg := segs[list[k]];
      ghost var before := Page(text, current);
      if seg.section != current {
        if text != "" {
          text := text + "\n";
        }
        text := text + "## " + seg.section + "\n";
        current := seg.section;
      }
      text := text + seg.text + "\n";
      assert Page(text, current) == RenderOne(before, seg);
    }
  }

  /** `assemble_within_budget` */
  method AssembleWithinBudget(segs: seq<Segment>, budget: nat) returns (text: string, tokens: nat, compressed: bool)
    ensures text == Render(segs, Kept(segs, budget), |segs|).text
    ensures Contiguous(segs) && Named(segs) ==> text == Layout(SectionNames(segs, |segs|), segs, Kept(segs, budget))
    ensures tokens == |text| / 4
    ensures compressed <==> exists i :: 0 <= i < |segs| && i !in Kept(segs, budget)
  {
    if segs == [] {
      return "", 0, false;
    }
    var selected;
    selected, compressed := SelectGreedily(segs, budget);
    DroppedIff(selected, Kept(segs, budget), |segs|);
    text := RenderSelection(segs, selected, Kept(segs, budget));
    tokens := EstimateTokens(text);
    if Contiguous(segs) && Named(segs) { RenderedText(segs, Kept(segs, budget)); }
  }

  // ---- The guarantee ----

  /** Contiguous sections: the rendered text, headers and separators included, fits the token budget. */
  lemma BudgetIsKept(segs: seq<Segment>, budget: nat)
    requires Contiguous(segs)
    ensures EstimateTokens(Render(segs, Kept(segs, budget), |segs|).text) <= budget
  {
    OrderMeaning(segs);
    PickWithin(segs, Order(segs), CharBudget(budget), |segs|);
    RenderWithinAccount(segs, Kept(segs, budget), |segs|);
  }

  /** For named sections in any order: the budget is kept exactly if the headers printed again fit the slack. */
  lemma BudgetIsKeptIff(segs: seq<Segment>, budget: nat)
    requires forall i :: 0 <= i < |segs| ==> segs[i].section != ""
    ensures var s := Kept(segs, budget);
            var k := Sections(segs, s, |segs|);
            EstimateTokens(Render(segs, s, |segs|).text) <= budget
            <==> Total(segs, s) + Reprinted(segs, s, |segs|) <= 4 * budget + 3 + k + if k == 0 then 0 else 1
  {
    RenderSlack(segs, Kept(segs, budget), |segs|);
  }

  /** The selection is within four bytes a token, up to what a machine word holds, and no dropped segment still fits. */
  lemma KeptMeaning(segs: seq<Segment>, budget: nat, cap: nat)
    requires cap == if 4 * budget > 0xFFFF_FFFF_FFFF_FFFF then 0xFFFF_FFFF_FFFF_FFFF else 4 * budget
    ensures var s := Kept(segs, budget);
            && Total(segs, s) <= cap
            && forall i :: 0 <= i < |segs| && i !in s ==> Total(segs, s) + Extra(segs, s, i, |segs|) > cap
  {
    OrderMeaning(segs);
    PickWithin(segs, Order(segs), CharBudget(budget), |segs|);
    forall i | 0 <= i < |segs| && i !in Kept(segs, budget)
      ensures Total(segs, Kept(segs, budget)) + Extra(segs, Kept(segs, budget), i, |segs|) > cap
    {
      PickedIsMaximal(segs, Order(segs), CharBudget(budget), i);
    }
  }

  // ---- What `assemble` feeds it ----

  /** One piece of context from a source. */
  datatype Piece = Piece(text: string, priority: nat, authority: AuthorityLevel, confidence: real, candidate: bool)

  /** Section labels in assembly order, one for each source group. */
  const LABELS: seq<string> :=
    ["Identity", "Hot Context", "Canonical User", "Shared Task", "Agent Private Memory", "Enterprise Memory", "Business State"]

  const LOW_CONFIDENCE_THRESHOLD: real := 0.7

  /** The UTF-8 bytes of the unverified marker: a bracketed three-character word and a space. */
  const UNVERIFIED: string :=
    "[" + ['\U{E5}', '\U{BE}', '\U{85}', '\U{E9}', '\U{AA}', '\U{8C}', '\U{E8}', '\U{AF}', '\U{81}'] + "] "

  predicate IsLow(p: Piece) {
    p.confidence < LOW_CONFIDENCE_THRESHOLD || p.candidate
  }

  function Label(p: Piece, section: string): Segment {
    Segment(if IsLow(p) then UNVERIFIED + p.text else p.text, section, p.priority, p.authority, p.confidence)
  }

  function Labelled(pieces: seq<Piece>, section: string, n: nat): seq<Segment>
    requires n <= |pieces|
  {
    if n == 0 then [] else Labelled(pieces, section, n - 1) + [Label(pieces[n - 1], section)]
  }

  /** The first `n` groups, labelled, one after the other. */
  function Build(groups: seq<seq<Piece>>, n: nat): seq<Segment>
    requires n <= |groups| == |LABELS|
  {
    if n == 0 then [] else Build(groups, n - 1) + Labelled(groups[n - 1], LABELS[n - 1], |groups[n - 1]|)
  }

  lemma {:induction false} LabelledSection(pieces: seq<Piece>, section: string, n: nat)
    requires n <= |pieces|
    ensures forall i :: 0 <= i < |Labelled(pieces, section, n)| ==> Labelled(pieces, section, n)[i].section == section
  {
    if n > 0 { LabelledSection(pieces, section, n - 1); }
  }

  lemma LabelsDistinct(m: nat, n: nat)
    requires m < n < |LABELS|
    ensures LABELS[m] != LABELS[n]
  {
    assert LABELS[m][0] != LABELS[n][0];
  }

  lemma ContiguousAppend(a: seq<Segment>, b: seq<Segment>, section: string)
    requires Contiguous(a)
    requires forall i :: 0 <= i < |a| ==> a[i].section != section
    requires forall i :: 0 <= i < |b| ==> b[i].section == section
    ensures Contiguous(a + b)
  {
  }

  lemma {:induction false} BuildContiguous(groups: seq<seq<Piece>>, n: nat)
    requires n <= |groups| == |LABELS|
    ensures Contiguous(Build(groups, n))
    ensures forall i :: 0 <= i < |Build(groups, n)| ==> exists m :: 0 <= m < n && Build(groups, n)[i].section == LABELS[m]
  {
    if n > 0 {
      BuildContiguous(groups, n - 1);
      var a, b := Build(groups, n - 1), Labelled(groups[n - 1], LABELS[n - 1], |groups[n - 1]|);
      LabelledSection(groups[n - 1], LABELS[n - 1], |groups[n - 1]|);
      forall i | 0 <= i < |a|
        ensures a[i].section != LABELS[n - 1]
      {
        var m :| 0 <= m < n - 1 && a[i].section == LABELS[m];
        LabelsDistinct(m, n - 1);
      }
      ContiguousAppend(a, b, LABELS[n - 1]);
    }
  }

  /** Where the pieces of group g start. */
  function GroupStart(groups: seq<seq<Piece>>, g: nat): nat
    requires g <= |groups|
  {
    if g == 0 then 0 else GroupStart(groups, g - 1) + |groups[g - 1]|
  }

  lemma {:induction false} LabelledAt(pieces: seq<Piece>, section: string, n: nat)
    requires n <= |pieces|
    ensures |Labelled(pieces, section, n)| == n
    ensures forall k :: 0 <= k < n ==> Labelled(pieces, section, n)[k] == Label(pieces[k], section)
  {
    if n > 0 { LabelledAt(pieces, section, n - 1); }
  }

  lemma {:induction false} BuildSize(groups: seq<seq<Piece>>, n: nat)
    requires n <= |groups| == |LABELS|
    ensures |Build(groups, n)| == GroupStart(groups, n)
  {
    if n > 0 {
      BuildSize(groups, n - 1);
      LabelledAt(groups[n - 1], LABELS[n - 1], |groups[n - 1]|);
    }
  }

  /**
    Piece k of group g stands at its place under the group's label, with the
    unverified marker in front exactly if its confidence is below 0.7 or it is a
    candidate, and is otherwise unchanged.
  */
  lemma {:induction false} BuildAt(groups: seq<seq<Piece>>, n: nat, g: nat, k: nat)
    requires g < n <= |groups| == |LABELS| && k < |groups[g]|
    ensures GroupStart(groups, g) + k < |Build(groups, n)|
    ensures var seg, piece := Build(groups, n)[GroupStart(groups, g) + k], groups[g][k];
            && seg.section == LABELS[g]
            && seg.text == (if piece.confidence < 0.7 || piece.candidate then UNVERIFIED else "") + piece.text
            && seg.priority == piece.priority && seg.authority == piece.authority && seg.confidence == piece.confidence
    decreases n
  {
    var at := GroupStart(groups, g) + k;
    BuildSize(groups, n - 1);
    LabelledAt(groups[n - 1], LABELS[n - 1], |groups[n - 1]|);
    if g < n - 1 {
      BuildAt(groups, n - 1, g, k);
      assert Build(groups, n)[at] == Build(groups, n - 1)[at];
    } else {
      assert Build(groups, n)[at] == Label(groups[g][k], LABELS[g]);
      LabelMeaning(groups[g][k], LABELS[g]);
    }
  }

  lemma LabelMeaning(p: Piece, section: string)
    ensures var seg := Label(p, section);
            && seg.section == section
            && seg.text == (if p.confidence < 0.7 || p.candidate then UNVERIFIED else "") + p.text
            && seg.priority == p.priority && seg.authority == p.authority && seg.confidence == p.confidence
  {
    assert "" + p.text == p.text;
  }

  lemma LabelsNamed()
    ensures forall p :: 0 <= p < |LABELS| ==> LABELS[p] != ""
    ensures forall p, q :: 0 <= p < q < |LABELS| ==> LABELS[p] != LABELS[q]
  {
    forall p, q | 0 <= p < q < |LABELS|
      ensures LABELS[p] != LABELS[q]
    {
      LabelsDistinct(p, q);
    }
  }

  lemma FollowsAppend(a: seq<Segment>, b: seq<Segment>, place: seq<nat>, p: nat) returns (all: seq<nat>)
    requires Follows(a, LABELS, place) && p < |LABELS| && (forall i :: 0 <= i < |a| ==> place[i] <= p)
    requires forall i :: 0 <= i < |b| ==> b[i].section == LABELS[p]
    ensures Follows(a + b, LABELS, all) && forall i :: 0 <= i < |a + b| ==> all[i] <= p
    decreases |b|
  {
    if b == [] {
      all := place;
      assert a + b == a;
    } else {
      all := place + [p];
      all := FollowsAppend(a + [b[0]], b[1..], all, p);
      assert a + [b[0]] + b[1..] == a + b;
    }
  }

  lemma {:induction false} BuildFollows(groups: seq<seq<Piece>>, n: nat) returns (place: seq<nat>)
    requires n <= |groups| == |LABELS|
    ensures Follows(Build(groups, n), LABELS, place)
    ensures forall i :: 0 <= i < |place| ==> place[i] < n
  {
    LabelsNamed();
    place := [];
    if n > 0 {
      var before := BuildFollows(groups, n - 1);
      LabelledSection(groups[n - 1], LABELS[n - 1], |groups[n - 1]|);
      place := FollowsAppend(Build(groups, n - 1), Labelled(groups[n - 1], LABELS[n - 1], |groups[n - 1]|), before, n - 1);
    }
  }

  /** `assemble` from its collected groups: whatever the sources returned, the text fits the resolved budget. */
  method Assemble(groups: seq<seq<Piece>>, planBudget: nat, defaultBudget: nat)
    returns (text: string, tokens: nat, compressed: bool)
    requires |groups| == |LABELS|
    ensures tokens == |text| / 4 <= if planBudget == 0 then defaultBudget else planBudget
    ensures var segs := Build(groups, |LABELS|);
            var kept := Kept(segs, if planBudget == 0 then defaultBudget else planBudget);
            && text == Layout(LABELS, segs, kept)
            && (compressed <==> exists i :: 0 <= i < |segs| && i !in kept)
  {
    var segs: seq<Segment> := [];
    for g := 0 to |LABELS|
      invariant segs == Build(groups, g)
    {
      segs := segs + Labelled(groups[g], LABELS[g], |groups[g]|);
    }
    BuildContiguous(groups, |LABELS|);
    var budget := ResolveBudget(planBudget, defaultBudget);
    text, tokens, compressed := AssembleWithinBudget(segs, budget);
    BudgetIsKept(segs, budget);
    ghost var place := BuildFollows(groups, |LABELS|);
    RenderIsDocument(segs, Kept(segs, budget), LABELS, place, |segs|);
  }

  // ---- Without contiguity the guarantee can be lost ----

  function Alternating(n: nat): seq<Segment> {
    if n == 0 then []
    else Alternating(n - 1) + [Segment("", if n % 2 == 1 then "A" else "B", 1, L2Verified, 1.0)]
  }

  lemma {:induction false} AlternatingAt(n: nat)
    ensures |Alternating(n)| == n
    ensures forall i :: 0 <= i < n ==> Alternating(n)[i] == Segment("", if i % 2 == 0 then "A" else "B", 1, L2Verified, 1.0)
  {
    if n > 0 { AlternatingAt(n - 1); }
  }

  /** Two alternating sections are charged two headers but print one for every segment. */
  lemma {:induction false} AlternatingSizes(segs: seq<Segment>, s: set<nat>, n: nat)
    requires n <= |segs| && forall i :: 0 <= i < |segs| ==> i in s
    requires forall i :: 0 <= i < |segs| ==> segs[i] == Segment("", if i % 2 == 0 then "A" else "B", 1, L2Verified, 1.0)
    ensures Account(segs, s, n) == n + (if n >= 2 then 14 else 7 * n)
    ensures |Render(segs, s, n).text| == if n == 0 then 0 else 7 * n - 1
    ensures n > 0 ==> Render(segs, s, n).section == if n % 2 == 1 then "A" else "B"
  {
    if n > 0 {
      AlternatingSizes(segs, s, n - 1);
      assert n > 1 ==> "A" != "B" && Seen(segs, s, n - 1, "A") by { if n > 1 { assert 0 in s && segs[0].section == "A"; } }
      assert n > 2 ==> Seen(segs, s, n - 1, "B") by { if n > 2 { assert 1 in s && segs[1].section == "B"; } }
      assert n == 2 ==> !Seen(segs, s, n - 1, "B");
    }
  }

  /** Six alternating segments fit a budget of five tokens in the account and render to ten. */
  lemma AlternatingSectionsOverflow()
    ensures !Contiguous(Alternating(6))
    ensures EstimateTokens(Render(Alternating(6), Kept(Alternating(6), 5), 6).text) > 5
  {
    var segs := Alternating(6);
    AlternatingAt(6);
    assert segs[0].section == segs[2].section != segs[1].section;
    OrderMeaning(segs);
    var all := Below(6);
    BelowSize(6);
    AlternatingSizes(segs, all, 6);
    var s := Kept(segs, 5);
    PickedInRange(segs, Order(segs), CharBudget(5));
    if s != all {
      var k := PickedIsFirstInPriority(segs, Order(segs), CharBudget(5), all);
      assert false;
    }
  }
}
