/** The priority of a section by what its header mentions. */
module SectionPriority {
  import WordMatch

  /**
    Lower-casing as far as searching for ASCII words can tell: besides A to Z
    only the Kelvin sign and the dotted capital I map to something with an
    ASCII letter in it.
  */
  function LowerChar(c: char): string {
    if 'A' <= c <= 'Z' then [(c as int + 32) as char]
    else if c == '\U{212A}' then "k"
    else if c == '\U{130}' then ['i', '\U{307}']
    else [c]
  }

  function Lower(s: string, n: nat): string
    requires n <= |s|
  {
    if n == 0 then "" else Lower(s, n - 1) + LowerChar(s[n - 1])
  }

  predicate Contains(h: string, word: string) {
    WordMatch.FindFrom(h, word, 0) <= |h|
  }

  /** Words looked for, in this order, and the priority of the first that occurs. */
  const WORDS: seq<(string, nat)> :=
    [("identity", 100), ("canonical user", 90), ("user profile", 90), ("shared task", 85), ("task", 85),
     ("enterprise", 80), ("business", 70), ("agent", 60), ("hot context", 20)]

  function Lookup(h: string, t: nat): nat
    requires t <= |WORDS|
    decreases |WORDS| - t
  {
    if t == |WORDS| then 40
    else if Contains(h, WORDS[t].0) then WORDS[t].1
    else Lookup(h, t + 1)
  }

  /** Text before any header has a priority of its own. */
  function Priority(header: string): nat {
    if header == "" then 50 else Lookup(Lower(header, |header|), 0)
  }

  lemma {:induction false} LookupBelow(h: string, t: nat)
    requires 1 <= t <= |WORDS|
    ensures Lookup(h, t) <= 90
    decreases |WORDS| - t
  {
    if t < |WORDS| { LookupBelow(h, t + 1); }
  }

  /** The top priority belongs to headers that mention identity, and only to them. */
  lemma IdentityIsTop(header: string)
    ensures Priority(header) <= 100
    ensures header != "" ==> (Priority(header) == 100 <==> Contains(Lower(header, |header|), WORDS[0].0))
  {
    LookupBelow(Lower(header, |header|), 1);
  }

  /** Sections from most to least worth keeping, by what the header mentions; unnamed and unknown ones come before the last. */
  const TIERS: seq<seq<string>> :=
    [["identity"], ["canonical user", "user profile"], ["shared task", "task"], ["enterprise"], ["business"], ["agent"]]

  ghost predicate MentionsAny(h: string, words: seq<string>) {
    exists k, i :: 0 <= k < |words| && 0 <= i <= |h| && WordMatch.OccursAt(h, words[k], i)
  }

  /** The tier of a header: the first whose words occur in it, then no name (6), unknown (7), hot context (8). */
  ghost function TierFrom(h: string, t: nat): nat
    requires t <= |TIERS|
    decreases |TIERS| - t
  {
    if t == |TIERS| then (if MentionsAny(h, ["hot context"]) then 8 else 7)
    else if MentionsAny(h, TIERS[t]) then t
    else TierFrom(h, t + 1)
  }

  ghost function Tier(header: string): nat {
    if header == "" then 6 else TierFrom(Lower(header, |header|), 0)
  }

  lemma ContainsMeaning(h: string, word: string)
    ensures Contains(h, word) <==> exists i :: 0 <= i <= |h| && WordMatch.OccursAt(h, word, i)
  {
    if Contains(h, word) {
      assert WordMatch.OccursAt(h, word, WordMatch.FindFrom(h, word, 0));
    }
  }

  lemma MentionsOne(h: string, word: string)
    ensures MentionsAny(h, [word]) <==> Contains(h, word)
  {
    ContainsMeaning(h, word);
    if i :| 0 <= i <= |h| && WordMatch.OccursAt(h, word, i) {
      assert WordMatch.OccursAt(h, [word][0], i);
    }
  }

  lemma MentionsEither(h: string, a: string, b: string)
    ensures MentionsAny(h, [a, b]) <==> Contains(h, a) || Contains(h, b)
  {
    ContainsMeaning(h, a);
    ContainsMeaning(h, b);
    if i :| 0 <= i <= |h| && WordMatch.OccursAt(h, a, i) {
      assert WordMatch.OccursAt(h, [a, b][0], i);
    }
    if i :| 0 <= i <= |h| && WordMatch.OccursAt(h, b, i) {
      assert WordMatch.OccursAt(h, [a, b][1], i);
    }
  }

  /** What each tier is worth. */
  function Worth(tier: nat): nat {
    if tier == 0 then 100 else if tier == 1 then 90 else if tier == 2 then 85 else if tier == 3 then 80
    else if tier == 4 then 70 else if tier == 5 then 60 else if tier == 6 then 50 else if tier == 7 then 40 else 20
  }

  lemma LookupUnrolled(h: string)
    ensures Lookup(h, 0)
         == if Contains(h, "identity") then 100
            else if Contains(h, "canonical user") || Contains(h, "user profile") then 90
            else if Contains(h, "shared task") || Contains(h, "task") then 85
            else if Contains(h, "enterprise") then 80
            else if Contains(h, "business") then 70
            else if Contains(h, "agent") then 60
            else if Contains(h, "hot context") then 20
            else 40
  {
    assert Lookup(h, 9) == 40;
    assert Lookup(h, 8) == if Contains(h, "hot context") then 20 else Lookup(h, 9);
    assert Lookup(h, 7) == if Contains(h, "agent") then 60 else Lookup(h, 8);
    assert Lookup(h, 6) == if Contains(h, "business") then 70 else Lookup(h, 7);
    assert Lookup(h, 5) == if Contains(h, "enterprise") then 80 else Lookup(h, 6);
    assert Lookup(h, 4) == if Contains(h, "task") then 85 else Lookup(h, 5);
    assert Lookup(h, 3) == if Contains(h, "shared task") then 85 else Lookup(h, 4);
    assert Lookup(h, 2) == if Contains(h, "user profile") then 90 else Lookup(h, 3);
    assert Lookup(h, 1) == if Contains(h, "canonical user") then 90 else Lookup(h, 2);
  }

  lemma TierUnrolled(h: string)
    ensures TierFrom(h, 0)
         == if Contains(h, "identity") then 0
            else if Contains(h, "canonical user") || Contains(h, "user profile") then 1
            else if Contains(h, "shared task") || Contains(h, "task") then 2
            else if Contains(h, "enterprise") then 3
            else if Contains(h, "business") then 4
            else if Contains(h, "agent") then 5
            else if Contains(h, "hot context") then 8
            else 7
  {
    MentionsOne(h, "identity");
    MentionsEither(h, "canonical user", "user profile");
    MentionsEither(h, "shared task", "task");
    MentionsOne(h, "enterprise");
    MentionsOne(h, "business");
    MentionsOne(h, "agent");
    MentionsOne(h, "hot context");
    assert TierFrom(h, 6) == if MentionsAny(h, ["hot context"]) then 8 else 7;
    assert TierFrom(h, 5) == if MentionsAny(h, TIERS[5]) then 5 else TierFrom(h, 6);
    assert TierFrom(h, 4) == if MentionsAny(h, TIERS[4]) then 4 else TierFrom(h, 5);
    assert TierFrom(h, 3) == if MentionsAny(h, TIERS[3]) then 3 else TierFrom(h, 4);
    assert TierFrom(h, 2) == if MentionsAny(h, TIERS[2]) then 2 else TierFrom(h, 3);
    assert TierFrom(h, 1) == if MentionsAny(h, TIERS[1]) then 1 else TierFrom(h, 2);
  }

  /** Headers are worth what their tier says. */
  lemma PriorityMeaning(header: string)
    ensures Priority(header) == Worth(Tier(header)) && Tier(header) <= 8
  {
    LookupUnrolled(Lower(header, |header|));
    TierUnrolled(Lower(header, |header|));
  }

  /** A section outlives another exactly if its tier is the better one. */
  lemma PriorityOrder(a: string, b: string)
    ensures Priority(a) > Priority(b) <==> Tier(a) < Tier(b)
  {
    PriorityMeaning(a);
    PriorityMeaning(b);
  }
}
