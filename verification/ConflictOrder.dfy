/**
  The order in which competing values of one fact are preferred: the comparator
  chain is proved to be the lexicographic order on six keys.
*/
module ConflictOrder {
  import opened Json
  import opened Authority
  import opened Sorting

  datatype Scope = Personal | Agent | Task | Team | Process | Factory | Enterprise

  datatype Fact = Fact(
    field: string,
    value: Value,
    authority: AuthorityLevel,
    source: string,
    scope: Scope,
    timestamp: int,
    verified: bool,
    confirmed: bool)

  function ScopeRank(s: Scope): int {
    match s
    case Enterprise => 6
    case Factory => 5
    case Process => 4
    case Team => 3
    case Task => 2
    case Agent => 1
    case Personal => 0
  }

  function SourceRank(source: string): int {
    if source == "user_explicit" || source == "explicit_user" then 5
    else if source == "agent_explicit" || source == "explicit_agent" then 4
    else if source == "domain_explicit" || source == "explicit_domain" then 3
    else if source == "global_explicit" || source == "explicit_global" then 2
    else if source == "repeated_inference" then 1
    else 0
  }

  function BoolRank(b: bool): int {
    if b then 1 else 0
  }

  // ---- The comparator ----

  datatype Ordering = Less | Equal | Greater {
    function Then(next: Ordering): Ordering {
      if Equal? then next else this
    }
  }

  function Cmp(a: int, b: int): Ordering {
    if a < b then Less else if a == b then Equal else Greater
  }

  /** The closure given to `sort_by`: each key compares b with a, so larger keys come first. */
  function Compare(a: Fact, b: Fact): Ordering {
    Cmp(Rank(b.authority), Rank(a.authority))
    .Then(Cmp(BoolRank(b.confirmed), BoolRank(a.confirmed)))
    .Then(Cmp(BoolRank(b.verified), BoolRank(a.verified)))
    .Then(Cmp(ScopeRank(b.scope), ScopeRank(a.scope)))
    .Then(Cmp(b.timestamp, a.timestamp))
    .Then(Cmp(SourceRank(b.source), SourceRank(a.source)))
  }

  function Before(): (Fact, Fact) -> bool {
    (a: Fact, b: Fact) => !Compare(a, b).Greater?
  }

  /** The six keys, most important first. */
  datatype Keys = Keys(authority: int, confirmed: int, verified: int, scope: int, time: int, source: int)

  function KeysOf(f: Fact): Keys {
    Keys(Rank(f.authority), BoolRank(f.confirmed), BoolRank(f.verified), ScopeRank(f.scope), f.timestamp,
         SourceRank(f.source))
  }

  function KeyAt(k: Keys, i: nat): int
    requires i < 6
  {
    if i == 0 then k.authority else if i == 1 then k.confirmed else if i == 2 then k.verified
    else if i == 3 then k.scope else if i == 4 then k.time else k.source
  }

  /** `x` is above `y` at position i, and level with it at all more important ones. */
  ghost predicate AboveAt(x: Keys, y: Keys, i: nat)
    requires i < 6
  {
    KeyAt(x, i) > KeyAt(y, i) && forall j :: 0 <= j < i ==> KeyAt(x, j) == KeyAt(y, j)
  }

  /** Lexicographic order on the keys. */
  ghost predicate AtLeast(x: Keys, y: Keys) {
    x == y || exists i :: 0 <= i < 6 && AboveAt(x, y, i)
  }

  lemma FirstDifference(x: Keys, y: Keys) returns (i: nat)
    ensures i <= 6 && (forall j :: 0 <= j < i ==> KeyAt(x, j) == KeyAt(y, j))
    ensures i == 6 ==> x == y
    ensures i < 6 ==> KeyAt(x, i) != KeyAt(y, i)
  {
    i := 0;
    while i < 6 && KeyAt(x, i) == KeyAt(y, i)
      invariant i <= 6 && forall j :: 0 <= j < i ==> KeyAt(x, j) == KeyAt(y, j)
    {
      i := i + 1;
    }
    if i == 6 {
      assert KeyAt(x, 0) == KeyAt(y, 0) && KeyAt(x, 1) == KeyAt(y, 1) && KeyAt(x, 2) == KeyAt(y, 2);
      assert KeyAt(x, 3) == KeyAt(y, 3) && KeyAt(x, 4) == KeyAt(y, 4) && KeyAt(x, 5) == KeyAt(y, 5);
    }
  }

  /** A chain of six comparisons, decided by the first that is not level. */
  function Chain(x: Keys, y: Keys, i: nat): Ordering
    requires i <= 6
    decreases 6 - i
  {
    if i == 6 then Equal else Cmp(KeyAt(y, i), KeyAt(x, i)).Then(Chain(x, y, i + 1))
  }

  lemma {:induction false} ChainDecidedAt(x: Keys, y: Keys, from: nat, i: nat)
    requires from <= i <= 6 && (forall j :: from <= j < i ==> KeyAt(x, j) == KeyAt(y, j))
    requires i < 6 ==> KeyAt(x, i) != KeyAt(y, i)
    ensures Chain(x, y, from) == if i == 6 then Equal else Cmp(KeyAt(y, i), KeyAt(x, i))
    decreases i - from
  {
    if from < i { ChainDecidedAt(x, y, from + 1, i); }
  }

  lemma CompareIsChain(a: Fact, b: Fact)
    ensures Compare(a, b) == Chain(KeysOf(a), KeysOf(b), 0)
  {
    var x, y := KeysOf(a), KeysOf(b);
    assert Chain(x, y, 6) == Equal;
    assert Chain(x, y, 5) == Cmp(y.source, x.source);
    assert Chain(x, y, 4) == Cmp(y.time, x.time).Then(Cmp(y.source, x.source));
    assert Chain(x, y, 3) == Cmp(y.scope, x.scope).Then(Chain(x, y, 4));
    assert Chain(x, y, 2) == Cmp(y.verified, x.verified).Then(Chain(x, y, 3));
    assert Chain(x, y, 1) == Cmp(y.confirmed, x.confirmed).Then(Chain(x, y, 2));
  }

  /** The comparator is the lexicographic order on the keys, and ties exactly on equal keys. */
  lemma CompareIsLexicographic(a: Fact, b: Fact)
    ensures Before()(a, b) <==> AtLeast(KeysOf(a), KeysOf(b))
    ensures Compare(a, b).Equal? <==> KeysOf(a) == KeysOf(b)
    ensures Compare(a, b).Less? <==> Compare(b, a).Greater?
  {
    var x, y := KeysOf(a), KeysOf(b);
    var i := FirstDifference(x, y);
    CompareIsChain(a, b);
    CompareIsChain(b, a);
    ChainDecidedAt(x, y, 0, i);
    ChainDecidedAt(y, x, 0, i);
    if i < 6 {
      if KeyAt(x, i) > KeyAt(y, i) {
        assert AboveAt(x, y, i);
      } else {
        forall j | 0 <= j < 6
          ensures !AboveAt(x, y, j)
        {
          assert j < i ==> KeyAt(x, j) == KeyAt(y, j);
        }
      }
    }
  }

  lemma AtLeastTransitive(x: Keys, y: Keys, z: Keys)
    requires AtLeast(x, y) && AtLeast(y, z)
    ensures AtLeast(x, z)
  {
    if x != y && y != z {
      var i :| 0 <= i < 6 && AboveAt(x, y, i);
      var j :| 0 <= j < 6 && AboveAt(y, z, j);
      assert AboveAt(x, z, if i <= j then i else j);
    }
  }

  lemma BeforeIsTotalPreorder()
    ensures TotalPreorder(Before())
  {
    forall a, b, c
      ensures Before()(a, b) || Before()(b, a)
      ensures Before()(a, b) && Before()(b, c) ==> Before()(a, c)
    {
      CompareIsLexicographic(a, b);
      CompareIsLexicographic(b, c);
      CompareIsLexicographic(a, c);
      if AtLeast(KeysOf(a), KeysOf(b)) && AtLeast(KeysOf(b), KeysOf(c)) {
        AtLeastTransitive(KeysOf(a), KeysOf(b), KeysOf(c));
      }
    }
  }

  // ---- The same order spelled out ----

  /** Scopes from widest to narrowest. */
  const SCOPES: seq<Scope> := [Enterprise, Factory, Process, Team, Task, Agent, Personal]

  predicate Wider(a: Scope, b: Scope) {
    exists i, j :: 0 <= i < j < |SCOPES| && SCOPES[i] == a && SCOPES[j] == b
  }

  lemma ScopeAt(i: nat)
    requires i < |SCOPES|
    ensures ScopeRank(SCOPES[i]) == 6 - i
  {
  }

  lemma ScopePlace(a: Scope) returns (i: nat)
    ensures i < |SCOPES| && SCOPES[i] == a && ScopeRank(a) == 6 - i
  {
    i := match a
      case Enterprise => 0
      case Factory => 1
      case Process => 2
      case Team => 3
      case Task => 4
      case Agent => 5
      case Personal => 6;
  }

  lemma WiderMeaning(a: Scope, b: Scope)
    ensures Wider(a, b) <==> ScopeRank(a) > ScopeRank(b)
    ensures a == b <==> ScopeRank(a) == ScopeRank(b)
  {
    var i := ScopePlace(a);
    var j := ScopePlace(b);
    if p, q :| 0 <= p < q < |SCOPES| && SCOPES[p] == a && SCOPES[q] == b {
      ScopeAt(p);
      ScopeAt(q);
    }
    if i < j { assert SCOPES[i] == a && SCOPES[j] == b; }
  }

  /** Sources that are named in order of trust; all others come last. */
  const SOURCES: seq<set<string>> :=
    [{"user_explicit", "explicit_user"}, {"agent_explicit", "explicit_agent"}, {"domain_explicit", "explicit_domain"},
     {"global_explicit", "explicit_global"}, {"repeated_inference"}]

  predicate MoreTrusted(a: string, b: string) {
    exists i :: 0 <= i < |SOURCES| && a in SOURCES[i] && forall j :: 0 <= j <= i ==> b !in SOURCES[j]
  }

  /** The names are told apart by their first and last letters and their lengths. */
  lemma SourceClass(x: string, i: nat)
    requires i < |SOURCES|
    ensures x in SOURCES[i] <==> SourceRank(x) == 5 - i
  {
    assert |"user_explicit"| == 13 && |"explicit_user"| == 13 && |"agent_explicit"| == 14 && |"explicit_agent"| == 14;
    assert |"domain_explicit"| == 15 && |"explicit_domain"| == 15 && |"global_explicit"| == 15 && |"explicit_global"| == 15;
    assert |"repeated_inference"| == 18;
    assert "domain_explicit"[0] == 'd' && "explicit_domain"[9] == 'd' && "global_explicit"[0] == 'g' && "explicit_global"[9] == 'g';
    assert "explicit_domain"[0] == 'e' && "explicit_global"[0] == 'e';
  }

  lemma MoreTrustedMeaning(a: string, b: string)
    ensures MoreTrusted(a, b) <==> SourceRank(a) > SourceRank(b)
  {
    forall i | 0 <= i < |SOURCES|
      ensures a in SOURCES[i] <==> SourceRank(a) == 5 - i
      ensures b in SOURCES[i] <==> SourceRank(b) == 5 - i
    {
      SourceClass(a, i);
      SourceClass(b, i);
    }
    if SourceRank(a) > SourceRank(b) {
      assert a in SOURCES[5 - SourceRank(a)];
    } else if SourceRank(a) >= 1 {
      assert b in SOURCES[5 - SourceRank(b)];
    }
  }

  /** More trusted source, then confirmed, then verified, then wider scope, then more recent, then better source. */
  predicate Beats(a: Fact, b: Fact) {
    || Outranks(a.authority, b.authority)
    || (a.authority == b.authority && BeatsByBacking(a, b))
  }

  predicate BeatsByBacking(a: Fact, b: Fact) {
    || (a.confirmed && !b.confirmed)
    || (a.confirmed == b.confirmed && a.verified && !b.verified)
    || (a.confirmed == b.confirmed && a.verified == b.verified && BeatsByScope(a, b))
  }

  predicate BeatsByScope(a: Fact, b: Fact) {
    || Wider(a.scope, b.scope)
    || (a.scope == b.scope && a.timestamp > b.timestamp)
    || (a.scope == b.scope && a.timestamp == b.timestamp && MoreTrusted(a.source, b.source))
  }

  lemma KeysAbove(x: Keys, y: Keys)
    ensures !AtLeast(y, x)
       <==> || x.authority > y.authority
            || (x.authority == y.authority && x.confirmed > y.confirmed)
            || (x.authority == y.authority && x.confirmed == y.confirmed && x.verified > y.verified)
            || (x.authority == y.authority && x.confirmed == y.confirmed && x.verified == y.verified
                && (x.scope > y.scope || (x.scope == y.scope && (x.time > y.time || (x.time == y.time && x.source > y.source)))))
  {
    var i := FirstDifference(x, y);
    if i < 6 {
      if KeyAt(x, i) > KeyAt(y, i) {
        forall j | 0 <= j < 6
          ensures !AboveAt(y, x, j)
        {
          assert j < i ==> KeyAt(x, j) == KeyAt(y, j);
        }
      } else {
        assert AboveAt(y, x, i);
      }
      assert 0 < i ==> KeyAt(x, 0) == KeyAt(y, 0);
      assert 1 < i ==> KeyAt(x, 1) == KeyAt(y, 1);
      assert 2 < i ==> KeyAt(x, 2) == KeyAt(y, 2);
      assert 3 < i ==> KeyAt(x, 3) == KeyAt(y, 3);
      assert 4 < i ==> KeyAt(x, 4) == KeyAt(y, 4);
    }
  }

  /** The keys say exactly who beats whom. */
  lemma BeatsMeaning(a: Fact, b: Fact)
    ensures Beats(a, b) <==> !AtLeast(KeysOf(b), KeysOf(a))
  {
    RankOrder(a.authority, b.authority);
    WiderMeaning(a.scope, b.scope);
    MoreTrustedMeaning(a.source, b.source);
    KeysAbove(KeysOf(a), KeysOf(b));
  }
}
