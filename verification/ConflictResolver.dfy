/**
  Conflict resolution between competing values of one fact. The resolver is
  specified by the earliest best entry and proved against that; the permutation
  theorem says exactly when the winning value does not depend on input order.
*/
module ConflictResolver {
  import opened Json
  import opened Authority
  import opened Sorting
  import opened ConflictOrder

  datatype Severity = NoConflict | Low | Medium | High

  datatype Resolved = Resolved(
    field: string,
    value: Value,
    source: string,
    authority: AuthorityLevel,
    conflict: bool,
    all: seq<Fact>,
    flags: seq<string>,
    severity: Severity)

  // ---- Agreement ----

  /** Any two entries agree under `f`. */
  ghost predicate Uniform<T, K>(s: seq<T>, f: T -> K) {
    forall i, j :: 0 <= i < |s| && 0 <= j < |s| ==> f(s[i]) == f(s[j])
  }

  /** `windows(2).all(..)` */
  predicate Adjacent<T, K(==)>(s: seq<T>, f: T -> K) {
    forall i :: 0 <= i < |s| - 1 ==> f(s[i]) == f(s[i + 1])
  }

  /** `iter().all(|v| f(v) == f(first))` */
  predicate LikeFirst<T, K(==)>(s: seq<T>, f: T -> K) {
    forall i :: 0 <= i < |s| ==> f(s[i]) == f(s[0])
  }

  lemma {:induction false} AdjacentReaches<T, K>(s: seq<T>, f: T -> K, n: nat)
    requires Adjacent(s, f) && n < |s|
    ensures f(s[n]) == f(s[0])
  {
    if n > 0 {
      AdjacentReaches(s, f, n - 1);
      assert f(s[n - 1]) == f(s[n - 1 + 1]);
    }
  }

  /** Comparing neighbours, or everything with the first, is comparing all pairs. */
  lemma AgreementTests<T, K>(s: seq<T>, f: T -> K)
    ensures Adjacent(s, f) <==> Uniform(s, f)
    ensures LikeFirst(s, f) <==> Uniform(s, f)
  {
    if Adjacent(s, f) {
      forall i | 0 <= i < |s|
        ensures f(s[i]) == f(s[0])
      {
        AdjacentReaches(s, f, i);
      }
    }
  }

  lemma UniformPermutes<T, K>(r: seq<T>, s: seq<T>, f: T -> K)
    requires multiset(r) == multiset(s) && Uniform(s, f)
    ensures Uniform(r, f)
  {
    SameMembers(r, s);
    forall i, j | 0 <= i < |r| && 0 <= j < |r|
      ensures f(r[i]) == f(r[j])
    {
      assert r[i] in s && r[j] in s;
    }
  }

  function ValueOf(): Fact -> Value { (v: Fact) => v.value }

  function AuthorityOf(): Fact -> AuthorityLevel { (v: Fact) => v.authority }

  function ScopeOf(): Fact -> Scope { (v: Fact) => v.scope }

  function TimeOf(): Fact -> int { (v: Fact) => v.timestamp }

  // ---- What resolving means ----

  /** No entry has larger keys. */
  ghost predicate Best(values: seq<Fact>, k: nat) {
    k < |values| && forall j :: 0 <= j < |values| ==> AtLeast(KeysOf(values[k]), KeysOf(values[j]))
  }

  /** The first entry if all agree, else the earliest best one. */
  ghost predicate Wins(values: seq<Fact>, k: nat) {
    && k < |values|
    && if Uniform(values, ValueOf()) then k == 0 else Best(values, k) && forall j :: 0 <= j < k ==> !Best(values, j)
  }

  ghost function SeverityOf(values: seq<Fact>): Severity {
    if Uniform(values, ValueOf()) then NoConflict
    else if !Uniform(values, AuthorityOf()) then Medium
    else if values[0].authority in {L0SourceOfTruth, L1Authoritative} then High
    else Low
  }

  function Flag(field: string, what: string): string {
    "conflict:" + field + ":" + what
  }

  function When(b: bool, s: seq<string>): seq<string> {
    if b then s else []
  }

  function FlagList(field: string, mixed: bool, spread: bool, recency: bool, review: bool): seq<string> {
    When(mixed, [Flag(field, "authority_mismatch")])
    + When(spread, [Flag(field, "scope_mismatch")])
    + When(recency, [Flag(field, "recency_tiebreaker")])
    + When(review, [Flag(field, "needs_review")])
  }

  ghost function FlagsOf(field: string, values: seq<Fact>): seq<string> {
    var mixed, spread := !Uniform(values, AuthorityOf()), !Uniform(values, ScopeOf());
    if Uniform(values, ValueOf()) then []
    else
      FlagList(field, mixed, spread, !mixed && !spread && !Uniform(values, TimeOf()), SeverityOf(values) == High)
  }

  ghost predicate Names(r: Resolved, v: Fact) {
    r.value == v.value && r.source == v.source && r.authority == v.authority
  }

  ghost predicate Resolves(field: string, values: seq<Fact>, r: Resolved) {
    && r.field == field && r.all == values
    && (r.conflict <==> !Uniform(values, ValueOf()))
    && r.severity == SeverityOf(values)
    && r.flags == FlagsOf(field, values)
    && if values == [] then r.value == Null && r.source == "" && r.authority == L3Inferred
       else exists k: nat :: Wins(values, k) && Names(r, values[k])
  }

  lemma WinnerIsUnique(values: seq<Fact>, k: nat, l: nat)
    requires Wins(values, k) && Wins(values, l)
    ensures k == l
  {
  }

  /** The meaning leaves no freedom. */
  lemma ResolvesOneWay(field: string, values: seq<Fact>, r: Resolved, q: Resolved)
    requires Resolves(field, values, r) && Resolves(field, values, q)
    ensures r == q
  {
    if values != [] {
      var k: nat :| Wins(values, k) && Names(r, values[k]);
      var l: nat :| Wins(values, l) && Names(q, values[l]);
      WinnerIsUnique(values, k, l);
    }
  }

  /** The head of the stable sort is the earliest best entry. */
  lemma SortHeadWins(values: seq<Fact>) returns (k: nat)
    requires !Uniform(values, ValueOf())
    ensures |Sort(values, Before())| == |values| > 0
    ensures Wins(values, k) && Sort(values, Before())[0] == values[k]
  {
    BeforeIsTotalPreorder();
    k := SortHead(values, Before());
    forall j | 0 <= j < |values|
      ensures AtLeast(KeysOf(values[k]), KeysOf(values[j]))
    {
      CompareIsLexicographic(values[k], values[j]);
    }
    forall j | 0 <= j < k
      ensures !Best(values, j)
    {
      CompareIsLexicographic(values[j], values[k]);
    }
  }

  lemma WinnerExists(values: seq<Fact>) returns (k: nat)
    requires values != []
    ensures Wins(values, k)
  {
    if Uniform(values, ValueOf()) {
      k := 0;
    } else {
      k := SortHeadWins(values);
    }
  }

  /** `ConflictResolver::resolve` */
  method Resolve(field: string, values: seq<Fact>) returns (r: Resolved)
    ensures Resolves(field, values, r)
    ensures r.conflict ==> exists k: nat :: Unbeaten(values, k) && Names(r, values[k])
  {
    if values == [] {
      return Resolved(field, Null, "", L3Inferred, false, [], [], NoConflict);
    }
    AgreementTests(values, ValueOf());
    if |values| == 1 || Adjacent(values, ValueOf()) {
      var first := values[0];
      r := Resolved(field, first.value, first.source, first.authority, false, values, [], NoConflict);
      assert Wins(values, 0) && Names(r, values[0]);
      return;
    }
    r := ResolveConflict(field, values);
    ghost var k: nat :| Wins(values, k) && Names(r, values[k]);
    WinnerIsUnbeaten(values, k);
  }

  /** The part of `resolve` that is reached when values disagree. */
  method ResolveConflict(field: string, values: seq<Fact>) returns (r: Resolved)
    requires !Uniform(values, ValueOf())
    ensures Resolves(field, values, r)
  {
    AgreementTests(values, AuthorityOf());
    AgreementTests(values, ScopeOf());
    var mixed := !LikeFirst(values, AuthorityOf());
    var spread := !LikeFirst(values, ScopeOf());
    var sorted := Sort(values, Before());
    ghost var k := SortHeadWins(values);
    var winner := sorted[0];
    var severity :=
      if mixed then Medium
      else if winner.authority.L0SourceOfTruth? || winner.authority.L1Authoritative? then High
      else Low;
    SeverityByWinner(values, k);
    SortedTimes(values);
    var flags := PushFlags(field, mixed, spread, sorted, severity == High);
    r := Resolved(field, winner.value, winner.source, winner.authority, true, values, flags, severity);
    assert Names(r, values[k]);
  }

  /** The flags are pushed one by one. */
  method PushFlags(field: string, mixed: bool, spread: bool, sorted: seq<Fact>, review: bool)
    returns (flags: seq<string>)
    ensures flags == FlagList(field, mixed, spread, !mixed && !spread && !Adjacent(sorted, TimeOf()), review)
  {
    flags := [];
    if mixed { flags := flags + [Flag(field, "authority_mismatch")]; }
    if spread { flags := flags + [Flag(field, "scope_mismatch")]; }
    if !mixed && !spread {
      if !Adjacent(sorted, TimeOf()) { flags := flags + [Flag(field, "recency_tiebreaker")]; }
    }
    if review { flags := flags + [Flag(field, "needs_review")]; }
  }

  lemma SeverityByWinner(values: seq<Fact>, k: nat)
    requires !Uniform(values, ValueOf()) && k < |values|
    ensures Uniform(values, AuthorityOf()) ==> values[0].authority == values[k].authority
  {
    if Uniform(values, AuthorityOf()) {
      assert AuthorityOf()(values[0]) == AuthorityOf()(values[k]);
    }
  }

  lemma SortedTimes(values: seq<Fact>)
    ensures Adjacent(Sort(values, Before()), TimeOf()) <==> Uniform(values, TimeOf())
  {
    var sorted := Sort(values, Before());
    AgreementTests(sorted, TimeOf());
    SortPermutes(values, Before());
    if Uniform(values, TimeOf()) {
      UniformPermutes(sorted, values, TimeOf());
    } else if Uniform(sorted, TimeOf()) {
      UniformPermutes(values, sorted, TimeOf());
    }
  }

  // ---- The winner, spelled out ----

  /** No value beats it, and it beats every earlier one. */
  ghost predicate Unbeaten(values: seq<Fact>, k: nat) {
    && k < |values|
    && (forall j :: 0 <= j < |values| ==> !Beats(values[j], values[k]))
    && (forall j :: 0 <= j < k ==> Beats(values[k], values[j]))
  }

  lemma BestIsUnbeaten(values: seq<Fact>, k: nat)
    requires k < |values|
    ensures Best(values, k) <==> forall j :: 0 <= j < |values| ==> !Beats(values[j], values[k])
  {
    forall j | 0 <= j < |values|
      ensures Beats(values[j], values[k]) <==> !AtLeast(KeysOf(values[k]), KeysOf(values[j]))
    {
      BeatsMeaning(values[j], values[k]);
    }
  }

  /** Among disagreeing values the winner is the earliest that none beats. */
  lemma WinnerIsUnbeaten(values: seq<Fact>, k: nat)
    requires !Uniform(values, ValueOf()) && Wins(values, k)
    ensures Unbeaten(values, k)
  {
    BestIsUnbeaten(values, k);
    forall j | 0 <= j < k
      ensures Beats(values[k], values[j])
    {
      BeatsMeaning(values[k], values[j]);
      if AtLeast(KeysOf(values[j]), KeysOf(values[k])) { AsGoodIsBest(values, k, j); }
    }
  }

  lemma AsGoodIsBest(values: seq<Fact>, k: nat, j: nat)
    requires Best(values, k) && j < |values| && AtLeast(KeysOf(values[j]), KeysOf(values[k]))
    ensures Best(values, j)
  {
    forall i | 0 <= i < |values|
      ensures AtLeast(KeysOf(values[j]), KeysOf(values[i]))
    {
      AtLeastTransitive(KeysOf(values[j]), KeysOf(values[k]), KeysOf(values[i]));
    }
  }

  // ---- The flags, spelled out ----

  ghost predicate Clash(values: seq<Fact>) {
    exists i, j :: 0 <= i < |values| && 0 <= j < |values| && values[i].value != values[j].value
  }

  ghost predicate Mixed(values: seq<Fact>) {
    exists i, j :: 0 <= i < |values| && 0 <= j < |values| && values[i].authority != values[j].authority
  }

  ghost predicate Spread(values: seq<Fact>) {
    exists i, j :: 0 <= i < |values| && 0 <= j < |values| && values[i].scope != values[j].scope
  }

  ghost predicate Aged(values: seq<Fact>) {
    exists i, j :: 0 <= i < |values| && 0 <= j < |values| && values[i].timestamp != values[j].timestamp
  }

  lemma DifferMeaning(values: seq<Fact>)
    ensures Clash(values) <==> !Uniform(values, ValueOf())
    ensures Mixed(values) <==> !Uniform(values, AuthorityOf())
    ensures Spread(values) <==> !Uniform(values, ScopeOf())
    ensures Aged(values) <==> !Uniform(values, TimeOf())
  {
  }

  lemma FlagText(field: string, mixed: bool, spread: bool, recency: bool, review: bool)
    ensures FlagList(field, mixed, spread, recency, review)
         == (if mixed then ["conflict:" + field + ":authority_mismatch"] else [])
            + (if spread then ["conflict:" + field + ":scope_mismatch"] else [])
            + (if recency then ["conflict:" + field + ":recency_tiebreaker"] else [])
            + (if review then ["conflict:" + field + ":needs_review"] else [])
  {
    assert "conflict:" + field + ":" + "authority_mismatch" == "conflict:" + field + ":authority_mismatch";
    assert "conflict:" + field + ":" + "scope_mismatch" == "conflict:" + field + ":scope_mismatch";
    assert "conflict:" + field + ":" + "recency_tiebreaker" == "conflict:" + field + ":recency_tiebreaker";
    assert "conflict:" + field + ":" + "needs_review" == "conflict:" + field + ":needs_review";
  }

  /** Each flag is there exactly for its reason, in this order, and there is no other; the severity likewise. */
  lemma FlagsMeaning(field: string, values: seq<Fact>)
    ensures !Clash(values) ==> FlagsOf(field, values) == [] && SeverityOf(values) == NoConflict
    ensures Clash(values) ==>
              var high := values[0].authority.L0SourceOfTruth? || values[0].authority.L1Authoritative?;
              && FlagsOf(field, values)
                 == (if Mixed(values) then ["conflict:" + field + ":authority_mismatch"] else [])
                    + (if Spread(values) then ["conflict:" + field + ":scope_mismatch"] else [])
                    + (if !Mixed(values) && !Spread(values) && Aged(values) then ["conflict:" + field + ":recency_tiebreaker"] else [])
                    + (if !Mixed(values) && high then ["conflict:" + field + ":needs_review"] else [])
              && SeverityOf(values) == if Mixed(values) then Medium else if high then High else Low
  {
    DifferMeaning(values);
    var mixed, spread := Mixed(values), Spread(values);
    FlagText(field, mixed, spread, !mixed && !spread && Aged(values), SeverityOf(values) == High);
  }

  // ---- The order of the input ----

  ghost function Resolution(field: string, values: seq<Fact>): (r: Resolved)
    ensures Resolves(field, values, r)
  {
    if values == [] then
      Resolved(field, Null, "", L3Inferred, false, [], [], NoConflict)
    else
      var k := Winner(values);
      var v := values[k];
      Resolved(field, v.value, v.source, v.authority, !Uniform(values, ValueOf()), values, FlagsOf(field, values),
               SeverityOf(values))
  }

  ghost function Winner(values: seq<Fact>): (k: nat)
    requires values != []
    ensures Wins(values, k)
  {
    assert exists k: nat :: Wins(values, k) by {
      var k := WinnerExists(values);
    }
    var k: nat :| Wins(values, k);
    k
  }

  lemma UniformBothWays<T, K>(r: seq<T>, s: seq<T>, f: T -> K)
    requires multiset(r) == multiset(s)
    ensures Uniform(r, f) <==> Uniform(s, f)
  {
    if Uniform(s, f) {
      UniformPermutes(r, s, f);
    } else if Uniform(r, f) {
      UniformPermutes(s, r, f);
    }
  }

  /** Being best is a property of the entry among the members. */
  lemma BestAmongMembers(p: seq<Fact>, q: seq<Fact>, k: nat, l: nat)
    requires multiset(p) == multiset(q) && Best(p, k) && l < |q| && q[l] == p[k]
    ensures Best(q, l)
  {
    SameMembers(p, q);
    forall j | 0 <= j < |q|
      ensures AtLeast(KeysOf(q[l]), KeysOf(q[j]))
    {
      assert q[j] in p;
    }
  }

  lemma BestKeysEqual(values: seq<Fact>, k: nat, l: nat)
    requires Best(values, k) && Best(values, l)
    ensures KeysOf(values[k]) == KeysOf(values[l])
  {
    assert AtLeast(KeysOf(values[k]), KeysOf(values[l])) && AtLeast(KeysOf(values[l]), KeysOf(values[k]));
  }

  /** An entry of a permutation, found in the other order. */
  lemma Locate(p: seq<Fact>, q: seq<Fact>, k: nat) returns (l: nat)
    requires multiset(p) == multiset(q) && k < |p|
    ensures l < |q| && q[l] == p[k]
  {
    SameMembers(p, q);
    assert p[k] in q;
    l :| 0 <= l < |q| && q[l] == p[k];
  }

  /** Conflict, severity, flags and the keys of the winner do not depend on input order. */
  lemma OrderOnlyBreaksTies(field: string, p: seq<Fact>, q: seq<Fact>)
    requires multiset(p) == multiset(q)
    ensures var r, t := Resolution(field, p), Resolution(field, q);
            r.conflict == t.conflict && r.severity == t.severity && r.flags == t.flags
    ensures !Uniform(p, ValueOf()) ==> p != [] && q != [] && KeysOf(p[Winner(p)]) == KeysOf(q[Winner(q)])
  {
    UniformBothWays(p, q, ValueOf());
    UniformBothWays(p, q, AuthorityOf());
    UniformBothWays(p, q, ScopeOf());
    UniformBothWays(p, q, TimeOf());
    if !Uniform(p, ValueOf()) {
      var first := Locate(p, q, 0);
      SeverityByWinner(q, first);
      var l := Locate(p, q, Winner(p));
      BestAmongMembers(p, q, Winner(p), l);
      BestKeysEqual(q, l, Winner(q));
    }
  }

  ghost predicate OrderFree(field: string, values: seq<Fact>) {
    forall p: seq<Fact> :: multiset(p) == multiset(values)
      ==> Resolution(field, p).value == Resolution(field, values).value
  }

  /** Entries that tie for best on all six keys hold the same value. */
  ghost predicate BestAgree(values: seq<Fact>) {
    forall i: nat, j: nat :: Best(values, i) && Best(values, j) ==> values[i].value == values[j].value
  }

  lemma AgreeingBestWins(field: string, p: seq<Fact>, values: seq<Fact>)
    requires multiset(p) == multiset(values) && BestAgree(values)
    ensures Resolution(field, p).value == Resolution(field, values).value
  {
    SameMembers(p, values);
    if values != [] {
      UniformBothWays(p, values, ValueOf());
      var k := Winner(p);
      var l := Locate(p, values, k);
      if Uniform(values, ValueOf()) {
        assert ValueOf()(values[l]) == ValueOf()(values[Winner(values)]);
      } else {
        BestAmongMembers(p, values, k, l);
      }
    }
  }

  /** The same entries with entry k moved to the front. */
  ghost function ToFront(values: seq<Fact>, k: nat): (p: seq<Fact>)
    requires k < |values|
    ensures multiset(p) == multiset(values) && |p| > 0 && p[0] == values[k]
  {
    assert values == values[..k] + [values[k]] + values[k + 1..];
    [values[k]] + values[..k] + values[k + 1..]
  }

  lemma FrontBestWins(field: string, values: seq<Fact>, k: nat)
    requires Best(values, k)
    ensures Resolution(field, ToFront(values, k)).value == values[k].value
  {
    var p := ToFront(values, k);
    BestAmongMembers(values, p, k, 0);
    WinnerIsUnique(p, 0, Winner(p));
  }

  /** The winning value is the same for every order of the input exactly if all tied best entries agree. */
  lemma OrderFreeIff(field: string, values: seq<Fact>)
    ensures OrderFree(field, values) <==> BestAgree(values)
  {
    if BestAgree(values) {
      forall p: seq<Fact> | multiset(p) == multiset(values)
        ensures Resolution(field, p).value == Resolution(field, values).value
      {
        AgreeingBestWins(field, p, values);
      }
    }
    if OrderFree(field, values) {
      forall i: nat, j: nat | Best(values, i) && Best(values, j)
        ensures values[i].value == values[j].value
      {
        FrontBestWins(field, values, i);
        FrontBestWins(field, values, j);
      }
    }
  }

  // ---- What the recency flag does not mean ----

  ghost predicate MostRecent(values: seq<Fact>, k: nat) {
    k < |values| && forall j :: 0 <= j < |values| ==> values[j].timestamp <= values[k].timestamp
  }

  /** No entry is better confirmed, or as well confirmed and better verified. */
  ghost predicate BestBacked(values: seq<Fact>, k: nat) {
    && k < |values|
    && forall j :: 0 <= j < |values| ==>
         && BoolRank(values[j].confirmed) <= BoolRank(values[k].confirmed)
         && (values[j].confirmed == values[k].confirmed ==> BoolRank(values[j].verified) <= BoolRank(values[k].verified))
  }

  lemma BestKeys(x: Keys, y: Keys)
    requires AtLeast(x, y) && x.authority == y.authority
    ensures x.confirmed >= y.confirmed
    ensures x.confirmed == y.confirmed ==> x.verified >= y.verified
    ensures x.confirmed == y.confirmed && x.verified == y.verified && x.scope == y.scope ==> x.time >= y.time
  {
    if x != y {
      var i :| 0 <= i < 6 && AboveAt(x, y, i);
      assert 1 < i ==> KeyAt(x, 1) == KeyAt(y, 1);
      assert 2 < i ==> KeyAt(x, 2) == KeyAt(y, 2);
      assert 4 < i ==> KeyAt(x, 4) == KeyAt(y, 4);
    }
  }

  /** At equal authority and scope the winner is a most recent entry iff some best backed entry is. */
  lemma RecencyDecidesIff(values: seq<Fact>, k: nat)
    requires !Uniform(values, ValueOf()) && Uniform(values, AuthorityOf()) && Uniform(values, ScopeOf())
    requires Wins(values, k)
    ensures MostRecent(values, k) <==> exists m: nat :: MostRecent(values, m) && BestBacked(values, m)
  {
    forall j | 0 <= j < |values|
      ensures KeysOf(values[j]).authority == KeysOf(values[k]).authority
      ensures KeysOf(values[j]).scope == KeysOf(values[k]).scope
    {
      assert AuthorityOf()(values[j]) == AuthorityOf()(values[k]);
      assert ScopeOf()(values[j]) == ScopeOf()(values[k]);
    }
    forall j | 0 <= j < |values|
      ensures BoolRank(values[j].confirmed) <= BoolRank(values[k].confirmed)
      ensures values[j].confirmed == values[k].confirmed ==> BoolRank(values[j].verified) <= BoolRank(values[k].verified)
    {
      BestKeys(KeysOf(values[k]), KeysOf(values[j]));
    }
    assert BestBacked(values, k);
    if m: nat :| MostRecent(values, m) && BestBacked(values, m) {
      BestKeys(KeysOf(values[k]), KeysOf(values[m]));
    }
  }

  /** The flag is raised although an older, confirmed entry won. */
  lemma RecencyFlagMisleads(field: string)
    ensures var older := Fact(field, Str("a"), L2Verified, "hr", Team, 1, false, true);
            var newer := Fact(field, Str("b"), L2Verified, "hr", Team, 2, false, false);
            var r := Resolution(field, [newer, older]);
            r.value == older.value && r.flags == [Flag(field, "recency_tiebreaker")]
  {
    var older := Fact(field, Str("a"), L2Verified, "hr", Team, 1, false, true);
    var newer := Fact(field, Str("b"), L2Verified, "hr", Team, 2, false, false);
    var values := [newer, older];
    assert ValueOf()(values[0]) != ValueOf()(values[1]);
    assert TimeOf()(values[0]) != TimeOf()(values[1]);
    assert AboveAt(KeysOf(older), KeysOf(newer), 1);
    assert Best(values, 1);
    if Best(values, 0) { BestKeysEqual(values, 0, 1); }
    WinnerIsUnique(values, 1, Winner(values));
  }
}
