/**
  Merging user profiles from several sources: a stable sort by authority, then
  one rule per field. The rules speak of the sorted profiles; the theorems at
  the end speak of the profiles as they were given.
*/
module ProfileMerge {
  import opened Sequences
  import opened Wrappers
  import opened Json
  import opened Authority
  import opened Sorting
  import opened ProfileFields
  import opened ProfileJson

  datatype Merged = Merged(profile: Profile, conflicts: seq<Conflict>, sources: seq<string>)

  /** `sort_by_key(Reverse(rank))` */
  function ByAuthority(): (Profile, Profile) -> bool {
    (a: Profile, b: Profile) => Rank(a.authority) >= Rank(b.authority)
  }

  function SourceName(s: SourceType): string {
    match s
    case Iam => "iam"
    case Hr => "hr"
    case UserExplicit => "user_explicit"
    case AgentInferred => "agent_inferred"
    case ToolResult => "tool_result"
    case BusinessEvent => "business_event"
  }

  function SourceNames(ps: seq<Profile>, n: nat): (r: seq<string>)
    requires n <= |ps|
    ensures |r| == n && forall i :: 0 <= i < n ==> r[i] == SourceName(ps[i].source)
  {
    if n == 0 then [] else SourceNames(ps, n - 1) + [SourceName(ps[n - 1].source)]
  }

  function EmptyProfile(now: int): Profile {
    Profile("", "", None, [], None, None, None, None, Null, Null, Null, [], [], Null, Internal, UserExplicit, L3Inferred,
            0, None, None, None, now)
  }

  function RoleOf(): Profile -> Option<string> { (p: Profile) => p.role }

  function PositionOf(): Profile -> Option<string> { (p: Profile) => p.position }

  function LanguageOf(): Profile -> Option<string> { (p: Profile) => p.language }

  function TimezoneOf(): Profile -> Option<string> { (p: Profile) => p.timezone }

  function PreferencesOf(): Profile -> Value { (p: Profile) => p.preferences }

  function ExplicitOf(): Profile -> Value { (p: Profile) => p.explicitPreferences }

  function InferredOf(): Profile -> Value { (p: Profile) => p.inferredPreferences }

  function ConsentOf(): Profile -> Value { (p: Profile) => p.consentScope }

  function LinksOf(): Profile -> seq<Value> { (p: Profile) => p.identityLinks }

  function EntitiesOf(): Profile -> seq<Value> { (p: Profile) => p.commonEntities }

  function ProjectsOf(): Profile -> seq<Value> { (p: Profile) => p.activeProjects }

  function VersionOf(): Profile -> int { (p: Profile) => p.version }

  function UpdatedOf(): Profile -> int { (p: Profile) => p.updatedAt }

  // ---- What a merge is ----

  ghost predicate IsMax(ps: seq<Profile>, f: Profile -> int, m: int) {
    && (forall i :: 0 <= i < |ps| ==> f(ps[i]) <= m)
    && (exists i :: 0 <= i < |ps| && f(ps[i]) == m)
  }

  ghost predicate TextsMerged(sorted: seq<Profile>, p: Profile) {
    && p.role == ChosenText(sorted, RoleOf())
    && p.position == ChosenText(sorted, PositionOf())
    && p.language == ChosenText(sorted, LanguageOf())
    && p.timezone == ChosenText(sorted, TimezoneOf())
  }

  ghost predicate ObjectsMerged(sorted: seq<Profile>, p: Profile) {
    && JsonMerged(sorted, PreferencesOf(), p.preferences)
    && JsonMerged(sorted, ExplicitOf(), p.explicitPreferences)
    && JsonMerged(sorted, InferredOf(), p.inferredPreferences)
  }

  ghost predicate ArraysMerged(sorted: seq<Profile>, p: Profile) {
    && FirstOccurrences(p.identityLinks, Flat(sorted, LinksOf(), |sorted|))
    && FirstOccurrences(p.commonEntities, Flat(sorted, EntitiesOf(), |sorted|))
    && FirstOccurrences(p.activeProjects, Flat(sorted, ProjectsOf(), |sorted|))
  }

  /** The fields copied from the most authoritative profile. */
  ghost predicate CopiedFrom(base: Profile, p: Profile) {
    && p.userId == base.userId && p.organizationId == base.organizationId && p.factoryId == base.factoryId
    && p.consentScope == base.consentScope && p.privacyClass == base.privacyClass
    && p.source == base.source && p.authority == base.authority
    && p.validFrom == base.validFrom && p.validTo == base.validTo && p.lastVerifiedAt == base.lastVerifiedAt
  }

  ghost predicate NewestOf(ps: seq<Profile>, p: Profile) {
    IsMax(ps, VersionOf(), p.version) && IsMax(ps, UpdatedOf(), p.updatedAt)
  }

  ghost function TextConflictList(sorted: seq<Profile>): seq<Conflict> {
    TextConflicts("role", sorted, RoleOf())
    + TextConflicts("position", sorted, PositionOf())
    + TextConflicts("language", sorted, LanguageOf())
    + TextConflicts("timezone", sorted, TimezoneOf())
  }

  ghost function JsonConflictList(sorted: seq<Profile>): seq<Conflict>
    requires sorted != []
  {
    MergeConflicts("preferences", sorted, PreferencesOf())
    + MergeConflicts("explicit_preferences", sorted, ExplicitOf())
    + MergeConflicts("inferred_preferences", sorted, InferredOf())
    + JsonConflicts("consent_scope", sorted, ConsentOf(), FromAuthority(sorted[0].authority))
  }

  /** One profile made of several; `ps` as given, `sorted` in authority order. */
  ghost predicate MergedAs(ps: seq<Profile>, sorted: seq<Profile>, r: Merged) {
    && sorted != []
    && TextsMerged(sorted, r.profile) && ObjectsMerged(sorted, r.profile) && ArraysMerged(sorted, r.profile)
    && CopiedFrom(sorted[0], r.profile) && NewestOf(ps, r.profile)
    && r.conflicts == TextConflictList(sorted) + JsonConflictList(sorted)
  }

  ghost predicate Merges(ps: seq<Profile>, now: int, r: Merged) {
    && r.sources == SourceNames(ps, |ps|)
    && if |ps| == 0 then r.profile == EmptyProfile(now) && r.conflicts == []
       else if |ps| == 1 then r.profile == ps[0] && r.conflicts == []
       else MergedAs(ps, Sort(ps, ByAuthority()), r)
  }

  // ---- The merge ----

  /** `iter().map(..).max()` */
  method MaxOf(ps: seq<Profile>, f: Profile -> int) returns (m: int)
    requires ps != []
    ensures IsMax(ps, f, m)
  {
    m := f(ps[0]);
    for i := 1 to |ps|
      invariant forall k :: 0 <= k < i ==> f(ps[k]) <= m
      invariant exists k :: 0 <= k < i && f(ps[k]) == m
    {
      if f(ps[i]) > m { m := f(ps[i]); }
    }
  }

  method ResolveTexts(sorted: seq<Profile>)
    returns (role: Option<string>, position: Option<string>, language: Option<string>, timezone: Option<string>,
             conflicts: seq<Conflict>)
    ensures role == ChosenText(sorted, RoleOf()) && position == ChosenText(sorted, PositionOf())
    ensures language == ChosenText(sorted, LanguageOf()) && timezone == ChosenText(sorted, TimezoneOf())
    ensures conflicts == TextConflictList(sorted)
  {
    role, conflicts := ResolveOptString("role", sorted, RoleOf(), []);
    position, conflicts := ResolveOptString("position", sorted, PositionOf(), conflicts);
    language, conflicts := ResolveOptString("language", sorted, LanguageOf(), conflicts);
    timezone, conflicts := ResolveOptString("timezone", sorted, TimezoneOf(), conflicts);
  }

  method MergeObjects(sorted: seq<Profile>, before: seq<Conflict>)
    returns (preferences: Value, explicit: Value, inferred: Value, consent: Value, conflicts: seq<Conflict>)
    requires sorted != []
    ensures JsonMerged(sorted, PreferencesOf(), preferences)
    ensures JsonMerged(sorted, ExplicitOf(), explicit)
    ensures JsonMerged(sorted, InferredOf(), inferred)
    ensures consent == sorted[0].consentScope
    ensures conflicts == before + JsonConflictList(sorted)
  {
    preferences, conflicts := MergeJsonObject("preferences", sorted, PreferencesOf(), before);
    explicit, conflicts := MergeJsonObject("explicit_preferences", sorted, ExplicitOf(), conflicts);
    inferred, conflicts := MergeJsonObject("inferred_preferences", sorted, InferredOf(), conflicts);
    consent, conflicts := ResolveJson("consent_scope", sorted, ConsentOf(), conflicts);
    AppendFour(before, MergeConflicts("preferences", sorted, PreferencesOf()),
               MergeConflicts("explicit_preferences", sorted, ExplicitOf()),
               MergeConflicts("inferred_preferences", sorted, InferredOf()),
               JsonConflicts("consent_scope", sorted, ConsentOf(), FromAuthority(sorted[0].authority)));
  }

  lemma AppendFour(s: seq<Conflict>, a: seq<Conflict>, b: seq<Conflict>, c: seq<Conflict>, d: seq<Conflict>)
    ensures s + a + b + c + d == s + (a + b + c + d)
  {
  }

  /** `merge_profiles_impl` */
  method MergeProfiles(ps: seq<Profile>, now: int) returns (r: Merged)
    ensures Merges(ps, now, r)
    ensures |ps| >= 2 ==> exists m: nat :: TopAmong(ps, Anyone(), m) && CopiedFrom(ps[m], r.profile)
  {
    var sources := SourceNames(ps, |ps|);
    if |ps| == 0 {
      return Merged(EmptyProfile(now), [], sources);
    }
    if |ps| == 1 {
      return Merged(ps[0], [], sources);
    }
    var sorted := Sort(ps, ByAuthority());
    SortPermutes(ps, ByAuthority());
    var base := sorted[0];
    var role, position, language, timezone, conflicts := ResolveTexts(sorted);
    var preferences, explicit, inferred, consent, all := MergeObjects(sorted, conflicts);
    var links := UnionArrays(sorted, LinksOf());
    var entities := UnionArrays(sorted, EntitiesOf());
    var projects := UnionArrays(sorted, ProjectsOf());
    var version := MaxOf(ps, VersionOf());
    var updated := MaxOf(ps, UpdatedOf());
    var profile := Profile(base.userId, base.organizationId, base.factoryId, links, role, position, language, timezone,
                           preferences, explicit, inferred, entities, projects, consent, base.privacyClass, base.source,
                           base.authority, version, base.validFrom, base.validTo, base.lastVerifiedAt, updated);
    r := Merged(profile, all, sources);
    ghost var m := BaseFromTop(ps);
    assert CopiedFrom(ps[m], r.profile);
  }

  // ---- In terms of the profiles as given ----

  /** Among the given profiles that satisfy P, m is the earliest that none of them outranks. */
  ghost predicate TopAmong(ps: seq<Profile>, P: Profile -> bool, m: nat) {
    && m < |ps| && P(ps[m])
    && (forall i :: 0 <= i < |ps| && P(ps[i]) ==> !Outranks(ps[i].authority, ps[m].authority))
    && (forall i :: 0 <= i < m && P(ps[i]) ==> Outranks(ps[m].authority, ps[i].authority))
  }

  /** The same in numbers, which is how the sort sees it. */
  ghost predicate TopByRank(ps: seq<Profile>, P: Profile -> bool, m: nat) {
    && m < |ps| && P(ps[m])
    && (forall i :: 0 <= i < |ps| && P(ps[i]) ==> Rank(ps[i].authority) <= Rank(ps[m].authority))
    && (forall i :: 0 <= i < m && P(ps[i]) ==> Rank(ps[i].authority) < Rank(ps[m].authority))
  }

  lemma TopMeaning(ps: seq<Profile>, P: Profile -> bool, m: nat)
    requires TopByRank(ps, P, m)
    ensures TopAmong(ps, P, m)
  {
    forall i | 0 <= i < |ps|
      ensures Outranks(ps[i].authority, ps[m].authority) <==> Rank(ps[i].authority) > Rank(ps[m].authority)
      ensures Outranks(ps[m].authority, ps[i].authority) <==> Rank(ps[m].authority) > Rank(ps[i].authority)
    {
      RankOrder(ps[i].authority, ps[m].authority);
      RankOrder(ps[m].authority, ps[i].authority);
    }
  }

  function FirstSuch(ps: seq<Profile>, P: Profile -> bool): Option<Profile> {
    if ps == [] then None else if P(ps[0]) then Some(ps[0]) else FirstSuch(ps[1..], P)
  }

  lemma {:induction false} FirstSuchAt(ps: seq<Profile>, P: Profile -> bool, k: nat)
    requires k < |ps| && P(ps[k]) && forall j :: 0 <= j < k ==> !P(ps[j])
    ensures FirstSuch(ps, P) == Some(ps[k])
  {
    if k > 0 { FirstSuchAt(ps[1..], P, k - 1); }
  }

  lemma {:induction false} FirstSuchIsMember(ps: seq<Profile>, P: Profile -> bool)
    ensures FirstSuch(ps, P).Some? ==> FirstSuch(ps, P).value in ps && P(FirstSuch(ps, P).value)
  {
    if ps != [] { FirstSuchIsMember(ps[1..], P); }
  }

  lemma {:induction false} FirstSuchOfInsert(x: Profile, ps: seq<Profile>, P: Profile -> bool)
    requires SortedBy(ps, ByAuthority())
    ensures FirstSuch(Insert(x, ps, ByAuthority()), P)
         == var y := FirstSuch(ps, P);
            if P(x) && (y.None? || ByAuthority()(x, y.value)) then Some(x) else y
  {
    var le := ByAuthority();
    if ps == [] {
      assert [x][1..] == [];
    } else if le(x, ps[0]) {
      assert ([x] + ps)[1..] == ps;
      FirstSuchIsMember(ps, P);
    } else {
      FirstSuchOfInsert(x, ps[1..], P);
      assert ([ps[0]] + Insert(x, ps[1..], le))[1..] == Insert(x, ps[1..], le);
    }
  }

  /** The first such profile after the stable sort is the top one among those given. */
  lemma {:induction false} FirstSuchOfSort(ps: seq<Profile>, P: Profile -> bool) returns (m: nat)
    ensures FirstSuch(Sort(ps, ByAuthority()), P).Some? ==>
              TopByRank(ps, P, m) && FirstSuch(Sort(ps, ByAuthority()), P).value == ps[m]
    ensures FirstSuch(Sort(ps, ByAuthority()), P).None? ==> forall i :: 0 <= i < |ps| ==> !P(ps[i])
  {
    m := 0;
    if ps != [] {
      var rest := ps[1..];
      var n := FirstSuchOfSort(rest, P);
      SortSorts(rest, ByAuthority());
      FirstSuchOfInsert(ps[0], Sort(rest, ByAuthority()), P);
      var y := FirstSuch(Sort(rest, ByAuthority()), P);
      assert forall i :: 0 < i < |ps| ==> ps[i] == rest[i - 1];
      m := if P(ps[0]) && (y.None? || ByAuthority()(ps[0], y.value)) then 0 else n + 1;
    }
  }

  lemma FirstInAuthorityOrder(ps: seq<Profile>, P: Profile -> bool, k: nat) returns (m: nat)
    requires var sorted := Sort(ps, ByAuthority());
             k < |sorted| && P(sorted[k]) && forall j :: 0 <= j < k ==> !P(sorted[j])
    ensures TopAmong(ps, P, m) && ps[m] == Sort(ps, ByAuthority())[k]
  {
    FirstSuchAt(Sort(ps, ByAuthority()), P, k);
    m := FirstSuchOfSort(ps, P);
    TopMeaning(ps, P, m);
  }

  lemma SortedHasSame(ps: seq<Profile>)
    ensures |Sort(ps, ByAuthority())| == |ps|
    ensures forall p :: p in Sort(ps, ByAuthority()) <==> p in ps
  {
    SortPermutes(ps, ByAuthority());
    SameMembers(Sort(ps, ByAuthority()), ps);
  }

  function HasText(get: Profile -> Option<string>): Profile -> bool {
    (p: Profile) => get(p).Some?
  }

  function HasKey(get: Profile -> Value, key: string): Profile -> bool {
    (p: Profile) => key in FieldsOf(get(p))
  }

  /** A scalar field is missing only if all lack it, and else is that of the top profile that has it. */
  lemma TextFromTop(ps: seq<Profile>, get: Profile -> Option<string>) returns (m: nat)
    ensures var r := ChosenText(Sort(ps, ByAuthority()), get);
            && (r.None? <==> Absent(ps, get))
            && (r.Some? ==> TopAmong(ps, HasText(get), m) && r == get(ps[m]))
  {
    var sorted := Sort(ps, ByAuthority());
    SortedHasSame(ps);
    m := 0;
    if Absent(sorted, get) {
      forall i | 0 <= i < |ps|
        ensures get(ps[i]).None?
      {
        assert ps[i] in sorted;
      }
    } else {
      m := FirstInAuthorityOrder(ps, HasText(get), First(sorted, get));
    }
  }

  lemma TextsDifferIn(ps: seq<Profile>, qs: seq<Profile>, get: Profile -> Option<string>)
    requires (forall p :: p in ps ==> p in qs) && TextsDiffer(ps, get)
    ensures TextsDiffer(qs, get)
  {
    var i, j :| 0 <= i < |ps| && 0 <= j < |ps| && get(ps[i]).Some? && get(ps[j]).Some? && get(ps[i]) != get(ps[j]);
    assert ps[i] in qs && ps[j] in qs;
    var a :| 0 <= a < |qs| && qs[a] == ps[i];
    var b :| 0 <= b < |qs| && qs[b] == ps[j];
    assert get(qs[a]) != get(qs[b]);
  }

  /** Every given profile that has a value is among the entries. */
  lemma GivenIsListed(ps: seq<Profile>, get: Profile -> Option<string>, i: nat) returns (a: nat)
    requires i < |ps| && get(ps[i]).Some?
    ensures var sorted := Sort(ps, ByAuthority());
            a < |Entries(sorted, get, |sorted|)| && Entries(sorted, get, |sorted|)[a].0 == Text(get(ps[i]).value)
  {
    var sorted := Sort(ps, ByAuthority());
    SortedHasSame(ps);
    assert ps[i] in sorted;
    var j: nat :| j < |sorted| && sorted[j] == ps[i];
    a := PresentIsListed(sorted, get, j);
  }

  /** `v` is among the values that the entry shows. */
  ghost predicate Shows(c: Conflict, v: Shown) {
    exists a :: 0 <= a < |c.values| && c.values[a].0 == v
  }

  /** A scalar conflict is recorded exactly if two present values differ, and then lists every one. */
  lemma TextRecordedIff(field: string, ps: seq<Profile>, get: Profile -> Option<string>, added: seq<Conflict>)
    requires added == TextConflicts(field, Sort(ps, ByAuthority()), get)
    ensures added != [] <==> TextsDiffer(ps, get)
    ensures added != [] ==> forall i :: 0 <= i < |ps| && get(ps[i]).Some? ==> Shows(added[0], Text(get(ps[i]).value))
  {
    var sorted := Sort(ps, ByAuthority());
    SortedHasSame(ps);
    if TextsDiffer(ps, get) {
      TextsDifferIn(ps, sorted, get);
    }
    if added != [] {
      TextsDifferIn(sorted, ps, get);
      forall i | 0 <= i < |ps| && get(ps[i]).Some?
        ensures Shows(added[0], Text(get(ps[i]).value))
      {
        var a := GivenIsListed(ps, get, i);
      }
    }
  }

  /** If all values are objects or null: the keys are the union, each with the value of its top holder. */
  lemma KeyFromTop(ps: seq<Profile>, get: Profile -> Value, r: Value, key: string) returns (m: nat)
    requires AllMergeable(ps, get) && JsonMerged(Sort(ps, ByAuthority()), get, r)
    ensures r.Object?
    ensures key in r.fields <==> exists i :: 0 <= i < |ps| && key in FieldsOf(get(ps[i]))
    ensures key in r.fields ==> TopAmong(ps, HasKey(get, key), m) && r.fields[key] == FieldsOf(get(ps[m]))[key]
  {
    var sorted := Sort(ps, ByAuthority());
    SortedHasSame(ps);
    AllMergeableInOrder(ps, get);
    m := 0;
    if key in r.fields {
      var j: nat :| j < |sorted| && key in FieldsOf(get(sorted[j]));
      assert sorted[j] in ps;
    }
    if i :| 0 <= i < |ps| && key in FieldsOf(get(ps[i])) {
      assert ps[i] in sorted;
      var j: nat :| j < |sorted| && sorted[j] == ps[i];
      var k := FirstHolder(key, sorted, get, j);
      m := FirstInAuthorityOrder(ps, HasKey(get, key), k);
    }
  }

  lemma AllMergeableInOrder(ps: seq<Profile>, get: Profile -> Value)
    ensures AllMergeable(Sort(ps, ByAuthority()), get) <==> AllMergeable(ps, get)
  {
    var sorted := Sort(ps, ByAuthority());
    SortedHasSame(ps);
    if AllMergeable(ps, get) {
      forall j | 0 <= j < |sorted|
        ensures Mergeable(get(sorted[j]))
      {
        assert sorted[j] in ps;
      }
    } else if AllMergeable(sorted, get) {
      forall j | 0 <= j < |ps|
        ensures Mergeable(get(ps[j]))
      {
        assert ps[j] in sorted;
      }
    }
  }

  lemma ValuesDifferIn(ps: seq<Profile>, qs: seq<Profile>, get: Profile -> Value)
    requires forall p :: p in ps ==> p in qs
    requires ValuesDiffer(ps, get)
    ensures ValuesDiffer(qs, get)
  {
    var i, j :| 0 <= i < |ps| && 0 <= j < |ps| && get(ps[i]) != get(ps[j]);
    assert ps[i] in qs && ps[j] in qs;
    var a :| 0 <= a < |qs| && qs[a] == ps[i];
    var b :| 0 <= b < |qs| && qs[b] == ps[j];
    assert get(qs[a]) != get(qs[b]);
  }

  /**
    Otherwise the result is a value that is neither an object nor null, and the
    least authoritative one of those, although objects prefer high authority.
  */
  lemma OtherValueFromBottom(ps: seq<Profile>, get: Profile -> Value, r: Value) returns (m: nat)
    requires !AllMergeable(ps, get) && JsonMerged(Sort(ps, ByAuthority()), get, r)
    ensures m < |ps| && r == get(ps[m]) && !Mergeable(r)
    ensures forall i :: 0 <= i < |ps| && !Mergeable(get(ps[i])) ==> !Outranks(ps[m].authority, ps[i].authority)
  {
    var sorted := Sort(ps, ByAuthority());
    SortedHasSame(ps);
    AllMergeableInOrder(ps, get);
    SortSorts(ps, ByAuthority());
    var k: nat :| LastOther(sorted, get, k) && r == get(sorted[k]);
    assert sorted[k] in ps;
    m :| 0 <= m < |ps| && ps[m] == sorted[k];
    forall i | 0 <= i < |ps| && !Mergeable(get(ps[i]))
      ensures !Outranks(ps[m].authority, ps[i].authority)
    {
      LastOtherIsBottom(sorted, get, k, ps[i]);
      RankOrder(ps[m].authority, ps[i].authority);
    }
  }

  lemma LastOtherIsBottom(sorted: seq<Profile>, get: Profile -> Value, k: nat, p: Profile)
    requires SortedBy(sorted, ByAuthority()) && LastOther(sorted, get, k) && p in sorted && !Mergeable(get(p))
    ensures Rank(sorted[k].authority) <= Rank(p.authority)
  {
    var j :| 0 <= j < |sorted| && sorted[j] == p;
    assert j < k ==> ByAuthority()(sorted[j], sorted[k]);
  }

  /** A disagreement on an object field is recorded exactly if every value is an object or null. */
  lemma RecordedIff(field: string, ps: seq<Profile>, get: Profile -> Value)
    ensures MergeConflicts(field, Sort(ps, ByAuthority()), get) != [] <==> ValuesDiffer(ps, get) && AllMergeable(ps, get)
  {
    var sorted := Sort(ps, ByAuthority());
    AllMergeableInOrder(ps, get);
    SortedHasSame(ps);
    if ValuesDiffer(ps, get) {
      ValuesDifferIn(ps, sorted, get);
    }
    if ValuesDiffer(sorted, get) {
      ValuesDifferIn(sorted, ps, get);
    }
  }

  /** So one lone string overrides an object of whatever authority, and no conflict is recorded. */
  lemma SilentOverride(field: string, p: Profile, q: Profile, get: Profile -> Value, r: Value)
    requires get(p).Object? && get(q).Str? && JsonMerged(Sort([p, q], ByAuthority()), get, r)
    ensures r == get(q) && get(p) != get(q)
    ensures MergeConflicts(field, Sort([p, q], ByAuthority()), get) == []
  {
    var ps := [p, q];
    assert !Mergeable(get(ps[1]));
    var m := OtherValueFromBottom(ps, get, r);
    AllMergeableInOrder(ps, get);
  }

  lemma {:induction false} FlatMembers(ps: seq<Profile>, get: Profile -> seq<Value>, n: nat, v: Value)
    requires n <= |ps|
    ensures v in Flat(ps, get, n) <==> exists i :: 0 <= i < n && v in get(ps[i])
  {
    if n > 0 {
      FlatMembers(ps, get, n - 1, v);
      assert v in get(ps[n - 1]) ==> exists i :: 0 <= i < n && v in get(ps[i]);
    }
  }

  /** The union holds the elements of all given profiles, each once, and nothing else. */
  lemma UnionMembers(ps: seq<Profile>, get: Profile -> seq<Value>, r: seq<Value>, v: Value)
    requires var sorted := Sort(ps, ByAuthority()); FirstOccurrences(r, Flat(sorted, get, |sorted|))
    ensures v in r <==> exists i :: 0 <= i < |ps| && v in get(ps[i])
    ensures Distinct(r)
  {
    var sorted := Sort(ps, ByAuthority());
    SortedHasSame(ps);
    FlatMembers(sorted, get, |sorted|, v);
    if i :| 0 <= i < |ps| && v in get(ps[i]) {
      assert ps[i] in sorted;
      var j :| 0 <= j < |sorted| && sorted[j] == ps[i];
      assert v in get(sorted[j]);
    }
    if j :| 0 <= j < |sorted| && v in get(sorted[j]) {
      assert sorted[j] in ps;
      var i :| 0 <= i < |ps| && ps[i] == sorted[j];
      assert v in get(ps[i]);
    }
  }

  // ---- The merged profile, field by field ----

  function Anyone(): Profile -> bool {
    (p: Profile) => true
  }

  /** The base is the earliest profile that none outranks. */
  lemma BaseFromTop(ps: seq<Profile>) returns (m: nat)
    requires ps != []
    ensures TopAmong(ps, Anyone(), m) && |Sort(ps, ByAuthority())| == |ps| && Sort(ps, ByAuthority())[0] == ps[m]
  {
    SortedHasSame(ps);
    m := FirstInAuthorityOrder(ps, Anyone(), 0);
  }

  /** The scalar fields: none exactly if no profile has one, and else that of the top profile which does. */
  lemma MergedTexts(ps: seq<Profile>, now: int, r: Merged)
    requires |ps| >= 2 && Merges(ps, now, r)
    ensures r.profile.role.None? <==> forall i :: 0 <= i < |ps| ==> ps[i].role.None?
    ensures r.profile.role.Some? ==> exists m: nat :: TopAmong(ps, HasText(RoleOf()), m) && r.profile.role == ps[m].role
    ensures r.profile.position.None? <==> forall i :: 0 <= i < |ps| ==> ps[i].position.None?
    ensures r.profile.position.Some? ==> exists m: nat :: TopAmong(ps, HasText(PositionOf()), m) && r.profile.position == ps[m].position
    ensures r.profile.language.None? <==> forall i :: 0 <= i < |ps| ==> ps[i].language.None?
    ensures r.profile.language.Some? ==> exists m: nat :: TopAmong(ps, HasText(LanguageOf()), m) && r.profile.language == ps[m].language
    ensures r.profile.timezone.None? <==> forall i :: 0 <= i < |ps| ==> ps[i].timezone.None?
    ensures r.profile.timezone.Some? ==> exists m: nat :: TopAmong(ps, HasText(TimezoneOf()), m) && r.profile.timezone == ps[m].timezone
  {
    var a := TextFromTop(ps, RoleOf());
    var b := TextFromTop(ps, PositionOf());
    var c := TextFromTop(ps, LanguageOf());
    var d := TextFromTop(ps, TimezoneOf());
  }

  /** The accessors read the fields they are named after. */
  lemma AccessorsMeaning(p: Profile)
    ensures RoleOf()(p) == p.role && PositionOf()(p) == p.position && LanguageOf()(p) == p.language && TimezoneOf()(p) == p.timezone
    ensures PreferencesOf()(p) == p.preferences && ExplicitOf()(p) == p.explicitPreferences && InferredOf()(p) == p.inferredPreferences
    ensures ConsentOf()(p) == p.consentScope && LinksOf()(p) == p.identityLinks && EntitiesOf()(p) == p.commonEntities
    ensures ProjectsOf()(p) == p.activeProjects && VersionOf()(p) == p.version && UpdatedOf()(p) == p.updatedAt
  {
  }

  /** The remaining fields: those of the base, and the newest version and time. */
  lemma MergedRest(ps: seq<Profile>, now: int, r: Merged) returns (m: nat)
    requires |ps| >= 2 && Merges(ps, now, r)
    ensures TopAmong(ps, Anyone(), m)
    ensures r.profile.userId == ps[m].userId && r.profile.organizationId == ps[m].organizationId
    ensures r.profile.consentScope == ps[m].consentScope && r.profile.privacyClass == ps[m].privacyClass
    ensures r.profile.source == ps[m].source && r.profile.authority == ps[m].authority
    ensures (forall i :: 0 <= i < |ps| ==> ps[i].version <= r.profile.version && ps[i].updatedAt <= r.profile.updatedAt)
    ensures (exists i :: 0 <= i < |ps| && ps[i].version == r.profile.version)
    ensures (exists i :: 0 <= i < |ps| && ps[i].updatedAt == r.profile.updatedAt)
  {
    m := BaseFromTop(ps);
    var p := r.profile;
    forall i | 0 <= i < |ps|
      ensures ps[i].version <= p.version && ps[i].updatedAt <= p.updatedAt
    {
      assert VersionOf()(ps[i]) <= p.version && UpdatedOf()(ps[i]) <= p.updatedAt;
    }
    var i :| 0 <= i < |ps| && VersionOf()(ps[i]) == p.version;
    var j :| 0 <= j < |ps| && UpdatedOf()(ps[j]) == p.updatedAt;
    assert ps[i].version == p.version && ps[j].updatedAt == p.updatedAt;
  }

  /** Merging nothing gives a profile without content, of the lowest trust; merging one gives it back. */
  lemma FewProfiles(ps: seq<Profile>, now: int, r: Merged)
    requires |ps| <= 1 && Merges(ps, now, r)
    ensures r.conflicts == [] && |r.sources| == |ps|
    ensures |ps| == 1 ==> r.profile == ps[0]
    ensures ps == [] ==>
              && r.profile.userId == "" && r.profile.organizationId == "" && r.profile.factoryId.None?
              && r.profile.role.None? && r.profile.position.None? && r.profile.language.None? && r.profile.timezone.None?
              && r.profile.preferences.Null? && r.profile.explicitPreferences.Null? && r.profile.inferredPreferences.Null?
              && r.profile.consentScope.Null?
              && r.profile.identityLinks == r.profile.commonEntities == r.profile.activeProjects == []
              && r.profile.authority.L3Inferred? && r.profile.source.UserExplicit? && r.profile.privacyClass.Internal?
              && r.profile.version == 0 && r.profile.updatedAt == now
              && r.profile.validFrom.None? && r.profile.validTo.None? && r.profile.lastVerifiedAt.None?
  {
  }

  /** Sources are named in the order in which the profiles were given, different ones differently. */
  lemma SourcesMeaning(a: SourceType, b: SourceType)
    ensures SourceName(a) == SourceName(b) ==> a == b
    ensures SourceName(Iam) == "iam" && SourceName(Hr) == "hr" && SourceName(UserExplicit) == "user_explicit"
  {
    assert |"iam"| == 3 && |"hr"| == 2 && |"user_explicit"| == 13 && |"agent_inferred"| == 14;
    assert |"tool_result"| == 11 && |"business_event"| == 14 && "agent_inferred"[0] != "business_event"[0];
  }

  // ---- Which orders of the input matter ----

  lemma SortForgetsInterleaving(ps: seq<Profile>, qs: seq<Profile>)
    requires StableWith(ps, qs, ByAuthority())
    ensures Sort(ps, ByAuthority()) == Sort(qs, ByAuthority()) && multiset(ps) == multiset(qs)
  {
    var sorted := Sort(ps, ByAuthority());
    SortSorts(ps, ByAuthority());
    SortStable(ps, ByAuthority());
    assert StableWith(sorted, qs, ByAuthority());
    SortIsTheStableSort(sorted, qs, ByAuthority());
    SortPermutes(ps, ByAuthority());
    SortPermutes(qs, ByAuthority());
  }

  lemma MaxOneWay(ps: seq<Profile>, qs: seq<Profile>, f: Profile -> int, m: int, n: int)
    requires multiset(ps) == multiset(qs) && IsMax(ps, f, m) && IsMax(qs, f, n)
    ensures m == n
  {
    SameMembers(ps, qs);
    var i :| 0 <= i < |ps| && f(ps[i]) == m;
    var j :| 0 <= j < |qs| && f(qs[j]) == n;
    assert ps[i] in qs && qs[j] in ps;
  }

  lemma ArraysOneWay(s: seq<Value>, a: seq<Value>, b: seq<Value>)
    requires FirstOccurrences(a, s) && FirstOccurrences(b, s)
    ensures a == b
  {
    var n := if |a| <= |b| then |a| else |b|;
    assert |a| > n ==> a[n] in a;
    assert |b| > n ==> b[n] in b;
    FirstOccurrencesOneWay(a, b, s, n);
  }

  lemma MergedAsOneWay(ps: seq<Profile>, qs: seq<Profile>, sorted: seq<Profile>, r: Merged, t: Merged)
    requires multiset(ps) == multiset(qs) && MergedAs(ps, sorted, r) && MergedAs(qs, sorted, t)
    ensures r.profile == t.profile && r.conflicts == t.conflicts
  {
    var a, b := r.profile, t.profile;
    JsonMergedOneWay(sorted, PreferencesOf(), a.preferences, b.preferences);
    JsonMergedOneWay(sorted, ExplicitOf(), a.explicitPreferences, b.explicitPreferences);
    JsonMergedOneWay(sorted, InferredOf(), a.inferredPreferences, b.inferredPreferences);
    ArraysOneWay(Flat(sorted, LinksOf(), |sorted|), a.identityLinks, b.identityLinks);
    ArraysOneWay(Flat(sorted, EntitiesOf(), |sorted|), a.commonEntities, b.commonEntities);
    ArraysOneWay(Flat(sorted, ProjectsOf(), |sorted|), a.activeProjects, b.activeProjects);
    MaxOneWay(ps, qs, VersionOf(), a.version, b.version);
    MaxOneWay(ps, qs, UpdatedOf(), a.updatedAt, b.updatedAt);
  }

  /**
    The merged profile and the conflicts depend only on the order within each
    authority level: interleaving the levels differently changes nothing.
  */
  lemma InterleavingIsIrrelevant(ps: seq<Profile>, qs: seq<Profile>, now: int, r: Merged, t: Merged)
    requires StableWith(ps, qs, ByAuthority()) && Merges(ps, now, r) && Merges(qs, now, t)
    ensures r.profile == t.profile && r.conflicts == t.conflicts
  {
    SortForgetsInterleaving(ps, qs);
    SameMembers(ps, qs);
    if |ps| <= 1 {
      SortIdentity(ps, ByAuthority());
      SortIdentity(qs, ByAuthority());
    } else {
      MergedAsOneWay(ps, qs, Sort(ps, ByAuthority()), r, t);
    }
  }
}
