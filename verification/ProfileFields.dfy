/**
  Merging one field of several user profiles that are already in authority
  order, most authoritative first: optional strings, JSON objects and arrays.
  A serialized JSON value is represented by the value it was printed from.
*/
module ProfileFields {
  import opened Sequences
  import opened Wrappers
  import opened Json
  import opened Authority

  datatype PrivacyClass = Public | Internal | Confidential | Restricted

  datatype SourceType = Iam | Hr | UserExplicit | AgentInferred | ToolResult | BusinessEvent

  datatype Profile = Profile(
    userId: string,
    organizationId: string,
    factoryId: Option<string>,
    identityLinks: seq<Value>,
    role: Option<string>,
    position: Option<string>,
    language: Option<string>,
    timezone: Option<string>,
    preferences: Value,
    explicitPreferences: Value,
    inferredPreferences: Value,
    commonEntities: seq<Value>,
    activeProjects: seq<Value>,
    consentScope: Value,
    privacyClass: PrivacyClass,
    source: SourceType,
    authority: AuthorityLevel,
    version: int,
    validFrom: Option<int>,
    validTo: Option<int>,
    lastVerifiedAt: Option<int>,
    updatedAt: int)

  /** What a conflict entry shows of a value, and how it says the conflict was settled. */
  datatype Shown = Text(text: string) | Printed(value: Value)

  datatype Settled = WonBy(text: string, authority: AuthorityLevel) | FromAuthority(level: AuthorityLevel) | KeyByKey

  datatype Conflict = Conflict(field: string, values: seq<(Shown, AuthorityLevel)>, settled: Settled)

  // ---- Optional strings ----

  /** The present values with their authority, among the first `n` profiles. */
  function Entries(ps: seq<Profile>, get: Profile -> Option<string>, n: nat): seq<(Shown, AuthorityLevel)>
    requires n <= |ps|
  {
    if n == 0 then []
    else Entries(ps, get, n - 1)
         + if get(ps[n - 1]).Some? then [(Text(get(ps[n - 1]).value), ps[n - 1].authority)] else []
  }

  /** The positions those entries come from. */
  ghost function Holders(ps: seq<Profile>, get: Profile -> Option<string>, n: nat): seq<nat>
    requires n <= |ps|
  {
    if n == 0 then [] else Holders(ps, get, n - 1) + if get(ps[n - 1]).Some? then [n - 1] else []
  }

  /** Exactly the positions with a value, each once, in order. */
  lemma {:induction false} HoldersMeaning(ps: seq<Profile>, get: Profile -> Option<string>, n: nat)
    requires n <= |ps|
    ensures var hs := Holders(ps, get, n);
            && (forall i :: i in hs <==> 0 <= i < n && get(ps[i]).Some?)
            && (forall a, b :: 0 <= a < b < |hs| ==> hs[a] < hs[b])
  {
    if n > 0 {
      HoldersMeaning(ps, get, n - 1);
      var hs := Holders(ps, get, n - 1);
      forall a | 0 <= a < |hs|
        ensures hs[a] < n - 1
      {
        assert hs[a] in hs;
      }
    }
  }

  ghost predicate EntryFor(ps: seq<Profile>, get: Profile -> Option<string>, i: nat, e: (Shown, AuthorityLevel)) {
    i < |ps| && get(ps[i]).Some? && e == (Text(get(ps[i]).value), ps[i].authority)
  }

  /** Every profile that has a value is listed once, in authority order. */
  lemma {:induction false} EntriesListAll(ps: seq<Profile>, get: Profile -> Option<string>, n: nat)
    requires n <= |ps|
    ensures var es, hs := Entries(ps, get, n), Holders(ps, get, n);
            |es| == |hs| && forall a :: 0 <= a < |hs| ==> EntryFor(ps, get, hs[a], es[a])
  {
    if n > 0 {
      EntriesListAll(ps, get, n - 1);
      assert get(ps[n - 1]).Some? ==> EntryFor(ps, get, n - 1, (Text(get(ps[n - 1]).value), ps[n - 1].authority));
    }
  }

  /** Profile k is the first, that is the most authoritative, that has a value. */
  ghost predicate FirstPresent(ps: seq<Profile>, get: Profile -> Option<string>, k: nat) {
    k < |ps| && get(ps[k]).Some? && forall j :: 0 <= j < k ==> get(ps[j]).None?
  }

  ghost predicate Absent(ps: seq<Profile>, get: Profile -> Option<string>) {
    forall j :: 0 <= j < |ps| ==> get(ps[j]).None?
  }

  lemma {:induction false} FirstAmong(ps: seq<Profile>, get: Profile -> Option<string>, n: nat) returns (k: nat)
    requires n <= |ps|
    ensures if k < n then FirstPresent(ps, get, k) else forall j :: 0 <= j < n ==> get(ps[j]).None?
  {
    k := 0;
    while k < n && get(ps[k]).None?
      invariant k <= n && forall j :: 0 <= j < k ==> get(ps[j]).None?
    {
      k := k + 1;
    }
  }

  ghost function First(ps: seq<Profile>, get: Profile -> Option<string>): (k: nat)
    requires !Absent(ps, get)
    ensures FirstPresent(ps, get, k)
  {
    assert exists k: nat :: FirstPresent(ps, get, k) by {
      var k := FirstAmong(ps, get, |ps|);
    }
    var k: nat :| FirstPresent(ps, get, k);
    k
  }

  /** Two profiles have different values for the field. */
  ghost predicate TextsDiffer(ps: seq<Profile>, get: Profile -> Option<string>) {
    exists i, j :: 0 <= i < |ps| && 0 <= j < |ps| && get(ps[i]).Some? && get(ps[j]).Some? && get(ps[i]) != get(ps[j])
  }

  /** The value of the most authoritative profile that has one. */
  ghost function ChosenText(ps: seq<Profile>, get: Profile -> Option<string>): Option<string> {
    if Absent(ps, get) then None else get(ps[First(ps, get)])
  }

  /** Nothing unless two values differ, and then one entry that lists them all. */
  ghost function TextConflicts(field: string, ps: seq<Profile>, get: Profile -> Option<string>): seq<Conflict> {
    if !TextsDiffer(ps, get) then []
    else
      var k := First(ps, get);
      [Conflict(field, Entries(ps, get, |ps|), WonBy(get(ps[k]).value, ps[k].authority))]
  }

  lemma HeadHolder(ps: seq<Profile>, get: Profile -> Option<string>)
    ensures Holders(ps, get, |ps|) == [] <==> Absent(ps, get)
    ensures Holders(ps, get, |ps|) != [] ==> FirstPresent(ps, get, Holders(ps, get, |ps|)[0])
  {
    var hs := Holders(ps, get, |ps|);
    HoldersMeaning(ps, get, |ps|);
    if hs != [] {
      var k := hs[0];
      assert k in hs;
      forall j | 0 <= j < k
        ensures get(ps[j]).None?
      {
        assert j !in hs;
      }
    } else {
      forall j | 0 <= j < |ps|
        ensures get(ps[j]).None?
      {
        assert j !in hs;
      }
    }
  }

  lemma FirstEntry(ps: seq<Profile>, get: Profile -> Option<string>)
    ensures Entries(ps, get, |ps|) == [] <==> Absent(ps, get)
    ensures !Absent(ps, get) ==> EntryFor(ps, get, First(ps, get), Entries(ps, get, |ps|)[0])
  {
    HeadHolder(ps, get);
    EntriesListAll(ps, get, |ps|);
    if !Absent(ps, get) {
      FirstIsUnique(ps, get, First(ps, get), Holders(ps, get, |ps|)[0]);
    }
  }

  lemma FirstIsUnique(ps: seq<Profile>, get: Profile -> Option<string>, k: nat, l: nat)
    requires FirstPresent(ps, get, k) && FirstPresent(ps, get, l)
    ensures k == l
  {
  }

  lemma DifferentEntriesDiffer(ps: seq<Profile>, get: Profile -> Option<string>, a: nat, b: nat)
    requires var es := Entries(ps, get, |ps|); a < |es| && b < |es| && es[a].0 != es[b].0
    ensures TextsDiffer(ps, get)
  {
    var es, hs := Entries(ps, get, |ps|), Holders(ps, get, |ps|);
    EntriesListAll(ps, get, |ps|);
    assert EntryFor(ps, get, hs[a], es[a]) && EntryFor(ps, get, hs[b], es[b]);
    var i, j := hs[a], hs[b];
    assert get(ps[i]) != get(ps[j]);
  }

  lemma PresentIsListed(ps: seq<Profile>, get: Profile -> Option<string>, i: nat) returns (a: nat)
    requires i < |ps| && get(ps[i]).Some?
    ensures a < |Entries(ps, get, |ps|)| && Entries(ps, get, |ps|)[a].0 == Text(get(ps[i]).value)
  {
    var hs := Holders(ps, get, |ps|);
    HoldersMeaning(ps, get, |ps|);
    EntriesListAll(ps, get, |ps|);
    assert i in hs;
    a :| 0 <= a < |hs| && hs[a] == i;
    assert EntryFor(ps, get, hs[a], Entries(ps, get, |ps|)[a]);
  }

  /** The set of listed values has more than one member exactly if two present values differ. */
  lemma UniqueTexts(ps: seq<Profile>, get: Profile -> Option<string>, unique: set<Shown>)
    requires unique == set e | e in Entries(ps, get, |ps|) :: e.0
    ensures |unique| > 1 <==> TextsDiffer(ps, get)
  {
    var es := Entries(ps, get, |ps|);
    SizeAboveOne(unique);
    if x, y :| x in unique && y in unique && x != y {
      var a: nat :| a < |es| && es[a].0 == x;
      var b: nat :| b < |es| && es[b].0 == y;
      DifferentEntriesDiffer(ps, get, a, b);
    }
    if TextsDiffer(ps, get) {
      var i: nat, j: nat :|
        i < |ps| && j < |ps| && get(ps[i]).Some? && get(ps[j]).Some? && get(ps[i]) != get(ps[j]);
      var a := PresentIsListed(ps, get, i);
      var b := PresentIsListed(ps, get, j);
      assert es[a].0 in unique && es[b].0 in unique;
    }
  }

  /** `resolve_opt_string` */
  method ResolveOptString(field: string, ps: seq<Profile>, get: Profile -> Option<string>, conflicts: seq<Conflict>)
    returns (r: Option<string>, out: seq<Conflict>)
    ensures r == ChosenText(ps, get)
    ensures out == conflicts + TextConflicts(field, ps, get)
  {
    var entries := Entries(ps, get, |ps|);
    FirstEntry(ps, get);
    out := conflicts;
    if entries == [] {
      return None, out;
    }
    var unique := set e | e in entries :: e.0;
    UniqueTexts(ps, get, unique);
    if |unique| > 1 {
      out := out + [Conflict(field, entries, WonBy(entries[0].0.text, entries[0].1))];
    }
    r := Some(entries[0].0.text);
  }
}
