/**
  Merging the JSON fields of user profiles in authority order: objects key by
  key, single values by authority, arrays by a deduplicating union.
*/
module ProfileJson {
  import opened Sequences
  import opened Json
  import opened Authority
  import opened ProfileFields

  // ---- Differing values ----

  ghost predicate ValuesDiffer(ps: seq<Profile>, get: Profile -> Value) {
    exists i, j :: 0 <= i < |ps| && 0 <= j < |ps| && get(ps[i]) != get(ps[j])
  }

  /** Every value of the field with the authority it comes from. */
  function AllPrinted(ps: seq<Profile>, get: Profile -> Value, n: nat): (r: seq<(Shown, AuthorityLevel)>)
    requires n <= |ps|
    ensures |r| == n && forall i :: 0 <= i < n ==> r[i] == (Printed(get(ps[i])), ps[i].authority)
  {
    if n == 0 then [] else AllPrinted(ps, get, n - 1) + [(Printed(get(ps[n - 1])), ps[n - 1].authority)]
  }

  lemma UniquePrinted(ps: seq<Profile>, get: Profile -> Value, unique: set<Shown>)
    requires unique == set e | e in AllPrinted(ps, get, |ps|) :: e.0
    ensures |unique| > 1 <==> ValuesDiffer(ps, get)
  {
    var es := AllPrinted(ps, get, |ps|);
    SizeAboveOne(unique);
    if x, y :| x in unique && y in unique && x != y {
      var a: nat :| a < |es| && es[a].0 == x;
      var b: nat :| b < |es| && es[b].0 == y;
      assert get(ps[a]) != get(ps[b]);
    }
    if ValuesDiffer(ps, get) {
      var i: nat, j: nat :| i < |ps| && j < |ps| && get(ps[i]) != get(ps[j]);
      assert es[i] in es && es[j] in es;
      assert es[i].0 in unique && es[j].0 in unique;
    }
  }

  // ---- resolve_json ----

  ghost function JsonConflicts(field: string, ps: seq<Profile>, get: Profile -> Value, settled: Settled): seq<Conflict> {
    if ValuesDiffer(ps, get) then [Conflict(field, AllPrinted(ps, get, |ps|), settled)] else []
  }

  /** `resolve_json`: the most authoritative profile's value, whatever it is. */
  method ResolveJson(field: string, ps: seq<Profile>, get: Profile -> Value, conflicts: seq<Conflict>)
    returns (r: Value, out: seq<Conflict>)
    requires ps != []
    ensures r == get(ps[0])
    ensures out == conflicts + JsonConflicts(field, ps, get, FromAuthority(ps[0].authority))
  {
    var printed := AllPrinted(ps, get, |ps|);
    var unique := set e | e in printed :: e.0;
    UniquePrinted(ps, get, unique);
    out := conflicts;
    if |unique| > 1 {
      out := out + [Conflict(field, printed, FromAuthority(ps[0].authority))];
    }
    r := get(ps[0]);
  }

  // ---- merge_json_object ----

  predicate Mergeable(v: Value) {
    v.Object? || v.Null?
  }

  /** The fields a value contributes. */
  function FieldsOf(v: Value): map<string, Value> {
    if v.Object? then v.fields else map[]
  }

  /** Profiles from i on: each key has the value of its first holder there. */
  ghost predicate MergedFrom(m: map<string, Value>, ps: seq<Profile>, get: Profile -> Value, i: nat) {
    && i <= |ps|
    && (forall key :: key in m ==> exists j :: i <= j < |ps| && key in FieldsOf(get(ps[j])))
    && (forall key, j | i <= j < |ps| && key in FieldsOf(get(ps[j])) && FreeOf(key, ps, get, i, j) ::
          key in m && m[key] == FieldsOf(get(ps[j]))[key])
  }

  ghost predicate FreeOf(key: string, ps: seq<Profile>, get: Profile -> Value, i: nat, j: nat) {
    forall h :: i <= h < j && h < |ps| ==> key !in FieldsOf(get(ps[h]))
  }

  lemma MergeStep(m: map<string, Value>, ps: seq<Profile>, get: Profile -> Value, i: nat)
    requires 0 < i && MergedFrom(m, ps, get, i)
    ensures MergedFrom(m + FieldsOf(get(ps[i - 1])), ps, get, i - 1)
  {
    var top := FieldsOf(get(ps[i - 1]));
    var m' := m + top;
    forall key | key in m'
      ensures exists j :: i - 1 <= j < |ps| && key in FieldsOf(get(ps[j]))
    {
      if key in top {
        assert i - 1 < |ps| && key in FieldsOf(get(ps[i - 1]));
      } else {
        var j :| i <= j < |ps| && key in FieldsOf(get(ps[j]));
      }
    }
    forall key, j | i - 1 <= j < |ps| && key in FieldsOf(get(ps[j])) && FreeOf(key, ps, get, i - 1, j)
      ensures key in m' && m'[key] == FieldsOf(get(ps[j]))[key]
    {
      if j >= i {
        assert key !in FieldsOf(get(ps[i - 1]));
        assert FreeOf(key, ps, get, i, j);
      }
    }
  }

  /** The map is pinned down: two maps with this meaning are equal. */
  lemma MergedOneWay(m: map<string, Value>, w: map<string, Value>, ps: seq<Profile>, get: Profile -> Value)
    requires MergedFrom(m, ps, get, 0) && MergedFrom(w, ps, get, 0)
    ensures m == w
  {
    forall key | key in m || key in w
      ensures key in m && key in w && m[key] == w[key]
    {
      var j: nat :| j < |ps| && key in FieldsOf(get(ps[j]));
      var k := FirstHolder(key, ps, get, j);
    }
  }

  lemma FirstHolder(key: string, ps: seq<Profile>, get: Profile -> Value, j: nat) returns (k: nat)
    requires j < |ps| && key in FieldsOf(get(ps[j]))
    ensures k <= j && key in FieldsOf(get(ps[k])) && FreeOf(key, ps, get, 0, k)
  {
    k := 0;
    while key !in FieldsOf(get(ps[k]))
      invariant k <= j && FreeOf(key, ps, get, 0, k)
      decreases j - k
    {
      k := k + 1;
    }
  }

  /** The inner loop over one object's entries. */
  method InsertAll(merged: map<string, Value>, fields: map<string, Value>) returns (r: map<string, Value>)
    ensures r == merged + fields
  {
    r := merged;
    var left := fields.Keys;
    while left != {}
      invariant left <= fields.Keys
      invariant r.Keys == merged.Keys + (fields.Keys - left)
      invariant forall k :: k in r ==> r[k] == if k in fields && k !in left then fields[k] else merged[k]
    {
      var k :| k in left;
      r := r[k := fields[k]];
      left := left - {k};
    }
  }

  /** The position of the least authoritative value that is neither an object nor null. */
  ghost predicate LastOther(ps: seq<Profile>, get: Profile -> Value, k: nat) {
    k < |ps| && !Mergeable(get(ps[k])) && forall j :: k < j < |ps| ==> Mergeable(get(ps[j]))
  }

  ghost predicate AllMergeable(ps: seq<Profile>, get: Profile -> Value) {
    forall j :: 0 <= j < |ps| ==> Mergeable(get(ps[j]))
  }

  ghost predicate JsonMerged(ps: seq<Profile>, get: Profile -> Value, r: Value) {
    if AllMergeable(ps, get) then r.Object? && MergedFrom(r.fields, ps, get, 0)
    else exists k: nat :: LastOther(ps, get, k) && r == get(ps[k])
  }

  /** Conflicts are listed only when the merge reaches its end. */
  ghost function MergeConflicts(field: string, ps: seq<Profile>, get: Profile -> Value): seq<Conflict> {
    if AllMergeable(ps, get) then JsonConflicts(field, ps, get, KeyByKey) else []
  }

  /** The loop is about to look at profile i - 1. */
  ghost predicate Folding(merged: map<string, Value>, ps: seq<Profile>, get: Profile -> Value, i: nat) {
    MergedFrom(merged, ps, get, i) && forall j :: i <= j < |ps| ==> Mergeable(get(ps[j]))
  }

  lemma FoldStep(merged: map<string, Value>, ps: seq<Profile>, get: Profile -> Value, i: nat)
    requires 0 < i && Folding(merged, ps, get, i)
    ensures if Mergeable(get(ps[i - 1])) then Folding(merged + FieldsOf(get(ps[i - 1])), ps, get, i - 1)
            else LastOther(ps, get, i - 1)
    ensures get(ps[i - 1]).Null? ==> merged + FieldsOf(get(ps[i - 1])) == merged
  {
    MergeStep(merged, ps, get, i);
  }

  lemma FoldDone(merged: map<string, Value>, ps: seq<Profile>, get: Profile -> Value)
    requires Folding(merged, ps, get, 0)
    ensures AllMergeable(ps, get) && JsonMerged(ps, get, Object(merged))
  {
  }

  lemma FoldBroken(ps: seq<Profile>, get: Profile -> Value, k: nat)
    requires LastOther(ps, get, k)
    ensures !AllMergeable(ps, get) && JsonMerged(ps, get, get(ps[k]))
  {
  }

  /** `merge_json_object`: from the least to the most authoritative profile. */
  method MergeJsonObject(field: string, ps: seq<Profile>, get: Profile -> Value, conflicts: seq<Conflict>)
    returns (r: Value, out: seq<Conflict>)
    ensures JsonMerged(ps, get, r)
    ensures out == conflicts + MergeConflicts(field, ps, get)
  {
    var merged: map<string, Value> := map[];
    var i: nat := |ps|;
    while i > 0
      invariant i <= |ps| && Folding(merged, ps, get, i)
    {
      var val := get(ps[i - 1]);
      FoldStep(merged, ps, get, i);
      if val.Object? {
        merged := InsertAll(merged, val.fields);
      } else if !val.Null? {
        FoldBroken(ps, get, i - 1);
        return val, conflicts;
      }
      i := i - 1;
    }
    FoldDone(merged, ps, get);
    out := RecordDifferences(field, ps, get, conflicts);
    r := Object(merged);
  }

  /** The conflict check after the loop. */
  method RecordDifferences(field: string, ps: seq<Profile>, get: Profile -> Value, conflicts: seq<Conflict>)
    returns (out: seq<Conflict>)
    ensures out == conflicts + JsonConflicts(field, ps, get, KeyByKey)
  {
    var printed := AllPrinted(ps, get, |ps|);
    var unique := set e | e in printed :: e.0;
    UniquePrinted(ps, get, unique);
    out := conflicts;
    if |unique| > 1 {
      out := out + [Conflict(field, printed, KeyByKey)];
    }
  }

  /** The meaning of a merged field leaves no freedom. */
  lemma JsonMergedOneWay(ps: seq<Profile>, get: Profile -> Value, r: Value, q: Value)
    requires JsonMerged(ps, get, r) && JsonMerged(ps, get, q)
    ensures r == q
  {
    if AllMergeable(ps, get) {
      MergedOneWay(r.fields, q.fields, ps, get);
    } else {
      var k: nat :| LastOther(ps, get, k) && r == get(ps[k]);
      var l: nat :| LastOther(ps, get, l) && q == get(ps[l]);
      assert k == l;
    }
  }

  // ---- union_arrays ----

  function Flat(ps: seq<Profile>, get: Profile -> seq<Value>, n: nat): seq<Value>
    requires n <= |ps|
  {
    if n == 0 then [] else Flat(ps, get, n - 1) + get(ps[n - 1])
  }

  /** `r` holds each member of `s` once, in the order of first occurrence. */
  ghost predicate FirstOccurrences(r: seq<Value>, s: seq<Value>) {
    && (forall v :: v in r <==> v in s)
    && Distinct(r)
    && (forall a, b, j :: 0 <= a < b < |r| && 0 <= j < |s| && s[j] == r[b] ==> r[a] in s[..j])
  }

  lemma KeepOne(r: seq<Value>, s: seq<Value>, v: Value)
    requires FirstOccurrences(r, s)
    ensures FirstOccurrences(if v in r then r else r + [v], s + [v])
  {
    var r' := if v in r then r else r + [v];
    var s' := s + [v];
    forall a, b, j | 0 <= a < b < |r'| && 0 <= j < |s'| && s'[j] == r'[b]
      ensures r'[a] in s'[..j]
    {
      if j < |s| {
        assert s'[..j] == s[..j] && s[j] in s;
      } else {
        assert s'[..j] == s;
        assert r'[a] == r[a] && r[a] in r;
      }
    }
  }

  /** If `q` differs from `r` at m for the first time, its entry is older there than that of `r`. */
  lemma OlderThere(r: seq<Value>, q: seq<Value>, s: seq<Value>, m: nat) returns (i: nat)
    requires FirstOccurrences(r, s) && FirstOccurrences(q, s) && m < |r| && m < |q|
    requires forall k :: 0 <= k < m ==> r[k] == q[k]
    ensures i < |s| && s[i] == r[m] && (forall h :: 0 <= h < i ==> s[h] != r[m])
    ensures r[m] != q[m] ==> exists h :: 0 <= h < i && s[h] == q[m]
  {
    var v := r[m];
    assert v in r && v in q;
    i := FirstAt(s, v);
    if v != q[m] {
      var a :| 0 <= a < |q| && q[a] == v;
      assert q[m] in s[..i];
    }
  }

  /** There is only one such sequence. */
  lemma {:induction false} FirstOccurrencesOneWay(r: seq<Value>, q: seq<Value>, s: seq<Value>, n: nat)
    requires FirstOccurrences(r, s) && FirstOccurrences(q, s)
    requires n <= |r| && n <= |q|
    ensures forall k :: 0 <= k < n ==> r[k] == q[k]
  {
    if n > 0 {
      FirstOccurrencesOneWay(r, q, s, n - 1);
      var i := OlderThere(r, q, s, n - 1);
      var j := OlderThere(q, r, s, n - 1);
    }
  }

  lemma FirstAt(s: seq<Value>, v: Value) returns (i: nat)
    requires v in s
    ensures i < |s| && s[i] == v && forall h :: 0 <= h < i ==> s[h] != v
  {
    var end: nat :| end < |s| && s[end] == v;
    i := 0;
    while s[i] != v
      invariant i <= end && forall h :: 0 <= h < i ==> s[h] != v
      decreases end - i
    {
      i := i + 1;
    }
  }

  ghost predicate UnionState(seen: set<Value>, result: seq<Value>, s: seq<Value>) {
    (forall v :: v in seen <==> v in result) && FirstOccurrences(result, s)
  }

  lemma UnionStep(seen: set<Value>, result: seq<Value>, s: seq<Value>, v: Value)
    requires UnionState(seen, result, s)
    ensures if v in seen then UnionState(seen, result, s + [v]) else UnionState(seen + {v}, result + [v], s + [v])
  {
    KeepOne(result, s, v);
  }

  lemma OneFurther(s: seq<Value>, items: seq<Value>, k: nat)
    requires k < |items|
    ensures s + items[..k] + [items[k]] == s + items[..k + 1]
  {
  }

  /** The inner loop over one profile's array. */
  method AddItems(seen0: set<Value>, result0: seq<Value>, items: seq<Value>, ghost s: seq<Value>)
    returns (seen: set<Value>, result: seq<Value>)
    requires UnionState(seen0, result0, s)
    ensures UnionState(seen, result, s + items)
  {
    seen, result := seen0, result0;
    assert s + items[..0] == s;
    for k := 0 to |items|
      invariant UnionState(seen, result, s + items[..k])
    {
      var v := items[k];
      UnionStep(seen, result, s + items[..k], v);
      OneFurther(s, items, k);
      if v !in seen {
        seen, result := seen + {v}, result + [v];
      }
    }
    assert items[..|items|] == items;
  }

  /** `union_arrays` */
  method UnionArrays(ps: seq<Profile>, get: Profile -> seq<Value>) returns (result: seq<Value>)
    ensures FirstOccurrences(result, Flat(ps, get, |ps|))
  {
    var seen: set<Value> := {};
    result := [];
    for i := 0 to |ps|
      invariant UnionState(seen, result, Flat(ps, get, i))
    {
      seen, result := AddItems(seen, result, get(ps[i]), Flat(ps, get, i));
    }
  }
}
