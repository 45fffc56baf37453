/**
  Usage receipts of a gene version and the statistics folded from them. The log
  is read in `created_at` order whatever order receipts arrive in.
*/
module GeneLog {
  import opened Sequences
  import opened Sorting

  datatype Outcome = Succeeded | Failed | SafetyFailed | Inconclusive

  datatype Key = Key(id: string, version: nat)

  datatype Receipt = Receipt(id: string, gene: Key, context: string, outcome: Outcome,
                             adopted: bool, hasEvidence: bool, createdAt: int)

  predicate IsSuccess(r: Receipt) {
    r.outcome == Succeeded
  }

  predicate IsFailure(r: Receipt) {
    r.outcome == Failed || r.outcome == SafetyFailed
  }

  // ---- The log of one gene version ----

  /** Receipts for `key` among the first `n`, in order of arrival. */
  function Mine(receipts: seq<Receipt>, key: Key, n: nat): seq<Receipt>
    requires n <= |receipts|
  {
    if n == 0 then [] else Mine(receipts, key, n - 1) + if receipts[n - 1].gene == key then [receipts[n - 1]] else []
  }

  function ByTime(): (Receipt, Receipt) -> bool {
    (a: Receipt, b: Receipt) => a.createdAt <= b.createdAt
  }

  function Log(receipts: seq<Receipt>, key: Key): seq<Receipt> {
    Sort(Mine(receipts, key, |receipts|), ByTime())
  }

  // ---- Statistics ----

  function Count(log: seq<Receipt>, p: Receipt -> bool, n: nat): nat
    requires n <= |log|
  {
    if n == 0 then 0 else Count(log, p, n - 1) + if p(log[n - 1]) then 1 else 0
  }

  function Successes(log: seq<Receipt>): nat {
    Count(log, IsSuccess, |log|)
  }

  function Failures(log: seq<Receipt>): nat {
    Count(log, IsFailure, |log|)
  }

  function Contexts(log: seq<Receipt>, n: nat): set<string>
    requires n <= |log|
  {
    if n == 0 then {} else Contexts(log, n - 1) + {log[n - 1].context}
  }

  /** Failures since the last success among the first `n`. */
  function Streak(log: seq<Receipt>, n: nat): nat
    requires n <= |log|
  {
    if n == 0 then 0
    else if IsSuccess(log[n - 1]) then 0
    else Streak(log, n - 1) + if IsFailure(log[n - 1]) then 1 else 0
  }

  datatype Stats = Stats(successes: nat, failures: nat, contexts: nat, consecutive: nat)

  function StatsOf(log: seq<Receipt>): Stats {
    Stats(Successes(log), Failures(log), |Contexts(log, |log|)|, Streak(log, |log|))
  }

  /** `outcome_stats`: one pass over the log. */
  method OutcomeStats(receipts: seq<Receipt>, key: Key) returns (s: Stats)
    ensures s == StatsOf(Log(receipts, key))
  {
    var log := Log(receipts, key);
    var successes: nat, failures: nat, contexts: set<string>, consecutive: nat := 0, 0, {}, 0;
    for i := 0 to |log|
      invariant successes == Count(log, IsSuccess, i) && failures == Count(log, IsFailure, i)
      invariant contexts == Contexts(log, i) && consecutive == Streak(log, i)
    {
      contexts := contexts + {log[i].context};
      match log[i].outcome {
        case Succeeded =>
          successes, consecutive := successes + 1, 0;
        case Failed =>
          failures, consecutive := failures + 1, consecutive + 1;
        case SafetyFailed =>
          failures, consecutive := failures + 1, consecutive + 1;
        case Inconclusive =>
      }
    }
    s := Stats(successes, failures, |contexts|, consecutive);
  }

  // ---- What the streak says ----

  /** Of any two failures the earlier one has a success after it. */
  ghost predicate Recovering(log: seq<Receipt>) {
    forall i, j :: 0 <= i < j < |log| && IsFailure(log[i]) && IsFailure(log[j]) ==> SuccessAfter(log, i)
  }

  ghost predicate SuccessAfter(log: seq<Receipt>, i: nat) {
    exists k :: i < k < |log| && IsSuccess(log[k])
  }

  /** The failure at i has no success after it among the first `n`. */
  ghost predicate Unrecovered(log: seq<Receipt>, i: nat, n: nat) {
    i < n <= |log| && IsFailure(log[i]) && forall k :: i < k < n ==> !IsSuccess(log[k])
  }

  lemma {:induction false} StreakHasOne(log: seq<Receipt>, n: nat) returns (i: nat)
    requires n <= |log| && Streak(log, n) >= 1
    ensures Unrecovered(log, i, n)
  {
    if IsFailure(log[n - 1]) {
      i := n - 1;
    } else {
      i := StreakHasOne(log, n - 1);
    }
  }

  lemma {:induction false} StreakHasTwo(log: seq<Receipt>, n: nat) returns (i: nat, j: nat)
    requires n <= |log| && Streak(log, n) >= 2
    ensures i < j < n && Unrecovered(log, i, n) && IsFailure(log[j])
  {
    if IsFailure(log[n - 1]) {
      i := StreakHasOne(log, n - 1);
      j := n - 1;
    } else {
      i, j := StreakHasTwo(log, n - 1);
    }
  }

  lemma {:induction false} UnrecoveredCounts(log: seq<Receipt>, i: nat, n: nat)
    requires Unrecovered(log, i, n)
    ensures Streak(log, n) >= 1
  {
    if i < n - 1 { UnrecoveredCounts(log, i, n - 1); }
  }

  lemma {:induction false} SecondCounts(log: seq<Receipt>, i: nat, j: nat, n: nat)
    requires Unrecovered(log, i, n) && i < j < n && IsFailure(log[j])
    ensures Streak(log, n) >= 2
  {
    if j < n - 1 { SecondCounts(log, i, j, n - 1); } else { UnrecoveredCounts(log, i, n - 1); }
  }

  /** Fewer than two failures since the last success. */
  lemma StreakMeaning(log: seq<Receipt>)
    ensures Streak(log, |log|) < 2 <==> Recovering(log)
  {
    if Streak(log, |log|) >= 2 {
      var i, j := StreakHasTwo(log, |log|);
      assert !SuccessAfter(log, i);
    } else {
      forall i, j | 0 <= i < j < |log| && IsFailure(log[i]) && IsFailure(log[j])
        ensures SuccessAfter(log, i)
      {
        if !SuccessAfter(log, i) { SecondCounts(log, i, j, |log|); }
      }
    }
  }

  // ---- Sorting does not change the counts ----

  lemma {:induction false} CountConcat(a: seq<Receipt>, b: seq<Receipt>, p: Receipt -> bool, n: nat)
    requires n <= |b|
    ensures Count(a + b, p, |a| + n) == Count(a, p, |a|) + Count(b, p, n)
  {
    if n > 0 {
      CountConcat(a, b, p, n - 1);
      assert (a + b)[|a| + n - 1] == b[n - 1];
    } else {
      CountPrefix(a, b, p, |a|);
    }
  }

  lemma {:induction false} CountPrefix(a: seq<Receipt>, b: seq<Receipt>, p: Receipt -> bool, n: nat)
    requires n <= |a|
    ensures Count(a + b, p, n) == Count(a, p, n)
  {
    if n > 0 { CountPrefix(a, b, p, n - 1); }
  }

  lemma CountJoin(a: seq<Receipt>, b: seq<Receipt>, p: Receipt -> bool)
    ensures Count(a + b, p, |a + b|) == Count(a, p, |a|) + Count(b, p, |b|)
  {
    CountConcat(a, b, p, |b|);
  }

  lemma CountOne(x: Receipt, p: Receipt -> bool)
    ensures Count([x], p, 1) == if p(x) then 1 else 0
  {
    assert Count([x], p, 0) == 0;
  }

  lemma {:induction false} CountInsert(x: Receipt, s: seq<Receipt>, le: (Receipt, Receipt) -> bool, p: Receipt -> bool)
    ensures Count(Insert(x, s, le), p, |Insert(x, s, le)|) == Count(s, p, |s|) + if p(x) then 1 else 0
  {
    CountOne(x, p);
    if s == [] {
    } else if le(x, s[0]) {
      CountJoin([x], s, p);
    } else {
      CountInsert(x, s[1..], le, p);
      CountJoin([s[0]], Insert(x, s[1..], le), p);
      CountJoin([s[0]], s[1..], p);
      assert s == [s[0]] + s[1..];
    }
  }

  lemma {:induction false} CountSort(s: seq<Receipt>, le: (Receipt, Receipt) -> bool, p: Receipt -> bool)
    ensures Count(Sort(s, le), p, |Sort(s, le)|) == Count(s, p, |s|)
  {
    if s != [] {
      CountSort(s[1..], le, p);
      CountInsert(s[0], Sort(s[1..], le), le, p);
      CountOne(s[0], p);
      CountJoin([s[0]], s[1..], p);
      assert s == [s[0]] + s[1..];
    }
  }

  lemma {:induction false} ContextsMeaning(log: seq<Receipt>, n: nat)
    requires n <= |log|
    ensures forall c :: c in Contexts(log, n) <==> exists k :: 0 <= k < n && log[k].context == c
  {
    if n > 0 { ContextsMeaning(log, n - 1); }
  }

  lemma {:induction false} CountPositive(log: seq<Receipt>, p: Receipt -> bool, n: nat)
    requires n <= |log|
    ensures Count(log, p, n) > 0 <==> exists k :: 0 <= k < n && p(log[k])
  {
    if n > 0 { CountPositive(log, p, n - 1); }
  }

  // ---- A receipt arrives ----

  lemma {:induction false} MinePrefix(receipts: seq<Receipt>, more: seq<Receipt>, key: Key, n: nat)
    requires n <= |receipts|
    ensures Mine(receipts + more, key, n) == Mine(receipts, key, n)
  {
    if n > 0 { MinePrefix(receipts, more, key, n - 1); }
  }

  lemma MineSnoc(receipts: seq<Receipt>, r: Receipt, key: Key)
    ensures Mine(receipts + [r], key, |receipts + [r]|)
         == Mine(receipts, key, |receipts|) + if r.gene == key then [r] else []
  {
    MinePrefix(receipts, [r], key, |receipts|);
  }

  /** The logs of other gene versions do not change. */
  lemma LogOfOthers(receipts: seq<Receipt>, r: Receipt, key: Key)
    requires r.gene != key
    ensures Log(receipts + [r], key) == Log(receipts, key)
  {
    MineSnoc(receipts, r, key);
    assert Mine(receipts, key, |receipts|) + [] == Mine(receipts, key, |receipts|);
  }

  lemma LogCount(receipts: seq<Receipt>, r: Receipt, p: Receipt -> bool)
    ensures var before, after := Log(receipts, r.gene), Log(receipts + [r], r.gene);
            Count(after, p, |after|) == Count(before, p, |before|) + if p(r) then 1 else 0
  {
    var mine := Mine(receipts, r.gene, |receipts|);
    MineSnoc(receipts, r, r.gene);
    CountSort(mine, ByTime(), p);
    CountSort(mine + [r], ByTime(), p);
    CountJoin(mine, [r], p);
    CountOne(r, p);
  }

  lemma LogContexts(receipts: seq<Receipt>, r: Receipt)
    ensures var before, after := Log(receipts, r.gene), Log(receipts + [r], r.gene);
            Contexts(before, |before|) <= Contexts(after, |after|)
  {
    var mine := Mine(receipts, r.gene, |receipts|);
    var before, after := Log(receipts, r.gene), Log(receipts + [r], r.gene);
    MineSnoc(receipts, r, r.gene);
    SortPermutes(mine, ByTime());
    SortPermutes(mine + [r], ByTime());
    SameMembers(before, mine);
    SameMembers(after, mine + [r]);
    ContextsMeaning(before, |before|);
    ContextsMeaning(after, |after|);
    forall c | c in Contexts(before, |before|)
      ensures c in Contexts(after, |after|)
    {
      var k :| 0 <= k < |before| && before[k].context == c;
      assert before[k] in after;
    }
  }

  /** What a receipt does to the statistics of its gene version: nothing already earned is lost. */
  lemma StatsGrow(receipts: seq<Receipt>, r: Receipt)
    ensures var s, t := StatsOf(Log(receipts, r.gene)), StatsOf(Log(receipts + [r], r.gene));
            && t.successes == s.successes + (if IsSuccess(r) then 1 else 0)
            && t.failures == s.failures + (if IsFailure(r) then 1 else 0)
            && t.contexts >= s.contexts
  {
    var before, after := Log(receipts, r.gene), Log(receipts + [r], r.gene);
    LogCount(receipts, r, IsSuccess);
    LogCount(receipts, r, IsFailure);
    LogContexts(receipts, r);
    SubsetSize(Contexts(before, |before|), Contexts(after, |after|));
  }
}
