/**
  What each operation on genes does, said over the receipts themselves: when a
  recorded outcome makes a gene stable, sends it back or quarantines it, and
  what promotion, revocation and proposal change.
*/
module GeneTransitions {
  import opened Wrappers
  import opened Sequences
  import opened Sorting
  import opened GeneLog
  import opened GeneLifecycle

  // ---- What the log says ----

  predicate SucceededAt(log: seq<Receipt>, i: nat) {
    i < |log| && log[i].outcome == Succeeded
  }

  ghost predicate ThreeSuccesses(log: seq<Receipt>) {
    exists i: nat, j: nat, k: nat :: i < j < k && SucceededAt(log, i) && SucceededAt(log, j) && SucceededAt(log, k)
  }

  ghost predicate TwoContexts(log: seq<Receipt>) {
    exists i, j :: 0 <= i < |log| && 0 <= j < |log| && log[i].context != log[j].context
  }

  predicate FailedAt(log: seq<Receipt>, i: nat) {
    i < |log| && (log[i].outcome == Failed || log[i].outcome == SafetyFailed)
  }

  ghost predicate NoFailures(log: seq<Receipt>) {
    forall i :: 0 <= i < |log| ==> !FailedAt(log, i)
  }

  /** Two failures with no success after the first of them. */
  ghost predicate TwoUnrecovered(log: seq<Receipt>) {
    exists i: nat, j: nat :: i < j && FailedAt(log, i) && FailedAt(log, j) && NoneAfter(log, i)
  }

  ghost predicate NoneAfter(log: seq<Receipt>, i: nat) {
    forall k :: i < k < |log| ==> log[k].outcome != Succeeded
  }

  /** The log of a gene version: its receipts, in order of time. */
  lemma LogMeaning(receipts: seq<Receipt>, key: Key)
    ensures var log := Log(receipts, key);
            && (forall i, j :: 0 <= i < j < |log| ==> log[i].createdAt <= log[j].createdAt)
            && (forall r :: r in log <==> r in receipts && r.gene == key)
  {
    var mine := Mine(receipts, key, |receipts|);
    SortSorts(mine, ByTime());
    SortPermutes(mine, ByTime());
    SameMembers(Log(receipts, key), mine);
    MineMembers(receipts, key, |receipts|);
    var log := Log(receipts, key);
    forall i, j | 0 <= i < j < |log|
      ensures log[i].createdAt <= log[j].createdAt
    {
      assert ByTime()(log[i], log[j]);
    }
  }

  lemma {:induction false} MineMembers(receipts: seq<Receipt>, key: Key, n: nat)
    requires n <= |receipts|
    ensures forall r :: r in Mine(receipts, key, n) <==> r in receipts[..n] && r.gene == key
  {
    if n > 0 {
      MineMembers(receipts, key, n - 1);
      assert receipts[..n] == receipts[..n - 1] + [receipts[n - 1]];
    } else {
      assert receipts[..0] == [];
    }
    if n == |receipts| { assert receipts[..n] == receipts; }
  }

  // ---- Counting ----

  lemma {:induction false} CountMonotone(log: seq<Receipt>, p: Receipt -> bool, m: nat, n: nat)
    requires m <= n <= |log|
    ensures Count(log, p, m) <= Count(log, p, n)
    decreases n
  {
    if m < n { CountMonotone(log, p, m, n - 1); }
  }

  /** The last hit among the first `n`. */
  lemma {:induction false} LastHit(log: seq<Receipt>, p: Receipt -> bool, n: nat) returns (i: nat)
    requires n <= |log| && Count(log, p, n) >= 1
    ensures i < n && p(log[i]) && Count(log, p, i) == Count(log, p, n) - 1
  {
    if p(log[n - 1]) {
      i := n - 1;
    } else {
      i := LastHit(log, p, n - 1);
    }
  }

  lemma SuccessesThere(log: seq<Receipt>)
    requires Successes(log) >= 3
    ensures ThreeSuccesses(log)
  {
    var k := LastHit(log, IsSuccess, |log|);
    var j := LastHit(log, IsSuccess, k);
    var i := LastHit(log, IsSuccess, j);
    assert SucceededAt(log, i) && SucceededAt(log, j) && SucceededAt(log, k);
  }

  lemma SuccessesCounted(log: seq<Receipt>, i: nat, j: nat, k: nat)
    requires i < j < k && SucceededAt(log, i) && SucceededAt(log, j) && SucceededAt(log, k)
    ensures Successes(log) >= 3
  {
    CountMonotone(log, IsSuccess, i + 1, j);
    CountMonotone(log, IsSuccess, j + 1, k);
    CountMonotone(log, IsSuccess, k + 1, |log|);
  }

  lemma SuccessesMeaning(log: seq<Receipt>)
    ensures Successes(log) >= 3 <==> ThreeSuccesses(log)
  {
    if Successes(log) >= 3 {
      SuccessesThere(log);
    } else if ThreeSuccesses(log) {
      var i: nat, j: nat, k: nat :| i < j < k && SucceededAt(log, i) && SucceededAt(log, j) && SucceededAt(log, k);
      SuccessesCounted(log, i, j, k);
    }
  }

  lemma FailuresMeaning(log: seq<Receipt>)
    ensures Failures(log) == 0 <==> NoFailures(log)
  {
    CountPositive(log, IsFailure, |log|);
    if i :| 0 <= i < |log| && FailedAt(log, i) {
      assert IsFailure(log[i]);
    }
    if k :| 0 <= k < |log| && IsFailure(log[k]) {
      assert FailedAt(log, k);
    }
  }

  lemma ContextCount(log: seq<Receipt>)
    ensures |Contexts(log, |log|)| >= 2 <==> TwoContexts(log)
  {
    var all := Contexts(log, |log|);
    ContextsMeaning(log, |log|);
    SizeAboveOne(all);
    if x, y :| x in all && y in all && x != y {
      var i :| 0 <= i < |log| && log[i].context == x;
      var j :| 0 <= j < |log| && log[j].context == y;
      assert log[i].context != log[j].context;
    }
    if i, j :| 0 <= i < |log| && 0 <= j < |log| && log[i].context != log[j].context {
      assert log[i].context in all && log[j].context in all;
    }
  }

  lemma StreakCount(log: seq<Receipt>)
    ensures Streak(log, |log|) >= 2 <==> TwoUnrecovered(log)
  {
    if Streak(log, |log|) >= 2 {
      var i, j := StreakHasTwo(log, |log|);
      assert FailedAt(log, i) && FailedAt(log, j) && NoneAfter(log, i);
    }
    if i: nat, j: nat :| i < j && FailedAt(log, i) && FailedAt(log, j) && NoneAfter(log, i) {
      assert Unrecovered(log, i, |log|);
      SecondCounts(log, i, j, |log|);
    }
  }

  // ---- Recording an outcome ----

  /** When an outcome is refused, with which error, and that nothing changes then. */
  lemma RecordRefused(st: Store, r: Receipt, capsuleOk: bool)
    ensures var (q, after) := RecordOutcome(st, r, capsuleOk);
            var unbacked := r.adopted && r.outcome == Succeeded && !r.hasEvidence;
            var repeated := exists k :: 0 <= k < |st.receipts| && st.receipts[k].id == r.id;
            && (q.Ok? <==> !unbacked && r.gene in st.genes && capsuleOk && !repeated)
            && (q.Err? ==> after == st)
            && (unbacked ==> q == Err(Contract))
            && (!unbacked && r.gene !in st.genes ==> q == Err(NotFound))
            && (!unbacked && r.gene in st.genes && !capsuleOk ==> q == Err(Contract))
            && (!unbacked && r.gene in st.genes && capsuleOk && repeated ==> q == Err(Storage))
  {
  }

  /**
    An accepted outcome appends the receipt and touches no other gene. The gene
    is quarantined by a safety failure, else sent back by two unrecovered
    failures, else stable with three successes in two contexts and no failure,
    and else stays what it was.
  */
  lemma TransitionMeaning(st: Store, r: Receipt, capsuleOk: bool)
    requires RecordOutcome(st, r, capsuleOk).0.Ok?
    ensures var (q, after) := RecordOutcome(st, r, capsuleOk);
            && after.receipts == st.receipts + [r]
            && r.gene in st.genes && after.genes.Keys == st.genes.Keys
            && (forall key :: key in st.genes && key != r.gene ==> after.genes[key] == st.genes[key])
            && q == Ok(after.genes[r.gene]) && after.genes[r.gene].scope == st.genes[r.gene].scope
            && var log := Log(after.receipts, r.gene);
            && after.genes[r.gene].successes == Successes(log) && after.genes[r.gene].failures == Failures(log)
            && after.genes[r.gene].contexts == |Contexts(log, |log|)|
            && after.genes[r.gene].lifecycle
            == if r.outcome == SafetyFailed then Quarantined
               else if TwoUnrecovered(log) then Candidate
               else if ThreeSuccesses(log) && TwoContexts(log) && NoFailures(log) then Stable
               else st.genes[r.gene].lifecycle
  {
    var log := Log(st.receipts + [r], r.gene);
    SuccessesMeaning(log);
    FailuresMeaning(log);
    ContextCount(log);
    StreakCount(log);
  }

  // ---- The other operations ----

  /** Governance moves a stable gene to the scope asked for, and nothing else. */
  lemma PromoteMeaning(st: Store, key: Key, scope: Scope, governance: bool)
    ensures var (q, after) := Promote(st, key, scope, governance);
            && (q.Ok? <==> governance && key in st.genes && st.genes[key].lifecycle == Stable)
            && (q.Err? ==> after == st)
            && (q.Ok? ==> after.receipts == st.receipts && key in after.genes && after.genes[key].scope == scope
                          && after.genes[key].lifecycle == Stable
                          && forall k :: k != key ==> (k in after.genes <==> k in st.genes)
                                                      && (k in st.genes ==> after.genes[k] == st.genes[k]))
  {
  }

  /** Governance revokes or quarantines as asked, whatever the gene was. */
  lemma RevokeMeaning(st: Store, key: Key, quarantine: bool, governance: bool)
    ensures var (q, after) := Revoke(st, key, quarantine, governance);
            && (q.Ok? <==> governance && key in st.genes)
            && (q.Err? ==> after == st)
            && (q.Ok? ==> after.receipts == st.receipts && key in after.genes
                          && (quarantine ==> after.genes[key].lifecycle == Quarantined)
                          && (!quarantine ==> after.genes[key].lifecycle == Revoked)
                          && after.genes[key].scope == st.genes[key].scope
                          && forall k :: k != key ==> (k in after.genes <==> k in st.genes)
                                                      && (k in st.genes ==> after.genes[k] == st.genes[k]))
  {
  }

  /** A bundle with bad fields, a stable gene without the evidence, or a receipt that is foreign or unbacked. */
  ghost predicate BadBundle(b: Bundle) {
    || !b.fieldsOk
    || (b.gene.lifecycle == Stable && (b.gene.successes < 3 || b.gene.contexts < 2))
    || exists k :: 0 <= k < |b.receipts|
         && (b.receipts[k].gene != b.key
             || (b.receipts[k].adopted && b.receipts[k].outcome == Succeeded && !b.receipts[k].hasEvidence))
  }

  /**
    A bad bundle changes nothing. Otherwise the gene is stored as a candidate
    that is not shared, comes back like that, and the receipts are imported.
  */
  lemma ProposeMeaning(st: Store, b: Bundle)
    ensures var (q, after) := Propose(st, b);
            var gene := b.gene.(lifecycle := Candidate, scope := if b.gene.scope in {Team, Network} then Local else b.gene.scope);
            var imported := ImportReceipts(st.(genes := st.genes[b.key := gene]), b.receipts, |b.receipts|);
            if BadBundle(b) then q == Err(Contract) && after == st
            else after == imported.1 && q == if imported.0.Ok? then Ok(gene) else Err(imported.0.error)
  {
    if ValidBundle(b) {
      assert forall k :: 0 <= k < |b.receipts| ==> ValidReceipt(b.receipts[k]);
    } else if b.fieldsOk && !(b.gene.lifecycle == Stable && (b.gene.successes < 3 || b.gene.contexts < 2)) {
      var k :| 0 <= k < |b.receipts| && !(b.receipts[k].gene == b.key && ValidReceipt(b.receipts[k]));
      assert b.receipts[k].gene != b.key
          || (b.receipts[k].adopted && b.receipts[k].outcome == Succeeded && !b.receipts[k].hasEvidence);
    }
  }

  /** A bundle's receipts are recorded in order; the import stops at the first that is refused. */
  lemma {:induction false} ImportMeaning(st: Store, receipts: seq<Receipt>, n: nat) returns (k: nat)
    requires n <= |receipts|
    ensures var (q, after) := ImportReceipts(st, receipts, n);
            && k <= n && after.receipts == st.receipts + receipts[..k]
            && (q.Ok? <==> k == n)
            && (k < n ==> RecordOutcome(after, receipts[k], true).0.Err?)
  {
    k := 0;
    if n > 0 {
      var (q, mid) := ImportReceipts(st, receipts, n - 1);
      k := ImportMeaning(st, receipts, n - 1);
      if q.Ok? {
        RecordRefused(mid, receipts[n - 1], true);
        if RecordOutcome(mid, receipts[n - 1], true).0.Ok? {
          TransitionMeaning(mid, receipts[n - 1], true);
          assert receipts[..n] == receipts[..n - 1] + [receipts[n - 1]];
          k := n;
        }
      }
    }
  }

  // ---- Stable is reached ----

  const GENE := Key("g", 1)

  function Won(id: string, context: string, at: int): Receipt {
    Receipt(id, GENE, context, Succeeded, false, true, at)
  }

  const WINS: seq<Receipt> := [Won("1", "a", 1), Won("2", "a", 2), Won("3", "b", 3)]

  const CAREER: seq<Op> :=
    [DoPropose(Bundle(GENE, Gene(Candidate, Local, 0, 0, 0), true, [])),
     DoRecord(WINS[0], true), DoRecord(WINS[1], true), DoRecord(WINS[2], true), DoPromote(GENE, Team, true)]

  lemma WinsAreLog()
    ensures Log(WINS, GENE) == WINS
  {
    assert Mine(WINS, GENE, 0) == [];
    assert Mine(WINS, GENE, 1) == [WINS[0]];
    assert Mine(WINS, GENE, 2) == [WINS[0], WINS[1]];
    assert Mine(WINS, GENE, 3) == WINS;
    SortIdentity(WINS, ByTime());
  }

  lemma WinIsNew(receipts: seq<Receipt>, k: nat)
    requires k < 3 && receipts == WINS[..k]
    ensures forall j :: 0 <= j < |receipts| ==> receipts[j].id != WINS[k].id
    ensures !(WINS[k].adopted && WINS[k].outcome == Succeeded && !WINS[k].hasEvidence) && WINS[k].gene == GENE
    ensures receipts + [WINS[k]] == WINS[..k + 1]
  {
    assert forall j :: 0 <= j < |receipts| ==> receipts[j] == WINS[j];
    assert WINS[0].id == "1" && WINS[1].id == "2" && WINS[2].id == "3";
  }

  lemma Recording(st: Store, k: nat, after: Store)
    requires k < 3 && st.receipts == WINS[..k] && GENE in st.genes && after == RecordOutcome(st, WINS[k], true).1
    ensures after.receipts == WINS[..k + 1] && GENE in after.genes
  {
    WinIsNew(st.receipts, k);
    RecordRefused(st, WINS[k], true);
  }

  lemma LastRecording(st: Store, after: Store)
    requires st.receipts == WINS[..2] && GENE in st.genes && after == RecordOutcome(st, WINS[2], true).1
    ensures GENE in after.genes && after.genes[GENE].lifecycle == Stable
  {
    WinIsNew(st.receipts, 2);
    RecordRefused(st, WINS[2], true);
    TransitionMeaning(st, WINS[2], true);
    assert WINS[..3] == WINS;
    WinsAreLog();
    WinsEarn();
  }

  lemma WinsEarn()
    ensures ThreeSuccesses(WINS) && TwoContexts(WINS) && NoFailures(WINS) && !TwoUnrecovered(WINS)
  {
    assert SucceededAt(WINS, 0) && SucceededAt(WINS, 1) && SucceededAt(WINS, 2);
    assert WINS[0].context == "a" && WINS[2].context == "b";
  }

  /** Some run makes a gene stable and then shares it with a team. */
  lemma SomeGeneIsShared()
    ensures var st := Run(EMPTY, CAREER, 5);
            GENE in st.genes && st.genes[GENE].lifecycle == Stable && st.genes[GENE].scope == Team
  {
    var s0, s1 := Run(EMPTY, CAREER, 0), Run(EMPTY, CAREER, 1);
    ProposeMeaning(s0, CAREER[0].bundle);
    assert s1.receipts == WINS[..0];
    var s2, s3, s4 := Run(EMPTY, CAREER, 2), Run(EMPTY, CAREER, 3), Run(EMPTY, CAREER, 4);
    Recording(s1, 0, s2);
    Recording(s2, 1, s3);
    LastRecording(s3, s4);
    PromoteMeaning(s4, GENE, Team, true);
  }
}
