/**
  The governed lifecycle of experience genes: every transition is recomputed
  from the whole append-only receipt log. The results range over all runs of
  the four operations.
*/
module GeneLifecycle {
  import opened Wrappers
  import opened GeneLog

  datatype Lifecycle = Candidate | Stable | Deprecated | Quarantined | Revoked

  datatype Scope = Local | Project | Tenant | Team | Network

  /** The governed part of a gene; the counters mirror the log after each outcome. */
  datatype Gene = Gene(lifecycle: Lifecycle, scope: Scope, successes: nat, failures: nat, contexts: nat)

  datatype Error = Contract | NotFound | GovernanceRequired | InvalidTransition | Storage

  type Result<+T> = Wrappers.Result<T, Error>

  datatype Store = Store(genes: map<Key, Gene>, receipts: seq<Receipt>)

  const EMPTY := Store(map[], [])

  // ---- Operations ----

  /** An adopted success must come with evidence. */
  predicate ValidReceipt(r: Receipt) {
    !(r.adopted && r.outcome == Succeeded && !r.hasEvidence)
  }

  /** `receipt_id` is the primary key of the receipt table. */
  predicate Recorded(receipts: seq<Receipt>, id: string) {
    exists k :: 0 <= k < |receipts| && receipts[k].id == id
  }

  function NextLifecycle(now: Lifecycle, outcome: Outcome, s: Stats): Lifecycle {
    if outcome == SafetyFailed then Quarantined
    else if s.consecutive >= 2 then Candidate
    else if s.successes >= 3 && s.contexts >= 2 && s.failures == 0 then Stable
    else now
  }

  function Rated(g: Gene, outcome: Outcome, s: Stats): Gene {
    Gene(NextLifecycle(g.lifecycle, outcome, s), g.scope, s.successes, s.failures, s.contexts)
  }

  /** `record_outcome`; `capsuleOk` says that the capsule, if any, is valid and refers to the same use. */
  function RecordOutcome(st: Store, r: Receipt, capsuleOk: bool): (Result<Gene>, Store) {
    if !ValidReceipt(r) then (Err(Contract), st)
    else if r.gene !in st.genes then (Err(NotFound), st)
    else if !capsuleOk then (Err(Contract), st)
    else if Recorded(st.receipts, r.id) then (Err(Storage), st)
    else
      var receipts := st.receipts + [r];
      var g := Rated(st.genes[r.gene], r.outcome, StatsOf(Log(receipts, r.gene)));
      (Ok(g), Store(st.genes[r.gene := g], receipts))
  }

  /** A bundle: the gene as proposed, whether its own fields validate, and its receipts. */
  datatype Bundle = Bundle(key: Key, gene: Gene, fieldsOk: bool, receipts: seq<Receipt>)

  predicate ValidBundle(b: Bundle) {
    && b.fieldsOk
    && !(b.gene.lifecycle == Stable && (b.gene.successes < 3 || b.gene.contexts < 2))
    && forall k :: 0 <= k < |b.receipts| ==> b.receipts[k].gene == b.key && ValidReceipt(b.receipts[k])
  }

  /** Proposals never import an elevated lifecycle or sharing scope. */
  function Demoted(g: Gene): Gene {
    g.(lifecycle := Candidate, scope := if g.scope == Team || g.scope == Network then Local else g.scope)
  }

  /** The first `n` receipts of a bundle recorded one by one; the first error stops the import. */
  function ImportReceipts(st: Store, receipts: seq<Receipt>, n: nat): (Result<()>, Store)
    requires n <= |receipts|
  {
    if n == 0 then (Ok(()), st)
    else
      var (r, mid) := ImportReceipts(st, receipts, n - 1);
      if r.Err? then (r, mid)
      else
        var (q, after) := RecordOutcome(mid, receipts[n - 1], true);
        (if q.Err? then Err(q.error) else Ok(()), after)
  }

  function Propose(st: Store, b: Bundle): (Result<Gene>, Store) {
    if !ValidBundle(b) then (Err(Contract), st)
    else
      var g := Demoted(b.gene);
      var (r, after) := ImportReceipts(st.(genes := st.genes[b.key := g]), b.receipts, |b.receipts|);
      (if r.Err? then Err(r.error) else Ok(g), after)
  }

  function Promote(st: Store, key: Key, scope: Scope, governance: bool): (Result<Gene>, Store) {
    if !governance then (Err(GovernanceRequired), st)
    else if key !in st.genes then (Err(NotFound), st)
    else if st.genes[key].lifecycle != Stable then (Err(InvalidTransition), st)
    else
      var g := st.genes[key].(scope := scope);
      (Ok(g), st.(genes := st.genes[key := g]))
  }

  function Revoke(st: Store, key: Key, quarantine: bool, governance: bool): (Result<Gene>, Store) {
    if !governance then (Err(GovernanceRequired), st)
    else if key !in st.genes then (Err(NotFound), st)
    else
      var g := st.genes[key].(lifecycle := if quarantine then Quarantined else Revoked);
      (Ok(g), st.(genes := st.genes[key := g]))
  }

  datatype Op =
    | DoPropose(bundle: Bundle)
    | DoRecord(receipt: Receipt, capsuleOk: bool)
    | DoPromote(key: Key, scope: Scope, governance: bool)
    | DoRevoke(key: Key, quarantine: bool, governance: bool)

  function Step(st: Store, op: Op): Store {
    match op
    case DoPropose(b) => Propose(st, b).1
    case DoRecord(r, c) => RecordOutcome(st, r, c).1
    case DoPromote(k, s, g) => Promote(st, k, s, g).1
    case DoRevoke(k, q, g) => Revoke(st, k, q, g).1
  }

  function Run(st: Store, ops: seq<Op>, n: nat): Store
    requires n <= |ops|
  {
    if n == 0 then st else Step(Run(st, ops, n - 1), ops[n - 1])
  }

  // ---- What every store keeps ----

  /** The evidence that promotion to stable is about. */
  ghost predicate Earned(s: Stats) {
    s.successes >= 3 && s.contexts >= 2
  }

  ghost predicate NoSafetyFailure(log: seq<Receipt>) {
    forall k :: 0 <= k < |log| ==> log[k].outcome != SafetyFailed
  }

  ghost predicate GeneOk(g: Gene, log: seq<Receipt>) {
    && (g.lifecycle == Stable ==> Earned(StatsOf(log)) && NoSafetyFailure(log) && StatsOf(log).consecutive < 2)
    && (g.scope == Team || g.scope == Network ==> Earned(StatsOf(log)))
  }

  ghost predicate GeneAt(st: Store, key: Key)
    requires key in st.genes
  {
    GeneOk(st.genes[key], Log(st.receipts, key))
  }

  ghost predicate Inv(st: Store) {
    forall key {:trigger GeneAt(st, key)} :: key in st.genes ==> GeneAt(st, key)
  }

  /** A new receipt brings a safety failure into the log only if it is one. */
  lemma SafetyOfLog(receipts: seq<Receipt>, r: Receipt)
    requires NoSafetyFailure(Log(receipts, r.gene)) && r.outcome != SafetyFailed
    ensures NoSafetyFailure(Log(receipts + [r], r.gene))
  {
    var safety := (x: Receipt) => x.outcome == SafetyFailed;
    var before, after := Log(receipts, r.gene), Log(receipts + [r], r.gene);
    LogCount(receipts, r, safety);
    CountPositive(before, safety, |before|);
    CountPositive(after, safety, |after|);
  }

  lemma NoFailureNoSafetyFailure(log: seq<Receipt>)
    requires Failures(log) == 0
    ensures NoSafetyFailure(log)
  {
    CountPositive(log, IsFailure, |log|);
  }

  lemma RatedOk(g: Gene, receipts: seq<Receipt>, r: Receipt)
    requires GeneOk(g, Log(receipts, r.gene))
    ensures var log := Log(receipts + [r], r.gene); GeneOk(Rated(g, r.outcome, StatsOf(log)), log)
  {
    var log := Log(receipts + [r], r.gene);
    StatsGrow(receipts, r);
    var g' := Rated(g, r.outcome, StatsOf(log));
    if g'.lifecycle == Stable {
      if StatsOf(log).failures == 0 { NoFailureNoSafetyFailure(log); } else { SafetyOfLog(receipts, r); }
    }
  }

  lemma RecordKeepsInv(st: Store, r: Receipt, capsuleOk: bool)
    requires Inv(st)
    ensures Inv(RecordOutcome(st, r, capsuleOk).1)
  {
    var (q, after) := RecordOutcome(st, r, capsuleOk);
    if q.Ok? {
      forall key | key in after.genes
        ensures GeneAt(after, key)
      {
        assert GeneAt(st, key);
        if key == r.gene { RatedOk(st.genes[key], st.receipts, r); } else { LogOfOthers(st.receipts, r, key); }
      }
    }
  }

  lemma {:induction false} ImportKeepsInv(st: Store, receipts: seq<Receipt>, n: nat)
    requires Inv(st) && n <= |receipts|
    ensures Inv(ImportReceipts(st, receipts, n).1)
  {
    if n > 0 {
      ImportKeepsInv(st, receipts, n - 1);
      var before := ImportReceipts(st, receipts, n - 1);
      RecordKeepsInv(before.1, receipts[n - 1], true);
      ImportNext(st, receipts, n - 1);
    }
  }

  lemma ImportNext(st: Store, receipts: seq<Receipt>, n: nat)
    requires n < |receipts|
    ensures var before := ImportReceipts(st, receipts, n);
            ImportReceipts(st, receipts, n + 1).1
            == if before.0.Err? then before.1 else RecordOutcome(before.1, receipts[n], true).1
  {
  }

  lemma StepKeepsInv(st: Store, op: Op)
    requires Inv(st)
    ensures Inv(Step(st, op))
  {
    match op
    case DoPropose(b) =>
      if ValidBundle(b) {
        ReplaceKeepsInv(st, b.key, Demoted(b.gene));
        ImportKeepsInv(st.(genes := st.genes[b.key := Demoted(b.gene)]), b.receipts, |b.receipts|);
      }
    case DoRecord(r, c) => RecordKeepsInv(st, r, c);
    case DoPromote(k, s, g) =>
      if Promote(st, k, s, g).0.Ok? {
        assert GeneAt(st, k);
        ReplaceKeepsInv(st, k, st.genes[k].(scope := s));
      }
    case DoRevoke(k, q, g) =>
      if Revoke(st, k, q, g).0.Ok? {
        assert GeneAt(st, k);
        ReplaceKeepsInv(st, k, Revoke(st, k, q, g).0.value);
      }
  }

  lemma ReplaceKeepsInv(st: Store, key: Key, g: Gene)
    requires Inv(st) && GeneOk(g, Log(st.receipts, key))
    ensures Inv(st.(genes := st.genes[key := g]))
  {
    var after := st.(genes := st.genes[key := g]);
    forall k | k in after.genes
      ensures GeneAt(after, k)
    {
      if k != key { assert GeneAt(st, k); }
    }
  }

  lemma {:induction false} RunKeepsInv(ops: seq<Op>, n: nat)
    requires n <= |ops|
    ensures Inv(Run(EMPTY, ops, n))
  {
    if n > 0 {
      RunKeepsInv(ops, n - 1);
      StepKeepsInv(Run(EMPTY, ops, n - 1), ops[n - 1]);
    }
  }

  /**
    In every run: a stable gene has at least three successes in at least two
    contexts on record, no safety failure, and of any two failures the earlier
    has a success after it; a shared gene has earned its successes.
  */
  lemma StableIsEarned(ops: seq<Op>, key: Key)
    ensures var st := Run(EMPTY, ops, |ops|);
            key in st.genes ==>
              var g, log := st.genes[key], Log(st.receipts, key);
              && (g.lifecycle == Stable ==>
                    Successes(log) >= 3 && |Contexts(log, |log|)| >= 2 && NoSafetyFailure(log) && Recovering(log))
              && (g.scope == Team || g.scope == Network ==> Successes(log) >= 3 && |Contexts(log, |log|)| >= 2)
  {
    RunKeepsInv(ops, |ops|);
    var st := Run(EMPTY, ops, |ops|);
    if key in st.genes {
      assert GeneAt(st, key);
      StreakMeaning(Log(st.receipts, key));
    }
  }

  // ---- A failure is never forgotten ----

  /** A failure is on record and the gene version is not stable (or not there). */
  ghost predicate Tainted(st: Store, key: Key) {
    Failures(Log(st.receipts, key)) > 0 && (key in st.genes ==> st.genes[key].lifecycle != Stable)
  }

  lemma RecordKeepsTaint(st: Store, r: Receipt, capsuleOk: bool, key: Key)
    requires Tainted(st, key)
    ensures Tainted(RecordOutcome(st, r, capsuleOk).1, key)
  {
    if r.gene == key { StatsGrow(st.receipts, r); } else { LogOfOthers(st.receipts, r, key); }
  }

  lemma {:induction false} ImportKeepsTaint(st: Store, receipts: seq<Receipt>, n: nat, key: Key)
    requires Tainted(st, key) && n <= |receipts|
    ensures Tainted(ImportReceipts(st, receipts, n).1, key)
  {
    if n > 0 {
      ImportKeepsTaint(st, receipts, n - 1, key);
      var (r, mid) := ImportReceipts(st, receipts, n - 1);
      if r.Ok? { RecordKeepsTaint(mid, receipts[n - 1], true, key); }
    }
  }

  lemma StepKeepsTaint(st: Store, op: Op, key: Key)
    requires Tainted(st, key)
    ensures Tainted(Step(st, op), key)
  {
    match op
    case DoPropose(b) =>
      if ValidBundle(b) {
        ImportKeepsTaint(st.(genes := st.genes[b.key := Demoted(b.gene)]), b.receipts, |b.receipts|, key);
      }
    case DoRecord(r, c) => RecordKeepsTaint(st, r, c, key);
    case DoPromote(_, _, _) =>
    case DoRevoke(_, _, _) =>
  }

  /**
    Once a failure is on record, a gene version that is not stable never is
    again, whatever follows: more outcomes, a new proposal, governance.
  */
  lemma {:induction false} FailureIsNotForgotten(st: Store, ops: seq<Op>, n: nat, key: Key)
    requires Tainted(st, key) && n <= |ops|
    ensures Tainted(Run(st, ops, n), key)
  {
    if n > 0 {
      FailureIsNotForgotten(st, ops, n - 1, key);
      StepKeepsTaint(Run(st, ops, n - 1), ops[n - 1], key);
    }
  }

  // ---- The control plane over its tables ----

  class ExperienceControlPlane {
    var genes: map<Key, Gene>
    var receipts: seq<Receipt>

    function View(): Store
      reads this
    {
      Store(genes, receipts)
    }

    constructor ()
      ensures View() == EMPTY
    {
      genes, receipts := map[], [];
    }

    method RecordUse(receipt: Receipt, capsuleOk: bool) returns (r: Result<Gene>)
      modifies this
      ensures (r, View()) == RecordOutcome(old(View()), receipt, capsuleOk)
    {
      if !ValidReceipt(receipt) {
        return Err(Contract);
      }
      if receipt.gene !in genes {
        return Err(NotFound);
      }
      var gene := genes[receipt.gene];
      if !capsuleOk {
        return Err(Contract);
      }
      if Recorded(receipts, receipt.id) {
        return Err(Storage);
      }
      receipts := receipts + [receipt];
      var s := OutcomeStats(receipts, receipt.gene);
      gene := gene.(successes := s.successes, failures := s.failures, contexts := s.contexts);
      if receipt.outcome == SafetyFailed {
        gene := gene.(lifecycle := Quarantined);
      } else if s.consecutive >= 2 {
        gene := gene.(lifecycle := Candidate);
      } else if s.successes >= 3 && s.contexts >= 2 && s.failures == 0 {
        gene := gene.(lifecycle := Stable);
      }
      genes := genes[receipt.gene := gene];
      r := Ok(gene);
    }

    /** Upserts the demoted gene, then records the bundle's receipts one by one. */
    method ProposeBundle(b: Bundle) returns (r: Result<Gene>)
      modifies this
      ensures (r, View()) == Propose(old(View()), b)
    {
      if !ValidBundle(b) {
        return Err(Contract);
      }
      var gene := Demoted(b.gene);
      genes := genes[b.key := gene];
      ghost var start := View();
      for k := 0 to |b.receipts|
        invariant (Ok(()), View()) == ImportReceipts(start, b.receipts, k)
      {
        var q := RecordUse(b.receipts[k], true);
        if q.Err? {
          ImportStops(start, b.receipts, k + 1, |b.receipts|);
          return Err(q.error);
        }
      }
      r := Ok(gene);
    }

    method PromoteGene(key: Key, scope: Scope, governance: bool) returns (r: Result<Gene>)
      modifies this
      ensures (r, View()) == Promote(old(View()), key, scope, governance)
    {
      if !governance {
        return Err(GovernanceRequired);
      }
      if key !in genes {
        return Err(NotFound);
      }
      if genes[key].lifecycle != Stable {
        return Err(InvalidTransition);
      }
      genes := genes[key := genes[key].(scope := scope)];
      r := Ok(genes[key]);
    }

    method RevokeGene(key: Key, quarantine: bool, governance: bool) returns (r: Result<Gene>)
      modifies this
      ensures (r, View()) == Revoke(old(View()), key, quarantine, governance)
    {
      if !governance {
        return Err(GovernanceRequired);
      }
      if key !in genes {
        return Err(NotFound);
      }
      genes := genes[key := genes[key].(lifecycle := if quarantine then Quarantined else Revoked)];
      r := Ok(genes[key]);
    }
  }

  /** After an error the rest of the bundle is not touched. */
  lemma {:induction false} ImportStops(st: Store, receipts: seq<Receipt>, m: nat, n: nat)
    requires m <= n <= |receipts| && ImportReceipts(st, receipts, m).0.Err?
    ensures ImportReceipts(st, receipts, n) == ImportReceipts(st, receipts, m)
    decreases n
  {
    if m < n { ImportStops(st, receipts, m, n - 1); }
  }
}
