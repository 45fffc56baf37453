/**
  The retry protocol of the outbox worker. A failed event is enqueued again with
  a higher counter and the original is marked done, so one event becomes a
  lineage of rows; the history of each lineage is kept beside the table.
*/
module OutboxWorker {
  import opened Json
  import opened OutboxEvents

  datatype Status = Pending | Processing | Done | Failed

  datatype Row = Row(kind: EventType, aggregate: string, payload: Value, status: Status, lineage: nat)

  datatype Outcome = Delivered | Retried | DeadLettered

  datatype Attempt = Attempt(actions: Actions, outcome: Outcome)

  /** The table, what happened to each lineage, and how many events were tried so far. */
  datatype World = World(rows: seq<Row>, hist: seq<seq<Attempt>>, tries: nat)

  predicate Live(r: Row) {
    r.status == Pending || r.status == Processing
  }

  predicate Ended(h: seq<Attempt>) {
    h != [] && h[|h| - 1].outcome != Retried
  }

  function MeaningOf(r: Row): Actions {
    Meaning(r.kind, r.payload)
  }

  // ---- One event ----

  /** `handle_failure`: enqueue again below the limit, give up at it. */
  function FailureOutcome(maxRetries: u32, r: Row): Outcome {
    if ExtractRetryCount(r.payload) < maxRetries then Retried else DeadLettered
  }

  function RetryRow(maxRetries: u32, r: Row): Row
    requires FailureOutcome(maxRetries, r) == Retried
  {
    Row(Decode(r.kind), r.aggregate, AugmentRetryCount(r.payload, ExtractRetryCount(r.payload) + 1), Pending, r.lineage)
  }

  function OutcomeOf(maxRetries: u32, r: Row, redisOk: bool): Outcome {
    if MeaningOf(r).Run? && redisOk then Delivered else FailureOutcome(maxRetries, r)
  }

  predicate Known(w: World, id: nat) {
    id < |w.rows| && w.rows[id].lineage < |w.hist|
  }

  /** One event of a batch: processed, and then marked done, retried or given up. */
  function ProcessOne(maxRetries: u32, w: World, id: nat, redisOk: bool): World
    requires Known(w, id)
  {
    var r := w.rows[id];
    var outcome := OutcomeOf(maxRetries, r, redisOk);
    var settled := w.rows[id := r.(status := if outcome == DeadLettered then Failed else Done)];
    World(if outcome == Retried then settled + [RetryRow(maxRetries, r)] else settled,
          w.hist[r.lineage := w.hist[r.lineage] + [Attempt(MeaningOf(r), outcome)]],
          w.tries + 1)
  }

  // ---- The invariant ----

  /** How many attempts a lineage may take at most, given the counter it started with. */
  function Limit(maxRetries: u32, root: Row): nat {
    var c := ExtractRetryCount(root.payload);
    if c < maxRetries then maxRetries - c + 1 else 1
  }

  /** A live row continues its lineage: counter, meaning and history agree. */
  ghost predicate Continues(maxRetries: u32, root: Row, h: seq<Attempt>, r: Row) {
    && !Ended(h)
    && ExtractRetryCount(r.payload) == ExtractRetryCount(root.payload) + |h|
    && (h != [] ==> ExtractRetryCount(r.payload) <= maxRetries)
    && MeaningOf(r) == MeaningOf(root)
  }

  /** All attempts computed what the first would; only the last may settle the lineage. */
  ghost predicate HistoryOk(maxRetries: u32, root: Row, h: seq<Attempt>) {
    && |h| <= Limit(maxRetries, root)
    && (forall k :: 0 <= k < |h| ==> h[k].actions == MeaningOf(root) && (h[k].outcome == Delivered ==> h[k].actions.Run?))
    && (forall k :: 0 <= k < |h| - 1 ==> h[k].outcome == Retried)
    && (h != [] && h[|h| - 1].outcome == DeadLettered ==> |h| == Limit(maxRetries, root))
  }

  ghost predicate HistoriesOk(maxRetries: u32, roots: seq<Row>, hist: seq<seq<Attempt>>) {
    && |hist| == |roots|
    && (forall l {:trigger HistoryOk(maxRetries, roots[l], hist[l])} :: 0 <= l < |roots| ==> HistoryOk(maxRetries, roots[l], hist[l]))
  }

  /** Which attempt of its lineage a row stands for, by the counter in its payload. */
  function AttemptNo(root: Row, r: Row): int {
    ExtractRetryCount(r.payload) - ExtractRetryCount(root.payload)
  }

  /** How an attempt that ended like that is left in the table. */
  function Mark(outcome: Outcome): Status {
    match outcome
    case Delivered => Done
    case Retried => Done
    case DeadLettered => Failed
  }

  /** A row is live exactly if its attempt is still to come, and else marked by how it ended. */
  ghost predicate Marked(root: Row, h: seq<Attempt>, r: Row) {
    var k := AttemptNo(root, r);
    0 <= k <= |h| && (Live(r) <==> k == |h|) && (k < |h| ==> r.status == Mark(h[k].outcome))
  }

  ghost predicate RowOk(maxRetries: u32, roots: seq<Row>, hist: seq<seq<Attempt>>, r: Row)
    requires |hist| == |roots|
  {
    && r.lineage < |roots|
    && Marked(roots[r.lineage], hist[r.lineage], r)
    && r.aggregate == roots[r.lineage].aggregate && Decode(r.kind) == Decode(roots[r.lineage].kind)
    && (Live(r) ==> Continues(maxRetries, roots[r.lineage], hist[r.lineage], r))
  }

  ghost predicate RowsOk(maxRetries: u32, roots: seq<Row>, hist: seq<seq<Attempt>>, rows: seq<Row>)
    requires |hist| == |roots|
  {
    forall i {:trigger RowOk(maxRetries, roots, hist, rows[i])} :: 0 <= i < |rows| ==> RowOk(maxRetries, roots, hist, rows[i])
  }

  /** No lineage has two live rows. */
  ghost predicate OneLive(rows: seq<Row>) {
    forall i, j {:trigger Live(rows[i]), Live(rows[j])} :: 0 <= i < j < |rows| && Live(rows[i]) && Live(rows[j]) ==> rows[i].lineage != rows[j].lineage
  }

  ghost predicate HasLive(rows: seq<Row>, l: nat) {
    exists i {:trigger Live(rows[i])} :: 0 <= i < |rows| && Live(rows[i]) && rows[i].lineage == l
  }

  /** No lineage is lost: it has ended or a live row carries it. */
  ghost predicate Covered(hist: seq<seq<Attempt>>, rows: seq<Row>) {
    forall l {:trigger HasLive(rows, l)} {:trigger Ended(hist[l])} :: 0 <= l < |hist| ==> Ended(hist[l]) || HasLive(rows, l)
  }

  /** The row stands for attempt k of lineage l. */
  predicate StandsFor(roots: seq<Row>, r: Row, l: nat, k: int) {
    r.lineage == l && l < |roots| && AttemptNo(roots[l], r) == k
  }

  ghost predicate HasRow(roots: seq<Row>, rows: seq<Row>, l: nat, k: int) {
    exists i {:trigger StandsFor(roots, rows[i], l, k)} :: 0 <= i < |rows| && StandsFor(roots, rows[i], l, k)
  }

  /** Every attempt made has a row. */
  ghost predicate AllBooked(roots: seq<Row>, hist: seq<seq<Attempt>>, rows: seq<Row>) {
    forall l, k {:trigger HasRow(roots, rows, l, k)} ::
      0 <= l < |hist| && 0 <= k < |hist[l]| ==> HasRow(roots, rows, l, k)
  }

  /** No two rows stand for the same attempt. */
  ghost predicate Numbered(rows: seq<Row>) {
    forall i, j {:trigger rows[i], rows[j]} :: 0 <= i < j < |rows| && rows[i].lineage == rows[j].lineage ==>
      ExtractRetryCount(rows[i].payload) != ExtractRetryCount(rows[j].payload)
  }

  ghost predicate Inv(maxRetries: u32, roots: seq<Row>, w: World) {
    && HistoriesOk(maxRetries, roots, w.hist)
    && RowsOk(maxRetries, roots, w.hist, w.rows)
    && OneLive(w.rows)
    && Covered(w.hist, w.rows)
    && AllBooked(roots, w.hist, w.rows)
    && Numbered(w.rows)
  }

  /** One attempt extends a history properly and its retry row continues it. */
  lemma AttemptStep(maxRetries: u32, root: Row, h: seq<Attempt>, r: Row, redisOk: bool)
    requires HistoryOk(maxRetries, root, h) && Continues(maxRetries, root, h, r)
    ensures var outcome := OutcomeOf(maxRetries, r, redisOk);
            var h' := h + [Attempt(MeaningOf(r), outcome)];
            && HistoryOk(maxRetries, root, h')
            && (outcome == Retried ==> Continues(maxRetries, root, h', RetryRow(maxRetries, r)))
            && (outcome != Retried ==> Ended(h'))
  {
    var outcome := OutcomeOf(maxRetries, r, redisOk);
    if outcome == Retried {
      var count := ExtractRetryCount(r.payload) + 1;
      AugmentThenExtract(r.payload, count);
      RetryKeepsMeaning(r.kind, r.payload, count);
    }
  }

  lemma ProcessRowsOk(maxRetries: u32, roots: seq<Row>, w: World, id: nat, redisOk: bool)
    requires Inv(maxRetries, roots, w) && Known(w, id) && Live(w.rows[id])
    ensures var w' := ProcessOne(maxRetries, w, id, redisOk);
            && HistoriesOk(maxRetries, roots, w'.hist)
            && RowsOk(maxRetries, roots, w'.hist, w'.rows)
  {
    var r := w.rows[id];
    var w' := ProcessOne(maxRetries, w, id, redisOk);
    assert RowOk(maxRetries, roots, w.hist, r);
    AttemptStep(maxRetries, roots[r.lineage], w.hist[r.lineage], r, redisOk);
    forall i | 0 <= i < |w'.rows|
      ensures RowOk(maxRetries, roots, w'.hist, w'.rows[i])
    {
      if i < |w.rows| && i != id {
        assert w'.rows[i] == w.rows[i] && RowOk(maxRetries, roots, w.hist, w.rows[i]);
        if Live(w.rows[i]) { assert w.rows[i].lineage != r.lineage; }
      } else if i == id {
        assert Marked(roots[r.lineage], w'.hist[r.lineage], w'.rows[id]);
      }
    }
  }

  lemma ProcessBooks(maxRetries: u32, roots: seq<Row>, w: World, id: nat, redisOk: bool)
    requires Inv(maxRetries, roots, w) && Known(w, id) && Live(w.rows[id])
    ensures var w' := ProcessOne(maxRetries, w, id, redisOk); AllBooked(roots, w'.hist, w'.rows)
  {
    var r := w.rows[id];
    var w' := ProcessOne(maxRetries, w, id, redisOk);
    assert RowOk(maxRetries, roots, w.hist, r);
    forall l, k | 0 <= l < |w'.hist| && 0 <= k < |w'.hist[l]|
      ensures HasRow(roots, w'.rows, l, k)
    {
      if l == r.lineage && k == |w.hist[l]| {
        assert StandsFor(roots, w'.rows[id], l, k);
      } else {
        assert HasRow(roots, w.rows, l, k);
        var i :| 0 <= i < |w.rows| && StandsFor(roots, w.rows[i], l, k);
        assert StandsFor(roots, w'.rows[i], l, k);
      }
    }
  }

  lemma ProcessNumbered(maxRetries: u32, roots: seq<Row>, w: World, id: nat, redisOk: bool)
    requires Inv(maxRetries, roots, w) && Known(w, id) && Live(w.rows[id])
    ensures Numbered(ProcessOne(maxRetries, w, id, redisOk).rows)
  {
    var r := w.rows[id];
    var w' := ProcessOne(maxRetries, w, id, redisOk);
    assert RowOk(maxRetries, roots, w.hist, r);
    forall i, j | 0 <= i < j < |w'.rows| && w'.rows[i].lineage == w'.rows[j].lineage
      ensures ExtractRetryCount(w'.rows[i].payload) != ExtractRetryCount(w'.rows[j].payload)
    {
      assert w'.rows[i].payload == w.rows[i].payload && w'.rows[i].lineage == w.rows[i].lineage;
      if j < |w.rows| {
        assert w'.rows[j].payload == w.rows[j].payload && w'.rows[j].lineage == w.rows[j].lineage;
      } else {
        assert RowOk(maxRetries, roots, w.hist, w.rows[i]);
        AugmentThenExtract(r.payload, ExtractRetryCount(r.payload) + 1);
      }
    }
  }

  lemma ProcessOneLive(maxRetries: u32, roots: seq<Row>, w: World, id: nat, redisOk: bool)
    requires Inv(maxRetries, roots, w) && Known(w, id) && Live(w.rows[id])
    ensures OneLive(ProcessOne(maxRetries, w, id, redisOk).rows)
  {
    var w' := ProcessOne(maxRetries, w, id, redisOk);
    forall i, j | 0 <= i < j < |w'.rows| && Live(w'.rows[i]) && Live(w'.rows[j])
      ensures w'.rows[i].lineage != w'.rows[j].lineage
    {
      assert i != id && j != id && w'.rows[i] == w.rows[i];
      if j == |w.rows| {
        assert w'.rows[j].lineage == w.rows[id].lineage;
      } else {
        assert w'.rows[j] == w.rows[j];
      }
    }
  }

  lemma ProcessCovered(maxRetries: u32, roots: seq<Row>, w: World, id: nat, redisOk: bool)
    requires Inv(maxRetries, roots, w) && Known(w, id) && Live(w.rows[id])
    ensures var w' := ProcessOne(maxRetries, w, id, redisOk); Covered(w'.hist, w'.rows)
  {
    var r := w.rows[id];
    var w' := ProcessOne(maxRetries, w, id, redisOk);
    forall l | 0 <= l < |w'.hist|
      ensures Ended(w'.hist[l]) || HasLive(w'.rows, l)
    {
      if l == r.lineage {
        if OutcomeOf(maxRetries, r, redisOk) == Retried {
          var k := |w.rows|;
          assert Live(w'.rows[k]) && w'.rows[k].lineage == l;
        }
      } else if !Ended(w.hist[l]) {
        assert HasLive(w.rows, l);
        var i :| 0 <= i < |w.rows| && Live(w.rows[i]) && w.rows[i].lineage == l;
        assert w'.rows[i] == w.rows[i];
      }
    }
  }

  lemma ProcessKeepsInv(maxRetries: u32, roots: seq<Row>, w: World, id: nat, redisOk: bool)
    requires Inv(maxRetries, roots, w) && Known(w, id) && Live(w.rows[id])
    ensures Inv(maxRetries, roots, ProcessOne(maxRetries, w, id, redisOk))
  {
    ProcessRowsOk(maxRetries, roots, w, id, redisOk);
    ProcessOneLive(maxRetries, roots, w, id, redisOk);
    ProcessCovered(maxRetries, roots, w, id, redisOk);
    ProcessBooks(maxRetries, roots, w, id, redisOk);
    ProcessNumbered(maxRetries, roots, w, id, redisOk);
  }

  // ---- Work left ----

  function WorkOf(maxRetries: u32, root: Row, h: seq<Attempt>): int {
    if Ended(h) then 0 else Limit(maxRetries, root) - |h|
  }

  /** Attempts that the first `n` lineages may still take. */
  function Work(maxRetries: u32, roots: seq<Row>, hist: seq<seq<Attempt>>, n: nat): int
    requires n <= |roots| == |hist|
  {
    if n == 0 then 0 else Work(maxRetries, roots, hist, n - 1) + WorkOf(maxRetries, roots[n - 1], hist[n - 1])
  }

  lemma {:induction false} WorkNonNegative(maxRetries: u32, roots: seq<Row>, hist: seq<seq<Attempt>>, n: nat)
    requires n <= |roots| && HistoriesOk(maxRetries, roots, hist)
    ensures Work(maxRetries, roots, hist, n) >= 0
  {
    if n > 0 {
      WorkNonNegative(maxRetries, roots, hist, n - 1);
      assert HistoryOk(maxRetries, roots[n - 1], hist[n - 1]);
    }
  }

  lemma {:induction false} WorkUpdate(maxRetries: u32, roots: seq<Row>, hist: seq<seq<Attempt>>, n: nat, l: nat, h: seq<Attempt>)
    requires n <= |roots| == |hist| && l < |roots|
    ensures Work(maxRetries, roots, hist[l := h], n) - Work(maxRetries, roots, hist, n)
         == if l < n then WorkOf(maxRetries, roots[l], h) - WorkOf(maxRetries, roots[l], hist[l]) else 0
  {
    if n > 0 { WorkUpdate(maxRetries, roots, hist, n - 1, l, h); }
  }

  /** Every attempt uses up work, so pending events cannot circulate for ever. */
  lemma ProcessUsesWork(maxRetries: u32, roots: seq<Row>, w: World, id: nat, redisOk: bool)
    requires Inv(maxRetries, roots, w) && Known(w, id) && Live(w.rows[id])
    ensures Work(maxRetries, roots, ProcessOne(maxRetries, w, id, redisOk).hist, |roots|)
          < Work(maxRetries, roots, w.hist, |roots|)
  {
    var r := w.rows[id];
    var h := w.hist[r.lineage] + [Attempt(MeaningOf(r), OutcomeOf(maxRetries, r, redisOk))];
    assert RowOk(maxRetries, roots, w.hist, r);
    WorkUpdate(maxRetries, roots, w.hist, |roots|, r.lineage, h);
  }
}
