/**
  Batches: claiming pending rows, processing them one by one, and polling until
  the table is quiet.
*/
module OutboxBatch {
  import opened OutboxEvents
  import opened OutboxWorker
  import Json

  const BATCH_SIZE: nat := 50

  /** The pending rows among the first `n`, oldest first. */
  function PendingIds(rows: seq<Row>, n: nat): seq<nat>
    requires n <= |rows|
  {
    if n == 0 then []
    else PendingIds(rows, n - 1) + (if rows[n - 1].status == Pending then [n - 1] else [])
  }

  function ClaimedIds(rows: seq<Row>): seq<nat> {
    var ids := PendingIds(rows, |rows|);
    if |ids| <= BATCH_SIZE then ids else ids[..BATCH_SIZE]
  }

  /** The first `n` of `ids` marked as being processed. */
  function Claim(rows: seq<Row>, ids: seq<nat>, n: nat): (r: seq<Row>)
    requires n <= |ids| && forall k :: 0 <= k < |ids| ==> ids[k] < |rows|
    ensures |r| == |rows|
  {
    if n == 0 then rows
    else var r := Claim(rows, ids, n - 1); r[ids[n - 1] := r[ids[n - 1]].(status := Processing)]
  }

  function ProcessAll(maxRetries: u32, w: World, ids: seq<nat>, n: nat, redis: nat -> bool): World
    requires n <= |ids|
  {
    if n == 0 then w
    else
      var v := ProcessAll(maxRetries, w, ids, n - 1, redis);
      if Known(v, ids[n - 1]) then ProcessOne(maxRetries, v, ids[n - 1], redis(v.tries)) else v
  }

  // ---- Claiming ----

  ghost predicate Increasing(ids: seq<nat>) {
    forall j, k :: 0 <= j < k < |ids| ==> ids[j] < ids[k]
  }

  lemma {:induction false} PendingIdsMeaning(rows: seq<Row>, n: nat)
    requires n <= |rows|
    ensures var ids := PendingIds(rows, n);
            && Increasing(ids)
            && (forall k :: 0 <= k < |ids| ==> ids[k] < n && rows[ids[k]].status == Pending)
  {
    if n > 0 { PendingIdsMeaning(rows, n - 1); }
  }

  lemma {:induction false} NonePending(rows: seq<Row>, n: nat)
    requires n <= |rows|
    ensures PendingIds(rows, n) == [] <==> forall i :: 0 <= i < n ==> rows[i].status != Pending
  {
    if n > 0 { NonePending(rows, n - 1); }
  }

  lemma ClaimedIdsMeaning(rows: seq<Row>)
    ensures var ids := ClaimedIds(rows);
            && Increasing(ids)
            && (forall k :: 0 <= k < |ids| ==> ids[k] < |rows| && rows[ids[k]].status == Pending)
            && (ids == [] <==> forall i :: 0 <= i < |rows| ==> rows[i].status != Pending)
  {
    PendingIdsMeaning(rows, |rows|);
    NonePending(rows, |rows|);
  }

  lemma {:induction false} PendingIsListed(rows: seq<Row>, n: nat, i: nat)
    requires i < n <= |rows| && rows[i].status == Pending
    ensures i in PendingIds(rows, n)
    decreases n
  {
    if i < n - 1 { PendingIsListed(rows, n - 1, i); }
  }

  /** The batch is the oldest pending rows: fifty of them, or all there are. */
  lemma ClaimsOldest(rows: seq<Row>, i: nat)
    requires i < |rows| && rows[i].status == Pending && i !in ClaimedIds(rows)
    ensures |ClaimedIds(rows)| == 50 && forall k :: 0 <= k < 50 ==> ClaimedIds(rows)[k] < i
  {
    var all := PendingIds(rows, |rows|);
    PendingIdsMeaning(rows, |rows|);
    PendingIsListed(rows, |rows|, i);
    var j :| 0 <= j < |all| && all[j] == i;
    assert forall k :: 0 <= k < |ClaimedIds(rows)| ==> ClaimedIds(rows)[k] == all[k];
  }

  ghost predicate InFirst(ids: seq<nat>, n: nat, i: nat)
    requires n <= |ids|
  {
    exists k :: 0 <= k < n && ids[k] == i
  }

  lemma {:induction false} ClaimMeaning(rows: seq<Row>, ids: seq<nat>, n: nat)
    requires n <= |ids| && forall k :: 0 <= k < |ids| ==> ids[k] < |rows|
    ensures forall i :: 0 <= i < |rows| ==>
              Claim(rows, ids, n)[i] == if InFirst(ids, n, i) then rows[i].(status := Processing) else rows[i]
  {
    if n > 0 {
      ClaimMeaning(rows, ids, n - 1);
      var before, after := Claim(rows, ids, n - 1), Claim(rows, ids, n);
      forall i | 0 <= i < |rows|
        ensures after[i] == if InFirst(ids, n, i) then rows[i].(status := Processing) else rows[i]
      {
        assert InFirst(ids, n, i) <==> InFirst(ids, n - 1, i) || i == ids[n - 1];
      }
    }
  }

  predicate Claimed(rows: seq<Row>, i: nat) {
    i < |rows| && rows[i].status == Processing
  }

  /** Rows that still await their turn in the batch; no other is claimed but what was so `before`. */
  ghost predicate Awaiting(before: seq<Row>, rows: seq<Row>, ids: seq<nat>, n: nat) {
    && (forall k :: n <= k < |ids| ==> ids[k] < |rows| && rows[ids[k]].status == Processing)
    && (forall i {:trigger rows[i]} :: 0 <= i < |rows| && rows[i].status == Processing ==>
          Claimed(before, i) || exists k :: n <= k < |ids| && ids[k] == i)
  }

  ghost predicate NothingClaimed(rows: seq<Row>) {
    forall i :: 0 <= i < |rows| ==> rows[i].status != Processing
  }

  /** No row is claimed that was not claimed before. */
  ghost predicate NoneNew(before: seq<Row>, rows: seq<Row>) {
    forall i {:trigger rows[i]} :: 0 <= i < |rows| && rows[i].status == Processing ==> Claimed(before, i)
  }

  function BatchStart(w: World): World {
    ClaimedIdsMeaning(w.rows);
    w.(rows := Claim(w.rows, ClaimedIds(w.rows), |ClaimedIds(w.rows)|))
  }

  function Batch(maxRetries: u32, w: World, redis: nat -> bool): World {
    ProcessAll(maxRetries, BatchStart(w), ClaimedIds(w.rows), |ClaimedIds(w.rows)|, redis)
  }

  /** Marking live rows as being processed changes nothing about lineages. */
  lemma MarkingKeepsInv(maxRetries: u32, roots: seq<Row>, w: World, rows: seq<Row>)
    requires Inv(maxRetries, roots, w) && |rows| == |w.rows|
    requires forall i :: 0 <= i < |rows| ==> rows[i] == w.rows[i] || (Live(w.rows[i]) && rows[i] == w.rows[i].(status := Processing))
    ensures Inv(maxRetries, roots, w.(rows := rows))
  {
    forall i | 0 <= i < |rows|
      ensures RowOk(maxRetries, roots, w.hist, rows[i])
    {
      assert RowOk(maxRetries, roots, w.hist, w.rows[i]);
    }
    forall l | 0 <= l < |w.hist| && !Ended(w.hist[l])
      ensures HasLive(rows, l)
    {
      assert HasLive(w.rows, l);
      var i :| 0 <= i < |w.rows| && Live(w.rows[i]) && w.rows[i].lineage == l;
      assert Live(rows[i]) && rows[i].lineage == l;
    }
    forall l, k | 0 <= l < |w.hist| && 0 <= k < |w.hist[l]|
      ensures HasRow(roots, rows, l, k)
    {
      assert HasRow(roots, w.rows, l, k);
      var i :| 0 <= i < |w.rows| && StandsFor(roots, w.rows[i], l, k);
      assert StandsFor(roots, rows[i], l, k);
    }
  }

  lemma ClaimAwaits(rows: seq<Row>)
    ensures var ids := ClaimedIds(rows);
            && (forall k :: 0 <= k < |ids| ==> ids[k] < |rows|)
            && Awaiting(rows, Claim(rows, ids, |ids|), ids, 0)
            && forall i :: 0 <= i < |rows| ==>
                 var r := Claim(rows, ids, |ids|)[i]; r == rows[i] || (Live(rows[i]) && r == rows[i].(status := Processing))
  {
    var ids := ClaimedIds(rows);
    ClaimedIdsMeaning(rows);
    ClaimMeaning(rows, ids, |ids|);
    forall k | 0 <= k < |ids|
      ensures InFirst(ids, |ids|, ids[k])
    {
    }
  }

  lemma ClaimKeepsInv(maxRetries: u32, roots: seq<Row>, w: World)
    requires Inv(maxRetries, roots, w)
    ensures Inv(maxRetries, roots, BatchStart(w))
    ensures Awaiting(w.rows, BatchStart(w).rows, ClaimedIds(w.rows), 0)
  {
    ClaimAwaits(w.rows);
    MarkingKeepsInv(maxRetries, roots, w, BatchStart(w).rows);
  }

  lemma AwaitingNext(maxRetries: u32, roots: seq<Row>, before: seq<Row>, w: World, ids: seq<nat>, n: nat, redisOk: bool)
    requires Inv(maxRetries, roots, w) && Increasing(ids) && n < |ids| && Awaiting(before, w.rows, ids, n)
    ensures Known(w, ids[n]) && Live(w.rows[ids[n]])
    ensures Awaiting(before, ProcessOne(maxRetries, w, ids[n], redisOk).rows, ids, n + 1)
  {
    assert RowOk(maxRetries, roots, w.hist, w.rows[ids[n]]);
    var rows := ProcessOne(maxRetries, w, ids[n], redisOk).rows;
    forall i | 0 <= i < |rows| && rows[i].status == Processing
      ensures Claimed(before, i) || exists k :: n + 1 <= k < |ids| && ids[k] == i
    {
      assert i < |w.rows| && rows[i] == w.rows[i] && i != ids[n];
    }
  }

  lemma ProcessNext(maxRetries: u32, roots: seq<Row>, before: seq<Row>, v: World, ids: seq<nat>, n: nat, redisOk: bool)
    requires Inv(maxRetries, roots, v) && Increasing(ids) && n < |ids| && Awaiting(before, v.rows, ids, n)
    ensures Known(v, ids[n])
    ensures var v' := ProcessOne(maxRetries, v, ids[n], redisOk);
            && Inv(maxRetries, roots, v') && Awaiting(before, v'.rows, ids, n + 1)
            && Work(maxRetries, roots, v'.hist, |roots|) < Work(maxRetries, roots, v.hist, |roots|)
  {
    AwaitingNext(maxRetries, roots, before, v, ids, n, redisOk);
    ProcessKeepsInv(maxRetries, roots, v, ids[n], redisOk);
    ProcessUsesWork(maxRetries, roots, v, ids[n], redisOk);
  }

  /** After n rows of the batch, out of an amount of work of `bound`. */
  ghost predicate Partway(maxRetries: u32, roots: seq<Row>, before: seq<Row>, v: World, ids: seq<nat>, n: nat, bound: int) {
    && Inv(maxRetries, roots, v) && Awaiting(before, v.rows, ids, n)
    && Work(maxRetries, roots, v.hist, |roots|) + n <= bound
  }

  lemma PartwayNext(
    maxRetries: u32, roots: seq<Row>, before: seq<Row>, v: World, ids: seq<nat>, n: nat, bound: int, redisOk: bool)
    requires Partway(maxRetries, roots, before, v, ids, n, bound) && Increasing(ids) && n < |ids|
    ensures Known(v, ids[n]) && Partway(maxRetries, roots, before, ProcessOne(maxRetries, v, ids[n], redisOk), ids, n + 1, bound)
  {
    ProcessNext(maxRetries, roots, before, v, ids, n, redisOk);
  }

  /** Whatever one more row keeps, the whole batch keeps. */
  lemma {:induction false} AlongTheBatch(
    maxRetries: u32, P: (World, nat) -> bool, w: World, ids: seq<nat>, n: nat, redis: nat -> bool)
    requires n <= |ids| && P(w, 0)
    requires forall v, k, ok {:trigger P(v, k), Handled(maxRetries, v, ids, k, ok)} ::
               0 <= k < |ids| && P(v, k) ==> P(Handled(maxRetries, v, ids, k, ok), k + 1)
    ensures P(ProcessAll(maxRetries, w, ids, n, redis), n)
  {
    if n > 0 {
      AlongTheBatch(maxRetries, P, w, ids, n - 1, redis);
      var v := ProcessAll(maxRetries, w, ids, n - 1, redis);
      assert P(Handled(maxRetries, v, ids, n - 1, redis(v.tries)), n - 1 + 1);
    }
  }

  /** The world after row k of the batch. */
  function Handled(maxRetries: u32, v: World, ids: seq<nat>, k: int, ok: bool): World {
    if 0 <= k < |ids| && Known(v, ids[k]) then ProcessOne(maxRetries, v, ids[k], ok) else v
  }

  lemma ProcessAllKeeps(
    maxRetries: u32, roots: seq<Row>, before: seq<Row>, w: World, ids: seq<nat>, redis: nat -> bool, bound: int)
    requires Partway(maxRetries, roots, before, w, ids, 0, bound) && Increasing(ids)
    ensures Partway(maxRetries, roots, before, ProcessAll(maxRetries, w, ids, |ids|, redis), ids, |ids|, bound)
  {
    ghost var P := (v: World, n: nat) => Partway(maxRetries, roots, before, v, ids, n, bound);
    forall v, k, ok | 0 <= k < |ids| && P(v, k)
      ensures P(Handled(maxRetries, v, ids, k, ok), k + 1)
    {
      PartwayNext(maxRetries, roots, before, v, ids, k, bound, ok);
    }
    AlongTheBatch(maxRetries, P, w, ids, |ids|, redis);
  }

  /** The first n results: success exactly if the event had actions and the cache answered. */
  ghost predicate Reported(w: World, redis: nat -> bool, results: seq<bool>, n: nat) {
    var ids := ClaimedIds(w.rows);
    && |results| == n <= |ids|
    && forall k :: 0 <= k < n ==>
         ids[k] < |w.rows| && results[k] == (MeaningOf(w.rows[ids[k]]).Run? && redis(w.tries + k))
  }

  lemma OthersUntouched(maxRetries: u32, v: World, id: nat, redisOk: bool, i: nat)
    requires Known(v, id) && i < |v.rows| && i != id
    ensures var v' := ProcessOne(maxRetries, v, id, redisOk);
            i < |v'.rows| && v'.rows[i] == v.rows[i]
  {
  }

  /** Processing leaves the events alone that still await their turn. */
  lemma {:induction false} AwaitingUntouched(maxRetries: u32, w: World, ids: seq<nat>, n: nat, i: nat, redis: nat -> bool)
    requires n <= |ids| && i < |w.rows| && forall k :: 0 <= k < n ==> ids[k] != i
    ensures var v := ProcessAll(maxRetries, w, ids, n, redis);
            i < |v.rows| && v.rows[i] == w.rows[i]
  {
    if n > 0 {
      AwaitingUntouched(maxRetries, w, ids, n - 1, i, redis);
      var v := ProcessAll(maxRetries, w, ids, n - 1, redis);
      if Known(v, ids[n - 1]) { OthersUntouched(maxRetries, v, ids[n - 1], redis(v.tries), i); }
    }
  }

  lemma ClaimKeepsMeaning(rows: seq<Row>, ids: seq<nat>, i: nat)
    requires i < |rows| && forall k :: 0 <= k < |ids| ==> ids[k] < |rows|
    ensures MeaningOf(Claim(rows, ids, |ids|)[i]) == MeaningOf(rows[i])
  {
    ClaimMeaning(rows, ids, |ids|);
  }

  /** When its turn comes, a claimed event still means what it meant before the batch. */
  lemma StillToCome(maxRetries: u32, w: World, k: nat, redis: nat -> bool)
    requires k < |ClaimedIds(w.rows)|
    ensures var id, v := ClaimedIds(w.rows)[k], ProcessAll(maxRetries, BatchStart(w), ClaimedIds(w.rows), k, redis);
            id < |w.rows| && id < |v.rows| && MeaningOf(v.rows[id]) == MeaningOf(w.rows[id])
  {
    var ids := ClaimedIds(w.rows);
    var id := ids[k];
    ClaimedIdsMeaning(w.rows);
    ClaimKeepsMeaning(w.rows, ids, id);
    AwaitingUntouched(maxRetries, BatchStart(w), ids, k, id, redis);
  }

  lemma ReportNext(w: World, redis: nat -> bool, results: seq<bool>, k: nat, ok: bool)
    requires Reported(w, redis, results, k) && k < |ClaimedIds(w.rows)| && ClaimedIds(w.rows)[k] < |w.rows|
    requires ok == (MeaningOf(w.rows[ClaimedIds(w.rows)[k]]).Run? && redis(w.tries + k))
    ensures Reported(w, redis, results + [ok], k + 1)
  {
  }

  /** Every row belongs to a lineage that has a history. */
  ghost predicate Lineaged(w: World) {
    forall i {:trigger w.rows[i]} :: 0 <= i < |w.rows| ==> w.rows[i].lineage < |w.hist|
  }

  lemma InvLineaged(maxRetries: u32, roots: seq<Row>, w: World)
    requires Inv(maxRetries, roots, w)
    ensures Lineaged(w)
  {
    forall i | 0 <= i < |w.rows|
      ensures w.rows[i].lineage < |w.hist|
    {
      assert RowOk(maxRetries, roots, w.hist, w.rows[i]);
    }
  }

  lemma ProcessOneLineaged(maxRetries: u32, w: World, id: nat, redisOk: bool)
    requires Lineaged(w) && Known(w, id)
    ensures Lineaged(ProcessOne(maxRetries, w, id, redisOk))
  {
  }

  lemma {:induction false} ProcessAllLineaged(maxRetries: u32, w: World, ids: seq<nat>, n: nat, redis: nat -> bool)
    requires Lineaged(w) && n <= |ids|
    ensures Lineaged(ProcessAll(maxRetries, w, ids, n, redis))
  {
    if n > 0 {
      ProcessAllLineaged(maxRetries, w, ids, n - 1, redis);
      var v := ProcessAll(maxRetries, w, ids, n - 1, redis);
      if Known(v, ids[n - 1]) { ProcessOneLineaged(maxRetries, v, ids[n - 1], redis(v.tries)); }
    }
  }

  lemma ClaimLineaged(w: World)
    requires Lineaged(w)
    ensures Lineaged(BatchStart(w))
  {
    var ids := ClaimedIds(w.rows);
    ClaimedIdsMeaning(w.rows);
    ClaimMeaning(w.rows, ids, |ids|);
  }

  /** The event whose turn it is can be processed, and succeeds as reported. */
  lemma TurnComes(maxRetries: u32, w: World, v: World, k: nat, redis: nat -> bool)
    requires Lineaged(w) && k < |ClaimedIds(w.rows)|
    requires v == ProcessAll(maxRetries, BatchStart(w), ClaimedIds(w.rows), k, redis)
    ensures var id := ClaimedIds(w.rows)[k];
            && Known(v, id) && id < |w.rows|
            && MeaningOf(v.rows[id]) == MeaningOf(w.rows[id])
  {
    ClaimLineaged(w);
    ProcessAllLineaged(maxRetries, BatchStart(w), ClaimedIds(w.rows), k, redis);
    StillToCome(maxRetries, w, k, redis);
  }

  /** A row that another worker left in processing is never touched again. */
  lemma AbandonedInBatch(maxRetries: u32, w: World, redis: nat -> bool, i: nat)
    requires Claimed(w.rows, i)
    ensures var v := Batch(maxRetries, w, redis); i < |v.rows| && v.rows[i] == w.rows[i]
  {
    var ids := ClaimedIds(w.rows);
    ClaimedIdsMeaning(w.rows);
    ClaimMeaning(w.rows, ids, |ids|);
    AwaitingUntouched(maxRetries, BatchStart(w), ids, |ids|, i, redis);
  }

  /** A batch keeps every lineage accounted for, leaves no row claimed that was not, and uses up work for each row it took. */
  lemma BatchKeeps(maxRetries: u32, roots: seq<Row>, w: World, redis: nat -> bool)
    requires Inv(maxRetries, roots, w)
    ensures var v := Batch(maxRetries, w, redis);
            && Inv(maxRetries, roots, v) && NoneNew(w.rows, v.rows)
            && Work(maxRetries, roots, v.hist, |roots|) + |ClaimedIds(w.rows)| <= Work(maxRetries, roots, w.hist, |roots|)
  {
    var ids := ClaimedIds(w.rows);
    ClaimedIdsMeaning(w.rows);
    ClaimKeepsInv(maxRetries, roots, w);
    ProcessAllKeeps(maxRetries, roots, w.rows, BatchStart(w), ids, redis, Work(maxRetries, roots, w.hist, |roots|));
  }

  // ---- Whole runs ----

  /** Freshly enqueued events, each its own lineage. */
  ghost predicate Initial(rows: seq<Row>) {
    forall i :: 0 <= i < |rows| ==> rows[i].status == Pending && rows[i].lineage == i
  }

  function Start(rows: seq<Row>): World {
    World(rows, seq(|rows|, _ => []), 0)
  }

  lemma InitialInv(maxRetries: u32, rows: seq<Row>)
    requires Initial(rows)
    ensures Inv(maxRetries, rows, Start(rows)) && NothingClaimed(rows)
  {
    forall l | 0 <= l < |rows|
      ensures HasLive(rows, l)
    {
      assert Live(rows[l]) && rows[l].lineage == l;
    }
  }

  /** The state after `n` polls. */
  function Polls(maxRetries: u32, w: World, redis: nat -> bool, n: nat): World
    decreases n
  {
    if n == 0 then w else Polls(maxRetries, Batch(maxRetries, w, redis), redis, n - 1)
  }

  /**
    Conservation over every run and every pattern of Redis failures, whatever
    was claimed at the start: after any number of polls each lineage has ended or
    is carried by exactly one live row, all its attempts computed the same
    invalidations, and nothing is left claimed but what was so already.
  */
  lemma {:induction false} PollsConserve(maxRetries: u32, roots: seq<Row>, w: World, redis: nat -> bool, n: nat)
    requires Inv(maxRetries, roots, w)
    ensures var v := Polls(maxRetries, w, redis, n);
            Inv(maxRetries, roots, v) && NoneNew(w.rows, v.rows)
    decreases n
  {
    if n > 0 {
      BatchKeeps(maxRetries, roots, w, redis);
      PollsConserve(maxRetries, roots, Batch(maxRetries, w, redis), redis, n - 1);
    }
  }

  /** Settled for good: one terminal outcome, last, after at most the allotted attempts. */
  ghost predicate Settled(maxRetries: u32, root: Row, h: seq<Attempt>) {
    && 0 < |h| <= Limit(maxRetries, root)
    && (forall k :: 0 <= k < |h| ==> h[k].actions == MeaningOf(root))
    && (forall k :: 0 <= k < |h| ==> (h[k].outcome == Retried <==> k < |h| - 1))
    && (h[|h| - 1].outcome == Delivered ==> MeaningOf(root).Run?)
    && (h[|h| - 1].outcome == DeadLettered ==> |h| == Limit(maxRetries, root))
  }

  /**
    The table tells how it went: each attempt has exactly one row, failed if the
    attempt was the last of a dead-lettered lineage and done in every other case.
  */
  ghost predicate TableTells(roots: seq<Row>, w: World) {
    && |w.hist| == |roots| && AllBooked(roots, w.hist, w.rows) && Numbered(w.rows)
    && forall i {:trigger w.rows[i]} :: 0 <= i < |w.rows| ==>
         && w.rows[i].lineage < |roots|
         && var h := w.hist[w.rows[i].lineage];
         var k := AttemptNo(roots[w.rows[i].lineage], w.rows[i]);
         && 0 <= k < |h|
         && w.rows[i].status == (if k == |h| - 1 && h[k].outcome == DeadLettered then Failed else Done)
         && w.rows[i].aggregate == roots[w.rows[i].lineage].aggregate
  }

  lemma QuietTells(maxRetries: u32, roots: seq<Row>, w: World)
    requires Inv(maxRetries, roots, w) && forall i :: 0 <= i < |w.rows| ==> !Live(w.rows[i])
    ensures TableTells(roots, w)
  {
    forall i | 0 <= i < |w.rows|
      ensures w.rows[i].lineage < |roots|
      ensures var h := w.hist[w.rows[i].lineage];
              var k := AttemptNo(roots[w.rows[i].lineage], w.rows[i]);
              && 0 <= k < |h|
              && w.rows[i].status == (if k == |h| - 1 && h[k].outcome == DeadLettered then Failed else Done)
              && w.rows[i].aggregate == roots[w.rows[i].lineage].aggregate
    {
      assert RowOk(maxRetries, roots, w.hist, w.rows[i]);
      var l := w.rows[i].lineage;
      assert HistoryOk(maxRetries, roots[l], w.hist[l]);
    }
  }

  /** When nothing is pending any more, every lineage is settled and the table tells how. */
  lemma QuietMeansSettled(maxRetries: u32, roots: seq<Row>, w: World)
    requires Inv(maxRetries, roots, w) && NothingClaimed(w.rows) && ClaimedIds(w.rows) == []
    ensures forall l :: 0 <= l < |roots| ==> Settled(maxRetries, roots[l], w.hist[l])
    ensures TableTells(roots, w)
  {
    ClaimedIdsMeaning(w.rows);
    QuietTells(maxRetries, roots, w);
    forall l | 0 <= l < |roots|
      ensures Settled(maxRetries, roots[l], w.hist[l])
    {
      assert HistoryOk(maxRetries, roots[l], w.hist[l]);
      assert !HasLive(w.rows, l);
    }
  }

  /** Polling uses up work, so it comes to an end. */
  lemma {:induction false} SettlesFrom(maxRetries: u32, roots: seq<Row>, w: World, redis: nat -> bool) returns (n: nat)
    requires Inv(maxRetries, roots, w) && NothingClaimed(w.rows)
    ensures var v := Polls(maxRetries, w, redis, n);
            Inv(maxRetries, roots, v) && NothingClaimed(v.rows) && ClaimedIds(v.rows) == []
    decreases Work(maxRetries, roots, w.hist, |roots|)
  {
    if ClaimedIds(w.rows) == [] {
      n := 0;
    } else {
      WorkNonNegative(maxRetries, roots, w.hist, |roots|);
      BatchKeeps(maxRetries, roots, w, redis);
      n := SettlesFrom(maxRetries, roots, Batch(maxRetries, w, redis), redis);
      n := n + 1;
    }
  }

  /** Termination: whatever Redis does, some poll leaves the table quiet and every lineage settled. */
  lemma EveryEventSettles(maxRetries: u32, rows: seq<Row>, redis: nat -> bool) returns (n: nat)
    requires Initial(rows)
    ensures var w := Polls(maxRetries, Start(rows), redis, n);
            && ClaimedIds(w.rows) == [] && |w.hist| == |rows|
            && TableTells(rows, w)
            && forall l :: 0 <= l < |rows| ==> Settled(maxRetries, rows[l], w.hist[l])
  {
    InitialInv(maxRetries, rows);
    n := SettlesFrom(maxRetries, rows, Start(rows), redis);
    QuietMeansSettled(maxRetries, rows, Polls(maxRetries, Start(rows), redis, n));
  }

  // ---- Abandoned rows ----

  lemma {:induction false} AbandonedStays(maxRetries: u32, w: World, redis: nat -> bool, n: nat, i: nat)
    requires Claimed(w.rows, i)
    ensures var v := Polls(maxRetries, w, redis, n); i < |v.rows| && v.rows[i] == w.rows[i]
    decreases n
  {
    if n > 0 {
      AbandonedInBatch(maxRetries, w, redis, i);
      AbandonedStays(maxRetries, Batch(maxRetries, w, redis), redis, n - 1, i);
    }
  }

  ghost predicate AllSettled(maxRetries: u32, roots: seq<Row>, w: World) {
    TableTells(roots, w) && forall l :: 0 <= l < |roots| ==> Settled(maxRetries, roots[l], w.hist[l])
  }

  lemma LiveIsNotSettled(maxRetries: u32, roots: seq<Row>, w: World, i: nat)
    requires Inv(maxRetries, roots, w) && i < |w.rows| && Live(w.rows[i])
    ensures !AllSettled(maxRetries, roots, w)
  {
    assert RowOk(maxRetries, roots, w.hist, w.rows[i]);
    var l := w.rows[i].lineage;
    assert !Ended(w.hist[l]);
    assert !Settled(maxRetries, roots[l], w.hist[l]);
  }

  /**
    Polling settles every lineage exactly if no row was left in processing by a
    worker that is gone: nothing ever picks such a row up again.
  */
  lemma SettlesIff(maxRetries: u32, roots: seq<Row>, w: World, redis: nat -> bool)
    requires Inv(maxRetries, roots, w)
    ensures (exists n: nat :: AllSettled(maxRetries, roots, Polls(maxRetries, w, redis, n))) <==> NothingClaimed(w.rows)
  {
    if NothingClaimed(w.rows) {
      var n := SettlesFrom(maxRetries, roots, w, redis);
      QuietMeansSettled(maxRetries, roots, Polls(maxRetries, w, redis, n));
      assert AllSettled(maxRetries, roots, Polls(maxRetries, w, redis, n));
    } else {
      var i: nat :| i < |w.rows| && w.rows[i].status == Processing;
      forall n: nat
        ensures !AllSettled(maxRetries, roots, Polls(maxRetries, w, redis, n))
      {
        AbandonedStays(maxRetries, w, redis, n, i);
        PollsConserve(maxRetries, roots, w, redis, n);
        LiveIsNotSettled(maxRetries, roots, Polls(maxRetries, w, redis, n), i);
      }
    }
  }

  // ---- The worker over its table ----

  class Worker {
    const maxRetries: u32
    var rows: seq<Row>
    var tries: nat
    ghost var hist: seq<seq<Attempt>>

    ghost function View(): World
      reads this
    {
      World(rows, hist, tries)
    }

    constructor (maxRetries: u32, pending: seq<Row>)
      ensures this.maxRetries == maxRetries && View() == Start(pending)
    {
      this.maxRetries, rows, tries := maxRetries, pending, 0;
      hist := Start(pending).hist;
    }

    method Enqueue(kind: EventType, aggregate: string, payload: Json.Value, lineage: nat)
      modifies this`rows
      ensures rows == old(rows) + [Row(kind, aggregate, payload, Pending, lineage)]
    {
      rows := rows + [Row(kind, aggregate, payload, Pending, lineage)];
    }

    method Mark(id: nat, status: Status)
      requires id < |rows|
      modifies this`rows
      ensures rows == old(rows)[id := old(rows)[id].(status := status)]
    {
      rows := rows[id := rows[id].(status := status)];
    }

    /** One atomic UPDATE claims the batch. */
    method Dequeue() returns (ids: seq<nat>)
      modifies this`rows
      ensures ids == ClaimedIds(old(rows)) && View() == BatchStart(old(View()))
    {
      ClaimedIdsMeaning(rows);
      ids := ClaimedIds(rows);
      rows := Claim(rows, ids, |ids|);
    }

    method HandleFailure(id: nat)
      requires id < |rows|
      modifies this`rows
      ensures var r := old(rows)[id];
              rows == if FailureOutcome(maxRetries, r) == Retried
                      then old(rows)[id := r.(status := Done)] + [RetryRow(maxRetries, r)]
                      else old(rows)[id := r.(status := Failed)]
    {
      var r := rows[id];
      var count := ExtractRetryCount(r.payload);
      if count < maxRetries {
        Enqueue(Decode(r.kind), r.aggregate, AugmentRetryCount(r.payload, count + 1), r.lineage);
        Mark(id, Done);
      } else {
        Mark(id, Failed);
      }
    }

    /** Process one claimed event, Redis answering `redisOk`. */
    method ProcessEvent(id: nat, redisOk: bool) returns (success: bool)
      requires Known(View(), id)
      modifies this
      ensures View() == ProcessOne(maxRetries, old(View()), id, redisOk)
      ensures success == (MeaningOf(old(rows)[id]).Run? && redisOk)
    {
      var r := rows[id];
      hist := hist[r.lineage := hist[r.lineage] + [Attempt(MeaningOf(r), OutcomeOf(maxRetries, r, redisOk))]];
      tries := tries + 1;
      var actions := ComputeActions(Decode(r.kind), r.payload);
      success := actions.Run? && redisOk;
      if success {
        Mark(id, Done);
      } else {
        HandleFailure(id);
      }
    }

    /** `process_batch`: every claimed event is tried once. */
    method ProcessBatch(redis: nat -> bool) returns (results: seq<bool>)
      requires Lineaged(View())
      modifies this
      ensures View() == Batch(maxRetries, old(View()), redis)
      ensures Reported(old(View()), redis, results, |ClaimedIds(old(rows))|)
    {
      ghost var before := View();
      var ids := Dequeue();
      results := [];
      for k := 0 to |ids|
        invariant View() == ProcessAll(maxRetries, BatchStart(before), ids, k, redis)
        invariant tries == before.tries + k && Reported(before, redis, results, k)
      {
        TurnComes(maxRetries, before, View(), k, redis);
        var ok := ProcessEvent(ids[k], redis(tries));
        ReportNext(before, redis, results, k, ok);
        results := results + [ok];
      }
    }

    /** The polling loop on a table to which nothing new is added: it ends with every lineage settled. */
    method Drain(redis: nat -> bool, ghost roots: seq<Row>)
      requires Initial(roots) && View() == Start(roots)
      modifies this
      ensures TableTells(roots, View())
      ensures forall l :: 0 <= l < |roots| ==> Settled(maxRetries, roots[l], hist[l])
    {
      InitialInv(maxRetries, roots);
      ClaimedIdsMeaning(rows);
      while PendingIds(rows, |rows|) != []
        invariant Inv(maxRetries, roots, View()) && NothingClaimed(rows)
        decreases Work(maxRetries, roots, hist, |roots|)
      {
        WorkNonNegative(maxRetries, roots, hist, |roots|);
        BatchKeeps(maxRetries, roots, View(), redis);
        InvLineaged(maxRetries, roots, View());
        var _ := ProcessBatch(redis);
      }
      QuietMeansSettled(maxRetries, roots, View());
    }
  }
}
