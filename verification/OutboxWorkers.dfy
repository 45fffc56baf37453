/**
  Several workers on one outbox table. Each dequeue is one atomic claim that
  skips what others hold, so a claimed row has one owner; claims and events of
  different workers interleave in any order.
*/
module OutboxWorkers {
  import opened OutboxEvents
  import opened OutboxWorker
  import opened OutboxBatch

  /** The table and who holds which claimed row. */
  datatype Shared = Shared(world: World, owner: map<nat, nat>)

  /** A worker claims a batch, or handles one row it holds with Redis answering `redisOk`. */
  datatype Move = Poll(worker: nat) | Handle(worker: nat, id: nat, redisOk: bool)

  function Holding(ids: seq<nat>, worker: nat): map<nat, nat> {
    map id | id in ids :: worker
  }

  function Apply(maxRetries: u32, s: Shared, move: Move): Shared {
    match move
    case Poll(u) => Shared(BatchStart(s.world), s.owner + Holding(ClaimedIds(s.world.rows), u))
    case Handle(u, id, ok) =>
      if id in s.owner && s.owner[id] == u && Known(s.world, id) then
        Shared(ProcessOne(maxRetries, s.world, id, ok), s.owner - {id})
      else s
  }

  function Moves(maxRetries: u32, s: Shared, moves: seq<Move>, n: nat): Shared
    requires n <= |moves|
  {
    if n == 0 then s else Apply(maxRetries, Moves(maxRetries, s, moves, n - 1), moves[n - 1])
  }

  // ---- What every move keeps ----

  /** Exactly the rows in processing are held. */
  ghost predicate Held(s: Shared) {
    && (forall id :: id in s.owner ==> Claimed(s.world.rows, id))
    && (forall i {:trigger s.world.rows[i]} :: 0 <= i < |s.world.rows| && s.world.rows[i].status == Processing ==> i in s.owner)
  }

  ghost predicate SharedInv(maxRetries: u32, roots: seq<Row>, s: Shared) {
    Inv(maxRetries, roots, s.world) && Held(s)
  }

  lemma PollHolds(s: Shared, worker: nat)
    requires Held(s)
    ensures Held(Shared(BatchStart(s.world), s.owner + Holding(ClaimedIds(s.world.rows), worker)))
  {
    var rows := s.world.rows;
    var ids := ClaimedIds(rows);
    var after := s.owner + Holding(ids, worker);
    ClaimedIdsMeaning(rows);
    ClaimMeaning(rows, ids, |ids|);
    var claimed := BatchStart(s.world).rows;
    forall id | id in after
      ensures Claimed(claimed, id)
    {
      if id in ids {
        var k :| 0 <= k < |ids| && ids[k] == id;
        assert InFirst(ids, |ids|, id);
      } else {
        assert Claimed(rows, id);
      }
    }
    forall i | 0 <= i < |claimed| && claimed[i].status == Processing
      ensures i in after
    {
      if InFirst(ids, |ids|, i) {
        var k :| 0 <= k < |ids| && ids[k] == i;
        assert ids[k] in ids;
      } else {
        assert rows[i].status == Processing;
      }
    }
  }

  lemma HandleHolds(maxRetries: u32, s: Shared, id: nat, redisOk: bool)
    requires Held(s) && id in s.owner && Known(s.world, id)
    ensures Held(Shared(ProcessOne(maxRetries, s.world, id, redisOk), s.owner - {id}))
  {
    var rows := ProcessOne(maxRetries, s.world, id, redisOk).rows;
    forall i | i in s.owner - {id}
      ensures Claimed(rows, i)
    {
      assert Claimed(s.world.rows, i);
      OthersUntouched(maxRetries, s.world, id, redisOk, i);
    }
  }

  lemma MoveKeeps(maxRetries: u32, roots: seq<Row>, s: Shared, move: Move)
    requires SharedInv(maxRetries, roots, s)
    ensures SharedInv(maxRetries, roots, Apply(maxRetries, s, move))
  {
    match move
    case Poll(u) =>
      ClaimKeepsInv(maxRetries, roots, s.world);
      PollHolds(s, u);
    case Handle(u, id, ok) =>
      if id in s.owner && s.owner[id] == u && Known(s.world, id) {
        assert Claimed(s.world.rows, id);
        ProcessKeepsInv(maxRetries, roots, s.world, id, ok);
        HandleHolds(maxRetries, s, id, ok);
      }
  }

  /** Under every interleaving each lineage has ended or is carried by one live row, and exactly the claimed rows are held. */
  lemma {:induction false} MovesConserve(maxRetries: u32, roots: seq<Row>, s: Shared, moves: seq<Move>, n: nat)
    requires SharedInv(maxRetries, roots, s) && n <= |moves|
    ensures SharedInv(maxRetries, roots, Moves(maxRetries, s, moves, n))
  {
    if n > 0 {
      MovesConserve(maxRetries, roots, s, moves, n - 1);
      MoveKeeps(maxRetries, roots, Moves(maxRetries, s, moves, n - 1), moves[n - 1]);
    }
  }

  /** No claim takes a row away from the worker that holds it. */
  lemma PollStealsNothing(s: Shared, worker: nat, id: nat)
    requires Held(s) && id in s.owner
    ensures var after := s.owner + Holding(ClaimedIds(s.world.rows), worker); id in after && after[id] == s.owner[id]
  {
    ClaimedIdsMeaning(s.world.rows);
    assert Claimed(s.world.rows, id);
  }

  // ---- Every run ends ----

  function PendingCount(rows: seq<Row>, n: nat): nat
    requires n <= |rows|
  {
    if n == 0 then 0 else PendingCount(rows, n - 1) + if rows[n - 1].status == Pending then 1 else 0
  }

  function One(r: Row): nat {
    if r.status == Pending then 1 else 0
  }

  lemma {:induction false} PendingCountSet(rows: seq<Row>, i: nat, r: Row, n: nat)
    requires i < |rows| && n <= |rows|
    ensures PendingCount(rows[i := r], n) == PendingCount(rows, n) + if i < n then One(r) - One(rows[i]) else 0
  {
    if n > 0 { PendingCountSet(rows, i, r, n - 1); }
  }

  lemma {:induction false} PendingCountPrefix(rows: seq<Row>, more: seq<Row>, n: nat)
    requires n <= |rows|
    ensures PendingCount(rows + more, n) == PendingCount(rows, n)
  {
    if n > 0 { PendingCountPrefix(rows, more, n - 1); }
  }

  lemma {:induction false} ClaimCount(rows: seq<Row>, ids: seq<nat>, n: nat)
    requires n <= |ids| && Increasing(ids)
    requires forall k :: 0 <= k < |ids| ==> ids[k] < |rows| && rows[ids[k]].status == Pending
    ensures PendingCount(Claim(rows, ids, n), |rows|) == PendingCount(rows, |rows|) - n
  {
    if n > 0 {
      var before := Claim(rows, ids, n - 1);
      ClaimCount(rows, ids, n - 1);
      ClaimMeaning(rows, ids, n - 1);
      assert !InFirst(ids, n - 1, ids[n - 1]);
      PendingCountSet(before, ids[n - 1], before[ids[n - 1]].(status := Processing), |rows|);
    }
  }

  lemma HandleCount(maxRetries: u32, w: World, id: nat, redisOk: bool)
    requires Known(w, id) && w.rows[id].status == Processing
    ensures var rows := ProcessOne(maxRetries, w, id, redisOk).rows;
            PendingCount(rows, |rows|) <= PendingCount(w.rows, |w.rows|) + 1
  {
    var r := w.rows[id];
    var outcome := OutcomeOf(maxRetries, r, redisOk);
    var done := r.(status := if outcome == DeadLettered then Failed else Done);
    PendingCountSet(w.rows, id, done, |w.rows|);
    if outcome == Retried { PendingCountPrefix(w.rows[id := done], [RetryRow(maxRetries, r)], |w.rows|); }
  }

  /** The move claims a row, or handles one that its worker holds. */
  ghost predicate Effective(s: Shared, move: Move) {
    match move
    case Poll(_) => ClaimedIds(s.world.rows) != []
    case Handle(u, id, _) => id in s.owner && s.owner[id] == u && Known(s.world, id)
  }

  /** Two for each attempt still allowed, one for each pending row. */
  function Potential(maxRetries: u32, roots: seq<Row>, s: Shared): int
    requires |s.world.hist| == |roots|
  {
    2 * Work(maxRetries, roots, s.world.hist, |roots|) + PendingCount(s.world.rows, |s.world.rows|)
  }

  lemma EffectiveSpends(maxRetries: u32, roots: seq<Row>, s: Shared, move: Move)
    requires SharedInv(maxRetries, roots, s) && Effective(s, move)
    ensures |Apply(maxRetries, s, move).world.hist| == |roots|
    ensures Potential(maxRetries, roots, Apply(maxRetries, s, move)) < Potential(maxRetries, roots, s)
  {
    match move
    case Poll(_) =>
      var ids := ClaimedIds(s.world.rows);
      ClaimedIdsMeaning(s.world.rows);
      ClaimCount(s.world.rows, ids, |ids|);
    case Handle(_, id, ok) =>
      assert Claimed(s.world.rows, id);
      ProcessUsesWork(maxRetries, roots, s.world, id, ok);
      HandleCount(maxRetries, s.world, id, ok);
  }

  ghost predicate AllEffective(maxRetries: u32, s: Shared, moves: seq<Move>) {
    forall k {:trigger Effective(Moves(maxRetries, s, moves, k), moves[k])} ::
      0 <= k < |moves| ==> Effective(Moves(maxRetries, s, moves, k), moves[k])
  }

  /** After n effective moves, out of a potential of `bound`. */
  ghost predicate Spent(maxRetries: u32, roots: seq<Row>, s: Shared, n: nat, bound: int) {
    SharedInv(maxRetries, roots, s) && Potential(maxRetries, roots, s) + n <= bound
  }

  lemma SpentNext(maxRetries: u32, roots: seq<Row>, s: Shared, move: Move, n: nat, bound: int)
    requires Spent(maxRetries, roots, s, n, bound) && Effective(s, move)
    ensures Spent(maxRetries, roots, Apply(maxRetries, s, move), n + 1, bound)
  {
    MoveKeeps(maxRetries, roots, s, move);
    EffectiveSpends(maxRetries, roots, s, move);
  }

  lemma {:induction false} MovesSpend(maxRetries: u32, roots: seq<Row>, s: Shared, moves: seq<Move>, n: nat, bound: int)
    requires Spent(maxRetries, roots, s, 0, bound) && AllEffective(maxRetries, s, moves) && n <= |moves|
    ensures Spent(maxRetries, roots, Moves(maxRetries, s, moves, n), n, bound)
  {
    if n > 0 {
      var before := Moves(maxRetries, s, moves, n - 1);
      MovesSpend(maxRetries, roots, s, moves, n - 1, bound);
      assert Effective(before, moves[n - 1]);
      SpentNext(maxRetries, roots, before, moves[n - 1], n - 1, bound);
    }
  }

  /** Where no move is effective any more, every lineage is settled; and conversely. */
  lemma StuckIffSettled(maxRetries: u32, roots: seq<Row>, s: Shared)
    requires SharedInv(maxRetries, roots, s)
    ensures (forall move :: !Effective(s, move)) <==> AllSettled(maxRetries, roots, s.world)
  {
    var rows := s.world.rows;
    ClaimedIdsMeaning(rows);
    if forall move :: !Effective(s, move) {
      assert !Effective(s, Poll(0));
      forall i | 0 <= i < |rows|
        ensures rows[i].status != Processing
      {
        if rows[i].status == Processing {
          assert RowOk(maxRetries, roots, s.world.hist, rows[i]);
          assert Effective(s, Handle(s.owner[i], i, true));
        }
      }
      QuietMeansSettled(maxRetries, roots, s.world);
    }
    if move :| Effective(s, move) {
      var i := if move.Poll? then ClaimedIds(rows)[0] else move.id;
      assert move.Handle? ==> Claimed(rows, i);
      LiveIsNotSettled(maxRetries, roots, s.world, i);
    }
  }

  /**
    Any number of workers, any interleaving: a run in which every move does
    something is no longer than the potential at its start, and where it cannot
    be continued every event has been delivered or given up.
  */
  lemma EveryInterleavingSettles(maxRetries: u32, rows: seq<Row>, moves: seq<Move>)
    requires Initial(rows) && AllEffective(maxRetries, Shared(Start(rows), map[]), moves)
    ensures var s := Shared(Start(rows), map[]);
            var v := Moves(maxRetries, s, moves, |moves|);
            && |moves| <= Potential(maxRetries, rows, s)
            && ((forall move :: !Effective(v, move)) <==> AllSettled(maxRetries, rows, v.world))
  {
    var s := Shared(Start(rows), map[]);
    InitialInv(maxRetries, rows);
    var v := Moves(maxRetries, s, moves, |moves|);
    MovesSpend(maxRetries, rows, s, moves, |moves|, Potential(maxRetries, rows, s));
    WorkNonNegative(maxRetries, rows, v.world.hist, |rows|);
    StuckIffSettled(maxRetries, rows, v);
  }
}
