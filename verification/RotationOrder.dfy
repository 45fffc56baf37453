/**
  Does the current key version ever go back? It does, when rotations overlap.
  Exactly when is said twice: step by step for any run, and as a bound on how
  many rotations may be between reading and publishing at a time.
*/
module RotationOrder {
  import opened Sequences
  import opened KeyRotation

  function Current(derive: nat -> Material, actions: seq<Action>, n: nat): nat
    requires n <= |actions|
  {
    Run(derive, Boot(derive), actions, n).current
  }

  function Tasks(derive: nat -> Material, actions: seq<Action>, n: nat): map<nat, Task>
    requires n <= |actions|
  {
    Run(derive, Boot(derive), actions, n).tasks
  }

  // ---- One publication ----

  /** Step n lets rotation `id` read the current version. */
  ghost predicate ReadsAt(derive: nat -> Material, actions: seq<Action>, n: nat, id: nat) {
    n < |actions| && actions[n] == Advance(id)
    && id in Tasks(derive, actions, n) && Tasks(derive, actions, n)[id].RotateBegin?
  }

  /** Step n lets rotation `id` publish its version. */
  ghost predicate PublishesAt(derive: nat -> Material, actions: seq<Action>, n: nat, id: nat) {
    n < |actions| && actions[n] == Advance(id)
    && id in Tasks(derive, actions, n) && Tasks(derive, actions, n)[id].RotateStored?
  }

  predicate HasRead(t: Task) {
    t.RotateRead? || t.RotateStored? || t.RotateDone?
  }

  /** The version a rotation that has read is going to publish, or has published. */
  function Target(t: Task): nat
    requires HasRead(t)
  {
    match t
    case RotateRead(n) => n
    case RotateStored(n) => n
    case RotateDone(n) => n
  }

  lemma StepKeepsTarget(derive: nat -> Material, w: World, a: Action, id: nat)
    requires id in w.tasks && HasRead(w.tasks[id])
    ensures var v := Step(derive, w, a);
            id in v.tasks && HasRead(v.tasks[id]) && Target(v.tasks[id]) == Target(w.tasks[id])
  {
  }

  /** Once it has read, a rotation sticks to the successor of what it read. */
  lemma {:induction false} TargetIsRemembered(derive: nat -> Material, actions: seq<Action>, r: nat, n: nat, id: nat)
    requires ReadsAt(derive, actions, r, id) && r < n <= |actions|
    ensures id in Tasks(derive, actions, n) && HasRead(Tasks(derive, actions, n)[id])
    ensures Target(Tasks(derive, actions, n)[id]) == Current(derive, actions, r) + 1
    decreases n
  {
    if r + 1 < n {
      TargetIsRemembered(derive, actions, r, n - 1, id);
      StepKeepsTarget(derive, Run(derive, Boot(derive), actions, n - 1), actions[n - 1], id);
    }
  }

  lemma StepStartsReading(derive: nat -> Material, w: World, a: Action, id: nat)
    requires var v := Step(derive, w, a); id in v.tasks && HasRead(v.tasks[id])
    ensures id in w.tasks && (HasRead(w.tasks[id]) || (a == Advance(id) && w.tasks[id].RotateBegin?))
  {
  }

  /** Whoever has a version to publish has read at some earlier step. */
  lemma {:induction false} ReadBefore(derive: nat -> Material, actions: seq<Action>, n: nat, id: nat) returns (r: nat)
    requires n <= |actions| && id in Tasks(derive, actions, n) && HasRead(Tasks(derive, actions, n)[id])
    ensures r < n && ReadsAt(derive, actions, r, id)
  {
    r := 0;
    if n > 0 {
      StepStartsReading(derive, Run(derive, Boot(derive), actions, n - 1), actions[n - 1], id);
      if HasRead(Tasks(derive, actions, n - 1)[id]) {
        r := ReadBefore(derive, actions, n - 1, id);
      } else {
        r := n - 1;
      }
    }
  }

  /** Step n publishes for a rotation since whose reading, at step r, the version advanced by two or more. */
  ghost predicate Overtaken(derive: nat -> Material, actions: seq<Action>, n: nat, id: nat, r: nat) {
    && r < n < |actions|
    && ReadsAt(derive, actions, r, id) && PublishesAt(derive, actions, n, id)
    && Current(derive, actions, n) >= Current(derive, actions, r) + 2
  }

  lemma PublicationSets(derive: nat -> Material, w: World, a: Action)
    ensures var v := Step(derive, w, a);
            if a.Advance? && a.id in w.tasks && w.tasks[a.id].RotateStored?
            then v.current == w.tasks[a.id].next else v.current == w.current
  {
  }

  /** A step moves the current version back exactly if it publishes an overtaken rotation. */
  lemma GoesBackIff(derive: nat -> Material, actions: seq<Action>, n: nat)
    requires n < |actions|
    ensures Current(derive, actions, n + 1) < Current(derive, actions, n)
       <==> exists id: nat, r: nat :: Overtaken(derive, actions, n, id, r)
  {
    PublicationSets(derive, Run(derive, Boot(derive), actions, n), actions[n]);
    if Current(derive, actions, n + 1) < Current(derive, actions, n) {
      var id := actions[n].id;
      var r := ReadBefore(derive, actions, n, id);
      TargetIsRemembered(derive, actions, r, n, id);
      assert Overtaken(derive, actions, n, id, r);
    }
    if id: nat, r: nat :| Overtaken(derive, actions, n, id, r) {
      TargetIsRemembered(derive, actions, r, n, id);
    }
  }

  // ---- A whole run ----

  ghost predicate Monotone(derive: nat -> Material, actions: seq<Action>) {
    forall m, n {:trigger Current(derive, actions, m), Current(derive, actions, n)} ::
      0 <= m <= n <= |actions| ==> Current(derive, actions, m) <= Current(derive, actions, n)
  }

  lemma {:induction false} StepwiseMonotone(derive: nat -> Material, actions: seq<Action>, m: nat, n: nat)
    requires m <= n <= |actions|
    requires forall k {:trigger Current(derive, actions, k)} ::
               0 <= k < |actions| ==> Current(derive, actions, k) <= Current(derive, actions, k + 1)
    ensures Current(derive, actions, m) <= Current(derive, actions, n)
    decreases n
  {
    if m < n {
      StepwiseMonotone(derive, actions, m, n - 1);
      assert Current(derive, actions, n - 1) <= Current(derive, actions, n - 1 + 1);
    }
  }

  /** The version never goes back in a run exactly if no overtaken rotation publishes in it. */
  lemma MonotoneIff(derive: nat -> Material, actions: seq<Action>)
    ensures Monotone(derive, actions) <==> forall n: nat, id: nat, r: nat :: !Overtaken(derive, actions, n, id, r)
  {
    if Monotone(derive, actions) {
      forall n: nat, id: nat, r: nat
        ensures !Overtaken(derive, actions, n, id, r)
      {
        if n < |actions| {
          GoesBackIff(derive, actions, n);
          assert Current(derive, actions, n) <= Current(derive, actions, n + 1);
        }
      }
    }
    if forall n: nat, id: nat, r: nat :: !Overtaken(derive, actions, n, id, r) {
      forall k | 0 <= k < |actions|
        ensures Current(derive, actions, k) <= Current(derive, actions, k + 1)
      {
        GoesBackIff(derive, actions, k);
      }
      forall m, n | 0 <= m <= n <= |actions|
        ensures Current(derive, actions, m) <= Current(derive, actions, n)
      {
        StepwiseMonotone(derive, actions, m, n);
      }
    }
  }

  // ---- How many may overlap ----

  predicate InFlight(t: Task) {
    t.RotateRead? || t.RotateStored?
  }

  /** At most one rotation is between reading and publishing. */
  ghost predicate Serial(w: World) {
    forall i, j :: i in w.tasks && j in w.tasks && InFlight(w.tasks[i]) && InFlight(w.tasks[j]) ==> i == j
  }

  ghost predicate SerialRun(derive: nat -> Material, actions: seq<Action>) {
    forall n {:trigger Run(derive, Boot(derive), actions, n)} ::
      0 <= n <= |actions| ==> Serial(Run(derive, Boot(derive), actions, n))
  }

  /** A rotation in flight is about to publish the successor of the current version. */
  ghost predicate InStep(w: World) {
    forall i :: i in w.tasks && InFlight(w.tasks[i]) ==> w.tasks[i].next == w.current + 1
  }

  lemma SerialStep(derive: nat -> Material, w: World, a: Action)
    requires Serial(w) && Serial(Step(derive, w, a)) && InStep(w)
    ensures InStep(Step(derive, w, a))
    ensures w.current <= Step(derive, w, a).current <= w.current + 1
  {
  }

  lemma {:induction false} SerialInStep(derive: nat -> Material, actions: seq<Action>, n: nat)
    requires SerialRun(derive, actions) && n <= |actions|
    ensures InStep(Run(derive, Boot(derive), actions, n))
  {
    if n > 0 {
      SerialInStep(derive, actions, n - 1);
      assert Serial(Run(derive, Boot(derive), actions, n - 1)) && Serial(Run(derive, Boot(derive), actions, n));
      SerialStep(derive, Run(derive, Boot(derive), actions, n - 1), actions[n - 1]);
    }
  }

  /** If rotations never overlap, the current version never goes back and never skips. */
  lemma {:induction false} SerialRotationsAreMonotone(derive: nat -> Material, actions: seq<Action>, m: nat, n: nat)
    requires SerialRun(derive, actions) && m <= n <= |actions|
    ensures Run(derive, Boot(derive), actions, m).current <= Run(derive, Boot(derive), actions, n).current
    ensures n > 0 ==> Run(derive, Boot(derive), actions, n).current <= Run(derive, Boot(derive), actions, n - 1).current + 1
    decreases n
  {
    if n > 0 {
      SerialInStep(derive, actions, n - 1);
      assert Serial(Run(derive, Boot(derive), actions, n - 1)) && Serial(Run(derive, Boot(derive), actions, n));
      SerialStep(derive, Run(derive, Boot(derive), actions, n - 1), actions[n - 1]);
      if m < n { SerialRotationsAreMonotone(derive, actions, m, n - 1); }
    }
  }


  ghost function InFlightIds(w: World): set<nat> {
    set id | id in w.tasks && InFlight(w.tasks[id])
  }

  /** At no point of the run are more than `limit` rotations between reading and publishing. */
  ghost predicate AtMost(derive: nat -> Material, actions: seq<Action>, limit: nat) {
    forall n {:trigger Run(derive, Boot(derive), actions, n)} ::
      0 <= n <= |actions| ==> |InFlightIds(Run(derive, Boot(derive), actions, n))| <= limit
  }

  lemma AtMostOneIsSerial(w: World)
    requires |InFlightIds(w)| <= 1
    ensures Serial(w)
  {
    forall i, j | i in w.tasks && j in w.tasks && InFlight(w.tasks[i]) && InFlight(w.tasks[j])
      ensures i == j
    {
      assert {i, j} <= InFlightIds(w);
      SubsetSize({i, j}, InFlightIds(w));
    }
  }

  lemma SerialIsMonotone(derive: nat -> Material, actions: seq<Action>)
    requires AtMost(derive, actions, 1)
    ensures Monotone(derive, actions)
  {
    forall n | 0 <= n <= |actions|
      ensures Serial(Run(derive, Boot(derive), actions, n))
    {
      AtMostOneIsSerial(Run(derive, Boot(derive), actions, n));
    }
    forall m, n | 0 <= m <= n <= |actions|
      ensures Current(derive, actions, m) <= Current(derive, actions, n)
    {
      SerialRotationsAreMonotone(derive, actions, m, n);
    }
  }

  // ---- Two are too many ----

  /** Rotation 0 reads; 1 and then 2 run; rotation 0 stores and publishes. */
  const LATE: seq<Action> :=
    [StartRotate(0), Advance(0),
     StartRotate(1), Advance(1), Advance(1), Advance(1),
     StartRotate(2), Advance(2), Advance(2), Advance(2),
     Advance(0), Advance(0)]

  /** Where a rotation towards version `v` stands after `k` of its own steps. */
  function Stage(k: nat, v: nat): Task {
    if k <= 1 then RotateBegin else if k == 2 then RotateRead(v) else if k == 3 then RotateStored(v) else RotateDone(v)
  }

  ghost predicate Stands(w: World, id: nat, k: nat, v: nat) {
    if k == 0 then id !in w.tasks else id in w.tasks && w.tasks[id] == Stage(k, v)
  }

  /** The run after n steps: who has made how many of its own, and the version. */
  ghost predicate LateAt(w: World, n: nat) {
    && w.current == (if n < 6 then 1 else if n < 10 then 2 else if n < 12 then 3 else 2)
    && Stands(w, 0, if n <= 2 then n else if n <= 10 then 2 else n - 8, 2)
    && Stands(w, 1, if n <= 2 then 0 else if n <= 6 then n - 2 else 4, 2)
    && Stands(w, 2, if n <= 6 then 0 else if n <= 10 then n - 6 else 4, 3)
    && forall id :: id in w.tasks ==> id <= 2
  }

  lemma LateStep(derive: nat -> Material, w: World, n: nat)
    requires n < |LATE| && LateAt(w, n)
    ensures LateAt(Step(derive, w, LATE[n]), n + 1)
  {
    var actor := if n < 2 || n >= 10 then 0 else if n < 6 then 1 else 2;
    assert LATE[n] == if n == 0 || n == 2 || n == 6 then StartRotate(actor) else Advance(actor);
  }

  lemma {:induction false} LateRun(derive: nat -> Material, n: nat)
    requires n <= |LATE|
    ensures LateAt(Run(derive, Boot(derive), LATE, n), n)
  {
    if n > 0 {
      LateRun(derive, n - 1);
      LateStep(derive, Run(derive, Boot(derive), LATE, n - 1), n - 1);
    }
  }

  lemma LateOverlap(w: World, n: nat)
    requires n <= |LATE| && LateAt(w, n)
    ensures |InFlightIds(w)| <= 2
  {
    var two: set<nat> := {0, if n <= 6 then 1 else 2};
    assert InFlightIds(w) <= two;
    SubsetSize(InFlightIds(w), two);
  }

  /** With two rotations in flight the current version can go from 3 back to 2. */
  lemma OverlappingRotationsGoBack(derive: nat -> Material)
    ensures AtMost(derive, LATE, 2)
    ensures Current(derive, LATE, 11) == 3 && Current(derive, LATE, 12) == 2
  {
    forall n | 0 <= n <= |LATE|
      ensures |InFlightIds(Run(derive, Boot(derive), LATE, n))| <= 2
    {
      LateRun(derive, n);
      LateOverlap(Run(derive, Boot(derive), LATE, n), n);
    }
    LateRun(derive, 11);
    LateRun(derive, 12);
  }

  /** A bound on overlapping rotations makes every run monotone exactly if it allows no two at a time. */
  lemma MonotoneUnderLimitIff(derive: nat -> Material, limit: nat)
    ensures (forall actions :: AtMost(derive, actions, limit) ==> Monotone(derive, actions)) <==> limit <= 1
  {
    if limit <= 1 {
      forall actions | AtMost(derive, actions, limit)
        ensures Monotone(derive, actions)
      {
        assert AtMost(derive, actions, 1);
        SerialIsMonotone(derive, actions);
      }
    } else {
      OverlappingRotationsGoBack(derive);
      assert AtMost(derive, LATE, limit);
      assert !Monotone(derive, LATE);
    }
  }

  // ---- Which version an encryption uses ----

  /** Step n lets encryption `id` read the current version. */
  ghost predicate StartsAt(derive: nat -> Material, actions: seq<Action>, n: nat, id: nat, plain: Material) {
    n < |actions| && actions[n] == Advance(id)
    && id in Tasks(derive, actions, n) && Tasks(derive, actions, n)[id] == EncryptBegin(plain)
  }

  /** Step n lets encryption `id` issue its ciphertext. */
  ghost predicate IssuesAt(derive: nat -> Material, actions: seq<Action>, n: nat, id: nat, plain: Material, version: nat) {
    n < |actions| && actions[n] == Advance(id)
    && id in Tasks(derive, actions, n) && Tasks(derive, actions, n)[id] == EncryptRead(plain, version)
  }

  lemma StepStartsEncrypting(derive: nat -> Material, w: World, a: Action, id: nat)
    requires var v := Step(derive, w, a); id in v.tasks && v.tasks[id].EncryptRead?
    ensures var t := Step(derive, w, a).tasks[id];
            id in w.tasks && (w.tasks[id] == t
                              || (a == Advance(id) && w.tasks[id] == EncryptBegin(t.plain) && t.version == w.current))
  {
  }

  lemma {:induction false} StartedBefore(derive: nat -> Material, actions: seq<Action>, n: nat, id: nat) returns (r: nat)
    requires n <= |actions| && id in Tasks(derive, actions, n) && Tasks(derive, actions, n)[id].EncryptRead?
    ensures var t := Tasks(derive, actions, n)[id];
            r < n && StartsAt(derive, actions, r, id, t.plain) && Current(derive, actions, r) == t.version
  {
    r := 0;
    if n > 0 {
      var w, t := Run(derive, Boot(derive), actions, n - 1), Tasks(derive, actions, n)[id];
      StepStartsEncrypting(derive, w, actions[n - 1], id);
      if w.tasks[id] == t {
        r := StartedBefore(derive, actions, n - 1, id);
      } else {
        r := n - 1;
      }
    }
  }

  lemma StepIssues(derive: nat -> Material, w: World, a: Action)
    requires |Step(derive, w, a).issued| > |w.issued|
    ensures var v := Step(derive, w, a);
            && |v.issued| == |w.issued| + 1 && a.Advance? && a.id in w.tasks
            && w.tasks[a.id] == EncryptRead(v.issued[|w.issued|].plain, v.issued[|w.issued|].version)
  {
  }

  /** Every ciphertext was issued for a plaintext under a version that was current at some step after its encryption began. */
  lemma {:induction false} IssuedUnderCurrent(derive: nat -> Material, actions: seq<Action>, n: nat, k: nat)
    returns (r: nat, e: nat, id: nat)
    requires n <= |actions| && k < |Run(derive, Boot(derive), actions, n).issued|
    ensures var i := Run(derive, Boot(derive), actions, n).issued[k];
            && r < e < n && StartsAt(derive, actions, r, id, i.plain) && Current(derive, actions, r) == i.version
            && IssuesAt(derive, actions, e, id, i.plain, i.version)
  {
    r, e, id := 0, 0, 0;
    if n > 0 {
      var w := Run(derive, Boot(derive), actions, n - 1);
      StepKeepsIssued(derive, w, actions[n - 1]);
      if k < |w.issued| {
        r, e, id := IssuedUnderCurrent(derive, actions, n - 1, k);
      } else {
        StepIssues(derive, w, actions[n - 1]);
        e, id := n - 1, actions[n - 1].id;
        r := StartedBefore(derive, actions, e, id);
      }
    }
  }

  /** And it is the plaintext combined byte by byte with that version's key. */
  lemma IssuedIsMasked(derive: nat -> Material, actions: seq<Action>, n: nat, k: nat)
    requires Usable(derive) && n <= |actions| && k < |Run(derive, Boot(derive), actions, n).issued|
    ensures var i := Run(derive, Boot(derive), actions, n).issued[k];
            var key := derive(i.version);
            && key != [] && |i.cipher| == |i.plain|
            && forall j :: 0 <= j < |i.plain| ==> i.cipher[j] == i.plain[j] ^ key[j % |key|]
  {
    var w := Run(derive, Boot(derive), actions, n);
    var i := w.issued[k];
    RunKeepsInv(derive, actions, n);
    assert IssuedOk(w.keys, i);
    var key := derive(i.version);
    assert key != [];
    XorAt(i.cipher, key, |i.cipher|);
    forall j | 0 <= j < |i.plain|
      ensures i.cipher[j] == i.plain[j] ^ key[j % |key|]
    {
      XorTwice(i.cipher[j], key[j % |key|]);
    }
  }
}
