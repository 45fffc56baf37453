/**
  The per-engine circuit breaker: a timed state machine, its in-place
  implementation, and bounds that hold of every trace of calls and outcomes.
  Time is a natural number read from a monotone clock.
*/
module CircuitBreaker {
  import opened Wrappers

  datatype BreakerState = Closed | Open | HalfOpen

  datatype Config = Config(failureThreshold: nat, cooldown: nat, timeout: nat)

  datatype Snapshot = Snapshot(state: BreakerState, failures: nat, lastFailure: Option<nat>)

  const FRESH := Snapshot(Closed, 0, None)

  // ---- Transitions ----

  predicate Admits(c: Config, s: Snapshot, now: nat) {
    match s.state
    case Closed => true
    case HalfOpen => true
    case Open => s.lastFailure.Some? && now >= s.lastFailure.value + c.cooldown
  }

  function AfterCall(c: Config, s: Snapshot, now: nat): Snapshot {
    match s.state
    case Closed => s
    case HalfOpen => s.(state := Open, lastFailure := Some(now))
    case Open => if Admits(c, s, now) then s.(state := HalfOpen) else s
  }

  function AfterSuccess(s: Snapshot): Snapshot {
    s.(failures := 0, state := Closed)
  }

  function AfterFailure(c: Config, s: Snapshot, now: nat): Snapshot {
    var n := s.failures + 1;
    Snapshot(if n >= c.failureThreshold then Open else s.state, n, Some(now))
  }

  datatype Event = Call(at: nat) | Success(at: nat) | Failure(at: nat)

  function Step(c: Config, s: Snapshot, e: Event): Snapshot {
    match e
    case Call(now) => AfterCall(c, s, now)
    case Success(_) => AfterSuccess(s)
    case Failure(now) => AfterFailure(c, s, now)
  }

  /** The state after the first `n` events. */
  function Run(c: Config, s: Snapshot, events: seq<Event>, n: nat): Snapshot
    requires n <= |events|
  {
    if n == 0 then s else Step(c, Run(c, s, events, n - 1), events[n - 1])
  }

  /** The times of the calls admitted among the first `n` events. */
  function Admitted(c: Config, s: Snapshot, events: seq<Event>, n: nat): seq<nat>
    requires n <= |events|
  {
    if n == 0 then []
    else
      var before := Admitted(c, s, events, n - 1);
      var e := events[n - 1];
      if e.Call? && Admits(c, Run(c, s, events, n - 1), e.at) then before + [e.at] else before
  }

  // ---- The breaker itself ----

  class Breaker {
    const failureThreshold: nat
    const cooldown: nat
    const timeout: nat
    var state: BreakerState
    var consecutiveFailures: nat
    var lastFailure: Option<nat>

    function Settings(): Config {
      Config(failureThreshold, cooldown, timeout)
    }

    function View(): Snapshot
      reads this
    {
      Snapshot(state, consecutiveFailures, lastFailure)
    }

    constructor (failureThreshold: nat, cooldown: nat, timeout: nat)
      ensures View() == FRESH && Settings() == Config(failureThreshold, cooldown, timeout)
    {
      this.failureThreshold, this.cooldown, this.timeout := failureThreshold, cooldown, timeout;
      state, consecutiveFailures, lastFailure := Closed, 0, None;
    }

    /** The timeout for an admitted call, or nothing when the circuit is open. */
    method Allow(now: nat) returns (r: Option<nat>)
      modifies this
      ensures r == if Admits(Settings(), old(View()), now) then Some(timeout) else None
      ensures View() == Step(Settings(), old(View()), Call(now))
    {
      match state {
        case Closed =>
          r := Some(timeout);
        case HalfOpen =>
          state := Open;
          lastFailure := Some(now);
          r := Some(timeout);
        case Open =>
          if lastFailure.Some? {
            if now >= lastFailure.value + cooldown {
              state := HalfOpen;
              return Some(timeout);
            }
          }
          r := None;
      }
    }

    method RecordSuccess(ghost now: nat)
      modifies this
      ensures View() == Step(Settings(), old(View()), Success(now))
    {
      consecutiveFailures := 0;
      state := Closed;
    }

    method RecordFailure(now: nat)
      modifies this
      ensures View() == Step(Settings(), old(View()), Failure(now))
    {
      consecutiveFailures := consecutiveFailures + 1;
      lastFailure := Some(now);
      if consecutiveFailures >= failureThreshold {
        state := Open;
      }
    }
  }

  // ---- What holds in every reachable state ----

  /** A tripped breaker has its failures and the time of the last one on record. */
  ghost predicate Consistent(c: Config, s: Snapshot) {
    s.state != Closed ==> s.failures >= c.failureThreshold && s.lastFailure.Some?
  }

  ghost predicate ClosedIffBelow(c: Config, s: Snapshot) {
    s.state == Closed <==> s.failures < c.failureThreshold
  }

  lemma {:induction false} RunConsistent(c: Config, s: Snapshot, events: seq<Event>, n: nat)
    requires Consistent(c, s) && n <= |events|
    ensures Consistent(c, Run(c, s, events, n))
  {
    if n > 0 { RunConsistent(c, s, events, n - 1); }
  }

  lemma {:induction false} RunClosedIffBelow(c: Config, s: Snapshot, events: seq<Event>, n: nat)
    requires c.failureThreshold >= 1 && ClosedIffBelow(c, s) && n <= |events|
    ensures ClosedIffBelow(c, Run(c, s, events, n))
  {
    if n > 0 { RunClosedIffBelow(c, s, events, n - 1); }
  }

  /** "Closed" and "fewer failures than the threshold" are the same in every run, exactly for positive thresholds. */
  lemma ClosedMeansBelowThreshold(c: Config)
    ensures c.failureThreshold >= 1
       <==> forall events, n :: 0 <= n <= |events| ==> ClosedIffBelow(c, Run(c, FRESH, events, n))
  {
    if c.failureThreshold >= 1 {
      forall events, n | 0 <= n <= |events|
        ensures ClosedIffBelow(c, Run(c, FRESH, events, n))
      {
        RunClosedIffBelow(c, FRESH, events, n);
      }
    } else {
      assert Run(c, FRESH, [], 0) == FRESH;
    }
  }

  /** In any run from fresh, a call is turned away exactly while the cooldown of the last failure still runs. */
  lemma {:induction false} RejectedExactlyDuringCooldown(c: Config, events: seq<Event>, n: nat, now: nat)
    requires n <= |events|
    ensures var s := Run(c, FRESH, events, n);
            && (s.state == Open ==> s.lastFailure.Some?)
            && (!Admits(c, s, now) <==> s.state == Open && now < s.lastFailure.value + c.cooldown)
  {
    RunConsistent(c, FRESH, events, n);
  }

  // ---- The state read off the events ----

  /** Failures since the last success among the first `n` events. */
  function FailuresSince(events: seq<Event>, n: nat): nat
    requires n <= |events|
  {
    if n == 0 then 0
    else
      match events[n - 1]
      case Success(_) => 0
      case Failure(_) => FailuresSince(events, n - 1) + 1
      case Call(_) => FailuresSince(events, n - 1)
  }

  /** In a run from fresh the breaker is closed exactly while the failures since the last success are below the threshold. */
  lemma {:induction false} ClosedByEvents(c: Config, events: seq<Event>, n: nat)
    requires c.failureThreshold >= 1 && n <= |events|
    ensures var s := Run(c, FRESH, events, n);
            && s.failures == FailuresSince(events, n)
            && (s.state == Closed <==> FailuresSince(events, n) < c.failureThreshold)
  {
    if n > 0 { ClosedByEvents(c, events, n - 1); }
  }

  /** Below the threshold every call is admitted, so in particular right after a success, and calls leave it closed. */
  lemma {:induction false} ClosedAdmits(c: Config, events: seq<Event>, m: nat, n: nat, now: nat)
    requires c.failureThreshold >= 1 && m <= n <= |events|
    requires m > 0 ==> events[m - 1].Success?
    requires forall k :: m <= k < n ==> events[k].Call?
    ensures Run(c, FRESH, events, n).state == Closed && Admits(c, Run(c, FRESH, events, n), now)
    decreases n
  {
    ClosedByEvents(c, events, n);
    if m < n {
      ClosedAdmits(c, events, m, n - 1, now);
      ClosedByEvents(c, events, n - 1);
    }
  }

  /** The failure that reaches the threshold keeps calls out for exactly a cooldown from its own time. */
  lemma TrippedByEvents(c: Config, events: seq<Event>, n: nat, now: nat)
    requires 0 < n <= |events| && events[n - 1].Failure? && FailuresSince(events, n) >= c.failureThreshold >= 1
    ensures Admits(c, Run(c, FRESH, events, n), now) <==> now >= events[n - 1].at + c.cooldown
  {
    ClosedByEvents(c, events, n);
    ClosedByEvents(c, events, n - 1);
  }

  /** After a cooldown two calls get through, the second at any time, and then none for a cooldown from the second. */
  lemma ProbesComeInPairs(c: Config, events: seq<Event>, n: nat, first: nat, second: nat, third: nat)
    requires n <= |events| && Run(c, FRESH, events, n).state == Open
    requires Admits(c, Run(c, FRESH, events, n), first)
    ensures var once := Step(c, Run(c, FRESH, events, n), Call(first));
            var twice := Step(c, once, Call(second));
            && Admits(c, once, second)
            && (Admits(c, twice, third) <==> third >= second + c.cooldown)
            && once.failures == twice.failures == Run(c, FRESH, events, n).failures
  {
  }

  // ---- How fast a tripped breaker lets calls through ----

  ghost predicate Monotone(events: seq<Event>) {
    forall i, j :: 0 <= i < j < |events| ==> events[i].at <= events[j].at
  }

  ghost predicate SuccessFree(events: seq<Event>) {
    forall i :: 0 <= i < |events| ==> !events[i].Success?
  }

  /** Admissions two apart are a cooldown apart. */
  ghost predicate Paced(a: seq<nat>, cooldown: nat) {
    forall i, j {:trigger a[i], a[j]} :: 0 <= i < |a| && 0 <= j < |a| && j == i + 2 ==> a[j] >= a[i] + cooldown
  }

  ghost predicate Ordered(a: seq<nat>) {
    forall i, j :: 0 <= i < j < |a| ==> a[i] <= a[j]
  }

  /** What ties the state at time `now` to the admissions so far. */
  ghost predicate Tripped(c: Config, s: Snapshot, a: seq<nat>, now: nat) {
    && s.state != Closed && Consistent(c, s)
    && (a != [] ==> a[|a| - 1] <= now)
    && (s.state == Open && a != [] ==> s.lastFailure.value >= a[|a| - 1])
    && (s.state == HalfOpen && |a| >= 2 ==> a[|a| - 1] >= a[|a| - 2] + c.cooldown)
    && Ordered(a) && Paced(a, c.cooldown)
  }

  lemma AdmissionPaced(a: seq<nat>, t: nat, cooldown: nat)
    requires Paced(a, cooldown) && Ordered(a)
    requires a != [] ==> a[|a| - 1] <= t
    requires |a| >= 2 ==> t >= a[|a| - 2] + cooldown
    ensures Paced(a + [t], cooldown) && Ordered(a + [t])
  {
  }

  lemma StepTripped(c: Config, s: Snapshot, a: seq<nat>, now: nat, e: Event)
    requires Tripped(c, s, a, now) && now <= e.at && !e.Success?
    ensures Tripped(c, Step(c, s, e), if e.Call? && Admits(c, s, e.at) then a + [e.at] else a, e.at)
  {
    if e.Call? && Admits(c, s, e.at) {
      assert |a| >= 2 ==> a[|a| - 2] <= a[|a| - 1];
      AdmissionPaced(a, e.at, c.cooldown);
    }
  }

  function Clock(events: seq<Event>, n: nat): nat
    requires n <= |events|
  {
    if n == 0 then 0 else events[n - 1].at
  }

  lemma {:induction false} StretchTripped(c: Config, s: Snapshot, events: seq<Event>, n: nat)
    requires s.state != Closed && Consistent(c, s)
    requires Monotone(events) && SuccessFree(events) && n <= |events|
    ensures Tripped(c, Run(c, s, events, n), Admitted(c, s, events, n), Clock(events, n))
  {
    if n > 0 {
      StretchTripped(c, s, events, n - 1);
      StepTripped(c, Run(c, s, events, n - 1), Admitted(c, s, events, n - 1), Clock(events, n - 1), events[n - 1]);
    }
  }

  lemma {:induction false} PacedSpan(a: seq<nat>, cooldown: nat, n: nat)
    requires Paced(a, cooldown) && Ordered(a) && 0 < n <= |a|
    ensures a[n - 1] >= a[0] + (n - 1) / 2 * cooldown
  {
    if n >= 3 {
      PacedSpan(a, cooldown, n - 2);
      assert (n - 1) / 2 == (n - 3) / 2 + 1;
      assert a[n - 1] >= a[n - 3] + cooldown;
      assert (n - 1) / 2 * cooldown == (n - 3) / 2 * cooldown + cooldown;
    } else {
      assert (n - 1) / 2 == 0;
    }
  }

  /**
    However a run got there: while a tripped breaker sees no success, its first
    `k` admitted calls take at least `(k - 1) / 2` cooldowns.
  */
  lemma TwoCallsPerCooldown(c: Config, history: seq<Event>, events: seq<Event>, k: nat)
    requires Run(c, FRESH, history, |history|).state != Closed
    requires Monotone(events) && SuccessFree(events)
    ensures var a := Admitted(c, Run(c, FRESH, history, |history|), events, |events|);
            0 < k <= |a| ==> a[k - 1] >= a[0] + (k - 1) / 2 * c.cooldown
  {
    var s := Run(c, FRESH, history, |history|);
    RunConsistent(c, FRESH, history, |history|);
    StretchTripped(c, s, events, |events|);
    var a := Admitted(c, s, events, |events|);
    if 0 < k <= |a| { PacedSpan(a, c.cooldown, k); }
  }

  // ---- The bound is attained ----

  /** When calls come in pairs at the end of each cooldown, the failure time on record after `n` calls. */
  function Reopened(last: nat, cooldown: nat, n: nat): nat {
    if n < 2 then last else Reopened(last, cooldown, n - 2) + cooldown
  }

  lemma {:induction false} ReopenedNext(last: nat, cooldown: nat, n: nat)
    ensures Reopened(last, cooldown, n + 1) == Reopened(last, cooldown, n) + if n % 2 == 0 then 0 else cooldown
    ensures Reopened(last, cooldown, n) == last + n / 2 * cooldown
  {
    if n >= 2 {
      ReopenedNext(last, cooldown, n - 2);
      var k := (n - 2) / 2;
      assert n / 2 == k + 1;
      assert (k + 1) * cooldown == k * cooldown + cooldown;
    } else {
      assert n / 2 == 0;
    }
  }

  function PairTime(last: nat, cooldown: nat, j: nat): nat {
    Reopened(last, cooldown, j) + cooldown
  }

  function Pairs(last: nat, cooldown: nat, n: nat): seq<Event> {
    if n == 0 then [] else Pairs(last, cooldown, n - 1) + [Call(PairTime(last, cooldown, n - 1))]
  }

  lemma {:induction false} PairsAt(last: nat, cooldown: nat, n: nat)
    ensures |Pairs(last, cooldown, n)| == n
    ensures forall j :: 0 <= j < n ==> Pairs(last, cooldown, n)[j] == Call(PairTime(last, cooldown, j))
  {
    if n > 0 { PairsAt(last, cooldown, n - 1); }
  }

  /** Every call of the pairs is admitted: the second of a pair re-opens the circuit. */
  lemma {:induction false} PairsAdmitted(c: Config, s: Snapshot, events: seq<Event>, n: nat)
    requires s.state == Open && s.lastFailure.Some? && n <= |events|
    requires forall j :: 0 <= j < |events| ==> events[j] == Call(PairTime(s.lastFailure.value, c.cooldown, j))
    ensures |Admitted(c, s, events, n)| == n
    ensures forall j :: 0 <= j < n ==> Admitted(c, s, events, n)[j] == PairTime(s.lastFailure.value, c.cooldown, j)
    ensures Run(c, s, events, n) == s.(state := if n % 2 == 0 then Open else HalfOpen,
                                       lastFailure := Some(Reopened(s.lastFailure.value, c.cooldown, n)))
  {
    if n > 0 {
      PairsAdmitted(c, s, events, n - 1);
      ReopenedNext(s.lastFailure.value, c.cooldown, n - 1);
      assert events[n - 1] == Call(PairTime(s.lastFailure.value, c.cooldown, n - 1));
    }
  }

  lemma {:induction false} PairTimesGrow(last: nat, cooldown: nat, i: nat, j: nat)
    requires i <= j
    ensures PairTime(last, cooldown, i) <= PairTime(last, cooldown, j)
    decreases j
  {
    if i < j {
      PairTimesGrow(last, cooldown, i, j - 1);
      ReopenedNext(last, cooldown, j - 1);
    }
  }

  /** For every `k` some success-free stretch admits `k` calls in exactly `(k - 1) / 2` cooldowns. */
  lemma TwoCallsPerCooldownIsTight(c: Config, s: Snapshot, k: nat) returns (events: seq<Event>)
    requires s.state == Open && s.lastFailure.Some? && k > 0
    ensures SuccessFree(events) && Monotone(events)
    ensures var a := Admitted(c, s, events, |events|);
            |a| == k && a[k - 1] == a[0] + (k - 1) / 2 * c.cooldown
  {
    var last := s.lastFailure.value;
    events := Pairs(last, c.cooldown, k);
    PairsAt(last, c.cooldown, k);
    PairsAdmitted(c, s, events, k);
    forall i, j | 0 <= i < j < k
      ensures events[i].at <= events[j].at
    {
      PairTimesGrow(last, c.cooldown, i, j);
    }
    ReopenedNext(last, c.cooldown, k - 1);
  }
}
