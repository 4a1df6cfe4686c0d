/**
 The provider circuit breaker over a store of one snapshot per scope.  Calls are asked for and
 outcomes are recorded in any order; an outcome may come from a call that was admitted long ago.
 */
module CircuitBreaker {
  import opened Basics

  datatype Status = CLOSED | OPEN | HALF_OPEN
  datatype CallOutcome = SUCCESS | TRANSIENT_FAILURE | PERMANENT_FAILURE

  datatype Snapshot = Snapshot(status: Status, failureCount: nat, openedAt: Option<int>, probeAt: Option<int>, updatedAt: int)

  datatype Decision = ClosedCircuit | ProbeAdmitted | ProbeInProgress | CircuitOpen
  {
    predicate Allowed() { ClosedCircuit? || ProbeAdmitted? }
  }

  datatype Setting = Setting(threshold: nat, resetAfter: nat)
  {
    predicate Valid() { 1 <= threshold <= 100 && 1 <= resetAfter <= 86_400 }
  }

  datatype Event = Ask(now: int) | Record(outcome: CallOutcome, now: int)

  function Closed(now: int): Snapshot { Snapshot(CLOSED, 0, None, None, now) }

  function Current(s: Option<Snapshot>, now: int): Snapshot { if s.Some? then s.value else Closed(now) }

  /** `before_call`. */
  function BeforeCall(p: Setting, s: Snapshot, now: int): (Decision, Snapshot) {
    match s.status
    case CLOSED => (ClosedCircuit, s)
    case HALF_OPEN => (ProbeInProgress, s)
    case OPEN =>
      if s.openedAt.Some? && now >= s.openedAt.value + p.resetAfter then
        (ProbeAdmitted, s.(status := HALF_OPEN, probeAt := Some(now), updatedAt := now))
      else (CircuitOpen, s)
  }

  /** `record_outcome`. */
  function Recorded(p: Setting, s: Snapshot, outcome: CallOutcome, now: int): Snapshot {
    match outcome
    case SUCCESS => Closed(now)
    case PERMANENT_FAILURE => s.(updatedAt := now)
    case TRANSIENT_FAILURE =>
      var failureCount := s.failureCount + 1;
      var shouldOpen := s.status == HALF_OPEN || failureCount >= p.threshold;
      Snapshot(if shouldOpen then OPEN else CLOSED, failureCount, if shouldOpen then Some(now) else None, None, now)
  }

  function Next(p: Setting, s: Option<Snapshot>, e: Event): Snapshot {
    match e
    case Ask(now) => BeforeCall(p, Current(s, now), now).1
    case Record(outcome, now) => Recorded(p, Current(s, now), outcome, now)
  }

  /** The stored snapshot after a history, which starts without one. */
  function After(p: Setting, history: seq<Event>): Option<Snapshot> {
    if history == [] then None else
      Some(Next(p, After(p, history[..|history| - 1]), history[|history| - 1]))
  }

  /** Whether this event is a call that gets through. */
  predicate Admits(p: Setting, s: Option<Snapshot>, e: Event) {
    e.Ask? && BeforeCall(p, Current(s, e.now), e.now).0.Allowed()
  }

  // --- the state as a function of the history ---

  /** Transient failures since the last success. */
  function Failures(history: seq<Event>): nat {
    if history == [] then 0 else
      var e := history[|history| - 1];
      var before := Failures(history[..|history| - 1]);
      if e.Record? && e.outcome == SUCCESS then 0
      else if e.Record? && e.outcome == TRANSIENT_FAILURE then before + 1
      else before
  }

  /** When the last transient failure was recorded. */
  function LastFailure(history: seq<Event>): Option<int> {
    if history == [] then None else
      var e := history[|history| - 1];
      if e.Record? && e.outcome == TRANSIENT_FAILURE then Some(e.now) else LastFailure(history[..|history| - 1])
  }

  /** Whether a probe was admitted after the last success or transient failure. */
  predicate Probing(p: Setting, history: seq<Event>) {
    history != [] &&
    var e := history[|history| - 1];
    var before := history[..|history| - 1];
    if e.Record? && e.outcome != PERMANENT_FAILURE then false else
      (Probing(p, before)
       || (e.Ask? && Failures(before) >= p.threshold && LastFailure(before).Some?
           && e.now >= LastFailure(before).value + p.resetAfter))
  }

  /** The count, the status and the opening time say exactly this about what happened. */
  lemma {:induction false} StateOfHistory(p: Setting, history: seq<Event>)
    requires p.Valid()
    ensures var s := Current(After(p, history), 0);
      && s.failureCount == Failures(history)
      && (s.status != CLOSED <==> Failures(history) >= p.threshold)
      && (s.status == HALF_OPEN <==> Probing(p, history))
      && s.openedAt == (if s.status == CLOSED then None else LastFailure(history))
      && (s.status != CLOSED ==> LastFailure(history).Some?)
      && (s.probeAt.Some? <==> s.status == HALF_OPEN)
  {
    if history != [] {
      StateOfHistory(p, history[..|history| - 1]);
    }
  }

  /**
     A call is admitted exactly when the failures since the last success are below the threshold,
     or the last failure is long enough ago and no probe is under way.
   */
  lemma AdmittedIff(p: Setting, history: seq<Event>, now: int)
    requires p.Valid()
    ensures Admits(p, After(p, history), Ask(now)) <==>
      || Failures(history) < p.threshold
      || (!Probing(p, history) && LastFailure(history).Some? && now >= LastFailure(history).value + p.resetAfter)
  {
    StateOfHistory(p, history);
    if After(p, history).None? {
      assert history == [];
    }
  }

  function Run(p: Setting, s: Option<Snapshot>, events: seq<Event>): Option<Snapshot>
    decreases |events|
  {
    if events == [] then s else Run(p, Some(Next(p, s, events[0])), events[1..])
  }

  function Admitted(p: Setting, s: Option<Snapshot>, events: seq<Event>): nat
    decreases |events|
  {
    if events == [] then 0
    else (if Admits(p, s, events[0]) then 1 else 0) + Admitted(p, Some(Next(p, s, events[0])), events[1..])
  }

  predicate Settles(e: Event) { e.Record? && e.outcome != PERMANENT_FAILURE }

  /**
     From a state that is not closed, calls and permanent failures alone admit at most one call:
     none in HALF_OPEN, and in OPEN only the probe.
   */
  lemma {:induction false} OneProbePerEpisode(p: Setting, s: Snapshot, events: seq<Event>)
    requires s.status != CLOSED && forall e | e in events :: !Settles(e)
    ensures Admitted(p, Some(s), events) <= if s.status == OPEN then 1 else 0
    ensures Run(p, Some(s), events).Some? && Run(p, Some(s), events).value.status != CLOSED
    ensures s.status == HALF_OPEN ==> Run(p, Some(s), events).value.status == HALF_OPEN
    decreases |events|
  {
    if events != [] {
      assert events[0] in events;
      OneProbePerEpisode(p, Next(p, Some(s), events[0]), events[1..]);
    }
  }

  /**
     A probe that ends in a permanent failure keeps the circuit half open, and then no call is
     admitted again, at any time: only a success or a transient failure lets a later call through.
   */
  lemma PermanentFailureWedges(p: Setting, s: Snapshot, failedAt: int, events: seq<Event>, now: int)
    requires s.status == HALF_OPEN && forall e | e in events :: !Settles(e)
    ensures !Admits(p, Run(p, Some(Next(p, Some(s), Record(PERMANENT_FAILURE, failedAt))), events), Ask(now))
  {
    var next := Next(p, Some(s), Record(PERMANENT_FAILURE, failedAt));
    OneProbePerEpisode(p, next, events);
  }

  /** From HALF_OPEN, some continuation admits a call after one more outcome exactly when that outcome settles the probe. */
  lemma ProbeSettledIff(p: Setting, s: Snapshot, outcome: CallOutcome, at: int)
    requires s.status == HALF_OPEN
    ensures (exists now :: Admits(p, Some(Next(p, Some(s), Record(outcome, at))), Ask(now))) <==> outcome != PERMANENT_FAILURE
  {
    if outcome == SUCCESS {
      assert Admits(p, Some(Next(p, Some(s), Record(outcome, at))), Ask(at));
    } else if outcome == TRANSIENT_FAILURE {
      assert Admits(p, Some(Next(p, Some(s), Record(outcome, at))), Ask(at + p.resetAfter));
    }
  }

  class CircuitBreakerService {
    const p: Setting
    var store: map<string, Snapshot>

    constructor (p: Setting)
      requires p.Valid()
      ensures this.p == p && store == map[]
    {
      this.p, store := p, map[];
    }

    function Load(scope: string): Option<Snapshot>
      reads this`store
    {
      if scope in store then Some(store[scope]) else None
    }

    method Ask(scope: string, now: int) returns (d: Decision)
      modifies this
      ensures d == BeforeCall(p, Current(old(Load(scope)), now), now).0
      ensures store == old(store)[scope := Next(p, old(Load(scope)), Event.Ask(now))]
      ensures d == ClosedCircuit <==> scope !in old(store) || old(store)[scope].status == CLOSED
      ensures d == ProbeInProgress <==> scope in old(store) && old(store)[scope].status == HALF_OPEN
      ensures d == ProbeAdmitted <==>
        && scope in old(store) && old(store)[scope].status == OPEN
        && old(store)[scope].openedAt.Some? && now >= old(store)[scope].openedAt.value + p.resetAfter
      ensures scope in store && store[scope] ==
        if scope !in old(store) then Snapshot(CLOSED, 0, None, None, now)
        else if d == ProbeAdmitted then Snapshot(HALF_OPEN, old(store)[scope].failureCount, old(store)[scope].openedAt, Some(now), now)
        else old(store)[scope]
    {
      var loaded := Load(scope);
      if loaded.None? {
        store := store[scope := Closed(now)];
      }
      var s := store[scope];
      assert store == old(store)[scope := s];
      if s.status == CLOSED {
        return ClosedCircuit;
      }
      if s.status == HALF_OPEN {
        return ProbeInProgress;
      }
      if s.openedAt.Some? && now >= s.openedAt.value + p.resetAfter {
        store := store[scope := s.(status := HALF_OPEN, probeAt := Some(now), updatedAt := now)];
        return ProbeAdmitted;
      }
      d := CircuitOpen;
    }

    method RecordOutcome(scope: string, outcome: CallOutcome, now: int) returns (s: Snapshot)
      modifies this
      ensures s == Next(p, old(Load(scope)), Record(outcome, now)) && store == old(store)[scope := s]
      ensures outcome == SUCCESS ==> s == Snapshot(CLOSED, 0, None, None, now)
      ensures outcome == PERMANENT_FAILURE ==>
        s == if scope in old(store) then old(store)[scope].(updatedAt := now) else Snapshot(CLOSED, 0, None, None, now)
      ensures outcome == TRANSIENT_FAILURE ==>
        var failures := 1 + if scope in old(store) then old(store)[scope].failureCount else 0;
        var reopened := scope in old(store) && old(store)[scope].status == HALF_OPEN;
        s == if reopened || failures >= p.threshold then Snapshot(OPEN, failures, Some(now), None, now)
             else Snapshot(CLOSED, failures, None, None, now)
    {
      var current := Current(Load(scope), now);
      if outcome == SUCCESS {
        s := Closed(now);
      } else if outcome == PERMANENT_FAILURE {
        s := current.(updatedAt := now);
      } else {
        var failureCount := current.failureCount + 1;
        var shouldOpen := current.status == HALF_OPEN || failureCount >= p.threshold;
        s := Snapshot(if shouldOpen then OPEN else CLOSED, failureCount, if shouldOpen then Some(now) else None, None, now);
      }
      store := store[scope := s];
    }
  }

  /** What the breaker has stored for a scope after `failures` transient failures in a row, all at one time. */
  predicate Counted(p: Setting, s: Option<Snapshot>, failures: nat, at: int) {
    var count := if s.Some? then s.value.failureCount else 0;
    && count == failures
    && (s.Some? && failures < p.threshold ==> s.value.status == CLOSED)
    && (failures >= p.threshold ==> s.Some? && s.value.status == OPEN && s.value.openedAt == Some(at))
  }

  /**
     A run from an empty store: the circuit opens after `threshold` failed calls, its probe ends in
     a permanent failure, and a call at any later time is still told that a probe is in progress.
   */
  method Wedged(p: Setting, scope: string, at: int, later: int) returns (probe: Decision, last: Decision)
    requires p.Valid()
    ensures probe == ProbeAdmitted && last == ProbeInProgress && !last.Allowed()
  {
    var service := new CircuitBreakerService(p);
    for failures := 0 to p.threshold
      invariant service.p == p && Counted(p, service.Load(scope), failures, at)
    {
      var d := service.Ask(scope, at);
      assert d == ClosedCircuit;
      var _ := service.RecordOutcome(scope, TRANSIENT_FAILURE, at);
    }
    probe := service.Ask(scope, at + p.resetAfter);
    var _ := service.RecordOutcome(scope, PERMANENT_FAILURE, at + p.resetAfter);
    last := service.Ask(scope, later);
  }
}
