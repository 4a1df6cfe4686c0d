/**
 The life cycle and the budget of a provider synchronisation run: the transition map in Python
 and the one in the database trigger, the two budget stores, and the pause, resume and cancel
 controls, in any order and any number.
 */
module SyncBudget {
  import opened Basics

  datatype Status = PLANNED | QUEUED | RUNNING | PAUSED | COMPLETED | PARTIAL | BLOCKED | FAILED | CANCELLED
  {
    predicate IsTerminal() { this in {COMPLETED, PARTIAL, BLOCKED, FAILED, CANCELLED} }
  }

  datatype Error = NotFound | ContextImmutable | Terminal | TransitionForbidden | NotStarted | OutOfRange | ValueOutOfBounds
  datatype Result<+T> = Ok(value: T) | Raised(error: Error)

  // --- the transition maps ---

  function Allowed(s: Status): set<Status> {
    match s
    case PLANNED => {QUEUED, BLOCKED, CANCELLED}
    case QUEUED => {RUNNING, BLOCKED, CANCELLED}
    case RUNNING => {PAUSED, COMPLETED, PARTIAL, BLOCKED, FAILED, CANCELLED}
    case PAUSED => {QUEUED, RUNNING, BLOCKED, CANCELLED}
    case _ => {}
  }

  /** `ProviderRunStateMachine.transition`. */
  function Transition(current: Status, target: Status): Option<Error> {
    if current.IsTerminal() then Some(Terminal)
    else if target == current then None
    else if target !in Allowed(current) then Some(TransitionForbidden)
    else None
  }

  /** The trigger on the table of runs. */
  predicate TriggerAccepts(before: Status, after: Status) {
    !before.IsTerminal()
    && (before != after ==>
          || (before == PLANNED && (after == QUEUED || after == BLOCKED || after == CANCELLED))
          || (before == QUEUED && (after == RUNNING || after == BLOCKED || after == CANCELLED))
          || (before == RUNNING &&
                (after == PAUSED || after == COMPLETED || after == PARTIAL || after == BLOCKED || after == FAILED || after == CANCELLED))
          || (before == PAUSED && (after == QUEUED || after == RUNNING || after == BLOCKED || after == CANCELLED)))
  }

  lemma MapsAgree(current: Status, target: Status)
    ensures Transition(current, target) == None <==> TriggerAccepts(current, target)
  {
    match current {
      case PLANNED => case QUEUED => case RUNNING => case PAUSED => case _ =>
    }
  }

  // --- the budget ---

  datatype Budget = Budget(maxRequests: nat, maxBytes: nat, maxAttempts: nat, maxDuration: nat)
  {
    predicate Valid() {
      1 <= maxRequests <= 10_000 && 1 <= maxBytes <= 10_737_418_240 && 1 <= maxAttempts <= 3 && 1 <= maxDuration <= 86_400
    }
  }

  datatype Consumed = Consumed(requests: nat, bytes: nat, attempts: nat)

  datatype Reason = Reserved | DurationExhausted | BudgetExhausted | RunNotRunning
  datatype Reservation = Reservation(allowed: bool, reason: Reason, consumed: Consumed)

  predicate Within(c: Consumed, b: Budget) {
    c.requests <= b.maxRequests && c.bytes <= b.maxBytes && c.attempts <= b.maxAttempts
  }

  function Plus(c: Consumed, bytes: nat): Consumed { Consumed(c.requests + 1, c.bytes + bytes, c.attempts + 1) }

  /** `_reserve_budget`: time first, then the three maxima, each of which may be used up exactly. */
  function ReserveBudget(b: Budget, startedAt: int, c: Consumed, bytes: nat, now: int): (r: (Reservation, Consumed))
    ensures r.0.allowed <==>
      && now - startedAt < b.maxDuration
      && c.requests + 1 <= b.maxRequests && c.bytes + bytes <= b.maxBytes && c.attempts + 1 <= b.maxAttempts
    ensures r.1 == r.0.consumed == if r.0.allowed then Consumed(c.requests + 1, c.bytes + bytes, c.attempts + 1) else c
    ensures r.0.allowed <==> r.0.reason == Reserved
    ensures r.0.reason == DurationExhausted <==> now - startedAt >= b.maxDuration
    ensures r.0.reason != RunNotRunning
  {
    if now - startedAt >= b.maxDuration then (Reservation(false, DurationExhausted, c), c)
    else if c.requests + 1 > b.maxRequests || c.bytes + bytes > b.maxBytes || c.attempts + 1 > b.maxAttempts then
      (Reservation(false, BudgetExhausted, c), c)
    else
      var updated := c.(requests := c.requests + 1, bytes := c.bytes + bytes, attempts := c.attempts + 1);
      (Reservation(true, Reserved, updated), updated)
  }

  /** A row of the table of runs, with the budget of its request. */
  datatype Run = Run(
    context: int,             // request, plan, provider and capability
    status: Status,
    consumed: Consumed,
    startedAt: Option<int>,
    pausedAt: Option<int>,
    completedAt: Option<int>,
    lease: Option<int>)

  const MAX_INTEGER := 0x7FFF_FFFF   // the counters are 32-bit columns

  /** The check on the terminal time, and the width of the counters. */
  predicate RowOk(r: Run) {
    && (r.completedAt.Some? <==> r.status.IsTerminal())
    && r.consumed.requests <= MAX_INTEGER && r.consumed.bytes <= MAX_INTEGER && r.consumed.attempts <= MAX_INTEGER
  }

  /** What may happen to a run; `Advance` is any other caller of the repository's `transition`, with the counters it gives. */
  datatype Action =
    | ReserveBytes(bytes: nat, now: int)
    | Pause(context: int, now: int)
    | Resume(context: int, now: int)
    | Cancel(context: int, now: int)
    | Advance(target: Status, consumed: Consumed, startedAt: Option<int>, completedAt: Option<int>)

  /** The row that a control writes. */
  function Changed(r: Run, target: Status, now: int): Run {
    r.(status := target,
       pausedAt := if target == PAUSED then Some(now) else None,
       completedAt := if target == CANCELLED then Some(now) else r.completedAt,
       lease := if target == PAUSED then None else r.lease)
  }

  function Controlled(r: Run, context: int, target: Status, now: int): Result<Run> {
    if r.context != context then Raised(ContextImmutable)
    else if Transition(r.status, target).Some? then Raised(Transition(r.status, target).value)
    else Ok(Changed(r, target, now))
  }

  /** What a control does, field by field, and when it is refused. */
  lemma ControlIs(r: Run, context: int, target: Status, now: int)
    requires target in {PAUSED, RUNNING, CANCELLED}
    ensures var x := Controlled(r, context, target, now);
      && (x == Raised(ContextImmutable) <==> r.context != context)
      && (x == Raised(Terminal) <==> r.context == context && r.status in {COMPLETED, PARTIAL, BLOCKED, FAILED, CANCELLED})
      && (x.Ok? <==>
            && r.context == context
            && if target == PAUSED then r.status in {RUNNING, PAUSED}
               else if target == RUNNING then r.status in {QUEUED, RUNNING, PAUSED}
               else r.status in {PLANNED, QUEUED, RUNNING, PAUSED})
      && (x.Raised? ==> x.error in {ContextImmutable, Terminal, TransitionForbidden})
      && (x.Ok? ==> x.value == Run(
            r.context, target, r.consumed, r.startedAt,
            if target == PAUSED then Some(now) else None,
            if target == CANCELLED then Some(now) else r.completedAt,
            if target == PAUSED then None else r.lease))
  {
    match r.status {
      case PLANNED => case QUEUED => case RUNNING => case PAUSED => case _ =>
    }
  }

  /** The store's `reserve`: the reservation and the row afterwards, or the error. */
  function ReserveIn(b: Budget, r: Run, bytes: nat, now: int): Result<(Reservation, Run)> {
    if r.status != RUNNING then Ok((Reservation(false, RunNotRunning, r.consumed), r))
    else if r.startedAt.None? then Raised(NotStarted)
    else
      var (reservation, updated) := ReserveBudget(b, r.startedAt.value, r.consumed, bytes, now);
      var after := r.(consumed := updated);
      if !RowOk(after) then Raised(OutOfRange) else Ok((reservation, after))
  }

  function Advanced(r: Run, a: Action): Run
    requires a.Advance?
  {
    r.(status := a.target, consumed := a.consumed, startedAt := a.startedAt, completedAt := a.completedAt)
  }

  function Step(b: Budget, r: Run, a: Action): Run {
    match a
    case ReserveBytes(bytes, now) =>
      var x := ReserveIn(b, r, bytes, now);
      if x.Ok? then x.value.1 else r
    case Pause(context, now) => Or(Controlled(r, context, PAUSED, now), r)
    case Resume(context, now) => Or(Controlled(r, context, RUNNING, now), r)
    case Cancel(context, now) => Or(Controlled(r, context, CANCELLED, now), r)
    case Advance(target, _, _, _) =>
      if Transition(r.status, target).None? && RowOk(Advanced(r, a)) then Advanced(r, a) else r
  }

  function Or(x: Result<Run>, r: Run): Run { if x.Ok? then x.value else r }

  /** The bytes that this action is granted, or nothing. */
  function Granted(b: Budget, r: Run, a: Action): Option<nat> {
    match a
    case ReserveBytes(bytes, now) =>
      var x := ReserveIn(b, r, bytes, now);
      if x.Ok? && x.value.0.allowed then Some(bytes) else None
    case _ => None
  }

  function AfterAll(b: Budget, r: Run, run: seq<Action>): Run
    decreases |run|
  {
    if run == [] then r else AfterAll(b, Step(b, r, run[0]), run[1..])
  }

  /** The grants of a run, in order. */
  function Grants(b: Budget, r: Run, run: seq<Action>): seq<nat>
    decreases |run|
  {
    if run == [] then [] else
      var g := Granted(b, r, run[0]);
      (if g.Some? then [g.value] else []) + Grants(b, Step(b, r, run[0]), run[1..])
  }

  function Sum(s: seq<nat>): nat { if s == [] then 0 else s[0] + Sum(s[1..]) }

  /** A caller of `transition` that is let through passes on the counters it read. */
  predicate PassesOn(r: Run, a: Action) {
    a.Advance? && Transition(r.status, a.target).None? && RowOk(Advanced(r, a)) ==> a.consumed == r.consumed
  }

  predicate AllPassOn(b: Budget, r: Run, run: seq<Action>)
    decreases |run|
  {
    run == [] || (PassesOn(r, run[0]) && AllPassOn(b, Step(b, r, run[0]), run[1..]))
  }

  /** The same of callers that leave the run open; one that ends it may write any counters. */
  predicate PassesOnWhileOpen(r: Run, a: Action) {
    a.Advance? && Transition(r.status, a.target).None? && !a.target.IsTerminal() ==> a.consumed == r.consumed || !RowOk(Advanced(r, a))
  }

  predicate AllPassOnWhileOpen(b: Budget, r: Run, run: seq<Action>)
    decreases |run|
  {
    run == [] || (PassesOnWhileOpen(r, run[0]) && AllPassOnWhileOpen(b, Step(b, r, run[0]), run[1..]))
  }

  /** Pause, resume and cancel in a run: the status they lead to, or none when they are refused. */
  lemma ActionsAre(b: Budget, r: Run, context: int, now: int)
    ensures Step(b, r, Pause(context, now)).status ==
      if r.context == context && r.status in {RUNNING, PAUSED} then PAUSED else r.status
    ensures Step(b, r, Resume(context, now)).status ==
      if r.context == context && r.status in {QUEUED, RUNNING, PAUSED} then RUNNING else r.status
    ensures Step(b, r, Cancel(context, now)).status ==
      if r.context == context && r.status in {PLANNED, QUEUED, RUNNING, PAUSED} then CANCELLED else r.status
  {
    ControlIs(r, context, PAUSED, now);
    ControlIs(r, context, RUNNING, now);
    ControlIs(r, context, CANCELLED, now);
    hide Controlled;
  }

  lemma {:induction false} StepKeeps(b: Budget, r: Run, a: Action)
    requires RowOk(r)
    ensures RowOk(Step(b, r, a))
    ensures r.status.IsTerminal() ==> Step(b, r, a) == r
    ensures Step(b, r, a).context == r.context
    ensures PassesOn(r, a) || (PassesOnWhileOpen(r, a) && !Step(b, r, a).status.IsTerminal()) ==>
      Step(b, r, a).consumed == if Granted(b, r, a).Some? then Plus(r.consumed, Granted(b, r, a).value) else r.consumed
    ensures Granted(b, r, a).Some? ==>
      r.status == RUNNING && r.startedAt.Some? && Within(Step(b, r, a).consumed, b) && Step(b, r, a).consumed == Plus(r.consumed, Granted(b, r, a).value)
  {
  }

  /** The reservation of a store written out: what it answers and the row that it leaves. */
  lemma ReserveIs(b: Budget, r: Run, bytes: nat, now: int)
    requires RowOk(r)
    ensures var x := ReserveIn(b, r, bytes, now);
      && (x == Raised(NotStarted) <==> r.status == RUNNING && r.startedAt.None?)
      && (r.status != RUNNING ==> x == Ok((Reservation(false, RunNotRunning, r.consumed), r)))
      && (r.status == RUNNING && r.startedAt.Some? ==>
            var c := Consumed(r.consumed.requests + 1, r.consumed.bytes + bytes, r.consumed.attempts + 1);
            if now - r.startedAt.value >= b.maxDuration then x == Ok((Reservation(false, DurationExhausted, r.consumed), r))
            else if c.requests > b.maxRequests || c.bytes > b.maxBytes || c.attempts > b.maxAttempts then
              x == Ok((Reservation(false, BudgetExhausted, r.consumed), r))
            else if c.requests > 0x7FFF_FFFF || c.bytes > 0x7FFF_FFFF || c.attempts > 0x7FFF_FFFF then x == Raised(OutOfRange)
            else x == Ok((Reservation(true, Reserved, c), r.(consumed := c))))
  {
  }

  /** The start values plus the granted reservations, one request and one attempt each. */
  function Total(c: Consumed, grants: seq<nat>): Consumed {
    Consumed(c.requests + |grants|, c.bytes + Sum(grants), c.attempts + |grants|)
  }

  /** What is consumed is what was consumed at the start plus what has been granted. */
  predicate Conserved(b: Budget, r: Run, run: seq<Action>) {
    AfterAll(b, r, run).consumed == Total(r.consumed, Grants(b, r, run))
  }

  lemma GrantFirst(b: Budget, r: Run, run: seq<Action>)
    requires run != []
    ensures var next, g := Step(b, r, run[0]), Granted(b, r, run[0]);
      && AfterAll(b, r, run) == AfterAll(b, next, run[1..])
      && Total(r.consumed, Grants(b, r, run)) ==
           Total(if g.Some? then Plus(r.consumed, g.value) else r.consumed, Grants(b, next, run[1..]))
  {
    var g := Granted(b, r, run[0]);
    if g.Some? {
      assert Grants(b, r, run)[1..] == Grants(b, Step(b, r, run[0]), run[1..]);
    } else {
      assert Grants(b, r, run) == Grants(b, Step(b, r, run[0]), run[1..]);
    }
  }

  /**
     Conservation: over any interleaving of reservations with pause, resume, cancel and other
     transitions whose callers pass on what they read, what is consumed at the end, also of a run
     that is over, is the start plus every granted reservation, and within the maxima.
   */
  lemma {:induction false} Conservation(b: Budget, r: Run, run: seq<Action>)
    requires RowOk(r) && AllPassOn(b, r, run)
    ensures Conserved(b, r, run) && RowOk(AfterAll(b, r, run)) && AfterAll(b, r, run).context == r.context
    ensures Within(r.consumed, b) ==> Within(AfterAll(b, r, run).consumed, b)
    decreases |run|
  {
    if run != [] {
      var next := Step(b, r, run[0]);
      StepKeeps(b, r, run[0]);
      GrantFirst(b, r, run);
      StepConserves(b, r, run[0]);
      Conservation(b, next, run[1..]);
    }
  }

  /** One step keeps the balance exactly when it passes on what it read. */
  lemma StepConserves(b: Budget, r: Run, a: Action)
    requires RowOk(r)
    ensures (Step(b, r, a).consumed == if Granted(b, r, a).Some? then Plus(r.consumed, Granted(b, r, a).value) else r.consumed)
            <==> PassesOn(r, a)
    ensures a.ReserveBytes? && Within(r.consumed, b) ==> Within(Step(b, r, a).consumed, b)
  {
  }

  /** The exact condition: the books balance after every prefix of a run exactly when all transitions pass on. */
  lemma {:induction false} ConservedIff(b: Budget, r: Run, run: seq<Action>)
    requires RowOk(r)
    ensures (forall k | 0 <= k <= |run| :: Conserved(b, r, run[..k])) <==> AllPassOn(b, r, run)
    decreases |run|
  {
    if run != [] {
      var next := Step(b, r, run[0]);
      StepKeeps(b, r, run[0]);
      StepConserves(b, r, run[0]);
      assert run[..1][0] == run[0] && run[..1][1..] == [];
      GrantFirst(b, r, run[..1]);
      assert Conserved(b, r, run[..1]) <==> PassesOn(r, run[0]);
      ConservedIff(b, next, run[1..]);
      if PassesOn(r, run[0]) {
        forall k | 1 <= k <= |run|
          ensures Conserved(b, r, run[..k]) <==> Conserved(b, next, run[1..][..k - 1])
        {
          assert run[..k][1..] == run[1..][..k - 1] && run[..k][0] == run[0];
          GrantFirst(b, r, run[..k]);
        }
        assert forall j | 0 <= j <= |run| - 1 :: Conserved(b, next, run[1..][..j]) <==> Conserved(b, r, run[..j + 1]);
        assert run[..0] == [] && Conserved(b, r, []);
      }
    } else {
      assert run[..0] == [];
    }
  }

  /** Where only callers that end a run may forget its counters, the balance holds until then. */
  lemma {:induction false} ConservedWhileOpen(b: Budget, r: Run, run: seq<Action>)
    requires RowOk(r) && AllPassOnWhileOpen(b, r, run)
    ensures !AfterAll(b, r, run).status.IsTerminal() ==> Conserved(b, r, run)
    ensures RowOk(AfterAll(b, r, run))
    ensures Within(r.consumed, b) ==> Within(Total(r.consumed, Grants(b, r, run)), b)
    decreases |run|
  {
    if run != [] {
      var next := Step(b, r, run[0]);
      StepKeeps(b, r, run[0]);
      GrantFirst(b, r, run);
      if next.status.IsTerminal() {
        TerminalAbsorbs(b, next, run[1..]);
      } else {
        ConservedWhileOpen(b, next, run[1..]);
      }
    }
  }

  /** A run from its creation: queued, started, granted one reservation, and blocked as the command line does it. */
  function ForgetfulRun(bytes: nat, start: int, now: int): seq<Action> {
    var nothing := Consumed(0, 0, 0);
    [Advance(QUEUED, nothing, None, None), Advance(RUNNING, nothing, Some(start), None),
     ReserveBytes(bytes, now), Advance(BLOCKED, nothing, None, Some(now))]
  }

  /** The command line leaves the counters to their defaults: what had been granted is forgotten. */
  lemma CommandLineForgets(b: Budget, context: int, bytes: nat, start: int, now: int)
    requires b.Valid() && bytes <= b.maxBytes && bytes <= MAX_REQUEST_BYTES && 0 <= now - start < b.maxDuration
    ensures var created, run := Created(context), ForgetfulRun(bytes, start, now);
      && Grants(b, created, run) == [bytes] && AfterAll(b, created, run[..3]).consumed == Consumed(1, bytes, 1)
      && AfterAll(b, created, run).status == BLOCKED && AfterAll(b, created, run).consumed == Consumed(0, 0, 0)
      && !AllPassOn(b, created, run) && AllPassOnWhileOpen(b, created, run)
  {
    var nothing, created, run := Consumed(0, 0, 0), Created(context), ForgetfulRun(bytes, start, now);
    var queued := created.(status := QUEUED);
    var running := queued.(status := RUNNING, startedAt := Some(start));
    var granted := running.(consumed := Consumed(1, bytes, 1));
    assert Step(b, created, run[0]) == queued && Step(b, queued, run[1]) == running;
    assert Step(b, running, run[2]) == granted && Granted(b, running, run[2]) == Some(bytes);
    assert Step(b, granted, run[3]).status == BLOCKED && Step(b, granted, run[3]).consumed == nothing;
    var three := run[..3];
    assert three[1..] == [run[1], run[2]] && three[1..][1..] == [run[2]] && three[1..][1..][1..] == [];
    OneStep(b, created, three);
    OneStep(b, queued, [run[1], run[2]]);
    OneStep(b, running, [run[2]]);
    assert run[1..] == [run[1], run[2], run[3]] && run[1..][1..] == [run[2], run[3]];
    assert run[1..][1..][1..] == [run[3]] && run[1..][1..][1..][1..] == [];
    OneStep(b, created, run);
    OneStep(b, queued, run[1..]);
    OneStep(b, running, [run[2], run[3]]);
    OneStep(b, granted, [run[3]]);
    hide Step, AfterAll, Grants;
    assert PassesOn(granted, run[3]) == false;
  }

  lemma OneStep(b: Budget, r: Run, run: seq<Action>)
    requires run != []
    ensures var next, rest := Step(b, r, run[0]), run[1..];
      && AfterAll(b, r, run) == AfterAll(b, next, rest)
      && Grants(b, r, run) == OneOrNone(Granted(b, r, run[0])) + Grants(b, next, rest)
      && (AllPassOn(b, r, run) <==> PassesOn(r, run[0]) && AllPassOn(b, next, rest))
      && (AllPassOnWhileOpen(b, r, run) <==> PassesOnWhileOpen(r, run[0]) && AllPassOnWhileOpen(b, next, rest))
  {
  }

  function OneOrNone(g: Option<nat>): seq<nat> { if g.Some? then [g.value] else [] }

  /** Each grant uses up an attempt, so there are never more than three, whatever `maxRequests` says. */
  lemma AttemptsCapGrants(b: Budget, r: Run, run: seq<Action>)
    requires RowOk(r) && b.Valid() && Within(r.consumed, b) && AllPassOnWhileOpen(b, r, run)
    ensures |Grants(b, r, run)| <= b.maxAttempts - r.consumed.attempts <= 3
  {
    ConservedWhileOpen(b, r, run);
  }

  /** A terminal run never changes again. */
  lemma {:induction false} TerminalAbsorbs(b: Budget, r: Run, run: seq<Action>)
    requires RowOk(r) && r.status.IsTerminal()
    ensures AfterAll(b, r, run) == r && Grants(b, r, run) == []
    decreases |run|
  {
    if run != [] {
      StepKeeps(b, r, run[0]);
      TerminalAbsorbs(b, r, run[1..]);
    }
  }

  const MAX_REQUEST_BYTES := 52_428_800

  /** The row that `create_run` inserts. */
  function Created(context: int): Run { Run(context, PLANNED, Consumed(0, 0, 0), None, None, None, None) }

  /** The ledger lets only bounded reservations through to the store. */
  predicate Bounded(run: seq<Action>) { forall a | a in run && a.ReserveBytes? :: a.bytes <= MAX_REQUEST_BYTES }

  lemma {:induction false} GrantsAreBounded(b: Budget, r: Run, run: seq<Action>)
    requires Bounded(run)
    ensures Sum(Grants(b, r, run)) <= |Grants(b, r, run)| * MAX_REQUEST_BYTES
    decreases |run|
  {
    if run != [] {
      assert run[0] in run;
      GrantsAreBounded(b, Step(b, r, run[0]), run[1..]);
      var g := Granted(b, r, run[0]);
      if g.Some? {
        assert Grants(b, r, run)[1..] == Grants(b, Step(b, r, run[0]), run[1..]);
      } else {
        assert Grants(b, r, run) == Grants(b, Step(b, r, run[0]), run[1..]);
      }
    }
  }

  /**
     Over every run from a created row, a reservation ends in an error instead of an answer exactly
     when the row is running without a start time; no counter ever outgrows its 32-bit column.
   */
  lemma ReserveRaisesIff(b: Budget, context: int, run: seq<Action>, bytes: nat, now: int)
    requires b.Valid() && Bounded(run) && bytes <= MAX_REQUEST_BYTES && AllPassOnWhileOpen(b, Created(context), run)
    ensures var r := AfterAll(b, Created(context), run);
      && ReserveIn(b, r, bytes, now) != Raised(OutOfRange)
      && (ReserveIn(b, r, bytes, now).Raised? <==> r.status == RUNNING && r.startedAt == None)
  {
    var start := Created(context);
    var g := Grants(b, start, run);
    ConservedWhileOpen(b, start, run);
    GrantsAreBounded(b, start, run);
    assert |g| <= 3;
  }

  /** `resume` may start a queued run without a start time; then every reservation fails. */
  lemma ResumeWithoutStart(b: Budget, context: int, now: int, bytes: nat, later: int)
    ensures var planned := Created(context);
      var r := AfterAll(b, planned, [Advance(QUEUED, Consumed(0, 0, 0), None, None), Resume(context, now)]);
      r.status == RUNNING && ReserveIn(b, r, bytes, later) == Raised(NotStarted)
  {
    var planned := Created(context);
    var run := [Advance(QUEUED, Consumed(0, 0, 0), None, None), Resume(context, now)];
    assert run[1..] == [Resume(context, now)] && run[1..][1..] == [];
    var queued := planned.(status := QUEUED);
    assert Step(b, planned, run[0]) == queued;
    assert Step(b, queued, Resume(context, now)).status == RUNNING;
    assert AfterAll(b, queued, [Resume(context, now)]) == Step(b, queued, Resume(context, now));
  }

  /** A resumed run can be reserved from exactly when it already had a start time. */
  lemma ResumedIsUsableIff(b: Budget, r: Run, context: int, now: int, bytes: nat, later: int)
    requires RowOk(r) && Controlled(r, context, RUNNING, now).Ok?
    ensures ReserveIn(b, Controlled(r, context, RUNNING, now).value, bytes, later) == Raised(NotStarted) <==> r.startedAt == None
  {
  }

  // --- the stores and the controls ---

  class PostgresBudgetStore {
    var rows: map<int, Run>
    const budgets: map<int, Budget>

    ghost predicate Valid()
      reads this
    {
      forall k | k in rows :: RowOk(rows[k]) && k in budgets
    }

    constructor (rows: map<int, Run>, budgets: map<int, Budget>)
      requires forall k | k in rows :: RowOk(rows[k]) && k in budgets
      ensures Valid() && this.rows == rows && this.budgets == budgets
    {
      this.rows, this.budgets := rows, budgets;
    }

    /** One reservation under the row lock. */
    method Reserve(id: int, bytes: int, now: int) returns (r: Result<Reservation>)
      requires Valid()
      modifies this
      ensures Valid()
      ensures !(0 <= bytes <= MAX_REQUEST_BYTES) ==> r == Raised(ValueOutOfBounds) && rows == old(rows)
      ensures 0 <= bytes <= MAX_REQUEST_BYTES && id !in old(rows) ==> r == Raised(NotFound) && rows == old(rows)
      ensures 0 <= bytes <= MAX_REQUEST_BYTES && id in old(rows) ==>
        && rows == old(rows)[id := Step(budgets[id], old(rows)[id], ReserveBytes(bytes, now))]
        && var x := ReserveIn(budgets[id], old(rows)[id], bytes, now);
           r == if x.Ok? then Ok(x.value.0) else Raised(x.error)
    {
      if !(0 <= bytes <= MAX_REQUEST_BYTES) {
        return Raised(ValueOutOfBounds);
      }
      if id !in rows {
        return Raised(NotFound);
      }
      var row := rows[id];
      assert rows == rows[id := row];
      if row.status != RUNNING {
        return Ok(Reservation(false, RunNotRunning, row.consumed));
      }
      if row.startedAt.None? {
        return Raised(NotStarted);
      }
      var (result, updated) := ReserveBudget(budgets[id], row.startedAt.value, row.consumed, bytes, now);
      if result.allowed {
        if updated.requests > MAX_INTEGER || updated.bytes > MAX_INTEGER || updated.attempts > MAX_INTEGER {
          return Raised(OutOfRange);
        }
        rows := rows[id := row.(consumed := updated)];
      }
      r := Ok(result);
    }

    /** `pause`, `resume` and `cancel`. */
    method Change(id: int, context: int, target: Status, now: int) returns (r: Result<Run>)
      requires Valid() && target in {PAUSED, RUNNING, CANCELLED}
      modifies this
      ensures Valid()
      ensures id !in old(rows) ==> r == Raised(NotFound) && rows == old(rows)
      ensures id in old(rows) ==> r == Controlled(old(rows)[id], context, target, now) && rows == old(rows)[id := Or(r, old(rows)[id])]
      ensures r.Ok? ==> TriggerAccepts(old(rows)[id].status, target) && r.value.consumed == old(rows)[id].consumed
      ensures r.Ok? ==> var was := old(rows)[id];
        && r.value.status == target && r.value.context == was.context && r.value.startedAt == was.startedAt
        && r.value.pausedAt == (if target == PAUSED then Some(now) else None)
        && r.value.completedAt == (if target == CANCELLED then Some(now) else was.completedAt)
        && r.value.lease == if target == PAUSED then None else was.lease
    {
      if id !in rows {
        return Raised(NotFound);
      }
      var row := rows[id];
      assert rows == rows[id := row];
      if row.context != context {
        return Raised(ContextImmutable);
      }
      var refused := Transition(row.status, target);
      if refused.Some? {
        return Raised(refused.value);
      }
      MapsAgree(row.status, target);
      var after := row.(
        status := target,
        pausedAt := if target == PAUSED then Some(now) else None,
        completedAt := if target == CANCELLED then Some(now) else row.completedAt,
        lease := if target == PAUSED then None else row.lease);
      rows := rows[id := after];
      r := Ok(after);
    }
  }

  /** One entry of the in-memory store. */
  datatype Snapshot = Snapshot(budget: Budget, startedAt: int, consumed: Consumed)

  class InMemoryBudgetStore {
    var snapshots: map<int, Snapshot>

    constructor (snapshots: map<int, Snapshot>)
      ensures this.snapshots == snapshots
    {
      this.snapshots := snapshots;
    }

    method Reserve(id: int, bytes: nat, now: int) returns (r: Result<Reservation>)
      modifies this
      ensures id !in old(snapshots) ==> r == Raised(NotFound) && snapshots == old(snapshots)
      ensures id in old(snapshots) ==>
        var s := old(snapshots)[id];
        var x := ReserveBudget(s.budget, s.startedAt, s.consumed, bytes, now);
        r == Ok(x.0) && snapshots == old(snapshots)[id := s.(consumed := x.1)]
    {
      if id !in snapshots {
        return Raised(NotFound);
      }
      var s := snapshots[id];
      var (result, updated) := ReserveBudget(s.budget, s.startedAt, s.consumed, bytes, now);
      snapshots := snapshots[id := s.(consumed := updated)];
      r := Ok(result);
    }
  }

  /** Over every run from a created row the two stores give the same answer exactly while it is running and started. */
  lemma StoresAgreeIff(b: Budget, context: int, run: seq<Action>, startedAt: int, bytes: nat, now: int)
    requires b.Valid() && Bounded(run) && bytes <= MAX_REQUEST_BYTES && AllPassOnWhileOpen(b, Created(context), run)
    requires var r := AfterAll(b, Created(context), run); r.startedAt.Some? ==> r.startedAt.value == startedAt
    ensures var r := AfterAll(b, Created(context), run);
      (ReserveIn(b, r, bytes, now).Ok? && ReserveIn(b, r, bytes, now).value.0 == ReserveBudget(b, startedAt, r.consumed, bytes, now).0)
      <==> r.status == RUNNING && r.startedAt.Some?
  {
    ReserveRaisesIff(b, context, run, bytes, now);
  }
}
