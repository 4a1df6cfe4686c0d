/**
 The hand-off between callers with a deadline and the one worker thread that runs their blocking
 operations, as a state machine.  One action is one atomic step of one thread: a block under a
 lock, one call on the queue or on a future, or one read of the clock.  A done-callback may run
 at any moment between the completion of the future and the next task of the worker, which
 covers every thread that can invoke it.  Waits never end before their timeout.
 */
module DeadlineHandoff {

  /** What an operation does: `Error(true)` is an operation that raises a `TimeoutError` itself. */
  datatype Outcome = Value | Error(isTimeout: bool)

  datatype Future = Pending | Running | Cancelled | Finished(outcome: Outcome)
  {
    predicate Done() { Cancelled? || Finished? }
  }

  datatype Result = Returned | OperationError | TimedOut | WorkerClosed | CancelledError

  /** Where the calling thread stands in `_call_with_deadline` (and in `submit` inside it). */
  datatype Caller =
    | Start
    | AtLock
    | Submitting            // holds the worker's lock, waits for the queue slot
    | Adding                // submitted, callback not yet added
    | Waiting
    | MarkExpired
    | Cancelling
    | Claiming
    | DirectCleanup
    | DirectCleaning
    | Left(result: Result)

  datatype Callback = NotAdded | Registered | Firing | Cleaning | Over

  datatype Task = Task(
    deadline: nat,
    hasCleanup: bool,
    caller: Caller,
    accepted: bool,         // put on the queue
    future: Future,
    callback: Callback,
    expired: bool,
    claimedAt: nat,
    claimed: bool,
    cleanupStarted: bool,
    cleaned: nat,           // how often `late_cleanup` got the result
    ran: nat,               // how often the operation was called
    startedAt: nat)         // and when

  datatype Slot = Empty | Queued(task: nat) | Stop
  datatype Worker = Idle | Holding(task: nat) | Operating(task: nat) | Notifying(task: nat) | Stopped
  datatype Closer = NotClosed | Draining | CancellingQueued(task: nat) | PuttingStop | Closed
  datatype Lock = Free | HeldBy(task: nat) | HeldByCloser

  datatype State = State(
    now: nat,
    tasks: seq<Task>,
    lock: Lock,
    slot: Slot,
    worker: Worker,
    started: bool,
    closer: Closer)
  {
    function Set(i: nat, t: Task): State
      requires i < |tasks|
    {
      this.(tasks := tasks[i := t])
    }
  }

  const INITIAL := State(0, [], Free, Empty, Idle, false, NotClosed)

  datatype SubmitMove = CheckTime | TakeLock | Put | QueueFull | AddCallback
  datatype AwaitMove = Observe | WaitTimesOut | Mark | Cancel | Claim | DirectBlock | DirectClean
  datatype CallbackMove = CallbackBlock | CallbackClean
  datatype WorkerMove = WorkerGet | WorkerStart | WorkerFinish(outcome: Outcome) | WorkerNext
  datatype CloserMove = CloseBegin | CloseDrain | CloseCancel | ClosePutStop

  datatype Action =
    | Tick
    | Call(deadline: nat, hasCleanup: bool)
    | Submit(i: nat, submit: SubmitMove)
    | Await(i: nat, await: AwaitMove)
    | CallBack(i: nat, callBack: CallbackMove)
    | Work(work: WorkerMove)
    | Close(close: CloserMove)

  // --- the steps ---

  /** A future that gets done invokes the callback that was added to it. */
  function Fire(t: Task): Task {
    if t.callback == Registered then t.(callback := Firing) else t
  }

  function CancelFuture(t: Task): Task {
    if t.future == Pending then Fire(t.(future := Cancelled)) else t
  }

  /** The guard of `cleanup_expired_result`, under the state lock. */
  predicate MayClean(t: Task) {
    && t.hasCleanup && t.expired && !t.claimed && !t.cleanupStarted
    && t.future.Done() && t.future != Cancelled
  }

  /** One step of a caller up to the added callback; nothing when it cannot take that step now. */
  function SubmitStep(s: State, m: SubmitMove, i: nat): (r: seq<State>)
    requires i < |s.tasks|
    ensures |r| <= 1
  {
    var t := s.tasks[i];
    match m
    case CheckTime =>
      if t.caller != Start then [] else
      [s.Set(i, t.(caller := if s.now >= t.deadline then Left(TimedOut) else AtLock))]
    case TakeLock =>
      if t.caller != AtLock || s.lock != Free then []
      else if s.closer != NotClosed then [s.Set(i, t.(caller := Left(WorkerClosed)))]
      else [s.Set(i, t.(caller := Submitting)).(lock := HeldBy(i), started := true)]
    case Put =>
      if t.caller != Submitting || s.slot != Empty then [] else
      [s.Set(i, t.(caller := Adding, accepted := true)).(lock := Free, slot := Queued(i))]
    case QueueFull =>
      if t.caller != Submitting || s.slot == Empty || s.now < t.deadline then [] else
      [s.Set(i, t.(caller := Left(TimedOut))).(lock := Free)]
    case AddCallback =>
      if t.caller != Adding then [] else
      [s.Set(i, t.(caller := Waiting, callback := if t.future.Done() then Firing else Registered))]
  }

  /** One step of a caller that waits, claims the result or gives up. */
  function Awaited(t: Task, now: nat, m: AwaitMove): (r: seq<Task>)
    ensures |r| <= 1
  {
    match m
    case Observe =>
      if t.caller != Waiting || !t.future.Done() then [] else
      [t.(caller :=
          if t.future == Cancelled then Left(CancelledError)
          else if t.future.outcome == Value then Claiming
          else if t.future.outcome.isTimeout then MarkExpired
          else Left(OperationError))]
    case WaitTimesOut =>
      if t.caller != Waiting || t.future.Done() || now < t.deadline then [] else
      [t.(caller := MarkExpired)]
    case Mark =>
      if t.caller != MarkExpired then [] else
      [t.(caller := Cancelling, expired := true)]
    case Cancel =>
      if t.caller != Cancelling then [] else
      [CancelFuture(t).(caller := DirectCleanup)]
    case Claim =>
      if t.caller != Claiming then []
      else if now >= t.deadline then [t.(caller := DirectCleanup, expired := true)]
      else [t.(caller := Left(Returned), claimed := true, claimedAt := now)]
    case DirectBlock =>
      if t.caller != DirectCleanup then []
      else if !MayClean(t) then [t.(caller := Left(TimedOut))]
      else [t.(cleanupStarted := true, caller := if t.future == Finished(Value) then DirectCleaning else Left(TimedOut))]
    case DirectClean =>
      if t.caller != DirectCleaning then [] else
      [t.(cleaned := t.cleaned + 1, caller := Left(TimedOut))]
  }

  /** One step of the done-callback of a task. */
  function CalledBack(t: Task, m: CallbackMove): (r: seq<Task>)
    ensures |r| <= 1
  {
    match m
    case CallbackBlock =>
      if t.callback != Firing then []
      else if !MayClean(t) then [t.(callback := Over)]
      else [t.(cleanupStarted := true, callback := if t.future == Finished(Value) then Cleaning else Over)]
    case CallbackClean =>
      if t.callback != Cleaning then [] else
      [t.(cleaned := t.cleaned + 1, callback := Over)]
  }

  function Lifted(s: State, i: nat, after: seq<Task>): (r: seq<State>)
    requires i < |s.tasks| && |after| <= 1
    ensures |r| <= 1
  {
    if after == [] then [] else [s.Set(i, after[0])]
  }

  function WorkerStep(s: State, m: WorkerMove): (r: seq<State>)
    ensures |r| <= 1
  {
    match m
    case WorkerGet =>
      if !s.started || s.worker != Idle || s.slot == Empty then []
      else if s.slot == Stop then [s.(worker := Stopped, slot := Empty)]
      else [s.(worker := Holding(s.slot.task), slot := Empty)]
    case WorkerStart =>
      if !s.worker.Holding? || s.worker.task >= |s.tasks| then [] else
      var i := s.worker.task;
      var t := s.tasks[i];
      if t.future != Pending then [s.(worker := Idle)]
      else [s.Set(i, t.(future := Running, ran := t.ran + 1, startedAt := s.now)).(worker := Operating(i))]
    case WorkerFinish(outcome) =>
      if !s.worker.Operating? || s.worker.task >= |s.tasks| then [] else
      var i := s.worker.task;
      [s.Set(i, Fire(s.tasks[i].(future := Finished(outcome)))).(worker := Notifying(i))]
    case WorkerNext =>
      if !s.worker.Notifying? || s.worker.task >= |s.tasks| then [] else
      var c := s.tasks[s.worker.task].callback;
      if c == Firing || c == Cleaning then [] else [s.(worker := Idle)]
  }

  function CloserStep(s: State, m: CloserMove): (r: seq<State>)
    ensures |r| <= 1
  {
    match m
    case CloseBegin =>
      if s.closer != NotClosed || s.lock != Free then [] else [s.(closer := Draining, lock := HeldByCloser)]
    case CloseDrain =>
      if s.closer != Draining then []
      else if s.slot.Queued? then [s.(closer := CancellingQueued(s.slot.task), slot := Empty)]
      else if s.slot == Stop then [s.(slot := Empty)]
      else [s.(closer := PuttingStop)]
    case CloseCancel =>
      if !s.closer.CancellingQueued? || s.closer.task >= |s.tasks| then [] else
      [s.Set(s.closer.task, CancelFuture(s.tasks[s.closer.task])).(closer := Draining)]
    case ClosePutStop =>
      if s.closer != PuttingStop then []
      else [s.(closer := Closed, lock := Free, slot := if s.slot == Empty then Stop else s.slot)]
  }

  function NewTask(deadline: nat, hasCleanup: bool): Task {
    Task(deadline, hasCleanup, Start, false, Pending, NotAdded, false, 0, false, false, 0, 0, 0)
  }

  /** The one state that an action leads to, or nothing when it is not enabled. */
  function Step(s: State, a: Action): (r: seq<State>)
    ensures |r| <= 1
  {
    match a
    case Tick => [s.(now := s.now + 1)]
    case Call(deadline, hasCleanup) => [s.(tasks := s.tasks + [NewTask(deadline, hasCleanup)])]
    case Submit(i, m) => if i < |s.tasks| then SubmitStep(s, m, i) else []
    case Await(i, m) => if i < |s.tasks| then Lifted(s, i, Awaited(s.tasks[i], s.now, m)) else []
    case CallBack(i, m) => if i < |s.tasks| then Lifted(s, i, CalledBack(s.tasks[i], m)) else []
    case Work(m) => WorkerStep(s, m)
    case Close(m) => CloserStep(s, m)
  }

  /** An action that is not enabled changes nothing. */
  function Next(s: State, a: Action): State {
    var r := Step(s, a);
    if r == [] then s else r[0]
  }

  /** The state after the actions of a run; actions that are not enabled are skipped. */
  function After(s: State, run: seq<Action>): State
    decreases |run|
  {
    if run == [] then s else After(Next(s, run[0]), run[1..])
  }

  // --- the invariant ---

  function Bit(b: bool): nat { if b then 1 else 0 }

  /** In how many hands a task is before its operation starts. */
  function Hands(s: State, i: nat): nat {
    Bit(s.slot == Queued(i)) + Bit(s.worker == Holding(i)) + Bit(s.closer == CancellingQueued(i))
  }

  predicate BeforeSubmit(c: Caller) { c == Start || c == AtLock || c == Submitting }

  predicate AfterExpiry(c: Caller) { c == Cancelling || c == DirectCleanup || c == DirectCleaning || c == Left(TimedOut) }

  /** Where a task may be and how far its caller and its future have come. */
  predicate Placed(s: State, i: nat, t: Task) {
    && Hands(s, i) <= 1
    && (Hands(s, i) == 1 ==> t.accepted && (t.future == Pending || t.future == Cancelled))
    && (t.accepted && t.future == Pending ==> Hands(s, i) == 1)
    && (t.accepted ==> s.started && !BeforeSubmit(t.caller) && t.caller != Left(WorkerClosed))
    && (!t.accepted ==>
          && t.future == Pending && (BeforeSubmit(t.caller) || t.caller == Left(TimedOut) || t.caller == Left(WorkerClosed)))
    && (t.future == Running <==> s.worker == Operating(i))
    && t.ran == Bit(t.future == Running || t.future.Finished?)
    && (s.lock == HeldBy(i) <==> t.caller == Submitting)
    && (t.caller == Left(WorkerClosed) || (t.future == Cancelled && !AfterExpiry(t.caller)) ==> s.closer != NotClosed)
  }

  /** How the two flags, the callback and the clean-up go together. */
  predicate HandedOver(t: Task) {
    && (t.callback == NotAdded <==> !t.accepted || t.caller == Adding)
    && (t.callback == Registered ==> !t.future.Done())
    && (t.callback.Firing? || t.callback.Cleaning? || t.callback.Over? ==> t.future.Done())
    && (t.caller == Claiming || t.caller == Left(Returned) ==> t.future == Finished(Value))
    && (t.claimed <==> t.caller == Left(Returned))
    && (t.claimed ==> t.claimedAt < t.deadline)
    && (t.expired <==> t.accepted && AfterExpiry(t.caller))
    && (t.cleanupStarted ==> t.hasCleanup && t.expired && t.future.Finished?)
    && t.cleaned + Bit(t.callback == Cleaning) + Bit(t.caller == DirectCleaning) == Bit(t.cleanupStarted && t.future == Finished(Value))
    && (t.accepted && (t.caller.DirectCleanup? || t.caller.DirectCleaning? || t.caller.Left?) ==> t.future != Pending)
    && (t.caller == Left(CancelledError) ==> t.future == Cancelled)
    && (t.caller == Left(OperationError) ==> t.future == Finished(Error(false)))
  }

  /** A result that expired and is not being cleaned up has a clean-up check still to come. */
  predicate CleanupToCome(t: Task) {
    t.hasCleanup && t.expired && t.future == Finished(Value) && !t.cleanupStarted ==>
      t.callback == Firing || t.caller == Cancelling || t.caller == DirectCleanup
  }

  /** Nobody gives up early, unless the operation itself raised a `TimeoutError`; results are claimed after the start. */
  predicate Patient(now: nat, t: Task) {
    && (t.caller == MarkExpired || AfterExpiry(t.caller) ==> now >= t.deadline || t.future == Finished(Error(true)))
    && t.startedAt <= now
    && (t.claimed ==> t.startedAt <= t.claimedAt)
  }

  predicate TaskOk(s: State, i: nat, t: Task) {
    Placed(s, i, t) && HandedOver(t) && CleanupToCome(t) && Patient(s.now, t)
  }

  predicate QueueOk(s: State) {
    && (s.lock == HeldByCloser <==> s.closer == Draining || s.closer == PuttingStop || s.closer.CancellingQueued?)
    && (s.lock.HeldBy? ==> s.lock.task < |s.tasks| && s.closer == NotClosed && s.started)
    && (s.slot.Queued? ==> s.slot.task < |s.tasks|)
    && (s.slot == Stop ==> s.closer == Closed)
    && (s.closer == PuttingStop ==> s.slot == Empty)
    && (s.closer == Closed && s.worker != Stopped ==> s.slot == Stop)
    && (s.worker == Stopped ==> s.closer == Closed && s.slot == Empty)
    && (s.worker.Holding? || s.worker.Operating? || s.worker.Notifying? ==> s.worker.task < |s.tasks| && s.started)
    && (s.closer.CancellingQueued? ==> s.closer.task < |s.tasks| && s.slot == Empty)
  }

  ghost predicate Inv(s: State) {
    QueueOk(s) && forall i: nat | i < |s.tasks| :: TaskOk(s, i, s.tasks[i])
  }

  // --- every step keeps it ---

  /** What the invariant of a task reads from the rest of the state. */
  predicate SameView(s: State, r: State, j: nat) {
    && Hands(r, j) == Hands(s, j)
    && (r.worker == Operating(j) <==> s.worker == Operating(j))
    && (r.lock == HeldBy(j) <==> s.lock == HeldBy(j))
    && (s.started ==> r.started) && (s.closer != NotClosed ==> r.closer != NotClosed) && s.now <= r.now
  }

  lemma OthersKept(s: State, r: State, i: nat)
    requires Inv(s) && i < |s.tasks| && |r.tasks| == |s.tasks| && r.tasks == s.tasks[i := r.tasks[i]]
    requires forall j: nat | j < |s.tasks| && j != i :: SameView(s, r, j)
    requires QueueOk(r) && TaskOk(r, i, r.tasks[i])
    ensures Inv(r)
  {
    forall j: nat | j < |r.tasks|
      ensures TaskOk(r, j, r.tasks[j])
    {
      if j != i {
        assert TaskOk(s, j, s.tasks[j]) && SameView(s, r, j);
      }
    }
  }

  lemma SubmitQueueOk(s: State, m: SubmitMove, i: nat, r: State)
    requires QueueOk(s) && i < |s.tasks| && TaskOk(s, i, s.tasks[i]) && r in SubmitStep(s, m, i)
    ensures r.tasks == s.tasks[i := r.tasks[i]] && QueueOk(r)
  {
    hide HandedOver, CleanupToCome, Patient;
  }

  lemma SubmitTaskOk(s: State, m: SubmitMove, i: nat, r: State)
    requires QueueOk(s) && i < |s.tasks| && TaskOk(s, i, s.tasks[i]) && r in SubmitStep(s, m, i)
    ensures i < |r.tasks| && TaskOk(r, i, r.tasks[i])
  {
  }

  lemma SubmitKeeps(s: State, m: SubmitMove, i: nat)
    requires Inv(s) && i < |s.tasks|
    ensures forall r | r in SubmitStep(s, m, i) :: Inv(r)
  {
    forall r | r in SubmitStep(s, m, i)
      ensures Inv(r)
    {
      assert TaskOk(s, i, s.tasks[i]);
      SubmitQueueOk(s, m, i, r);
      SubmitTaskOk(s, m, i, r);
      hide QueueOk, TaskOk;
      OthersKept(s, r, i);
    }
  }

  lemma AwaitedOk(t: Task, now: nat, m: AwaitMove)
    requires HandedOver(t) && CleanupToCome(t) && Patient(now, t)
    requires t.accepted || BeforeSubmit(t.caller) || t.caller.Left?
    ensures forall u | u in Awaited(t, now, m) :: HandedOver(u) && CleanupToCome(u) && Patient(now, u)
  {
  }

  lemma CalledBackOk(t: Task, now: nat, m: CallbackMove)
    requires HandedOver(t) && CleanupToCome(t) && Patient(now, t)
    ensures forall u | u in CalledBack(t, m) :: HandedOver(u) && CleanupToCome(u) && Patient(now, u)
  {
  }

  lemma LiftedKeeps(s: State, i: nat, u: Task)
    requires Inv(s) && i < |s.tasks| && HandedOver(u) && CleanupToCome(u) && Patient(s.now, u)
    requires var t := s.tasks[i]; u.accepted == t.accepted && u.ran == t.ran && t.accepted
    requires !BeforeSubmit(u.caller) && u.caller != Left(WorkerClosed)
    requires u.future == s.tasks[i].future || (s.tasks[i].future == Pending && u.future == Cancelled)
    requires u.future == Cancelled && !AfterExpiry(u.caller) ==> s.tasks[i].future == Cancelled && !AfterExpiry(s.tasks[i].caller)
    ensures Inv(s.Set(i, u))
  {
    hide HandedOver, CleanupToCome, Patient;
    assert TaskOk(s, i, s.tasks[i]);
    OthersKept(s, s.Set(i, u), i);
  }

  lemma AwaitKeeps(s: State, m: AwaitMove, i: nat)
    requires Inv(s) && i < |s.tasks|
    ensures forall r | r in Lifted(s, i, Awaited(s.tasks[i], s.now, m)) :: Inv(r)
  {
    var t := s.tasks[i];
    assert TaskOk(s, i, t);
    AwaitedOk(t, s.now, m);
    if Awaited(t, s.now, m) != [] {
      hide TaskOk, HandedOver, CleanupToCome, Patient, Inv;
      LiftedKeeps(s, i, Awaited(t, s.now, m)[0]);
    }
  }

  lemma CallbackKeeps(s: State, m: CallbackMove, i: nat)
    requires Inv(s) && i < |s.tasks|
    ensures forall r | r in Lifted(s, i, CalledBack(s.tasks[i], m)) :: Inv(r)
  {
    var t := s.tasks[i];
    assert TaskOk(s, i, t);
    CalledBackOk(t, s.now, m);
    if CalledBack(t, m) != [] {
      LiftedKeeps(s, i, CalledBack(t, m)[0]);
    }
  }

  lemma WorkerOk(s: State, m: WorkerMove, i: nat, r: State)
    requires Inv(s) && r in WorkerStep(s, m) && !(m.WorkerGet? && s.slot == Stop)
    requires i == if m.WorkerGet? then s.slot.task else s.worker.task
    ensures i < |s.tasks| && r.tasks == s.tasks[i := r.tasks[i]] && QueueOk(r) && TaskOk(r, i, r.tasks[i])
    ensures forall j: nat | j < |s.tasks| && j != i :: SameView(s, r, j)
  {
    assert QueueOk(s);
    assert TaskOk(s, i, s.tasks[i]);
    hide Inv;
    match m {
      case WorkerGet =>
      case WorkerStart =>
      case WorkerFinish(_) =>
      case WorkerNext =>
    }
  }

  lemma WorkerKeeps(s: State, m: WorkerMove)
    requires Inv(s)
    ensures forall r | r in WorkerStep(s, m) :: Inv(r)
  {
    if WorkerStep(s, m) != [] {
      var r := WorkerStep(s, m)[0];
      if m.WorkerGet? && s.slot == Stop {
        AllKept(s, r);
      } else {
        var i := if m.WorkerGet? then s.slot.task else s.worker.task;
        WorkerOk(s, m, i, r);
        hide QueueOk, TaskOk, SameView;
        OthersKept(s, r, i);
      }
    }
  }

  lemma AllKept(s: State, r: State)
    requires Inv(s) && r.tasks == s.tasks && QueueOk(r)
    requires forall j: nat | j < |s.tasks| :: SameView(s, r, j)
    ensures Inv(r)
  {
    forall j: nat | j < |r.tasks|
      ensures TaskOk(r, j, r.tasks[j])
    {
      assert TaskOk(s, j, s.tasks[j]) && SameView(s, r, j);
    }
  }

  lemma CloserKeeps(s: State, m: CloserMove)
    requires Inv(s)
    ensures forall r | r in CloserStep(s, m) :: Inv(r)
  {
    forall r | r in CloserStep(s, m)
      ensures Inv(r)
    {
      if m.CloseCancel? || (m.CloseDrain? && s.slot.Queued?) {
        var i := if m.CloseCancel? then s.closer.task else s.slot.task;
        assert TaskOk(s, i, s.tasks[i]);
        OthersKept(s, r, i);
      } else {
        AllKept(s, r);
      }
    }
  }

  lemma NewTaskKeeps(s: State, deadline: nat, hasCleanup: bool)
    requires Inv(s)
    ensures Inv(s.(tasks := s.tasks + [NewTask(deadline, hasCleanup)]))
  {
    var r := s.(tasks := s.tasks + [NewTask(deadline, hasCleanup)]);
    forall j: nat | j < |r.tasks|
      ensures TaskOk(r, j, r.tasks[j])
    {
      if j < |s.tasks| {
        assert TaskOk(s, j, s.tasks[j]);
      }
    }
  }

  lemma StepKeeps(s: State, a: Action)
    requires Inv(s)
    ensures forall r | r in Step(s, a) :: Inv(r)
  {
    match a
    case Tick => AllKept(s, s.(now := s.now + 1));
    case Call(deadline, hasCleanup) => NewTaskKeeps(s, deadline, hasCleanup);
    case Submit(i, m) => if i < |s.tasks| { SubmitKeeps(s, m, i); }
    case Await(i, m) => if i < |s.tasks| { AwaitKeeps(s, m, i); }
    case CallBack(i, m) => if i < |s.tasks| { CallbackKeeps(s, m, i); }
    case Work(m) => WorkerKeeps(s, m);
    case Close(m) => CloserKeeps(s, m);
  }

  lemma {:induction false} RunKeeps(s: State, run: seq<Action>)
    requires Inv(s)
    ensures Inv(After(s, run))
    decreases |run|
  {
    if run != [] {
      StepKeeps(s, run[0]);
      hide Step;
      RunKeeps(Next(s, run[0]), run[1..]);
    }
  }

  // --- what holds in every run ---

  /** Nothing is left to do for this task. */
  predicate Settled(t: Task) { t.caller.Left? && t.future.Done() && t.callback == Over }

  /**
     A result is returned or cleaned up, never both and never twice; once everything about the
     call is over, exactly one of the two has happened.
   */
  lemma ResultGoesOneWay(run: seq<Action>, i: nat)
    requires i < |After(INITIAL, run).tasks|
    ensures var t := After(INITIAL, run).tasks[i];
      && t.cleaned + Bit(t.claimed) <= 1
      && (t.claimed ==> t.future == Finished(Value) && t.claimedAt < t.deadline)
      && (t.cleaned == 1 ==> t.future == Finished(Value) && t.hasCleanup && AfterExpiry(t.caller))
      && (Settled(t) && t.hasCleanup && t.future == Finished(Value) ==>
            if t.caller == Left(TimedOut) then t.cleaned == 1 else t.caller == Left(Returned) && t.cleaned == 0)
  {
    RunKeeps(INITIAL, run);
    OneWay(After(INITIAL, run), i, After(INITIAL, run).tasks[i]);
  }

  lemma OneWay(s: State, i: nat, t: Task)
    requires TaskOk(s, i, t)
    ensures t.cleaned + Bit(t.claimed) <= 1
    ensures t.cleaned == 1 ==> t.future == Finished(Value) && t.hasCleanup && AfterExpiry(t.caller)
    ensures Settled(t) && t.hasCleanup && t.future == Finished(Value) ==>
      if t.caller == Left(TimedOut) then t.cleaned == 1 else t.caller == Left(Returned) && t.cleaned == 0
  {
    if Settled(t) && t.future == Finished(Value) {
      assert t.accepted;
      match t.caller.result
      case Returned =>
      case TimedOut =>
      case OperationError =>
      case WorkerClosed =>
      case CancelledError =>
    }
  }

  /** Every timeout is at or after the deadline, or is the operation's own `TimeoutError`. */
  lemma TimeoutsAreHonest(run: seq<Action>, i: nat)
    requires i < |After(INITIAL, run).tasks|
    ensures var t := After(INITIAL, run).tasks[i];
      t.caller == Left(TimedOut) ==> After(INITIAL, run).now >= t.deadline || t.future == Finished(Error(true))
  {
    RunKeeps(INITIAL, run);
    assert TaskOk(After(INITIAL, run), i, After(INITIAL, run).tasks[i]);
  }

  /** At most one operation runs at a time, each at most once, and a cancelled one not at all. */
  lemma OneOperationAtATime(run: seq<Action>, i: nat, j: nat)
    requires i < |After(INITIAL, run).tasks| && j < |After(INITIAL, run).tasks|
    ensures var s := After(INITIAL, run);
      && (s.tasks[i].future == Running && s.tasks[j].future == Running ==> i == j)
      && s.tasks[i].ran <= 1
      && (s.tasks[i].future == Cancelled || !s.tasks[i].accepted ==> s.tasks[i].ran == 0)
  {
    RunKeeps(INITIAL, run);
    var s := After(INITIAL, run);
    assert TaskOk(s, i, s.tasks[i]) && TaskOk(s, j, s.tasks[j]);
  }

  /** A step leaves a future alone that is done, and nothing gets accepted once the worker is closed. */
  predicate Follows(s: State, r: State, i: nat)
    requires i < |s.tasks|
  {
    && i < |r.tasks| && (s.closer == Closed ==> r.closer == Closed && (r.tasks[i].accepted ==> s.tasks[i].accepted))
    && (s.tasks[i].future.Done() ==> r.tasks[i].future == s.tasks[i].future)
    && (s.tasks[i].future != Pending ==> r.tasks[i].future != Pending && r.tasks[i].ran == s.tasks[i].ran)
  }

  lemma SubmitFollows(s: State, m: SubmitMove, k: nat, i: nat)
    requires Inv(s) && i < |s.tasks| && k < |s.tasks|
    ensures forall r | r in SubmitStep(s, m, k) :: Follows(s, r, i)
  {
    assert QueueOk(s) && TaskOk(s, k, s.tasks[k]);
    hide Inv, HandedOver, CleanupToCome, Patient, Hands;
    assert s.closer == Closed && m == Put ==> SubmitStep(s, m, k) == [];
  }

  lemma CallFollows(s: State, i: nat, k: nat, m: AwaitMove, c: CallbackMove)
    requires i < |s.tasks| && k < |s.tasks|
    ensures forall r | r in Lifted(s, k, Awaited(s.tasks[k], s.now, m)) :: Follows(s, r, i)
    ensures forall r | r in Lifted(s, k, CalledBack(s.tasks[k], c)) :: Follows(s, r, i)
  {
  }

  lemma WorkerFollows(s: State, m: WorkerMove, i: nat)
    requires Inv(s) && i < |s.tasks|
    ensures forall r | r in WorkerStep(s, m) :: Follows(s, r, i)
  {
    assert TaskOk(s, i, s.tasks[i]);
    hide Inv, HandedOver, CleanupToCome, Patient, Hands;
  }

  lemma CloserFollows(s: State, m: CloserMove, i: nat)
    requires i < |s.tasks|
    ensures forall r | r in CloserStep(s, m) :: Follows(s, r, i)
  {
  }

  lemma StepFollows(s: State, a: Action, i: nat)
    requires Inv(s) && i < |s.tasks|
    ensures forall r | r in Step(s, a) :: Follows(s, r, i)
  {
    match a
    case Tick =>
    case Call(_, _) =>
    case Submit(k, m) => if k < |s.tasks| { SubmitFollows(s, m, k, i); }
    case Await(k, m) => if k < |s.tasks| { CallFollows(s, i, k, m, CallbackBlock); }
    case CallBack(k, m) => if k < |s.tasks| { CallFollows(s, i, k, Observe, m); }
    case Work(m) => WorkerFollows(s, m, i);
    case Close(m) => CloserFollows(s, m, i);
  }

  /** The same of one step of a run, and what it means for a future and for whether a call is accepted. */
  lemma NextFollows(s: State, a: Action, i: nat)
    requires Inv(s) && i < |s.tasks|
    ensures var r := Next(s, a);
      && Inv(r) && i < |r.tasks|
      && (s.tasks[i].future.Done() ==> r.tasks[i].future == s.tasks[i].future)
      && (s.tasks[i].future != Pending ==> r.tasks[i].future != Pending && r.tasks[i].ran == s.tasks[i].ran)
      && (s.closer == Closed ==> r.closer == Closed && (r.tasks[i].accepted ==> s.tasks[i].accepted))
  {
    hide Inv, Step;
    StepKeeps(s, a);
    StepFollows(s, a, i);
    var r := Step(s, a);
    if r != [] {
      assert r[0] in r && Follows(s, r[0], i);
    }
  }

  /** A cancelled task stays cancelled and never runs; a finished one keeps its outcome. */
  lemma {:induction false} DoneForGood(s: State, run: seq<Action>, i: nat)
    requires Inv(s) && i < |s.tasks| && s.tasks[i].future.Done()
    ensures var t := After(s, run);
      i < |t.tasks| && t.tasks[i].future == s.tasks[i].future && t.tasks[i].ran == s.tasks[i].ran
    decreases |run|
  {
    if run != [] {
      hide Inv, Next, Follows;
      NextFollows(s, run[0], i);
      DoneForGood(Next(s, run[0]), run[1..], i);
    }
  }

  /** Once a caller has left, its operation does not start any more. */
  lemma {:induction false} NoStartAfterLeaving(s: State, run: seq<Action>, i: nat)
    requires Inv(s) && i < |s.tasks| && s.tasks[i].accepted
    requires s.tasks[i].caller.Left? || s.tasks[i].future != Pending
    ensures var t := After(s, run); i < |t.tasks| && t.tasks[i].ran == s.tasks[i].ran
    decreases |run|
  {
    assert TaskOk(s, i, s.tasks[i]);
    hide Step;
    StartedOrNot(s, run, i);
  }

  lemma {:induction false} StartedOrNot(s: State, run: seq<Action>, i: nat)
    requires Inv(s) && i < |s.tasks| && s.tasks[i].future != Pending
    ensures var t := After(s, run); i < |t.tasks| && t.tasks[i].ran == s.tasks[i].ran
    decreases |run|
  {
    if run != [] {
      hide Inv, Next, Follows;
      NextFollows(s, run[0], i);
      StartedOrNot(Next(s, run[0]), run[1..], i);
    }
  }

  /**
     Exactly when the worker starts an operation at or after its deadline: nobody has cancelled the
     future yet, so in particular the caller has not left.
   */
  lemma LateStartIff(run: seq<Action>, i: nat)
    requires After(INITIAL, run).worker == Holding(i)
    ensures var s := After(INITIAL, run);
      i < |s.tasks| &&
      var t := s.tasks[i];
      && (forall r | r in Step(s, Work(WorkerStart)) ::
            i < |r.tasks| && (r.tasks[i].ran == 1 && r.tasks[i].startedAt >= t.deadline <==> t.future == Pending && s.now >= t.deadline))
      && Step(s, Work(WorkerStart)) != []
      && (t.future == Pending ==> !t.caller.DirectCleanup? && !t.caller.DirectCleaning? && !t.caller.Left?)
  {
    RunKeeps(INITIAL, run);
    var s := After(INITIAL, run);
    assert TaskOk(s, i, s.tasks[i]);
  }

  /** What starts late is never returned, and is cleaned up exactly once when it gives a value to clean up. */
  lemma LateIsNeverReturned(run: seq<Action>, i: nat)
    requires i < |After(INITIAL, run).tasks|
    ensures var t := After(INITIAL, run).tasks[i];
      t.ran == 1 && t.startedAt >= t.deadline ==>
        && t.caller != Left(Returned)
        && (Settled(t) && t.hasCleanup && t.future == Finished(Value) ==> t.caller == Left(TimedOut) && t.cleaned == 1)
  {
    ResultGoesOneWay(run, i);
    RunKeeps(INITIAL, run);
    assert TaskOk(After(INITIAL, run), i, After(INITIAL, run).tasks[i]);
  }

  /** It does happen: a run in which the worker starts an operation at its deadline. */
  lemma MayStartLate() returns (run: seq<Action>, before: State, after: State)
    ensures before == After(INITIAL, run) && Step(before, Work(WorkerStart)) == [after]
    ensures |before.tasks| == |after.tasks| == 1 && before.now >= before.tasks[0].deadline
    ensures before.tasks[0].ran == 0 && after.tasks[0].ran == 1 && after.tasks[0].startedAt >= after.tasks[0].deadline
  {
    hide After;
    TakenInTime(0);
    run, before := TAKEN_IN_TIME, Taking(|TAKEN_IN_TIME|);
    assert TAKEN_IN_TIME[0..] == run && Taking(0) == INITIAL;
    after := Step(before, Work(WorkerStart))[0];
  }

  const TAKEN_IN_TIME := [Call(1, true), Submit(0, CheckTime), Submit(0, TakeLock), Submit(0, Put), Work(WorkerGet), Tick]

  /** The state after the first `k` actions: the worker takes the call, and then its deadline comes. */
  function Taking(k: nat): State {
    var caller := if k < 2 then Start else if k == 2 then AtLock else if k == 3 then Submitting else Adding;
    State(
      if k < 6 then 0 else 1,
      if k == 0 then [] else [NewTask(1, true).(caller := caller, accepted := k >= 4)],
      if k == 3 then HeldBy(0) else Free,
      if k == 4 then Queued(0) else Empty,
      if k < 5 then Idle else Holding(0),
      k >= 3,
      NotClosed)
  }

  lemma TakingFollows(k: nat)
    requires k < |TAKEN_IN_TIME|
    ensures Step(Taking(k), TAKEN_IN_TIME[k]) == [Taking(k + 1)]
  {
    var before, after := Taking(k).tasks, Taking(k + 1).tasks;
    if k == 0 {
      assert before + [NewTask(1, true)] == after;
    } else {
      assert before[0 := after[0]] == after;
    }
  }

  lemma {:induction false} TakenInTime(k: nat)
    requires k <= |TAKEN_IN_TIME|
    ensures After(Taking(k), TAKEN_IN_TIME[k..]) == Taking(|TAKEN_IN_TIME|)
    decreases |TAKEN_IN_TIME| - k
  {
    hide Taking, Step;
    if k < |TAKEN_IN_TIME| {
      TakingFollows(k);
      TakenInTime(k + 1);
      assert TAKEN_IN_TIME[k..][1..] == TAKEN_IN_TIME[k + 1..];
    }
  }

  // --- who is served, and who is refused ---

  /**
     A caller is told that the worker is closed, or that its call was cancelled, only once `close`
     has begun; in neither case has its operation been called.
   */
  lemma OnlyCloseRefuses(run: seq<Action>, i: nat)
    requires i < |After(INITIAL, run).tasks|
    ensures var s := After(INITIAL, run); var t := s.tasks[i];
      && (t.caller == Left(WorkerClosed) ==> s.closer != NotClosed && !t.accepted && t.ran == 0)
      && (t.caller == Left(CancelledError) ==> s.closer != NotClosed && t.accepted && t.ran == 0)
  {
    RunKeeps(INITIAL, run);
    assert TaskOk(After(INITIAL, run), i, After(INITIAL, run).tasks[i]);
  }

  /** The caller that holds the lock stays there, gets the queue slot, or leaves at its deadline. */
  predicate Served(s: State, i: nat) {
    i < |s.tasks| && (s.tasks[i].caller == Submitting || s.tasks[i].accepted || s.tasks[i].caller == Left(TimedOut))
  }

  lemma SubmitServes(s: State, m: SubmitMove, k: nat, i: nat)
    requires Inv(s) && Served(s, i) && k < |s.tasks|
    ensures forall r | r in SubmitStep(s, m, k) :: Served(r, i)
  {
    assert TaskOk(s, i, s.tasks[i]);
    hide Inv, Hands, HandedOver, Patient, CleanupToCome;
  }

  lemma AwaitServes(s: State, m: AwaitMove, k: nat, i: nat)
    requires Inv(s) && Served(s, i) && k < |s.tasks|
    ensures forall r | r in Lifted(s, k, Awaited(s.tasks[k], s.now, m)) :: Served(r, i)
  {
    assert TaskOk(s, i, s.tasks[i]);
    hide Inv, Hands, HandedOver, Patient, CleanupToCome;
  }

  lemma ServedStays(s: State, a: Action, i: nat)
    requires Inv(s) && Served(s, i)
    ensures Served(Next(s, a), i)
  {
    hide Inv;
    match a
    case Submit(k, m) => if k < |s.tasks| { SubmitServes(s, m, k, i); }
    case Await(k, m) => if k < |s.tasks| { AwaitServes(s, m, k, i); }
    case _ =>
  }

  /** From the time it holds the lock it is never refused, in whatever order the threads go on. */
  lemma {:induction false} HolderIsServed(s: State, run: seq<Action>, i: nat)
    requires Inv(s) && Served(s, i)
    ensures var t := After(s, run);
      && Inv(t) && i < |t.tasks|
      && var u := t.tasks[i];
      && (u.caller == Submitting || u.accepted || u.caller == Left(TimedOut))
      && (u.caller == Submitting ==> t.lock == HeldBy(i) && t.closer == NotClosed)
      && (u.caller == Left(TimedOut) ==> t.now >= u.deadline || u.future == Finished(Error(true)))
    decreases |run|
  {
    if run == [] {
      assert TaskOk(s, i, s.tasks[i]);
    } else {
      NextKeeps(s, run[0]);
      ServedStays(s, run[0], i);
      hide Inv, Next, Served;
      HolderIsServed(Next(s, run[0]), run[1..], i);
    }
  }

  lemma NextKeeps(s: State, a: Action)
    requires Inv(s)
    ensures Inv(Next(s, a))
  {
    hide Inv, Step;
    StepKeeps(s, a);
  }

  /** What each step of `submit` does, wherever a run has come to. */
  lemma SubmitGoesOn(run: seq<Action>, i: nat)
    requires i < |After(INITIAL, run).tasks|
    ensures var s := After(INITIAL, run); var t := s.tasks[i];
      && (t.caller == Start ==>
            Next(s, Submit(i, CheckTime)) == s.Set(i, t.(caller := if s.now >= t.deadline then Left(TimedOut) else AtLock)))
      && (t.caller == AtLock && s.lock == Free ==>
            var r := Next(s, Submit(i, TakeLock));
            if s.closer == NotClosed
            then r == s.Set(i, t.(caller := Submitting)).(lock := HeldBy(i), started := true)
            else r == s.Set(i, t.(caller := Left(WorkerClosed))))
      && (t.caller == Submitting ==>
            && s.lock == HeldBy(i) && s.closer == NotClosed
            && (s.slot == Empty ==>
                  var r := Next(s, Submit(i, Put));
                  r.slot == Queued(i) && r.lock == Free && r.tasks[i] == t.(caller := Adding, accepted := true))
            && (s.slot != Empty && s.now >= t.deadline ==>
                  var r := Next(s, Submit(i, QueueFull));
                  r.slot == s.slot && r.lock == Free && r.tasks[i] == t.(caller := Left(TimedOut)))
            && (s.slot != Empty && s.now < t.deadline ==>
                  forall m :: Next(s, Submit(i, m)) == s && forall n :: Next(s, Await(i, n)) == s))
  {
    RunKeeps(INITIAL, run);
    assert TaskOk(After(INITIAL, run), i, After(INITIAL, run).tasks[i]);
    hide After, Inv, Hands;
  }

  /** How far a caller still has to go. */
  function StepsToLeave(c: Caller): nat {
    match c
    case Start => 9
    case AtLock => 8
    case Submitting => 7
    case Adding => 6
    case Waiting => 5
    case MarkExpired => 4
    case Claiming => 4
    case Cancelling => 3
    case DirectCleanup => 2
    case DirectCleaning => 1
    case Left(_) => 0
  }

  /**
     Nobody waits beyond the deadline: from then on each caller has a step it can take, unless it
     waits for the lock of the worker, and each of its steps brings it nearer to leaving.
   */
  lemma CallersLeave(run: seq<Action>, i: nat)
    requires i < |After(INITIAL, run).tasks|
    ensures var s := After(INITIAL, run); var t := s.tasks[i];
      && (s.now >= t.deadline && !t.caller.Left? && !(t.caller == AtLock && s.lock != Free) ==>
            (exists m :: SubmitStep(s, m, i) != []) || exists m :: Awaited(t, s.now, m) != [])
      && (forall m :: var r := SubmitStep(s, m, i);
            r == [] || (i < |r[0].tasks| && StepsToLeave(r[0].tasks[i].caller) < StepsToLeave(t.caller)))
      && (forall m :: var u := Awaited(t, s.now, m); u == [] || StepsToLeave(u[0].caller) < StepsToLeave(t.caller))
  {
    hide After, SubmitStep, Awaited, StepsToLeave;
    var s := After(INITIAL, run);
    if s.now >= s.tasks[i].deadline && !s.tasks[i].caller.Left? {
      CallerHasStep(s, i);
    }
    forall m {
      SubmitCountsDown(s, m, i);
    }
    forall m {
      AwaitCountsDown(s.tasks[i], s.now, m);
    }
  }

  lemma SubmitCountsDown(s: State, m: SubmitMove, i: nat)
    requires i < |s.tasks|
    ensures var r := SubmitStep(s, m, i);
      r == [] || (i < |r[0].tasks| && StepsToLeave(r[0].tasks[i].caller) < StepsToLeave(s.tasks[i].caller))
  {
  }

  lemma AwaitCountsDown(t: Task, now: nat, m: AwaitMove)
    ensures var u := Awaited(t, now, m); u == [] || StepsToLeave(u[0].caller) < StepsToLeave(t.caller)
  {
  }

  lemma CallerHasStep(s: State, i: nat)
    requires i < |s.tasks| && s.now >= s.tasks[i].deadline && !s.tasks[i].caller.Left?
    ensures s.tasks[i].caller != AtLock || s.lock == Free ==>
      (exists m :: SubmitStep(s, m, i) != []) || exists m :: Awaited(s.tasks[i], s.now, m) != []
  {
    var t := s.tasks[i];
    match t.caller
    case Start => assert SubmitStep(s, CheckTime, i) != [];
    case AtLock => if s.lock == Free { assert SubmitStep(s, TakeLock, i) != []; }
    case Submitting => assert SubmitStep(s, if s.slot == Empty then Put else QueueFull, i) != [];
    case Adding => assert SubmitStep(s, AddCallback, i) != [];
    case Waiting => assert Awaited(t, s.now, if t.future.Done() then Observe else WaitTimesOut) != [];
    case MarkExpired => assert Awaited(t, s.now, Mark) != [];
    case Cancelling => assert Awaited(t, s.now, Cancel) != [];
    case Claiming => assert Awaited(t, s.now, Claim) != [];
    case DirectCleanup => assert Awaited(t, s.now, DirectBlock) != [];
    case DirectCleaning => assert Awaited(t, s.now, DirectClean) != [];
  }

  /** What a done future means to the caller that waits for it: a value in time is returned. */
  lemma WaitEnds(s: State, i: nat)
    requires i < |s.tasks| && s.tasks[i].caller == Waiting
    ensures var t := s.tasks[i]; var seen := Next(s, Await(i, Observe));
      && (t.future == Finished(Value) && s.now < t.deadline ==>
            Next(seen, Await(i, Claim)) == s.Set(i, t.(caller := Left(Returned), claimed := true, claimedAt := s.now)))
      && (t.future == Finished(Error(false)) ==> seen == s.Set(i, t.(caller := Left(OperationError))))
      && (t.future == Finished(Error(true)) ==> seen == s.Set(i, t.(caller := MarkExpired)))
      && (t.future == Cancelled ==> seen == s.Set(i, t.(caller := Left(CancelledError))))
      && (t.future == Pending || t.future == Running ==>
            && seen == s
            && Next(s, Await(i, WaitTimesOut)) == if s.now >= t.deadline then s.Set(i, t.(caller := MarkExpired)) else s)
  {
    var t := s.tasks[i];
    var seen := Next(s, Await(i, Observe));
    assert t.future == Finished(Value) ==> seen.tasks == s.tasks[i := t.(caller := Claiming)];
  }

  function StepsToClosed(s: State): nat {
    match s.closer
    case NotClosed => 5
    case Draining => if s.slot.Queued? then 4 else 2
    case CancellingQueued(_) => 3
    case PuttingStop => 1
    case Closed => 0
  }

  /** `close` begins as soon as the lock is free and comes to its end: it always has a step that brings it nearer. */
  lemma CloseEnds(run: seq<Action>)
    ensures var s := After(INITIAL, run);
      && (s.closer == NotClosed && s.lock == Free ==>
            Next(s, Close(CloseBegin)) == s.(closer := Draining, lock := HeldByCloser))
      && (s.lock == HeldByCloser ==> exists m :: CloserStep(s, m) != [])
      && (forall m :: var r := CloserStep(s, m); r == [] || StepsToClosed(r[0]) < StepsToClosed(s))
  {
    RunKeeps(INITIAL, run);
    assert QueueOk(After(INITIAL, run));
    hide *;
    CloserGoesOn(After(INITIAL, run));
  }

  lemma CloserGoesOn(s: State)
    requires QueueOk(s)
    ensures s.closer == NotClosed && s.lock == Free ==>
      Next(s, Close(CloseBegin)) == s.(closer := Draining, lock := HeldByCloser)
    ensures s.lock == HeldByCloser ==> exists m :: CloserStep(s, m) != []
    ensures forall m :: var r := CloserStep(s, m); r == [] || StepsToClosed(r[0]) < StepsToClosed(s)
  {
    var m := if s.closer == Draining then CloseDrain else if s.closer == PuttingStop then ClosePutStop else CloseCancel;
    assert s.lock == HeldByCloser ==> CloserStep(s, m) != [];
  }

  /** After `close` nothing is accepted. */
  lemma {:induction false} ClosedForGood(s: State, run: seq<Action>, i: nat)
    requires Inv(s) && i < |s.tasks| && s.closer == Closed && !s.tasks[i].accepted
    ensures var t := After(s, run); i < |t.tasks| && t.closer == Closed && !t.tasks[i].accepted
    decreases |run|
  {
    if run != [] {
      hide Inv, Next, Follows;
      NextFollows(s, run[0], i);
      ClosedForGood(Next(s, run[0]), run[1..], i);
    }
  }

  function Rank(w: Worker): nat {
    match w
    case Stopped => 0
    case Idle => 1
    case Notifying(_) => 2
    case Operating(_) => 3
    case Holding(_) => 4
  }

  /**
     After `close` every accepted task is done but for the one in the worker's hand, and each
     step of the worker brings it nearer to its end: the stop token is never lost.
   */
  lemma CloseSettles(run: seq<Action>, m: WorkerMove)
    requires After(INITIAL, run).closer == Closed
    ensures var s := After(INITIAL, run);
      && (forall i: nat | i < |s.tasks| && s.tasks[i].accepted ::
            s.tasks[i].future.Done() || s.worker == Holding(i) || s.worker == Operating(i))
      && (s.worker != Stopped ==> s.slot == Stop)
      && (forall r | r in WorkerStep(s, m) :: Rank(r.worker) < Rank(s.worker))
  {
    RunKeeps(INITIAL, run);
    var s := After(INITIAL, run);
    forall i: nat | i < |s.tasks| && s.tasks[i].accepted
      ensures s.tasks[i].future.Done() || s.worker == Holding(i) || s.worker == Operating(i)
    {
      assert TaskOk(s, i, s.tasks[i]);
    }
  }

  /**
     The worker never gets stuck: until it has stopped, some step of it is enabled, or the callback
     that it waits for is, or the queue is empty.  (An operation that runs is taken to end at some
     time; its future then has the outcome that it ended with.)
   */
  lemma WorkerProgresses(run: seq<Action>, outcome: Outcome)
    requires After(INITIAL, run).started && After(INITIAL, run).worker != Stopped
    ensures var s := After(INITIAL, run);
      && ((s.worker == Idle && s.slot == Empty)
          || (exists m :: WorkerStep(s, m) != [])
          || (s.worker.Notifying? && exists m :: Step(s, CallBack(s.worker.task, m)) != []))
      && (s.worker.Operating? ==>
            var r := Next(s, Work(WorkerFinish(outcome)));
            s.worker.task < |r.tasks| && r.tasks[s.worker.task].future == Finished(outcome))
  {
    RunKeeps(INITIAL, run);
    var s := After(INITIAL, run);
    assert QueueOk(s);
    hide *;
    WorkerGoesOn(s, outcome);
    OutcomeStays(s, outcome);
  }

  lemma WorkerGoesOn(s: State, outcome: Outcome)
    requires QueueOk(s) && s.started && s.worker != Stopped
    ensures (s.worker == Idle && s.slot == Empty)
            || (exists m :: WorkerStep(s, m) != [])
            || (s.worker.Notifying? && exists m :: Step(s, CallBack(s.worker.task, m)) != [])
  {
    match s.worker
    case Idle => if s.slot != Empty { assert WorkerStep(s, WorkerGet) != []; }
    case Holding(i) => assert WorkerStep(s, WorkerStart) != [];
    case Operating(i) => assert WorkerStep(s, WorkerFinish(outcome)) != [];
    case Notifying(i) =>
      if s.tasks[i].callback == Firing {
        assert Step(s, CallBack(i, CallbackBlock)) != [];
      } else if s.tasks[i].callback == Cleaning {
        assert Step(s, CallBack(i, CallbackClean)) != [];
      } else {
        assert WorkerStep(s, WorkerNext) != [];
      }
    case Stopped =>
  }

  lemma OutcomeStays(s: State, outcome: Outcome)
    requires QueueOk(s) && s.started
    ensures s.worker.Operating? ==>
      var r := Next(s, Work(WorkerFinish(outcome)));
      s.worker.task < |r.tasks| && r.tasks[s.worker.task].future == Finished(outcome)
  {
  }

  /** And after `close` it goes on until it has stopped. */
  lemma CloseProgresses(run: seq<Action>)
    requires After(INITIAL, run).closer == Closed && After(INITIAL, run).started && After(INITIAL, run).worker != Stopped
    ensures var s := After(INITIAL, run);
      || (exists m :: WorkerStep(s, m) != [])
      || (s.worker.Notifying? && exists m :: Step(s, CallBack(s.worker.task, m)) != [])
  {
    RunKeeps(INITIAL, run);
    assert QueueOk(After(INITIAL, run));
    hide After, Inv, WorkerStep, Step;
    WorkerProgresses(run, Value);
  }
}
