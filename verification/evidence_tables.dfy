/**
 The research evidence tables and the triggers, foreign keys and unique indexes that guard them:
 data snapshots and their items, research requests, agent runs, plans, steps, tool invocations
 and observations.  Transactions are taken one statement at a time, in some serial order.  Rows
 hold the columns that a guard reads; an update may also change the primary key.
 */
module EvidenceTables {
  import opened Basics

  type Id = nat

  datatype SnapshotStatus = BUILDING | COMPLETE | PARTIAL | FAILED | SUPERSEDED
  datatype RunStatus = CREATED | PLANNING | PLANNED | RUNNING | PAUSED | COMPLETED | PARTIAL | BLOCKED | FAILED | CANCELLED
  datatype StepStatus = PENDING | READY | RUNNING | PASS | PARTIAL | BLOCKED | FAIL | SKIPPED
  datatype InvocationStatus = PENDING | RUNNING | PASS | PARTIAL | BLOCKED | FAIL

  datatype Snapshot = Snapshot(security: Id, asOf: int, version: nat, status: SnapshotStatus)
  datatype Item = Item(snapshot: Id, publishedAt: Option<int>, retrievedAt: int)
  /** `profile` stands for research type, policy, planner and tool catalogue together. */
  datatype Request = Request(security: Id, snapshot: Id, asOf: int, profile: int)
  datatype Run = Run(request: Id, security: Id, snapshot: Id, asOf: int, profile: int, status: RunStatus)
  datatype Plan = Plan(run: Id)
  /** `shape` and `attempt` stand for the other columns that may not change. */
  datatype Step = Step(run: Id, plan: Id, toolName: Option<int>, shape: int, status: StepStatus)
  datatype Invocation = Invocation(run: Id, step: Id, attempt: int, status: InvocationStatus)
  datatype Observation = Observation(run: Id, step: Id, invocation: Option<Id>, security: Id, snapshot: Id, asOf: int)

  datatype Db = Db(
    snapshots: map<Id, Snapshot>,
    items: map<Id, Item>,
    requests: map<Id, Request>,
    runs: map<Id, Run>,
    plans: map<Id, Plan>,
    steps: map<Id, Step>,
    invocations: map<Id, Invocation>,
    observations: map<Id, Observation>)

  const EMPTY := Db(map[], map[], map[], map[], map[], map[], map[], map[])

  /** The statements that some guard lets through; every other one on these tables is refused. */
  datatype Statement =
    | InsertSnapshot(id: Id, snapshot: Snapshot)
    | UpdateSnapshot(id: Id, newId: Id, snapshot: Snapshot)
    | DeleteSnapshot(id: Id)
    | InsertItem(id: Id, item: Item)
    | UpdateItem(id: Id, newId: Id, item: Item)
    | DeleteItem(id: Id)
    | InsertRequest(id: Id, request: Request)
    | InsertRun(id: Id, run: Run)
    | UpdateRun(id: Id, newId: Id, run: Run)
    | InsertPlan(id: Id, plan: Plan)
    | InsertStep(id: Id, step: Step)
    | UpdateStep(id: Id, newId: Id, step: Step)
    | InsertInvocation(id: Id, invocation: Invocation)
    | UpdateInvocation(id: Id, newId: Id, invocation: Invocation)
    | InsertObservation(id: Id, observation: Observation)

  // --- references ---

  predicate SnapshotReferenced(db: Db, id: Id) {
    || (exists k | k in db.items :: db.items[k].snapshot == id)
    || (exists k | k in db.requests :: db.requests[k].snapshot == id)
    || (exists k | k in db.runs :: db.runs[k].snapshot == id)
    || (exists k | k in db.observations :: db.observations[k].snapshot == id)
  }

  predicate RunReferenced(db: Db, id: Id) {
    || (exists k | k in db.plans :: db.plans[k].run == id)
    || (exists k | k in db.steps :: db.steps[k].run == id)
    || (exists k | k in db.invocations :: db.invocations[k].run == id)
    || (exists k | k in db.observations :: db.observations[k].run == id)
  }

  predicate StepReferenced(db: Db, id: Id) {
    || (exists k | k in db.invocations :: db.invocations[k].step == id)
    || (exists k | k in db.observations :: db.observations[k].step == id)
  }

  predicate InvocationReferenced(db: Db, id: Id) {
    exists k | k in db.observations :: db.observations[k].invocation == Some(id)
  }

  /** Replace a row, perhaps under a new key: nothing stays under the old one, and the other rows stay. */
  function Replaced<R>(table: map<Id, R>, id: Id, newId: Id, row: R): (after: map<Id, R>)
    ensures newId in after && after[newId] == row && (newId != id ==> id !in after)
    ensures forall k | k != id && k != newId :: (k in after <==> k in table) && (k in table ==> after[k] == table[k])
  {
    (table - {id})[newId := row]
  }

  /** A primary key may change when it is free and nothing refers to the old one. */
  predicate MayRekey<R>(table: map<Id, R>, id: Id, newId: Id, referenced: bool) {
    id in table && (newId == id || (newId !in table && !referenced))
  }

  // --- what each guard demands ---

  predicate IsTerminalRun(s: RunStatus) {
    s == COMPLETED || s == RunStatus.PARTIAL || s == RunStatus.BLOCKED || s == RunStatus.FAILED || s == CANCELLED
  }

  predicate RunMoves(a: RunStatus, b: RunStatus) {
    a == b ||
    match a
    case CREATED => b == PLANNING
    case PLANNING => b == PLANNED || b == RunStatus.BLOCKED || b == RunStatus.FAILED
    case PLANNED => b == RunStatus.RUNNING
    case RUNNING => b == PAUSED || IsTerminalRun(b)
    case PAUSED => b == RunStatus.RUNNING || b == CANCELLED
    case _ => false
  }

  predicate IsTerminalStep(s: StepStatus) {
    s == StepStatus.PASS || s == StepStatus.PARTIAL || s == StepStatus.BLOCKED || s == StepStatus.FAIL || s == SKIPPED
  }

  predicate StepMoves(a: StepStatus, b: StepStatus) {
    a == b ||
    match a
    case PENDING => b == READY || b == StepStatus.BLOCKED || b == SKIPPED
    case READY => b == StepStatus.RUNNING || b == StepStatus.BLOCKED || b == SKIPPED
    case RUNNING => IsTerminalStep(b) && b != SKIPPED
    case _ => false
  }

  predicate IsTerminalInvocation(s: InvocationStatus) { s != InvocationStatus.PENDING && s != InvocationStatus.RUNNING }

  predicate InvocationMoves(a: InvocationStatus, b: InvocationStatus) {
    a == b || a == InvocationStatus.PENDING || (a == InvocationStatus.RUNNING && IsTerminalInvocation(b))
  }

  predicate WithinCutoff(i: Item, cutoff: int) {
    i.retrievedAt <= cutoff && (i.publishedAt.Some? ==> i.publishedAt.value <= cutoff)
  }

  predicate IsBuilding(snapshots: map<Id, Snapshot>, id: Id) { id in snapshots && snapshots[id].status == BUILDING }

  predicate ItemFits(snapshots: map<Id, Snapshot>, i: Item) {
    IsBuilding(snapshots, i.snapshot) && WithinCutoff(i, snapshots[i.snapshot].asOf)
  }

  /** The items of one snapshot. */
  function ItemsOf(items: map<Id, Item>, snapshot: Id): map<Id, Item> {
    map k | k in items && items[k].snapshot == snapshot :: items[k]
  }

  predicate MayComplete(items: map<Id, Item>, id: Id, status: SnapshotStatus) {
    var own := ItemsOf(items, id);
    && (status == SnapshotStatus.FAILED ==> own == map[])
    && (status == COMPLETE ==> own != map[] && forall k | k in own :: own[k].publishedAt.Some?)
  }

  lemma MayCompleteIs(items: map<Id, Item>, id: Id, status: SnapshotStatus)
    ensures MayComplete(items, id, status) <==>
      && (status == SnapshotStatus.FAILED ==> forall k | k in items :: items[k].snapshot != id)
      && (status == COMPLETE ==>
            && (exists k :: k in items && items[k].snapshot == id)
            && forall k | k in items && items[k].snapshot == id :: items[k].publishedAt.Some?)
  {
    var own := ItemsOf(items, id);
    assert own != map[] ==> exists k :: k in own;
    assert forall k | k in items && items[k].snapshot == id :: k in own;
  }

  predicate RequestFits(snapshots: map<Id, Snapshot>, r: Request) {
    && r.snapshot in snapshots
    && snapshots[r.snapshot].security == r.security
    && snapshots[r.snapshot].asOf <= r.asOf
    && (snapshots[r.snapshot].status == COMPLETE || snapshots[r.snapshot].status == SnapshotStatus.PARTIAL)
  }

  predicate RunFits(requests: map<Id, Request>, r: Run) {
    r.request in requests &&
    var q := requests[r.request];
    q.security == r.security && q.snapshot == r.snapshot && q.asOf == r.asOf && q.profile == r.profile
  }

  predicate ObservationFits(db: Db, o: Observation) {
    && o.run in db.runs && o.step in db.steps && db.steps[o.step].run == o.run
    && o.security == db.runs[o.run].security && o.snapshot == db.runs[o.run].snapshot
    && (match o.invocation
        case None => db.steps[o.step].toolName == None
        case Some(i) =>
          && db.steps[o.step].toolName != None
          && i in db.invocations && db.invocations[i].run == o.run && db.invocations[i].step == o.step)
  }

  /** The two partial unique indexes on observations. */
  predicate Clash(a: Observation, b: Observation) {
    (a.invocation != None && a.invocation == b.invocation)
    || (a.invocation == None && b.invocation == None && a.step == b.step)
  }

  predicate NoClash(db: Db, o: Observation) {
    forall k | k in db.observations :: !Clash(db.observations[k], o)
  }

  predicate Admissible(db: Db, st: Statement) {
    match st
    case InsertSnapshot(id, s) => id !in db.snapshots && s.status == BUILDING
    case UpdateSnapshot(id, newId, s) =>
      && MayRekey(db.snapshots, id, newId, SnapshotReferenced(db, id)) && IsBuilding(db.snapshots, id)
      && s.security == db.snapshots[id].security && s.asOf == db.snapshots[id].asOf && s.version == db.snapshots[id].version
      && MayComplete(db.items, id, s.status)
    case DeleteSnapshot(id) => IsBuilding(db.snapshots, id) && !SnapshotReferenced(db, id)
    case InsertItem(id, i) => id !in db.items && ItemFits(db.snapshots, i)
    case UpdateItem(id, newId, i) =>
      MayRekey(db.items, id, newId, false) && IsBuilding(db.snapshots, db.items[id].snapshot) && ItemFits(db.snapshots, i)
    case DeleteItem(id) => id in db.items && IsBuilding(db.snapshots, db.items[id].snapshot)
    case InsertRequest(id, r) => id !in db.requests && RequestFits(db.snapshots, r)
    case InsertRun(id, r) => id !in db.runs && RunFits(db.requests, r)
    case UpdateRun(id, newId, r) =>
      && MayRekey(db.runs, id, newId, RunReferenced(db, id)) && !IsTerminalRun(db.runs[id].status)
      && r == db.runs[id].(status := r.status) && RunMoves(db.runs[id].status, r.status)
    case InsertPlan(id, p) => id !in db.plans && p.run in db.runs && forall k | k in db.plans :: db.plans[k].run != p.run
    case InsertStep(id, s) => id !in db.steps && s.run in db.runs && s.plan in db.plans && db.plans[s.plan].run == s.run
    case UpdateStep(id, newId, s) =>
      && MayRekey(db.steps, id, newId, StepReferenced(db, id)) && !IsTerminalStep(db.steps[id].status)
      && s == db.steps[id].(status := s.status) && StepMoves(db.steps[id].status, s.status)
    case InsertInvocation(id, i) => id !in db.invocations && i.run in db.runs && i.step in db.steps && db.steps[i.step].run == i.run
    case UpdateInvocation(id, newId, i) =>
      && MayRekey(db.invocations, id, newId, InvocationReferenced(db, id)) && !IsTerminalInvocation(db.invocations[id].status)
      && i == db.invocations[id].(status := i.status) && InvocationMoves(db.invocations[id].status, i.status)
    case InsertObservation(id, o) => id !in db.observations && ObservationFits(db, o) && NoClash(db, o)
  }

  function Applied(db: Db, st: Statement): Db {
    match st
    case InsertSnapshot(id, s) => db.(snapshots := db.snapshots[id := s])
    case UpdateSnapshot(id, newId, s) => db.(snapshots := Replaced(db.snapshots, id, newId, s))
    case DeleteSnapshot(id) => db.(snapshots := db.snapshots - {id})
    case InsertItem(id, i) => db.(items := db.items[id := i])
    case UpdateItem(id, newId, i) => db.(items := Replaced(db.items, id, newId, i))
    case DeleteItem(id) => db.(items := db.items - {id})
    case InsertRequest(id, r) => db.(requests := db.requests[id := r])
    case InsertRun(id, r) => db.(runs := db.runs[id := r])
    case UpdateRun(id, newId, r) => db.(runs := Replaced(db.runs, id, newId, r))
    case InsertPlan(id, p) => db.(plans := db.plans[id := p])
    case InsertStep(id, s) => db.(steps := db.steps[id := s])
    case UpdateStep(id, newId, s) => db.(steps := Replaced(db.steps, id, newId, s))
    case InsertInvocation(id, i) => db.(invocations := db.invocations[id := i])
    case UpdateInvocation(id, newId, i) => db.(invocations := Replaced(db.invocations, id, newId, i))
    case InsertObservation(id, o) => db.(observations := db.observations[id := o])
  }

  /** A refused statement changes nothing. */
  function Execute(db: Db, st: Statement): Db {
    if Admissible(db, st) then Applied(db, st) else db
  }

  function AfterAll(db: Db, run: seq<Statement>): Db
    decreases |run|
  {
    if run == [] then db else AfterAll(Execute(db, run[0]), run[1..])
  }

  // --- the invariant ---

  ghost predicate SnapshotsOk(snapshots: map<Id, Snapshot>, items: map<Id, Item>) {
    && (forall k | k in items :: items[k].snapshot in snapshots && WithinCutoff(items[k], snapshots[items[k].snapshot].asOf))
    && (forall k | k in items && snapshots[items[k].snapshot].status == COMPLETE :: items[k].publishedAt.Some?)
    && (forall s | s in snapshots && snapshots[s].status == COMPLETE :: exists k :: k in items && items[k].snapshot == s)
  }

  ghost predicate RequestsOk(snapshots: map<Id, Snapshot>, requests: map<Id, Request>, runs: map<Id, Run>) {
    && (forall k | k in requests :: RequestFits(snapshots, requests[k]))
    && (forall k | k in runs :: RunFits(requests, runs[k]))
  }

  ghost predicate StepsOk(runs: map<Id, Run>, plans: map<Id, Plan>, steps: map<Id, Step>, invocations: map<Id, Invocation>) {
    && (forall k | k in plans :: plans[k].run in runs)
    && (forall k | k in steps :: steps[k].run in runs && steps[k].plan in plans && plans[steps[k].plan].run == steps[k].run)
    && (forall k | k in invocations ::
          && invocations[k].run in runs && invocations[k].step in steps
          && steps[invocations[k].step].run == invocations[k].run)
  }

  ghost predicate ObservationsOk(db: Db) {
    && (forall k | k in db.observations :: ObservationFits(db, db.observations[k]))
    && (forall j, k | j in db.observations && k in db.observations && j != k :: !Clash(db.observations[j], db.observations[k]))
  }

  ghost predicate Inv(db: Db) {
    && SnapshotsOk(db.snapshots, db.items)
    && RequestsOk(db.snapshots, db.requests, db.runs)
    && StepsOk(db.runs, db.plans, db.steps, db.invocations)
    && ObservationsOk(db)
  }

  // --- every accepted statement keeps it ---

  lemma SnapshotsKept(db: Db, st: Statement)
    requires Inv(db) && Admissible(db, st)
    ensures SnapshotsOk(Applied(db, st).snapshots, Applied(db, st).items)
  {
    hide ObservationFits, NoClash, StepsOk, RequestsOk, ObservationsOk, MayComplete, RunReferenced, StepReferenced;
    hide SnapshotsOk, SnapshotReferenced, StepMoves, InvocationMoves, RunMoves;
    var snapshots, items := db.snapshots, db.items;
    match st
    case InsertSnapshot(id, s) => SnapshotAdded(snapshots, items, id, s);
    case UpdateSnapshot(id, newId, s) => SnapshotUpdated(db, id, newId, s);
    case DeleteSnapshot(id) => SnapshotRemoved(db, id);
    case InsertItem(id, i) => ItemWritten(snapshots, items, items, id, i);
    case UpdateItem(id, newId, i) => ItemWritten(snapshots, items, items - {id}, newId, i);
    case DeleteItem(id) => ItemRemoved(snapshots, items, id);
    case _ =>
  }

  lemma SnapshotAdded(snapshots: map<Id, Snapshot>, items: map<Id, Item>, id: Id, s: Snapshot)
    requires SnapshotsOk(snapshots, items) && id !in snapshots && s.status == BUILDING
    ensures SnapshotsOk(snapshots[id := s], items)
  {
  }

  lemma SnapshotRemoved(db: Db, id: Id)
    requires SnapshotsOk(db.snapshots, db.items) && !SnapshotReferenced(db, id)
    ensures SnapshotsOk(db.snapshots - {id}, db.items)
  {
  }

  lemma SnapshotUpdated(db: Db, id: Id, newId: Id, s: Snapshot)
    requires SnapshotsOk(db.snapshots, db.items) && MayRekey(db.snapshots, id, newId, SnapshotReferenced(db, id))
    requires IsBuilding(db.snapshots, id) && s.asOf == db.snapshots[id].asOf && MayComplete(db.items, id, s.status)
    ensures SnapshotsOk(Replaced(db.snapshots, id, newId, s), db.items)
  {
    var items := db.items;
    assert newId != id ==> forall k | k in items :: items[k].snapshot != id;
    var own := ItemsOf(items, id);
    forall k | k in items && items[k].snapshot == id
      ensures k in own && own[k] == items[k] && newId == id
    {
    }
    if s.status == COMPLETE {
      var k :| k in own;
      assert k in items && items[k].snapshot == id;
    }
  }

  /** `others` is the items table without the row that is written. */
  lemma ItemWritten(snapshots: map<Id, Snapshot>, items: map<Id, Item>, others: map<Id, Item>, id: Id, i: Item)
    requires SnapshotsOk(snapshots, items) && ItemFits(snapshots, i)
    requires forall k | k in others :: k in items && others[k] == items[k]
    requires forall k | k in items && k !in others :: IsBuilding(snapshots, items[k].snapshot)
    requires id !in others
    ensures SnapshotsOk(snapshots, others[id := i])
  {
    var after := others[id := i];
    forall s | s in snapshots && snapshots[s].status == COMPLETE
      ensures exists k :: k in after && after[k].snapshot == s
    {
      var k :| k in items && items[k].snapshot == s;
      assert k in others && k in after && after[k] == items[k];
    }
    forall k | k in after
      ensures after[k].snapshot in snapshots && WithinCutoff(after[k], snapshots[after[k].snapshot].asOf)
      ensures snapshots[after[k].snapshot].status == COMPLETE ==> after[k].publishedAt.Some?
    {
      assert k == id || (k in others && after[k] == items[k]);
    }
  }

  lemma ItemRemoved(snapshots: map<Id, Snapshot>, items: map<Id, Item>, id: Id)
    requires SnapshotsOk(snapshots, items) && id in items && IsBuilding(snapshots, items[id].snapshot)
    ensures SnapshotsOk(snapshots, items - {id})
  {
    forall s | s in snapshots && snapshots[s].status == COMPLETE
      ensures exists k :: k in items - {id} && items[k].snapshot == s
    {
      var k :| k in items && items[k].snapshot == s;
      assert k in items - {id};
    }
  }

  lemma RequestsKept(db: Db, st: Statement)
    requires Inv(db) && Admissible(db, st)
    ensures RequestsOk(Applied(db, st).snapshots, Applied(db, st).requests, Applied(db, st).runs)
  {
    hide ObservationFits, NoClash, StepsOk, SnapshotsOk, ObservationsOk, MayComplete, ItemFits, RunReferenced, StepReferenced;
    hide StepMoves, InvocationMoves, RunMoves;
  }

  lemma StepsKept(db: Db, st: Statement)
    requires Inv(db) && Admissible(db, st)
    ensures StepsOk(Applied(db, st).runs, Applied(db, st).plans, Applied(db, st).steps, Applied(db, st).invocations)
  {
    hide ObservationFits, NoClash, SnapshotsOk, RequestsOk, ObservationsOk, MayComplete, ItemFits, RunReferenced, StepReferenced;
    hide SnapshotReferenced, InvocationReferenced, RequestFits, RunFits, IsBuilding, RunMoves, StepMoves, InvocationMoves;
    match st
    case UpdateRun(id, newId, r) => RunReplaced(db, id, newId, r);
    case UpdateStep(id, newId, s) => StepReplaced(db, id, newId, s);
    case _ =>
  }

  lemma RunReplaced(db: Db, id: Id, newId: Id, r: Run)
    requires StepsOk(db.runs, db.plans, db.steps, db.invocations) && (newId == id || !RunReferenced(db, id))
    ensures StepsOk(Replaced(db.runs, id, newId, r), db.plans, db.steps, db.invocations)
  {
  }

  lemma StepReplaced(db: Db, id: Id, newId: Id, s: Step)
    requires StepsOk(db.runs, db.plans, db.steps, db.invocations) && MayRekey(db.steps, id, newId, StepReferenced(db, id))
    requires s.run == db.steps[id].run && s.plan == db.steps[id].plan
    ensures StepsOk(db.runs, db.plans, Replaced(db.steps, id, newId, s), db.invocations)
  {
  }

  /** The rows that an observation leans on keep the columns that its lineage reads. */
  predicate LineageHeld(db: Db, after: Db, o: Observation)
    requires ObservationFits(db, o)
  {
    && o.run in after.runs && after.runs[o.run].security == db.runs[o.run].security && after.runs[o.run].snapshot == db.runs[o.run].snapshot
    && after.runs[o.run].asOf == db.runs[o.run].asOf
    && o.step in after.steps && after.steps[o.step].run == db.steps[o.step].run && after.steps[o.step].toolName == db.steps[o.step].toolName
    && (o.invocation.Some? ==>
          && o.invocation.value in after.invocations
          && after.invocations[o.invocation.value].run == db.invocations[o.invocation.value].run
          && after.invocations[o.invocation.value].step == db.invocations[o.invocation.value].step)
  }

  lemma RunLineage(db: Db, id: Id, newId: Id, row: Run, o: Observation)
    requires Admissible(db, UpdateRun(id, newId, row)) && ObservationFits(db, o) && (exists k :: k in db.observations && db.observations[k] == o)
    ensures LineageHeld(db, Applied(db, UpdateRun(id, newId, row)), o)
  {
    hide MayComplete, ItemFits, IsBuilding, RequestFits, RunFits, SnapshotReferenced, NoClash, StepMoves, InvocationMoves, RunMoves;
    assert newId != id ==> o.run != id;
  }

  lemma StepLineage(db: Db, id: Id, newId: Id, row: Step, o: Observation)
    requires Admissible(db, UpdateStep(id, newId, row)) && ObservationFits(db, o) && (exists k :: k in db.observations && db.observations[k] == o)
    ensures LineageHeld(db, Applied(db, UpdateStep(id, newId, row)), o)
  {
    hide MayComplete, ItemFits, IsBuilding, RequestFits, RunFits, SnapshotReferenced, NoClash, StepMoves, InvocationMoves, RunMoves;
    assert newId != id ==> o.step != id;
  }

  lemma InvocationLineage(db: Db, id: Id, newId: Id, row: Invocation, o: Observation)
    requires Admissible(db, UpdateInvocation(id, newId, row)) && ObservationFits(db, o) && (exists k :: k in db.observations && db.observations[k] == o)
    ensures LineageHeld(db, Applied(db, UpdateInvocation(id, newId, row)), o)
  {
    hide MayComplete, ItemFits, IsBuilding, RequestFits, RunFits, SnapshotReferenced, NoClash, StepMoves, InvocationMoves, RunMoves;
    assert newId != id ==> o.invocation != Some(id);
  }

  lemma OtherLineage(db: Db, st: Statement, o: Observation)
    requires !st.UpdateRun? && !st.UpdateStep? && !st.UpdateInvocation? && Admissible(db, st) && ObservationFits(db, o)
    ensures LineageHeld(db, Applied(db, st), o)
  {
    hide MayComplete, ItemFits, IsBuilding, RequestFits, RunFits, SnapshotReferenced, NoClash, Replaced;
  }

  lemma LineageHolds(db: Db, st: Statement, k: Id)
    requires Admissible(db, st) && k in db.observations && ObservationFits(db, db.observations[k])
    ensures LineageHeld(db, Applied(db, st), db.observations[k])
  {
    hide Admissible, Applied, ObservationFits, LineageHeld;
    var o := db.observations[k];
    match st
    case UpdateRun(id, newId, r) => RunLineage(db, id, newId, r, o);
    case UpdateStep(id, newId, s) => StepLineage(db, id, newId, s, o);
    case UpdateInvocation(id, newId, i) => InvocationLineage(db, id, newId, i, o);
    case _ => OtherLineage(db, st, o);
  }

  lemma ObservationsKept(db: Db, st: Statement)
    requires Inv(db) && Admissible(db, st)
    ensures ObservationsOk(Applied(db, st))
  {
    var after := Applied(db, st);
    assert ObservationsOk(db);
    forall k | k in db.observations
      ensures ObservationFits(after, db.observations[k])
    {
      LineageHolds(db, st, k);
      hide Applied, Admissible, Inv;
      assert ObservationFits(db, db.observations[k]);
    }
    ObservationAdded(db, st);
  }

  /** What a statement does to the observations. */
  lemma ObservationsAfter(db: Db, st: Statement)
    requires Admissible(db, st)
    ensures st.InsertObservation? ==>
      && Applied(db, st).observations == db.observations[st.id := st.observation] && st.id !in db.observations
      && Applied(db, st).runs == db.runs && st.observation.run in db.runs
    ensures !st.InsertObservation? ==> Applied(db, st).observations == db.observations
  {
  }

  lemma InsertFits(db: Db, st: Statement)
    requires Admissible(db, st) && st.InsertObservation?
    ensures ObservationFits(Applied(db, st), st.observation) && NoClash(db, st.observation)
  {
  }

  lemma ObservationAdded(db: Db, st: Statement)
    requires ObservationsOk(db) && Admissible(db, st)
    requires forall k | k in db.observations :: ObservationFits(Applied(db, st), db.observations[k])
    ensures ObservationsOk(Applied(db, st))
  {
    hide Applied, Admissible, Clash, ObservationFits;
    ObservationsAfter(db, st);
    if st.InsertObservation? {
      InsertFits(db, st);
      Symmetric();
    }
  }

  lemma Symmetric()
    ensures forall a, b :: Clash(a, b) == Clash(b, a)
  {
  }

  lemma OneStepKeeps(db: Db, st: Statement)
    requires Inv(db)
    ensures Inv(Execute(db, st))
  {
    if Admissible(db, st) {
      SnapshotsKept(db, st);
      RequestsKept(db, st);
      StepsKept(db, st);
      ObservationsKept(db, st);
    }
  }

  lemma {:induction false} RunKeeps(db: Db, run: seq<Statement>)
    requires Inv(db)
    ensures Inv(AfterAll(db, run))
    decreases |run|
  {
    if run != [] {
      OneStepKeeps(db, run[0]);
      RunKeeps(Execute(db, run[0]), run[1..]);
    }
  }

  // --- no look-ahead ---

  /** Nothing that a request or a run may use was retrieved or published after its as-of time. */
  ghost predicate NoLookAhead(db: Db) {
    && (forall q, k | q in db.requests && k in db.items && db.items[k].snapshot == db.requests[q].snapshot ::
          WithinCutoff(db.items[k], db.requests[q].asOf))
    && (forall r, k | r in db.runs && k in db.items && db.items[k].snapshot == db.runs[r].snapshot ::
          WithinCutoff(db.items[k], db.runs[r].asOf))
  }

  lemma InvariantGivesNoLookAhead(db: Db)
    requires Inv(db)
    ensures NoLookAhead(db)
  {
    forall q | q in db.requests
      ensures RequestFits(db.snapshots, db.requests[q])
    {
    }
    forall r | r in db.runs
      ensures RunFits(db.requests, db.runs[r]) && RequestFits(db.snapshots, db.requests[db.runs[r].request])
    {
    }
  }

  /** In every state that any statements can reach: the times of an item against those of its users. */
  lemma NeverLooksAhead(run: seq<Statement>)
    ensures NoLookAhead(AfterAll(EMPTY, run))
    ensures var db := AfterAll(EMPTY, run);
      && (forall q, k | q in db.requests && k in db.items && db.items[k].snapshot == db.requests[q].snapshot ::
            && db.items[k].retrievedAt <= db.requests[q].asOf
            && (db.items[k].publishedAt.Some? ==> db.items[k].publishedAt.value <= db.requests[q].asOf))
      && (forall r, k | r in db.runs && k in db.items && db.items[k].snapshot == db.runs[r].snapshot ::
            && db.items[k].retrievedAt <= db.runs[r].asOf
            && (db.items[k].publishedAt.Some? ==> db.items[k].publishedAt.value <= db.runs[r].asOf))
      && (forall k | k in db.items && db.items[k].snapshot in db.snapshots && db.snapshots[db.items[k].snapshot].status == COMPLETE ::
            db.items[k].publishedAt.Some?)
      && (forall q | q in db.requests :: db.requests[q].snapshot in db.snapshots &&
            db.snapshots[db.requests[q].snapshot].status in {COMPLETE, SnapshotStatus.PARTIAL})
  {
    RunKeeps(EMPTY, run);
    InvariantGivesNoLookAhead(AfterAll(EMPTY, run));
    hide AfterAll, StepsOk, ObservationsOk;
    var db := AfterAll(EMPTY, run);
    forall q | q in db.requests
      ensures RequestFits(db.snapshots, db.requests[q])
    {
    }
  }

  /** Only a snapshot that is still being built changes, and only its items do. */
  lemma BuiltStays(db: Db, st: Statement, s: Id)
    requires SnapshotsOk(db.snapshots, db.items) && Admissible(db, st) && s in db.snapshots && !IsBuilding(db.snapshots, s)
    ensures var next := Applied(db, st);
      && s in next.snapshots && next.snapshots[s] == db.snapshots[s]
      && ItemsOf(next.items, s) == ItemsOf(db.items, s)
  {
    hide ObservationFits, NoClash, MayComplete, RunReferenced, StepReferenced, SnapshotReferenced, InvocationReferenced;
    hide StepMoves, InvocationMoves, RunMoves, RunFits, RequestFits;
    assert forall k | k in db.items :: db.items[k].snapshot in db.snapshots;
    hide SnapshotsOk;
  }

  lemma RequestStays(db: Db, st: Statement, q: Id)
    requires Admissible(db, st) && q in db.requests
    ensures q in Applied(db, st).requests && Applied(db, st).requests[q] == db.requests[q]
  {
  }

  lemma StatementFreezes(db: Db, st: Statement, q: Id)
    requires Inv(db) && q in db.requests
    ensures var next, s := Execute(db, st), db.requests[q].snapshot;
      && q in next.requests && next.requests[q] == db.requests[q]
      && s in db.snapshots && s in next.snapshots && next.snapshots[s] == db.snapshots[s]
      && ItemsOf(next.items, s) == ItemsOf(db.items, s)
  {
    assert RequestFits(db.snapshots, db.requests[q]);
    hide Applied, Admissible, ItemsOf, SnapshotsOk, StepsOk, ObservationsOk;
    if Admissible(db, st) {
      RequestStays(db, st, q);
      BuiltStays(db, st, db.requests[q].snapshot);
    }
  }

  /** From the moment a request is there, its snapshot and the items of it never change. */
  lemma {:induction false} SnapshotFrozen(db: Db, run: seq<Statement>, q: Id)
    requires Inv(db) && q in db.requests
    ensures var s, last := db.requests[q].snapshot, AfterAll(db, run);
      && q in last.requests && last.requests[q] == db.requests[q]
      && s in db.snapshots && s in last.snapshots && last.snapshots[s] == db.snapshots[s]
      && ItemsOf(last.items, s) == ItemsOf(db.items, s)
      && (forall k, i :: k in db.items && db.items[k] == i && i.snapshot == s <==> k in last.items && last.items[k] == i && i.snapshot == s)
    decreases |run|
  {
    assert RequestFits(db.snapshots, db.requests[q]);
    if run != [] {
      StatementFreezes(db, run[0], q);
      OneStepKeeps(db, run[0]);
      SnapshotFrozen(Execute(db, run[0]), run[1..], q);
    }
    var s, last := db.requests[q].snapshot, AfterAll(db, run);
    ItemsAre(db.items, s);
    ItemsAre(last.items, s);
  }

  lemma ItemsAre(items: map<Id, Item>, s: Id)
    ensures forall k, i :: k in ItemsOf(items, s) && ItemsOf(items, s)[k] == i <==> k in items && items[k] == i && i.snapshot == s
  {
  }

  // --- terminal rows ---

  /** Nothing is done to a run, a step or an invocation that is over. */
  predicate Over(db: Db, next: Db) {
    && (forall k | k in db.runs && db.runs[k].status in {COMPLETED, RunStatus.PARTIAL, RunStatus.BLOCKED, RunStatus.FAILED, CANCELLED} ::
          k in next.runs && next.runs[k] == db.runs[k])
    && (forall k | k in db.steps && db.steps[k].status !in {StepStatus.PENDING, READY, StepStatus.RUNNING} ::
          k in next.steps && next.steps[k] == db.steps[k])
    && (forall k | k in db.invocations && db.invocations[k].status !in {InvocationStatus.PENDING, InvocationStatus.RUNNING} ::
          k in next.invocations && next.invocations[k] == db.invocations[k])
  }

  lemma StatementLeavesOver(db: Db, st: Statement)
    ensures Over(db, Execute(db, st))
  {
    hide Admissible;
    if Admissible(db, st) {
      if st.UpdateRun? || st.UpdateStep? || st.UpdateInvocation? {
        UpdateLeavesOver(db, st);
      } else {
        InsertLeavesOver(db, st);
      }
    }
  }

  lemma InsertLeavesOver(db: Db, st: Statement)
    requires Admissible(db, st) && !st.UpdateRun? && !st.UpdateStep? && !st.UpdateInvocation?
    ensures Over(db, Applied(db, st))
  {
    hide ObservationFits, NoClash, MayComplete, SnapshotReferenced, ItemFits, RequestFits, RunFits, MayRekey;
  }

  lemma UpdateLeavesOver(db: Db, st: Statement)
    requires Admissible(db, st) && (st.UpdateRun? || st.UpdateStep? || st.UpdateInvocation?)
    ensures Over(db, Applied(db, st))
  {
    hide RunReferenced, StepReferenced, InvocationReferenced, StepMoves, RunMoves, InvocationMoves;
  }

  /** Once a run, a step or a tool invocation has ended, no statement changes it any more. */
  lemma {:induction false} EndedStays(db: Db, run: seq<Statement>)
    ensures var last := AfterAll(db, run);
      && (forall k | k in db.runs && db.runs[k].status in {COMPLETED, RunStatus.PARTIAL, RunStatus.BLOCKED, RunStatus.FAILED, CANCELLED} ::
            k in last.runs && last.runs[k] == db.runs[k])
      && (forall k | k in db.steps && db.steps[k].status !in {StepStatus.PENDING, READY, StepStatus.RUNNING} ::
            k in last.steps && last.steps[k] == db.steps[k])
      && (forall k | k in db.invocations && db.invocations[k].status !in {InvocationStatus.PENDING, InvocationStatus.RUNNING} ::
            k in last.invocations && last.invocations[k] == db.invocations[k])
    decreases |run|
  {
    if run != [] {
      StatementLeavesOver(db, run[0]);
      hide Execute;
      EndedStays(Execute(db, run[0]), run[1..]);
    }
  }

  // --- observation lineage ---

  /** Every reachable observation has its run, step and invocation in line, and none clashes. */
  lemma LineageAlwaysHolds(run: seq<Statement>)
    ensures var db := AfterAll(EMPTY, run);
      ObservationsOk(db) && StepsOk(db.runs, db.plans, db.steps, db.invocations)
    ensures var db := AfterAll(EMPTY, run);
      && (forall k | k in db.observations ::
            var o := db.observations[k];
            && o.run in db.runs && o.security == db.runs[o.run].security && o.snapshot == db.runs[o.run].snapshot
            && o.step in db.steps && db.steps[o.step].run == o.run
            && (o.invocation.Some? <==> db.steps[o.step].toolName.Some?)
            && (o.invocation.Some? ==>
                  o.invocation.value in db.invocations && db.invocations[o.invocation.value] == db.invocations[o.invocation.value].(run := o.run, step := o.step)))
      && (forall j, k | j in db.observations && k in db.observations && j != k ::
            var a, b := db.observations[j], db.observations[k];
            a.invocation == b.invocation ==> a.invocation.None? && a.step != b.step)
  {
    RunKeeps(EMPTY, run);
    var db := AfterAll(EMPTY, run);
    hide AfterAll, SnapshotsOk, RequestsOk;
    assert ObservationsOk(db);
    forall k | k in db.observations
      ensures ObservationFits(db, db.observations[k])
    {
    }
    forall j, k | j in db.observations && k in db.observations && j != k
      ensures !Clash(db.observations[j], db.observations[k])
    {
    }
  }

  lemma StatementKeepsObservation(db: Db, st: Statement, k: Id)
    requires Inv(db) && k in db.observations
    ensures var next, o := Execute(db, st), db.observations[k];
      ObservationFits(db, o) && LineageHeld(db, next, o) && k in next.observations && next.observations[k] == o
  {
    assert ObservationsOk(db);
    hide Inv, Admissible, Applied;
    if Admissible(db, st) {
      LineageHolds(db, st, k);
      ObservationsAfter(db, st);
    }
  }

  lemma LineageChains(db: Db, middle: Db, last: Db, o: Observation)
    requires ObservationFits(db, o) && ObservationFits(middle, o)
    requires LineageHeld(db, middle, o) && LineageHeld(middle, last, o)
    ensures LineageHeld(db, last, o)
  {
  }

  /** An observation, and what its lineage reads of its run, step and invocation, never changes. */
  lemma {:induction false} ObservationStays(db: Db, run: seq<Statement>, k: Id)
    requires Inv(db) && k in db.observations
    ensures var last := AfterAll(db, run);
      && k in last.observations && last.observations[k] == db.observations[k]
      && ObservationFits(db, db.observations[k]) && LineageHeld(db, last, db.observations[k])
    decreases |run|
  {
    assert ObservationsOk(db);
    hide Inv, Execute;
    if run != [] {
      StatementKeepsObservation(db, run[0], k);
      OneStepKeeps(db, run[0]);
      hide ObservationFits, LineageHeld, ObservationsOk;
      var next := Execute(db, run[0]);
      ObservationStays(next, run[1..], k);
      LineageChains(db, next, AfterAll(db, run), db.observations[k]);
    }
  }

  /** The as-of time of an observation is checked against nothing: any time is accepted. */
  lemma ObservationTimeUnchecked(db: Db, id: Id, o: Observation, t: int)
    ensures Admissible(db, InsertObservation(id, o)) == Admissible(db, InsertObservation(id, o.(asOf := t)))
  {
    var p := o.(asOf := t);
    assert forall b :: Clash(b, o) == Clash(b, p);
  }

  const SNAPSHOT := Snapshot(1, 10, 1, SnapshotStatus.PARTIAL)
  const RUN := Run(0, 1, 0, 10, 0, CREATED)
  const STEP := Step(0, 0, None, 0, StepStatus.PENDING)

  /** A run of an analysis as of 10, up to its first step. */
  const SETUP := [
    InsertSnapshot(0, SNAPSHOT.(status := BUILDING)), UpdateSnapshot(0, 0, SNAPSHOT), InsertRequest(0, Request(1, 0, 10, 0)),
    InsertRun(0, RUN), InsertPlan(0, Plan(0)), InsertStep(0, STEP)]

  /** The database after the first `n` of them. */
  function Stage(n: nat): Db {
    EMPTY.(
      snapshots := if n == 0 then map[] else map[0 := if n == 1 then SNAPSHOT.(status := BUILDING) else SNAPSHOT],
      requests := if n < 3 then map[] else map[0 := Request(1, 0, 10, 0)],
      runs := if n < 4 then map[] else map[0 := RUN],
      plans := if n < 5 then map[] else map[0 := Plan(0)],
      steps := if n < 6 then map[] else map[0 := STEP])
  }

  lemma StageFollows(n: nat)
    requires n < |SETUP|
    ensures Execute(Stage(n), SETUP[n]) == Stage(n + 1)
  {
    var db := Stage(n);
    if n == 1 {
      assert Replaced(db.snapshots, 0, 0, SNAPSHOT) == map[0 := SNAPSHOT];
    }
  }

  lemma {:induction false} StagesFollow(n: nat)
    requires n <= |SETUP|
    ensures AfterAll(Stage(n), SETUP[n..]) == Stage(|SETUP|)
    decreases |SETUP| - n
  {
    hide Stage, Execute;
    if n < |SETUP| {
      StageFollows(n);
      StagesFollow(n + 1);
      assert SETUP[n..][1..] == SETUP[n + 1..];
    }
  }

  /** From there on the step accepts an observation of any time, also of one long after the run. */
  lemma LateObservation(late: int)
    ensures AfterAll(EMPTY, SETUP).runs == map[0 := RUN]
    ensures Admissible(AfterAll(EMPTY, SETUP), InsertObservation(0, Observation(0, 0, None, 1, 0, late)))
  {
    hide AfterAll, Execute;
    StagesFollow(0);
    assert SETUP[0..] == SETUP && Stage(0) == EMPTY;
  }

  /** No observation claims a later time than the run it belongs to. */
  ghost predicate Timely(db: Db) {
    forall k | k in db.observations && db.observations[k].run in db.runs ::
      db.observations[k].asOf <= db.runs[db.observations[k].run].asOf
  }

  /** A statement that does not insert an observation later than its run. */
  predicate Prompt(db: Db, st: Statement) {
    st.InsertObservation? && Admissible(db, st) ==> st.observation.asOf <= db.runs[st.observation.run].asOf
  }

  predicate AllPrompt(db: Db, run: seq<Statement>)
    decreases |run|
  {
    run == [] || (Prompt(db, run[0]) && AllPrompt(Execute(db, run[0]), run[1..]))
  }

  lemma RunTimeStays(db: Db, st: Statement, k: Id)
    requires ObservationsOk(db) && Admissible(db, st) && k in db.observations
    ensures var r, next := db.observations[k].run, Applied(db, st);
      r in db.runs && r in next.runs && next.runs[r].asOf == db.runs[r].asOf
  {
    LineageHolds(db, st, k);
  }

  lemma OneStepTimely(db: Db, st: Statement)
    requires Inv(db) && Admissible(db, st)
    ensures Timely(Applied(db, st)) <==> Timely(db) && Prompt(db, st)
  {
    hide Applied, Admissible, ObservationFits, SnapshotsOk, RequestsOk, StepsOk;
    ObservationsAfter(db, st);
    assert ObservationsOk(db);
    hide Inv, ObservationsOk;
    forall k | k in db.observations
      ensures var r, next := db.observations[k].run, Applied(db, st);
        r in db.runs && r in next.runs && next.runs[r].asOf == db.runs[r].asOf
    {
      RunTimeStays(db, st, k);
    }
    var next := Applied(db, st);
    if st.InsertObservation? {
      assert next.observations[st.id] == st.observation;
      assert forall k | k in db.observations :: next.observations[k] == db.observations[k];
    }
  }

  /** As-of times of observations stay in line exactly as long as every accepted insert is. */
  lemma {:induction false} TimelyIff(db: Db, run: seq<Statement>)
    requires Inv(db)
    ensures Timely(AfterAll(db, run)) <==> Timely(db) && AllPrompt(db, run)
    decreases |run|
  {
    if run != [] {
      if Admissible(db, run[0]) {
        OneStepTimely(db, run[0]);
      }
      OneStepKeeps(db, run[0]);
      hide Inv, Timely, Admissible, Applied;
      TimelyIff(Execute(db, run[0]), run[1..]);
    }
  }

  // --- the migrations 0011 and 0012 ---

  /** An observation before migration 0011: always with an invocation, without a step. */
  datatype OldObservation = OldObservation(run: Id, invocation: Id, security: Id, snapshot: Id, asOf: int)

  /** The foreign keys and the unique constraint before the migration. */
  ghost predicate OldOk(db: Db, legacy: map<Id, OldObservation>) {
    && (forall k | k in legacy :: legacy[k].run in db.runs && legacy[k].invocation in db.invocations)
    && (forall j, k | j in legacy && k in legacy && j != k :: legacy[j].invocation != legacy[k].invocation)
  }

  /** The row with the step of its invocation filled in. */
  function Filled(invocations: map<Id, Invocation>, o: OldObservation): Observation
    requires o.invocation in invocations
  {
    Observation(o.run, invocations[o.invocation].step, Some(o.invocation), o.security, o.snapshot, o.asOf)
  }

  /** The backfill of 0011, row by row; a row without an invocation would stop the migration. */
  method Backfill(invocations: map<Id, Invocation>, legacy: map<Id, OldObservation>) returns (r: Option<map<Id, Observation>>)
    ensures r.Some? <==> forall k | k in legacy :: legacy[k].invocation in invocations
    ensures r.Some? ==> r.value.Keys == legacy.Keys && forall k | k in legacy :: r.value[k] == Filled(invocations, legacy[k])
  {
    var left := legacy.Keys;
    var filled: map<Id, Observation> := map[];
    while left != {}
      invariant left <= legacy.Keys && filled.Keys == legacy.Keys - left
      invariant forall k | k in filled :: legacy[k].invocation in invocations && filled[k] == Filled(invocations, legacy[k])
    {
      var k :| k in left;
      if legacy[k].invocation !in invocations {
        return None;
      }
      filled := filled[k := Filled(invocations, legacy[k])];
      left := left - {k};
    }
    r := Some(filled);
  }

  /** The one-off check of 0012 over the stored rows. */
  ghost predicate HistoryOk(db: Db) { forall k | k in db.observations :: ObservationFits(db, db.observations[k]) }

  ghost predicate FilledIn(db: Db, legacy: map<Id, OldObservation>, filled: map<Id, Observation>) {
    && filled.Keys == legacy.Keys
    && forall k | k in legacy :: legacy[k].invocation in db.invocations && filled[k] == Filled(db.invocations, legacy[k])
  }

  /** The run of its invocation, the security and snapshot of its run, and a step with a tool. */
  ghost predicate LegacyFits(db: Db, o: OldObservation)
    requires StepsOk(db.runs, db.plans, db.steps, db.invocations) && o.run in db.runs && o.invocation in db.invocations
  {
    && o.run == db.invocations[o.invocation].run
    && o.security == db.runs[o.run].security && o.snapshot == db.runs[o.run].snapshot
    && db.steps[db.invocations[o.invocation].step].toolName.Some?
  }

  /**
     On a valid old database the migrations 0011 and 0012 go through exactly when each observation
     fits its invocation and its run; and then the invariant holds from there on.
   */
  lemma MigrationSucceedsIff(db: Db, legacy: map<Id, OldObservation>, filled: map<Id, Observation>)
    requires SnapshotsOk(db.snapshots, db.items) && RequestsOk(db.snapshots, db.requests, db.runs)
    requires StepsOk(db.runs, db.plans, db.steps, db.invocations)
    requires OldOk(db, legacy) && FilledIn(db, legacy, filled)
    ensures HistoryOk(db.(observations := filled)) <==> forall k | k in legacy :: LegacyFits(db, legacy[k])
    ensures HistoryOk(db.(observations := filled)) ==> Inv(db.(observations := filled))
  {
    hide ObservationFits, LegacyFits, Filled, StepsOk, RequestsOk, SnapshotsOk, Clash;
    var after := db.(observations := filled);
    forall k | k in legacy
      ensures ObservationFits(after, filled[k]) <==> LegacyFits(db, legacy[k])
    {
      RowFits(db, legacy, filled, k);
    }
    Distinct(db, legacy, filled);
  }

  lemma RowFits(db: Db, legacy: map<Id, OldObservation>, filled: map<Id, Observation>, k: Id)
    requires StepsOk(db.runs, db.plans, db.steps, db.invocations)
    requires OldOk(db, legacy) && FilledIn(db, legacy, filled) && k in legacy
    ensures ObservationFits(db.(observations := filled), filled[k]) <==> LegacyFits(db, legacy[k])
  {
    hide RequestsOk, SnapshotsOk, Clash;
  }

  lemma Distinct(db: Db, legacy: map<Id, OldObservation>, filled: map<Id, Observation>)
    requires OldOk(db, legacy) && FilledIn(db, legacy, filled)
    ensures forall j, k | j in legacy && k in legacy && j != k :: !Clash(filled[j], filled[k])
  {
  }

  /** The guard of the downgrade: component observations cannot be expressed without a step. */
  predicate MayDowngrade(db: Db) { forall k | k in db.observations :: db.observations[k].invocation.Some? }

  /** Dropping the step column. */
  function Downgraded(observations: map<Id, Observation>): map<Id, OldObservation>
    requires forall k | k in observations :: observations[k].invocation.Some?
  {
    map k | k in observations ::
      var o := observations[k]; OldObservation(o.run, o.invocation.value, o.security, o.snapshot, o.asOf)
  }

  /** A downgrade that is let through loses nothing: upgrading again restores every row. */
  lemma DowngradeThenUpgrade(db: Db, filled: map<Id, Observation>)
    requires Inv(db) && MayDowngrade(db)
    ensures OldOk(db, Downgraded(db.observations))
    ensures FilledIn(db, Downgraded(db.observations), filled) ==> filled == db.observations
  {
    var legacy := Downgraded(db.observations);
    forall k | k in db.observations
      ensures ObservationFits(db, db.observations[k]) && Filled(db.invocations, legacy[k]) == db.observations[k]
    {
    }
    forall j, k | j in legacy && k in legacy && j != k
      ensures legacy[j].invocation != legacy[k].invocation
    {
      assert !Clash(db.observations[j], db.observations[k]);
    }
  }

  // --- the tables and their triggers ---

  /** Why the trigger of 0012 refuses an observation. */
  datatype Refusal =
    | RunNotFound
    | StepNotFound
    | StepRunMismatch
    | SecurityMismatch
    | SnapshotMismatch
    | ToolInvocationRequired
    | InvocationNotFound
    | ComponentInvocationForbidden
    | InvocationRunMismatch
    | InvocationStepMismatch
    | Duplicate

  class Database {
    var snapshots: map<Id, Snapshot>
    var items: map<Id, Item>
    var requests: map<Id, Request>
    var runs: map<Id, Run>
    var plans: map<Id, Plan>
    var steps: map<Id, Step>
    var invocations: map<Id, Invocation>
    var observations: map<Id, Observation>

    function View(): Db
      reads this
    {
      Db(snapshots, items, requests, runs, plans, steps, invocations, observations)
    }

    constructor ()
      ensures View() == EMPTY && Inv(View())
    {
      snapshots, items, requests, runs := map[], map[], map[], map[];
      plans, steps, invocations, observations := map[], map[], map[], map[];
    }

    method SnapshotInsert(id: Id, s: Snapshot) returns (ok: bool)
      modifies this`snapshots
      ensures ok == Admissible(old(View()), InsertSnapshot(id, s)) && View() == Execute(old(View()), InsertSnapshot(id, s))
      ensures ok <==> id !in old(snapshots) && s.status == BUILDING
      ensures snapshots == if ok then old(snapshots)[id := s] else old(snapshots)
    {
      ok := false;
      if s.status != BUILDING || id in snapshots {
        return;
      }
      snapshots := snapshots[id := s];
      ok := true;
    }

    /** The trigger of 0003, then the foreign keys. */
    method SnapshotUpdate(id: Id, newId: Id, s: Snapshot) returns (ok: bool)
      modifies this`snapshots
      ensures ok == Admissible(old(View()), UpdateSnapshot(id, newId, s)) && View() == Execute(old(View()), UpdateSnapshot(id, newId, s))
      ensures ok <==>
        && id in old(snapshots) && old(snapshots)[id].status == BUILDING && s == old(snapshots)[id].(status := s.status)
        && (s.status == SnapshotStatus.FAILED ==> forall k | k in items :: items[k].snapshot != id)
        && (s.status == COMPLETE ==>
              && (exists k :: k in items && items[k].snapshot == id)
              && forall k | k in items && items[k].snapshot == id :: items[k].publishedAt.Some?)
        && (newId == id || (newId !in old(snapshots)
              && (forall k | k in items :: items[k].snapshot != id) && (forall k | k in requests :: requests[k].snapshot != id)
              && (forall k | k in runs :: runs[k].snapshot != id) && (forall k | k in observations :: observations[k].snapshot != id)))
      ensures snapshots == if ok then (old(snapshots) - {id})[newId := s] else old(snapshots)
    {
      ok := false;
      MayCompleteIs(items, id, s.status);
      if id !in snapshots || snapshots[id].status != BUILDING {
        return;
      }
      var was := snapshots[id];
      if s.security != was.security || s.asOf != was.asOf || s.version != was.version {
        return;
      }
      if s.status != BUILDING {
        var own := ItemsOf(items, id);
        var unknown := map k | k in own && own[k].publishedAt.None? :: own[k];
        if s.status == SnapshotStatus.FAILED && own != map[] {
          return;
        }
        if s.status == COMPLETE && (own == map[] || unknown != map[]) {
          assert own != map[] ==> exists k :: k in own && k in unknown;
          return;
        }
        assert forall k | k in own && own[k].publishedAt.None? :: k in unknown;
      }
      if newId != id && (newId in snapshots || SnapshotReferenced(View(), id)) {
        return;
      }
      snapshots := Replaced(snapshots, id, newId, s);
      ok := true;
    }

    method SnapshotDelete(id: Id) returns (ok: bool)
      modifies this`snapshots
      ensures ok == Admissible(old(View()), DeleteSnapshot(id)) && View() == Execute(old(View()), DeleteSnapshot(id))
      ensures snapshots == if ok then old(snapshots) - {id} else old(snapshots)
      ensures ok <==>
        && id in old(snapshots) && old(snapshots)[id].status == BUILDING
        && (forall k | k in items :: items[k].snapshot != id) && (forall k | k in requests :: requests[k].snapshot != id)
        && (forall k | k in runs :: runs[k].snapshot != id) && (forall k | k in observations :: observations[k].snapshot != id)
    {
      ok := false;
      if id !in snapshots || snapshots[id].status != BUILDING || SnapshotReferenced(View(), id) {
        return;
      }
      snapshots := snapshots - {id};
      ok := true;
    }

    method ItemInsert(id: Id, i: Item) returns (ok: bool)
      modifies this`items
      ensures ok == Admissible(old(View()), InsertItem(id, i)) && View() == Execute(old(View()), InsertItem(id, i))
      ensures ok <==>
        && id !in old(items) && i.snapshot in snapshots && snapshots[i.snapshot].status == BUILDING
        && i.retrievedAt <= snapshots[i.snapshot].asOf
        && (i.publishedAt.Some? ==> i.publishedAt.value <= snapshots[i.snapshot].asOf)
      ensures items == if ok then old(items)[id := i] else old(items)
    {
      ok := ItemTrigger(i) && id !in items;
      if ok {
        items := items[id := i];
      }
    }

    /** The part of the item trigger that inserts and updates share. */
    predicate ItemTrigger(i: Item)
      reads this`snapshots
    {
      if i.snapshot !in snapshots || snapshots[i.snapshot].status != BUILDING then false
      else if i.retrievedAt > snapshots[i.snapshot].asOf then false
      else i.publishedAt.None? || i.publishedAt.value <= snapshots[i.snapshot].asOf
    }

    method ItemUpdate(id: Id, newId: Id, i: Item) returns (ok: bool)
      modifies this`items
      ensures ok == Admissible(old(View()), UpdateItem(id, newId, i)) && View() == Execute(old(View()), UpdateItem(id, newId, i))
      ensures ok <==>
        && id in old(items) && (newId == id || newId !in old(items))
        && old(items)[id].snapshot in snapshots && snapshots[old(items)[id].snapshot].status == BUILDING
        && i.snapshot in snapshots && snapshots[i.snapshot].status == BUILDING
        && i.retrievedAt <= snapshots[i.snapshot].asOf
        && (i.publishedAt.Some? ==> i.publishedAt.value <= snapshots[i.snapshot].asOf)
      ensures items == if ok then (old(items) - {id})[newId := i] else old(items)
    {
      ok := false;
      if id !in items || !IsBuilding(snapshots, items[id].snapshot) {
        return;
      }
      if !ItemTrigger(i) || (newId != id && newId in items) {
        return;
      }
      items := Replaced(items, id, newId, i);
      ok := true;
    }

    method ItemDelete(id: Id) returns (ok: bool)
      modifies this`items
      ensures ok == Admissible(old(View()), DeleteItem(id)) && View() == Execute(old(View()), DeleteItem(id))
      ensures ok <==>
        id in old(items) && old(items)[id].snapshot in snapshots && snapshots[old(items)[id].snapshot].status == BUILDING
      ensures items == if ok then old(items) - {id} else old(items)
    {
      ok := id in items && IsBuilding(snapshots, items[id].snapshot);
      if ok {
        items := items - {id};
      }
    }

    /** The trigger as migration 0010 leaves it. */
    method RequestInsert(id: Id, r: Request) returns (ok: bool)
      modifies this`requests
      ensures ok == Admissible(old(View()), InsertRequest(id, r)) && View() == Execute(old(View()), InsertRequest(id, r))
      ensures ok <==>
        && id !in old(requests) && r.snapshot in snapshots
        && snapshots[r.snapshot].security == r.security && snapshots[r.snapshot].asOf <= r.asOf
        && snapshots[r.snapshot].status in {COMPLETE, SnapshotStatus.PARTIAL}
      ensures requests == if ok then old(requests)[id := r] else old(requests)
    {
      ok := false;
      if r.snapshot !in snapshots {
        return;
      }
      var linked := snapshots[r.snapshot];
      if linked.security != r.security || linked.asOf > r.asOf || (linked.status != COMPLETE && linked.status != SnapshotStatus.PARTIAL) {
        return;
      }
      if id in requests {
        return;
      }
      requests := requests[id := r];
      ok := true;
    }

    method RunInsert(id: Id, r: Run) returns (ok: bool)
      modifies this`runs
      ensures ok == Admissible(old(View()), InsertRun(id, r)) && View() == Execute(old(View()), InsertRun(id, r))
      ensures ok <==>
        && id !in old(runs) && r.request in requests
        && requests[r.request] == Request(r.security, r.snapshot, r.asOf, r.profile)
      ensures runs == if ok then old(runs)[id := r] else old(runs)
    {
      ok := false;
      if r.request !in requests || id in runs {
        return;
      }
      var linked := requests[r.request];
      if linked.security != r.security || linked.snapshot != r.snapshot || linked.asOf != r.asOf || linked.profile != r.profile {
        return;
      }
      runs := runs[id := r];
      ok := true;
    }

    method RunUpdate(id: Id, newId: Id, r: Run) returns (ok: bool)
      modifies this`runs
      ensures ok == Admissible(old(View()), UpdateRun(id, newId, r)) && View() == Execute(old(View()), UpdateRun(id, newId, r))
      ensures runs == if ok then (old(runs) - {id})[newId := r] else old(runs)
      ensures ok <==>
        && id in old(runs) && r == old(runs)[id].(status := r.status)
        && (newId == id || (newId !in old(runs)
              && (forall k | k in plans :: plans[k].run != id) && (forall k | k in steps :: steps[k].run != id)
              && (forall k | k in invocations :: invocations[k].run != id)
              && (forall k | k in observations :: observations[k].run != id)))
        && var was := old(runs)[id].status;
          (was, r.status) in {
            (CREATED, CREATED), (PLANNING, PLANNING), (PLANNED, PLANNED), (RunStatus.RUNNING, RunStatus.RUNNING), (PAUSED, PAUSED),
            (CREATED, PLANNING), (PLANNING, PLANNED), (PLANNING, RunStatus.BLOCKED), (PLANNING, RunStatus.FAILED),
            (PLANNED, RunStatus.RUNNING), (RunStatus.RUNNING, PAUSED), (RunStatus.RUNNING, RunStatus.PARTIAL),
            (RunStatus.RUNNING, RunStatus.BLOCKED), (RunStatus.RUNNING, COMPLETED), (RunStatus.RUNNING, RunStatus.FAILED),
            (RunStatus.RUNNING, CANCELLED), (PAUSED, RunStatus.RUNNING), (PAUSED, CANCELLED)}
    {
      ok := false;
      if id !in runs || IsTerminalRun(runs[id].status) {
        return;
      }
      var was := runs[id];
      if was.request != r.request || was.security != r.security || was.snapshot != r.snapshot || was.asOf != r.asOf || was.profile != r.profile {
        return;
      }
      if !RunMoves(was.status, r.status) || (newId != id && (newId in runs || RunReferenced(View(), id))) {
        return;
      }
      runs := Replaced(runs, id, newId, r);
      ok := true;
    }

    method PlanInsert(id: Id, p: Plan) returns (ok: bool)
      modifies this`plans
      ensures ok == Admissible(old(View()), InsertPlan(id, p)) && View() == Execute(old(View()), InsertPlan(id, p))
      ensures ok <==> id !in old(plans) && p.run in runs && forall k | k in old(plans) :: old(plans)[k].run != p.run
      ensures plans == if ok then old(plans)[id := p] else old(plans)
    {
      ok := id !in plans && p.run in runs && forall k | k in plans :: plans[k].run != p.run;
      if ok {
        plans := plans[id := p];
      }
    }

    method StepInsert(id: Id, s: Step) returns (ok: bool)
      modifies this`steps
      ensures ok == Admissible(old(View()), InsertStep(id, s)) && View() == Execute(old(View()), InsertStep(id, s))
      ensures ok <==> id !in old(steps) && s.run in runs && s.plan in plans && plans[s.plan].run == s.run
      ensures steps == if ok then old(steps)[id := s] else old(steps)
    {
      ok := false;
      if s.plan !in plans || plans[s.plan].run != s.run {
        return;
      }
      if s.run !in runs || id in steps {
        return;
      }
      steps := steps[id := s];
      ok := true;
    }

    method StepUpdate(id: Id, newId: Id, s: Step) returns (ok: bool)
      modifies this`steps
      ensures ok == Admissible(old(View()), UpdateStep(id, newId, s)) && View() == Execute(old(View()), UpdateStep(id, newId, s))
      ensures steps == if ok then (old(steps) - {id})[newId := s] else old(steps)
      ensures ok <==>
        && id in old(steps) && s == old(steps)[id].(status := s.status)
        && (newId == id || (newId !in old(steps)
              && (forall k | k in invocations :: invocations[k].step != id)
              && (forall k | k in observations :: observations[k].step != id)))
        && var was := old(steps)[id].status;
          (was, s.status) in {
            (StepStatus.PENDING, StepStatus.PENDING), (READY, READY), (StepStatus.RUNNING, StepStatus.RUNNING),
            (StepStatus.PENDING, READY), (StepStatus.PENDING, StepStatus.BLOCKED), (StepStatus.PENDING, SKIPPED),
            (READY, StepStatus.RUNNING), (READY, StepStatus.BLOCKED), (READY, SKIPPED),
            (StepStatus.RUNNING, StepStatus.PASS), (StepStatus.RUNNING, StepStatus.PARTIAL),
            (StepStatus.RUNNING, StepStatus.BLOCKED), (StepStatus.RUNNING, StepStatus.FAIL)}
    {
      ok := false;
      if id !in steps || IsTerminalStep(steps[id].status) {
        return;
      }
      var was := steps[id];
      if was.run != s.run || was.plan != s.plan || was.toolName != s.toolName || was.shape != s.shape {
        return;
      }
      if !StepMoves(was.status, s.status) || (newId != id && (newId in steps || StepReferenced(View(), id))) {
        return;
      }
      steps := Replaced(steps, id, newId, s);
      ok := true;
    }

    method InvocationInsert(id: Id, i: Invocation) returns (ok: bool)
      modifies this`invocations
      ensures ok == Admissible(old(View()), InsertInvocation(id, i)) && View() == Execute(old(View()), InsertInvocation(id, i))
      ensures ok <==> id !in old(invocations) && i.run in runs && i.step in steps && steps[i.step].run == i.run
      ensures invocations == if ok then old(invocations)[id := i] else old(invocations)
    {
      ok := false;
      if i.step !in steps || steps[i.step].run != i.run {
        return;
      }
      if i.run !in runs || id in invocations {
        return;
      }
      invocations := invocations[id := i];
      ok := true;
    }

    method InvocationUpdate(id: Id, newId: Id, i: Invocation) returns (ok: bool)
      modifies this`invocations
      ensures ok == Admissible(old(View()), UpdateInvocation(id, newId, i)) && View() == Execute(old(View()), UpdateInvocation(id, newId, i))
      ensures invocations == if ok then (old(invocations) - {id})[newId := i] else old(invocations)
      ensures ok <==>
        && id in old(invocations) && i == old(invocations)[id].(status := i.status)
        && (newId == id || (newId !in old(invocations) && forall k | k in observations :: observations[k].invocation != Some(id)))
        && var was := old(invocations)[id].status;
          || was == InvocationStatus.PENDING
          || (was == InvocationStatus.RUNNING && i.status != InvocationStatus.PENDING)
    {
      ok := false;
      if id !in invocations || IsTerminalInvocation(invocations[id].status) {
        return;
      }
      var was := invocations[id];
      if was.run != i.run || was.step != i.step || was.attempt != i.attempt {
        return;
      }
      if !InvocationMoves(was.status, i.status) || (newId != id && (newId in invocations || InvocationReferenced(View(), id))) {
        return;
      }
      invocations := Replaced(invocations, id, newId, i);
      ok := true;
    }

    method ObservationInsert(id: Id, o: Observation) returns (refused: Option<Refusal>)
      modifies this`observations
      ensures refused.None? <==> Admissible(old(View()), InsertObservation(id, o))
      ensures View() == Execute(old(View()), InsertObservation(id, o))
      ensures observations == if refused.None? then old(observations)[id := o] else old(observations)
      ensures refused == Some(Duplicate) ==> ObservationFits(old(View()), o)
      ensures refused ==
        if o.run !in runs then Some(RunNotFound)
        else if o.step !in steps then Some(StepNotFound)
        else if steps[o.step].run != o.run then Some(StepRunMismatch)
        else if o.security != runs[o.run].security then Some(SecurityMismatch)
        else if o.snapshot != runs[o.run].snapshot then Some(SnapshotMismatch)
        else if o.invocation.None? && steps[o.step].toolName.Some? then Some(ToolInvocationRequired)
        else if o.invocation.Some? && o.invocation.value !in invocations then Some(InvocationNotFound)
        else if o.invocation.Some? && steps[o.step].toolName.None? then Some(ComponentInvocationForbidden)
        else if o.invocation.Some? && invocations[o.invocation.value].run != o.run then Some(InvocationRunMismatch)
        else if o.invocation.Some? && invocations[o.invocation.value].step != o.step then Some(InvocationStepMismatch)
        else if id in old(observations) || (exists k | k in old(observations) ::
          var b := old(observations)[k]; b.invocation == o.invocation && (o.invocation.Some? || b.step == o.step))
        then Some(Duplicate)
        else None
    {
      if o.run !in runs {
        return Some(RunNotFound);
      }
      if o.step !in steps {
        return Some(StepNotFound);
      }
      if steps[o.step].run != o.run {
        return Some(StepRunMismatch);
      }
      if o.security != runs[o.run].security {
        return Some(SecurityMismatch);
      }
      if o.snapshot != runs[o.run].snapshot {
        return Some(SnapshotMismatch);
      }
      if o.invocation.None? {
        if steps[o.step].toolName.Some? {
          return Some(ToolInvocationRequired);
        }
      } else {
        var linked := o.invocation.value;
        if linked !in invocations {
          return Some(InvocationNotFound);
        }
        if steps[o.step].toolName.None? {
          return Some(ComponentInvocationForbidden);
        }
        if invocations[linked].run != o.run {
          return Some(InvocationRunMismatch);
        }
        if invocations[linked].step != o.step {
          return Some(InvocationStepMismatch);
        }
      }
      if id in observations || !NoClash(View(), o) {
        return Some(Duplicate);
      }
      observations := observations[id := o];
      refused := None;
    }
  }
}
