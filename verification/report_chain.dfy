/**
 Report versions: rows are only ever inserted, and the trigger, the unique key on run and version
 and the foreign key together leave one gap-free chain per generation run.  The life cycle of
 the three kinds of run rows that go with them.
 */
module ReportChain {
  import opened Basics

  type Id = nat

  datatype Report = Report(run: Id, version: nat, previous: Option<Id>)
  type Reports = map<Id, Report>

  /** The reports of one generation run. */
  function Of(t: Reports, run: Id): set<Id> { set i | i in t && t[i].run == run }

  ghost predicate Has(t: Reports, run: Id, version: nat) { exists i :: i in t && t[i].run == run && t[i].version == version }

  /** The link that the trigger checks. */
  predicate Linked(t: Reports, r: Report) {
    match r.previous
    case None => r.version == 1
    case Some(p) => p in t && t[p].run == r.run && r.version == t[p].version + 1
  }

  /** The unique key on run and version. */
  predicate IsNew(t: Reports, r: Report) { forall i | i in t :: t[i].run != r.run || t[i].version != r.version }

  ghost predicate Inv(t: Reports) {
    && (forall i {:trigger Linked(t, t[i])} | i in t :: Linked(t, t[i]))
    && (forall i, j | i in t && j in t && i != j :: t[i].run != t[j].run || t[i].version != t[j].version)
    && (forall i | i in t :: 1 <= t[i].version <= |Of(t, t[i].run)|)
    && (forall run: Id, v: nat | 1 <= v <= |Of(t, run)| :: Has(t, run, v))
  }

  /** Version numbers of a run are exactly 1 to the number of its reports. */
  lemma VersionsAreGapFree(t: Reports, run: Id, v: nat)
    requires Inv(t)
    ensures Has(t, run, v) <==> 1 <= v <= |Of(t, run)|
  {
  }

  /** The report that follows: the next version, after the latest one. */
  predicate Follows(t: Reports, r: Report) {
    && r.version == |Of(t, r.run)| + 1
    && (r.version == 1 ==> r.previous == None)
    && (r.version > 1 ==>
          && r.previous.Some? && r.previous.value in t
          && t[r.previous.value].run == r.run && t[r.previous.value].version == r.version - 1)
  }

  /** The trigger and the unique key let exactly the next version through. */
  lemma OnlyTheNextVersion(t: Reports, r: Report)
    requires Inv(t)
    ensures Linked(t, r) && IsNew(t, r) <==> Follows(t, r)
  {
    if Linked(t, r) && IsNew(t, r) {
      assert !Has(t, r.run, r.version);
    }
    if Follows(t, r) && r.version > 1 {
      assert r.previous.Some?;
    }
  }

  lemma SizeAfter(t: Reports, id: Id, r: Report, run: Id)
    requires id !in t
    ensures |Of(t[id := r], run)| == |Of(t, run)| + if run == r.run then 1 else 0
  {
    assert Of(t[id := r], run) == Of(t, run) + if run == r.run then {id} else {};
  }

  lemma HasAfter(t: Reports, id: Id, r: Report, run: Id, v: nat)
    requires id !in t
    ensures Has(t[id := r], run, v) <==> Has(t, run, v) || (run == r.run && v == r.version)
  {
    var u := t[id := r];
    if Has(t, run, v) {
      var i :| i in t && t[i].run == run && t[i].version == v;
      assert i in u && u[i].run == run && u[i].version == v;
    }
    if run == r.run && v == r.version {
      assert u[id].run == run && u[id].version == v;
    }
  }

  lemma AppendKeeps(t: Reports, id: Id, r: Report)
    requires Inv(t) && id !in t && Follows(t, r)
    ensures Inv(t[id := r])
  {
    var u := t[id := r];
    hide Of, Has;
    forall i | i in u
      ensures Linked(u, u[i]) && 1 <= u[i].version <= |Of(u, u[i].run)|
    {
      SizeAfter(t, id, r, u[i].run);
      assert i in t ==> Linked(t, t[i]);
    }
    forall run: Id, v: nat | 1 <= v <= |Of(u, run)|
      ensures Has(u, run, v)
    {
      SizeAfter(t, id, r, run);
      HasAfter(t, id, r, run, v);
    }
    forall i, j | i in u && j in u && i != j
      ensures u[i].run != u[j].run || u[i].version != u[j].version
    {
    }
  }

  function Back(t: Reports, from: Option<Id>, n: nat): Option<Id>
    decreases n
  {
    if n == 0 then from
    else match from
      case None => None
      case Some(i) => if i in t then Back(t, t[i].previous, n - 1) else None
  }

  /** Following predecessors from version v reaches version v - n after n steps, version 1 after v - 1. */
  lemma {:induction false} ChainReachesFirst(t: Reports, i: Id, n: nat)
    requires Inv(t) && i in t && n < t[i].version
    ensures var b := Back(t, Some(i), n);
      b.Some? && b.value in t && t[b.value].run == t[i].run && t[b.value].version == t[i].version - n
    decreases n
  {
    assert Linked(t, t[i]);
    if n > 0 {
      ChainReachesFirst(t, t[i].previous.value, n - 1);
    }
  }

  /** The separate unique index on the predecessor is implied. */
  lemma PreviousIsUnique(t: Reports, i: Id, j: Id)
    requires Inv(t) && i in t && j in t && t[i].previous.Some? && t[i].previous == t[j].previous
    ensures i == j
  {
    assert Linked(t, t[i]) && Linked(t, t[j]);
  }

  class ReportTable {
    var rows: Reports

    constructor ()
      ensures rows == map[] && Inv(rows)
    {
      rows := map[];
      assert forall run: Id :: Of(map[], run) == {};
    }

    method Insert(id: Id, r: Report) returns (ok: bool)
      requires Inv(rows)
      modifies this
      ensures Inv(rows)
      ensures ok <==> id !in old(rows) && Follows(old(rows), r)
      ensures rows == if ok then old(rows)[id := r] else old(rows)
    {
      OnlyTheNextVersion(rows, r);
      if r.previous.None? {
        if r.version != 1 {
          return false;
        }
      } else {
        var p := r.previous.value;
        if p !in rows || rows[p].run != r.run || r.version != rows[p].version + 1 {
          return false;
        }
      }
      // The keys; the index on the predecessor never refuses what the key on the version lets through.
      if id in rows || exists i | i in rows :: rows[i].run == r.run && rows[i].version == r.version {
        return false;
      }
      AppendKeeps(rows, id, r);
      assert r.previous.Some? ==> forall i | i in rows :: rows[i].previous != r.previous by {
        forall i | i in rows && r.previous.Some?
          ensures rows[i].previous != r.previous
        {
          assert Linked(rows, rows[i]);
        }
      }
      rows := rows[id := r];
      ok := true;
    }
  }

  // --- life cycles ---

  datatype Kind = Generation | Reflection | Revision
  datatype Status = Created | Running | Terminal(code: nat)

  /** `context` stands for every column that an update may not touch. */
  datatype RunRow = RunRow(kind: Kind, status: Status, context: int)

  predicate MayUpdate(before: RunRow, after: RunRow) {
    && after.kind == before.kind && after.context == before.context
    && match before.status
       case Created => before.kind == Generation && after.status == Running
       case Running => after.status.Terminal?
       case Terminal(_) => false
  }

  function UpdatesLeft(r: RunRow): nat {
    match r.status
    case Created => if r.kind == Generation then 2 else 0
    case Running => 1
    case Terminal(_) => 0
  }

  /** Each update uses up one, and as long as there is one left it can be made. */
  lemma UpdatesLeftIff(r: RunRow)
    ensures (exists after :: MayUpdate(r, after)) <==> UpdatesLeft(r) > 0
    ensures forall after | MayUpdate(r, after) ::
      && after == r.(status := after.status) && UpdatesLeft(after) == UpdatesLeft(r) - 1
      && (after.status == Running || (r.status == Running && after.status.Terminal?))
    ensures r.status == Running ==> forall code :: MayUpdate(r, r.(status := Terminal(code)))
  {
    if r.status == Running {
      assert MayUpdate(r, r.(status := Terminal(0)));
    } else if r.status == Created && r.kind == Generation {
      assert MayUpdate(r, r.(status := Running));
    }
  }

  function AfterUpdates(r: RunRow, updates: seq<RunRow>): RunRow
    decreases |updates|
  {
    if updates == [] then r else AfterUpdates(if MayUpdate(r, updates[0]) then updates[0] else r, updates[1..])
  }

  function Accepted(r: RunRow, updates: seq<RunRow>): nat
    decreases |updates|
  {
    if updates == [] then 0
    else if MayUpdate(r, updates[0]) then 1 + Accepted(updates[0], updates[1..])
    else Accepted(r, updates[1..])
  }

  /** A run row changes at most twice in its life, a reflection or revision once; its context never. */
  lemma {:induction false} FewUpdates(r: RunRow, updates: seq<RunRow>)
    ensures Accepted(r, updates) + UpdatesLeft(AfterUpdates(r, updates)) == UpdatesLeft(r)
    ensures AfterUpdates(r, updates).context == r.context && AfterUpdates(r, updates).kind == r.kind
    decreases |updates|
  {
    if updates != [] {
      FewUpdates(if MayUpdate(r, updates[0]) then updates[0] else r, updates[1..]);
    }
  }
}
