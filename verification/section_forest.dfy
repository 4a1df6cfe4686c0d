/**
 Document sections and document versions.  Rows are only ever inserted.  One INSERT may bring
 many sections at once, each perhaps the parent of another; the cycle check runs for every new
 row when the transaction commits.
 */
module SectionForest {
  import opened Basics

  type Id = nat

  datatype Section = Section(run: Id, parent: Option<Id>)
  type Sections = map<Id, Section>

  /** The `n`-th row up from `from`, counting `from` itself as row 0. */
  function Up(t: Sections, from: Option<Id>, n: nat): Option<Id>
    decreases n
  {
    if n == 0 then from
    else match from
      case None => None
      case Some(i) => if i in t then Up(t, t[i].parent, n - 1) else None
  }

  /** The foreign key on the parent. */
  predicate ParentsExist(t: Sections) { forall i | i in t && t[i].parent.Some? :: t[i].parent.value in t }

  predicate ParentInRun(t: Sections, i: Id)
    requires i in t
  {
    t[i].parent.Some? ==> t[i].parent.value in t && t[t[i].parent.value].run == t[i].run
  }

  /** Every chain of parents ends. */
  ghost predicate Rooted(t: Sections) { forall i | i in t :: exists n: nat :: Up(t, Some(i), n) == None }

  /** Every chain of parents ends and stays in one parse run. */
  ghost predicate Forest(t: Sections) { Rooted(t) && forall i | i in t :: ParentInRun(t, i) }

  /** The check of one row finds nothing: same run, and its ancestors end without the row itself. */
  ghost predicate Passes(t: Sections, i: Id)
    requires i in t
  {
    t[i].parent.Some? ==>
      && ParentInRun(t, i)
      && (exists n: nat :: Up(t, t[i].parent, n) == None)
      && (forall n: nat :: Up(t, t[i].parent, n) != Some(i))
  }

  lemma {:induction false} UpTwice(t: Sections, from: Option<Id>, a: nat, b: nat)
    ensures Up(t, from, a + b) == Up(t, Up(t, from, a), b)
    decreases a
  {
    if a > 0 && from.Some? && from.value in t {
      UpTwice(t, t[from.value].parent, a - 1, b);
    } else if a > 0 {
      NothingAbove(t, b);
    }
  }

  lemma NothingAbove(t: Sections, n: nat)
    ensures Up(t, None, n) == None
  {
  }

  /** A chain that meets one of its own rows again never ends. */
  lemma {:induction false} LoopsForever(t: Sections, from: Option<Id>, a: nat, b: nat, n: nat)
    requires a < b && Up(t, from, a) == Up(t, from, b) && Up(t, from, a).Some?
    ensures Up(t, from, n) != None
    decreases n
  {
    if n >= b {
      LoopsForever(t, from, a, b, n - (b - a));
      UpTwice(t, from, b, n - b);
      UpTwice(t, from, a, n - b);
    } else if Up(t, from, n) == None {
      NothingAbove(t, b - n);
      UpTwice(t, from, n, b - n);
    }
  }

  /** In a forest no row is above itself. */
  lemma NoCycle(t: Sections, i: Id, n: nat)
    requires Rooted(t) && i in t && n > 0
    ensures Up(t, Some(i), n) != Some(i)
  {
    var m: nat :| Up(t, Some(i), m) == None;
    if Up(t, Some(i), n) == Some(i) {
      LoopsForever(t, Some(i), 0, n, m);
    }
  }

  lemma OneUp(t: Sections, i: Id, n: nat)
    requires i in t
    ensures Up(t, Some(i), n + 1) == Up(t, t[i].parent, n)
  {
  }

  lemma ForestPasses(t: Sections, i: Id)
    requires Forest(t) && i in t
    ensures Passes(t, i)
  {
    assert ParentInRun(t, i);
    var m: nat :| Up(t, Some(i), m) == None;
    assert m > 0;
    OneUp(t, i, m - 1);
    assert Up(t, t[i].parent, m - 1) == None;
    forall n: nat
      ensures Up(t, t[i].parent, n) != Some(i)
    {
      NoCycle(t, i, n + 1);
      OneUp(t, i, n);
    }
  }

  /** Old chains are as they were: a new row cannot become the parent of an old one. */
  lemma {:induction false} OldChain(t: Sections, u: Sections, from: Option<Id>, n: nat)
    requires ParentsExist(t) && (forall i | i in t :: i in u && u[i] == t[i]) && (from.Some? ==> from.value in t)
    ensures Up(u, from, n) == Up(t, from, n)
    decreases n
  {
    if n > 0 && from.Some? {
      OldChain(t, u, t[from.value].parent, n - 1);
    }
  }

  /**
     A transaction adds `batch` to a forest.  The deferred check passes for every new row exactly
     when the whole table is a forest again.
   */
  lemma ChecksMeanForest(t: Sections, batch: Sections)
    requires Forest(t) && ParentsExist(t) && t.Keys !! batch.Keys && ParentsExist(t + batch)
    ensures (forall i | i in batch :: Passes(t + batch, i)) <==> Forest(t + batch)
  {
    var u := t + batch;
    if forall i | i in batch :: Passes(u, i) {
      forall i | i in u
        ensures ParentInRun(u, i) && exists n: nat :: Up(u, Some(i), n) == None
      {
        if i in batch {
          assert Passes(u, i);
          var n: nat := 0;
          if u[i].parent.Some? {
            n :| Up(u, u[i].parent, n) == None;
          }
          OneUp(u, i, n);
          NothingAbove(u, n);
          assert Up(u, Some(i), n + 1) == None;
        } else {
          assert i in t && ParentInRun(t, i);
          var n: nat :| Up(t, Some(i), n) == None;
          OldChain(t, u, Some(i), n);
        }
      }
    }
    if Forest(u) {
      forall i | i in batch
        ensures Passes(u, i)
      {
        ForestPasses(u, i);
      }
    }
  }

  /** Every ancestor of a row is in the parse run of the row. */
  lemma {:induction false} ChainStaysInRun(t: Sections, i: Id, n: nat)
    requires Forest(t) && i in t && Up(t, Some(i), n).Some?
    ensures Up(t, Some(i), n).value in t && t[Up(t, Some(i), n).value].run == t[i].run
    decreases n
  {
    if n > 0 {
      assert ParentInRun(t, i);
      OneUp(t, i, n - 1);
      NothingAbove(t, n - 1);
      ChainStaysInRun(t, t[i].parent.value, n - 1);
    }
  }

  /** A numbering that puts every parent before its children. */
  predicate Deeper(t: Sections, depth: map<Id, nat>) {
    forall i | i in t :: i in depth && (t[i].parent.Some? ==> t[i].parent.value in depth && depth[t[i].parent.value] < depth[i])
  }

  lemma {:induction false} DeeperEnds(t: Sections, depth: map<Id, nat>, from: Option<Id>, n: nat)
    requires Deeper(t, depth) && (from.Some? ==> from.value in depth && n > depth[from.value])
    ensures Up(t, from, n + 1) == None
    decreases n
  {
    if from.Some? && from.value in t {
      OneUp(t, from.value, n);
      if n > 0 {
        DeeperEnds(t, depth, t[from.value].parent, n - 1);
      }
    }
  }

  /** The number of rows of a chain that ends. */
  ghost predicate IsHeight(t: Sections, from: Option<Id>, n: nat) {
    Up(t, from, n) == None && forall k: nat | k < n :: Up(t, from, k) != None
  }

  lemma {:induction false} Height(t: Sections, from: Option<Id>, m: nat) returns (n: nat)
    requires Up(t, from, m) == None
    ensures IsHeight(t, from, n)
    decreases m
  {
    if k: nat :| k < m && Up(t, from, k) == None {
      n := Height(t, from, k);
    } else {
      n := m;
    }
  }

  ghost function HeightOf(t: Sections, i: Id): (n: nat)
    requires Rooted(t) && i in t
    ensures IsHeight(t, Some(i), n)
  {
    var m: nat :| Up(t, Some(i), m) == None;
    HasHeight(t, Some(i), m);
    var n: nat :| IsHeight(t, Some(i), n);
    n
  }

  lemma HasHeight(t: Sections, from: Option<Id>, m: nat)
    requires Up(t, from, m) == None
    ensures exists n: nat :: IsHeight(t, from, n)
  {
    var _ := Height(t, from, m);
  }

  lemma ParentIsLower(t: Sections, i: Id)
    requires Rooted(t) && i in t && t[i].parent.Some? && t[i].parent.value in t
    ensures HeightOf(t, t[i].parent.value) < HeightOf(t, i)
  {
    var n, m := HeightOf(t, i), HeightOf(t, t[i].parent.value);
    assert n > 0;
    OneUp(t, i, n - 1);
    assert Up(t, t[i].parent, n - 1) == None;
  }

  /** A forest is a table whose rows can be numbered like that. */
  lemma ForestIff(t: Sections)
    ensures Forest(t) <==>
      && (forall i | i in t && t[i].parent.Some? :: t[i].parent.value in t && t[t[i].parent.value].run == t[i].run)
      && exists depth: map<Id, nat> :: Deeper(t, depth)
  {
    if Forest(t) {
      var depth: map<Id, nat> := map i | i in t :: HeightOf(t, i);
      forall i | i in t && t[i].parent.Some?
        ensures t[i].parent.value in t && depth[t[i].parent.value] < depth[i]
      {
        assert ParentInRun(t, i);
        ParentIsLower(t, i);
      }
      assert Deeper(t, depth);
    }
    if (forall i | i in t && t[i].parent.Some? :: t[i].parent.value in t && t[t[i].parent.value].run == t[i].run)
      && exists depth: map<Id, nat> :: Deeper(t, depth) {
      var depth: map<Id, nat> :| Deeper(t, depth);
      forall i | i in t
        ensures exists n: nat :: Up(t, Some(i), n) == None
      {
        DeeperEnds(t, depth, Some(i), depth[i] + 1);
      }
    }
  }

  lemma CommitsIff(t: Sections, batch: Sections)
    ensures var after := t + batch;
      batch.Keys !! t.Keys && ParentsExist(after) && Forest(after) <==>
        && batch.Keys !! t.Keys
        && (forall i | i in after && after[i].parent.Some? ::
              after[i].parent.value in after && after[after[i].parent.value].run == after[i].run)
        && exists depth: map<Id, nat> :: Deeper(after, depth)
  {
    hide Forest, Deeper;
    ForestIff(t + batch);
  }

  /** What the check of one row comes to. */
  datatype Verdict = Pass | Refused | NeverEnds

  /** The check refuses a row: its parent is in another run, or the row is among its own ancestors. */
  ghost predicate Refusable(t: Sections, i: Id)
    requires i in t
  {
    t[i].parent.Some? && (!ParentInRun(t, i) || exists n: nat :: Up(t, t[i].parent, n) == Some(i))
  }

  /** The query of a row never ends: its ancestors run into a cycle that the row itself is not on. */
  ghost predicate Endless(t: Sections, i: Id)
    requires i in t
  {
    && t[i].parent.Some? && ParentInRun(t, i)
    && forall n: nat :: Up(t, t[i].parent, n) != None && Up(t, t[i].parent, n) != Some(i)
  }

  /** One of the three holds, and only one. */
  lemma ThreeVerdicts(t: Sections, i: Id)
    requires i in t
    ensures Passes(t, i) || Refusable(t, i) || Endless(t, i)
    ensures !(Passes(t, i) && Refusable(t, i)) && !(Passes(t, i) && Endless(t, i)) && !(Refusable(t, i) && Endless(t, i))
  {
  }

  /** A chain that meets a row again only ever meets the rows before it. */
  lemma {:induction false} LoopStaysInside(t: Sections, from: Option<Id>, a: nat, b: nat, n: nat) returns (k: nat)
    requires a < b && Up(t, from, a) == Up(t, from, b)
    ensures k < b && Up(t, from, n) == Up(t, from, k)
    decreases n
  {
    if n < b {
      k := n;
    } else {
      UpTwice(t, from, b, n - b);
      UpTwice(t, from, a, n - b);
      k := LoopStaysInside(t, from, a, b, n - (b - a));
    }
  }

  datatype Outcome = Committed | RolledBack | Hanging

  /** The rows of a batch, each once. */
  predicate Enumerates(order: seq<Id>, batch: Sections) {
    && (forall k | 0 <= k < |order| :: order[k] in batch)
    && (forall i | i in batch :: i in order)
    && forall j, k | 0 <= j < k < |order| :: order[j] != order[k]
  }

  /** The first row whose check does not pass is one whose check never ends. */
  ghost predicate Hangs(t: Sections, order: seq<Id>) {
    exists k :: 0 <= k < |order| && order[k] in t && Endless(t, order[k]) && forall j | 0 <= j < k :: order[j] in t && Passes(t, order[j])
  }

  class SectionTable {
    var rows: Sections

    constructor ()
      ensures rows == map[] && Forest(rows) && ParentsExist(rows)
    {
      rows := map[];
    }

    /** The query walks up row by row; it ends at a root or at the row itself, or not at all. */
    method Check(i: Id) returns (v: Verdict)
      requires i in rows && ParentsExist(rows)
      ensures v == Pass <==> Passes(rows, i)
      ensures v == Refused <==> Refusable(rows, i)
      ensures v == NeverEnds <==> Endless(rows, i)
    {
      ThreeVerdicts(rows, i);
      var current := rows[i].parent;
      if current.None? {
        return Pass;
      }
      if current == Some(i) || rows[current.value].run != rows[i].run {
        assert Up(rows, rows[i].parent, 0) == current;
        return Refused;
      }
      ghost var n: nat := 0;
      var seen: seq<Id> := [];
      while current.Some?
        invariant current == Up(rows, rows[i].parent, n) && (current.Some? ==> current.value in rows)
        invariant |seen| == n && forall k: nat | k < n :: seen[k] in rows && Up(rows, rows[i].parent, k) == Some(seen[k])
        invariant forall k: nat | k < n :: seen[k] != i
        invariant forall j, k | 0 <= j < k < n :: seen[j] != seen[k]
        decreases |rows| - n
      {
        if current.value == i {
          return Refused;
        }
        if current.value in seen {
          ghost var k: nat :| k < n && seen[k] == current.value;
          forall m: nat
            ensures Up(rows, rows[i].parent, m) != None && Up(rows, rows[i].parent, m) != Some(i)
          {
            var l := LoopStaysInside(rows, rows[i].parent, k, n, m);
            assert Up(rows, rows[i].parent, l) == Some(seen[l]);
          }
          return NeverEnds;
        }
        FewerThanRows(rows, seen + [current.value]);
        UpTwice(rows, rows[i].parent, n, 1);
        assert Up(rows, current, 1) == rows[current.value].parent by { OneUp(rows, current.value, 0); }
        seen := seen + [current.value];
        current := rows[current.value].parent;
        n := n + 1;
      }
      forall m: nat
        ensures Up(rows, rows[i].parent, m) != Some(i)
      {
        if m >= n {
          UpTwice(rows, rows[i].parent, n, m - n);
          NothingAbove(rows, m - n);
        } else {
          assert Up(rows, rows[i].parent, m) == Some(seen[m]);
        }
      }
      v := Pass;
    }

    /** Insert a batch and commit: the foreign key, then the deferred check of each new row in the order of insertion. */
    method Commit(batch: Sections, order: seq<Id>) returns (o: Outcome)
      requires Forest(rows) && ParentsExist(rows) && Enumerates(order, batch)
      modifies this
      ensures Forest(rows) && ParentsExist(rows)
      ensures var after := old(rows) + batch; var sound := batch.Keys !! old(rows).Keys && ParentsExist(after);
        && (o == Committed <==> sound && Forest(after))
        && (o == Hanging <==> sound && Hangs(after, order))
      ensures var after := old(rows) + batch;
        o == Committed <==>
          && batch.Keys !! old(rows).Keys
          && (forall i | i in after && after[i].parent.Some? ::
                after[i].parent.value in after && after[after[i].parent.value].run == after[i].run)
          && exists depth: map<Id, nat> :: Deeper(after, depth)
      ensures rows == if o == Committed then old(rows) + batch else old(rows)
    {
      var before := rows;
      CommitsIff(rows, batch);
      hide Deeper, Forest;
      if !(batch.Keys !! rows.Keys) || !ParentsExist(rows + batch) {
        return RolledBack;
      }
      rows := rows + batch;
      ChecksMeanForest(before, batch);
      hide Passes, Endless, Refusable;
      for k := 0 to |order|
        invariant rows == before + batch
        invariant forall j | 0 <= j < k :: order[j] in rows && Passes(rows, order[j])
      {
        var v := Check(order[k]);
        ThreeVerdicts(rows, order[k]);
        if v != Pass {
          FirstNotPassing(rows, order, k);
          rows := before;
          return if v == Refused then RolledBack else Hanging;
        }
      }
      assert forall i | i in batch :: Passes(rows, i);
      forall k | 0 <= k < |order|
        ensures !Endless(rows, order[k])
      {
        ThreeVerdicts(rows, order[k]);
      }
      o := Committed;
    }
  }

  /** The first row that does not pass decides whether a transaction hangs. */
  lemma FirstNotPassing(t: Sections, order: seq<Id>, k: nat)
    requires k < |order| && forall j | 0 <= j < |order| :: order[j] in t
    requires (forall j | 0 <= j < k :: Passes(t, order[j])) && !Passes(t, order[k])
    ensures Hangs(t, order) <==> Endless(t, order[k])
  {
    hide Passes, Endless;
    if Hangs(t, order) {
      var m :| 0 <= m < |order| && Endless(t, order[m]) && forall j | 0 <= j < m :: Passes(t, order[j]);
      ThreeVerdicts(t, order[m]);
      assert m == k;
    }
  }

  /** A batch hangs in some order of its rows exactly when the query of some new row never ends. */
  lemma HangsInSomeOrderIff(t: Sections, batch: Sections)
    requires Forest(t) && ParentsExist(t) && t.Keys !! batch.Keys && ParentsExist(t + batch)
    ensures (exists order :: Enumerates(order, batch) && Hangs(t + batch, order)) <==> exists i :: i in batch && Endless(t + batch, i)
  {
    hide Endless, Forest, ParentsExist;
    var u := t + batch;
    if order :| Enumerates(order, batch) && Hangs(u, order) {
      var k :| 0 <= k < |order| && order[k] in u && Endless(u, order[k]);
      assert order[k] in batch;
    }
    if i :| i in batch && Endless(u, i) {
      var rest := AnyOrder(batch - {i});
      var order := [i] + rest;
      assert order[0] == i && Enumerates(order, batch) by {
        assert forall j | j in batch :: j == i || j in batch - {i};
      }
      assert Endless(u, order[0]);
    }
  }

  lemma {:induction false} AnyOrder(batch: Sections) returns (order: seq<Id>)
    ensures Enumerates(order, batch)
    decreases |batch|
  {
    order := [];
    if batch != map[] {
      var i :| i in batch;
      var rest := AnyOrder(batch - {i});
      order := [i] + rest;
      assert forall j | j in batch :: j == i || j in batch - {i};
    }
  }

  /** Rows seen once each are no more than there are rows. */
  lemma {:induction false} FewerThanRows(t: Sections, seen: seq<Id>)
    requires (forall k | 0 <= k < |seen| :: seen[k] in t) && forall j, k | 0 <= j < k < |seen| :: seen[j] != seen[k]
    ensures |seen| <= |t|
    decreases |seen|
  {
    if seen != [] {
      var last := seen[|seen| - 1];
      FewerThanRows(t - {last}, seen[..|seen| - 1]);
    }
  }

  /** A row below a cycle of the same batch: the check of that row never ends. */
  method HangingBatch() returns (o: Outcome)
    ensures o == Hanging
  {
    var table := new SectionTable();
    var batch: Sections := map[1 := Section(0, Some(2)), 2 := Section(0, Some(3)), 3 := Section(0, Some(2))];
    assert table.rows + batch == batch;
    forall n: nat
      ensures Up(batch, Some(2), n) == Some(2) || Up(batch, Some(2), n) == Some(3)
    {
      TwoThree(batch, n);
    }
    var order := [1, 2, 3];
    assert order[0] == 1 && order[1] == 2 && order[2] == 3;
    assert Endless(batch, order[0]);
    o := table.Commit(batch, order);
  }

  lemma {:induction false} TwoThree(t: Sections, n: nat)
    requires 2 in t && 3 in t && t[2].parent == Some(3) && t[3].parent == Some(2)
    ensures Up(t, Some(2), n) == Some(2) || Up(t, Some(2), n) == Some(3)
  {
    if n >= 2 {
      OneUp(t, 2, n - 1);
      OneUp(t, 3, n - 2);
      TwoThree(t, n - 2);
    } else if n == 1 {
      OneUp(t, 2, 0);
    }
  }

  // --- document versions ---

  datatype Version = Version(document: Id, number: nat, supersedes: Option<Id>)
  type Versions = map<Id, Version>

  predicate SupersedesOlder(t: Versions, v: Version) {
    v.supersedes.Some? ==>
      && v.supersedes.value in t && t[v.supersedes.value].document == v.document && t[v.supersedes.value].number < v.number
  }

  ghost predicate VersionsOk(t: Versions) {
    && (forall i | i in t :: t[i].number > 0 && SupersedesOlder(t, t[i]))
    && (forall i, j | i in t && j in t && i != j :: t[i].document != t[j].document || t[i].number != t[j].number)
  }

  function Superseded(t: Versions, from: Option<Id>, n: nat): Option<Id>
    decreases n
  {
    if n == 0 then from
    else match from
      case None => None
      case Some(i) => if i in t then Superseded(t, t[i].supersedes, n - 1) else None
  }

  /** Links descend strictly in version number inside one document, so they end soon. */
  lemma {:induction false} SupersessionDescends(t: Versions, i: Id, n: nat)
    requires VersionsOk(t) && i in t
    ensures Superseded(t, Some(i), n).Some? ==>
      var j := Superseded(t, Some(i), n).value;
      j in t && t[j].document == t[i].document && t[j].number + n <= t[i].number
    ensures n >= t[i].number ==> Superseded(t, Some(i), n) == None
    decreases n
  {
    assert SupersedesOlder(t, t[i]);
    if n > 0 && t[i].supersedes.Some? {
      SupersessionDescends(t, t[i].supersedes.value, n - 1);
    } else if n > 0 {
      assert Superseded(t, None, n - 1) == None;
    }
  }

  class VersionTable {
    var rows: Versions

    constructor ()
      ensures rows == map[] && VersionsOk(rows)
    {
      rows := map[];
    }

    /** The supersession trigger, then the keys and the check on the number. */
    method Insert(id: Id, v: Version) returns (ok: bool)
      requires VersionsOk(rows)
      modifies this
      ensures VersionsOk(rows)
      ensures rows == if ok then old(rows)[id := v] else old(rows)
      ensures ok <==> id !in old(rows) && VersionsOk(old(rows)[id := v])
      ensures ok <==>
        && id !in old(rows) && v.number > 0
        && (v.supersedes.Some? ==>
              && v.supersedes.value in old(rows) && old(rows)[v.supersedes.value].document == v.document
              && old(rows)[v.supersedes.value].number < v.number)
        && forall j | j in old(rows) :: old(rows)[j].document != v.document || old(rows)[j].number != v.number
    {
      if id in rows {
        return false;
      }
      InsertFits(rows, id, v);
      if v.supersedes.Some? {
        var older := v.supersedes.value;
        if older !in rows || rows[older].document != v.document || rows[older].number >= v.number {
          return false;
        }
      }
      if v.number == 0 || exists j | j in rows :: rows[j].document == v.document && rows[j].number == v.number {
        return false;
      }
      rows := rows[id := v];
      ok := true;
    }
  }

  lemma InsertFits(t: Versions, id: Id, v: Version)
    requires VersionsOk(t) && id !in t
    ensures VersionsOk(t[id := v]) <==>
      && v.number > 0 && SupersedesOlder(t, v)
      && forall j | j in t :: t[j].document != v.document || t[j].number != v.number
  {
    var u := t[id := v];
    assert forall j | j in t :: SupersedesOlder(t, t[j]) && u[j] == t[j];
    assert u[id] == v;
    if VersionsOk(u) {
      assert SupersedesOlder(u, u[id]);
      forall j | j in t
        ensures t[j].document != v.document || t[j].number != v.number
      {
        assert u[j].document != u[id].document || u[j].number != u[id].number;
      }
    }
  }
}
