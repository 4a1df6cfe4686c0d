/**
 The values that the POSIX anchor works on and what is said of them: files and their numbers, the
 root and the quarantine as directories, open descriptors, and the log of what one operation did.
 */
module AnchorBooks {
  import opened Basics

  type Name = string

  /**
     A file; whether it is a regular one is a fixed part of what it is.  The code only ever compares
     `number`; `born` tells files apart that had the same number one after the other.
   */
  datatype Inode = File(number: nat, born: nat) | Special(number: nat, born: nat)

  /** `Missing` and `Collision` are internal signals; the others are blob-storage errors. */
  datatype Error =
    | Missing
    | Collision
    | Storage
    | InvalidUri
    | AlreadyExists
    | TooLarge
    | Cleanup
  {
    predicate IsStorageError() { !Missing? && !Collision? }
  }

  datatype Outcome<+T> = Ok(value: T) | Raised(error: Error)

  /** What one operation did to the two directories, in order. */
  datatype Event =
    | Created(name: Name, inode: Inode)
    | Opened(name: Name, inode: Inode)
    | Moved(name: Name, slot: Name, inode: Inode)
    | Vanished(name: Name)
    | Restored(slot: Name, name: Name, inode: Inode)
    | Destroyed(slot: Name, inode: Inode)
    /** A name was withdrawn: the file that was meant, the one that was found, and all that existed then. */
    | Withdrew(name: Name, meant: Inode, found: Inode, living: set<Inode>)

  /** What went wrong in one operation, at the system call where it did. */
  datatype Trouble =
    | Taken(name: Name)       // a name that was to be made exists
    | Absent(name: Name)      // a name that was to be opened does not
    | Irregular(name: Name)   // it leads to something that is not a regular file
    | TooLong                 // a file has more bytes than may be read
    | Refused                 // a call failed
    | Unclean                 // a call failed in a clean-up or removal, or an identity could not be confirmed

  datatype Entry = Entry(name: Name, inode: Inode)

  /** A file in quarantine, with an open descriptor of it. */
  datatype Quarantined = Quarantined(original: Name, slot: Name, identity: Inode)

  /** No two files that exist at the same time have the same number. */
  predicate Unique(living: set<Inode>) {
    forall i, j | i in living && j in living && i.number == j.number :: i == j
  }

  /** Whatever has a link or an open descriptor exists; `data` also remembers the files of the past. */
  predicate Exist(root: map<Name, Inode>, quarantine: map<Name, Inode>, open: multiset<Inode>,
                  alive: set<Inode>, data: map<Inode, seq<byte>>, next: nat) {
    && (forall n | n in root :: root[n] in alive)
    && (forall n | n in quarantine :: quarantine[n] in alive)
    && (forall i | i in open :: i in alive)
    && alive <= data.Keys && Unique(alive)
    && (forall i | i in data :: i.born < next)
  }

  lemma ExistAfterCreation(root: map<Name, Inode>, quarantine: map<Name, Inode>, open: multiset<Inode>,
                           alive: set<Inode>, data: map<Inode, seq<byte>>, next: nat, name: Name, inode: Inode)
    requires Exist(root, quarantine, open, alive, data, next)
    requires inode.born == next && forall i | i in alive :: i.number != inode.number
    ensures Exist(root[name := inode], quarantine, open + multiset{inode}, alive + {inode}, data[inode := []], next + 1)
    ensures inode !in data
  {
  }

  lemma ExistWithDescriptor(root: map<Name, Inode>, quarantine: map<Name, Inode>, open: multiset<Inode>,
                            alive: set<Inode>, data: map<Inode, seq<byte>>, next: nat, inode: Inode)
    requires Exist(root, quarantine, open, alive, data, next)
    ensures inode in alive ==> Exist(root, quarantine, open + multiset{inode}, alive, data, next)
    ensures Exist(root, quarantine, open - multiset{inode}, alive, data, next)
  {
    hide Unique;
  }

  /** Links of files that exist may come and go. */
  lemma ExistWithLinks(root: map<Name, Inode>, quarantine: map<Name, Inode>, open: multiset<Inode>,
                       alive: set<Inode>, data: map<Inode, seq<byte>>, next: nat, root1: map<Name, Inode>, quarantine1: map<Name, Inode>)
    requires Exist(root, quarantine, open, alive, data, next)
    requires (forall n | n in root1 :: root1[n] in alive) && (forall n | n in quarantine1 :: quarantine1[n] in alive)
    ensures Exist(root1, quarantine1, open, alive, data, next)
  {
    hide Unique;
  }

  lemma ExistWritten(root: map<Name, Inode>, quarantine: map<Name, Inode>, open: multiset<Inode>,
                     alive: set<Inode>, data: map<Inode, seq<byte>>, next: nat, inode: Inode, bytes: seq<byte>)
    requires Exist(root, quarantine, open, alive, data, next) && inode in data
    ensures Exist(root, quarantine, open, alive, data[inode := bytes], next)
  {
    hide Unique;
    assert data[inode := bytes].Keys == data.Keys;
  }

  lemma Linked(root: map<Name, Inode>, quarantine: map<Name, Inode>, open: multiset<Inode>,
               alive: set<Inode>, data: map<Inode, seq<byte>>, next: nat)
    requires Exist(root, quarantine, open, alive, data, next)
    ensures (forall n | n in root :: root[n] in alive && root[n] in data)
    ensures (forall n | n in quarantine :: quarantine[n] in alive && quarantine[n] in data)
  {
    hide Unique;
  }

  /** A file that no longer existed does not come back; a new one may have its number. */
  predicate StayGone(alive0: set<Inode>, data0: map<Inode, seq<byte>>, alive1: set<Inode>, data1: map<Inode, seq<byte>>) {
    data0.Keys <= data1.Keys && forall i | i in alive1 && i in data0 :: i in alive0
  }

  function InodesOf(entries: seq<Entry>): (r: seq<Inode>)
    ensures |r| == |entries| && forall k | 0 <= k < |r| :: r[k] == entries[k].inode
  {
    seq(|entries|, k requires 0 <= k < |entries| => entries[k].inode)
  }

  function IdentitiesOf(taken: seq<Quarantined>): (r: seq<Inode>)
    ensures |r| == |taken| && forall k | 0 <= k < |r| :: r[k] == taken[k].identity
  {
    seq(|taken|, k requires 0 <= k < |taken| => taken[k].identity)
  }

  /** Some descriptors, and one or more opened or closed. */
  ghost function With(open: multiset<Inode>, inode: Inode): multiset<Inode> { open + multiset{inode} }

  ghost function Less(open: multiset<Inode>, inode: Inode): multiset<Inode> { open - multiset{inode} }

  ghost function Plus(open: multiset<Inode>, more: multiset<Inode>): multiset<Inode> { open + more }

  ghost function Minus(open: multiset<Inode>, fewer: multiset<Inode>): multiset<Inode> { open - fewer }

  /** One descriptor for each entry, and one for each file in quarantine. */
  ghost function Handles(entries: seq<Entry>): multiset<Inode> { multiset(InodesOf(entries)) }

  ghost function HeldHandles(taken: seq<Quarantined>): multiset<Inode> { multiset(IdentitiesOf(taken)) }

  lemma HandlesJoin(a: seq<Entry>, b: seq<Entry>)
    ensures Handles(a + b) == Handles(a) + Handles(b)
  {
    assert InodesOf(a + b) == InodesOf(a) + InodesOf(b);
  }

  lemma HandlesNone()
    ensures Handles([]) == multiset{} && HeldHandles([]) == multiset{}
  {
  }

  lemma HandlesOne(e: Entry)
    ensures Handles([e]) == multiset{e.inode} && Handles([]) == multiset{}
  {
    assert InodesOf([e]) == [e.inode];
  }

  lemma HandlesTwo(d: Entry, e: Entry)
    ensures Handles([d, e]) == multiset{d.inode, e.inode}
  {
    assert InodesOf([d, e]) == [d.inode, e.inode];
  }

  lemma HandlesStep(entries: seq<Entry>, k: nat)
    requires k < |entries|
    ensures Handles(entries[..k + 1]) == Handles(entries[..k]) + multiset{entries[k].inode}
    ensures Handles(entries[..k + 1]) <= Handles(entries)
  {
    assert entries[..k + 1] == entries[..k] + [entries[k]] && entries == entries[..k + 1] + entries[k + 1..];
    HandlesJoin(entries[..k], [entries[k]]);
    HandlesOne(entries[k]);
    HandlesJoin(entries[..k + 1], entries[k + 1..]);
  }

  lemma AllOpen(entries: seq<Entry>)
    ensures forall e | e in entries :: e.inode in Handles(entries)
  {
    forall e | e in entries
      ensures e.inode in Handles(entries)
    {
      var k :| 0 <= k < |entries| && entries[k] == e;
      assert InodesOf(entries)[k] == e.inode;
    }
  }

  lemma HeldHandlesJoin(a: seq<Quarantined>, b: seq<Quarantined>)
    ensures HeldHandles(a + b) == HeldHandles(a) + HeldHandles(b)
  {
    assert IdentitiesOf(a + b) == IdentitiesOf(a) + IdentitiesOf(b);
  }

  lemma HeldHandlesOne(q: Quarantined)
    ensures HeldHandles([q]) == multiset{q.identity} && HeldHandles([]) == multiset{}
  {
    assert IdentitiesOf([q]) == [q.identity];
  }

  lemma Cancel(a: multiset<Inode>, b: multiset<Inode>, h: multiset<Inode>)
    requires Plus(a, h) == Plus(b, h)
    ensures a == b
  {
    forall i: Inode
      ensures a[i] == b[i]
    {
      assert (a + h)[i] == (b + h)[i];
    }
  }

  lemma NoHandles(open: multiset<Inode>)
    ensures Plus(open, Handles([])) == open && Plus(open, HeldHandles([])) == open
    ensures Minus(open, Handles([])) == open && Minus(open, HeldHandles([])) == open
  {
  }

  /** A descriptor that has been opened can be closed, and then all is as before. */
  lemma OpenedOne(open: multiset<Inode>, inode: Inode)
    ensures inode in With(open, inode) && Less(With(open, inode), inode) == open
    ensures forall j | j in open :: j in With(open, inode)
  {
  }

  lemma OpenedOther(open: multiset<Inode>, i: Inode, j: Inode)
    ensures j in With(With(open, i), j) && i in Less(With(With(open, i), j), j)
    ensures Less(Less(With(With(open, i), j), j), i) == open
  {
  }

  lemma OpenedAll(open: multiset<Inode>, all: multiset<Inode>)
    ensures Minus(Plus(open, all), all) == open && all <= Plus(open, all)
    ensures forall j | j in open || j in all :: j in Plus(open, all)
  {
    forall j | j in all
      ensures j in Plus(open, all)
    {
      assert (open + all)[j] == open[j] + all[j];
    }
  }

  lemma OpenedMore(open: multiset<Inode>, entries: seq<Entry>, e: Entry)
    ensures With(Plus(open, Handles(entries)), e.inode) == Plus(open, Handles(entries + [e]))
  {
    HandlesJoin(entries, [e]);
    HandlesOne(e);
  }

  lemma OpenedBoth(open: multiset<Inode>, d: Entry, e: Entry)
    ensures With(open, d.inode) == Plus(open, Handles([d]))
    ensures With(With(open, d.inode), e.inode) == Plus(open, Handles([d, e]))
    ensures d.inode in Plus(open, Handles([d, e])) && e.inode in Plus(open, Handles([d, e]))
  {
    HandlesOne(d);
    HandlesTwo(d, e);
  }

  lemma TakenTogether(open: multiset<Inode>, first: seq<Quarantined>, more: seq<Quarantined>)
    ensures Plus(Plus(open, HeldHandles(first)), HeldHandles(more)) == Plus(open, HeldHandles(first + more))
  {
    HeldHandlesJoin(first, more);
  }

  lemma TakenOne(open: multiset<Inode>, q: Quarantined)
    ensures With(open, q.identity) == Plus(open, HeldHandles([q]))
  {
    HeldHandlesOne(q);
  }

  lemma LessAndMinus(open: multiset<Inode>, all: multiset<Inode>, rest: multiset<Inode>, inode: Inode)
    requires all == rest + multiset{inode} && all <= open
    ensures inode in open && rest <= open - multiset{inode} && open - multiset{inode} - rest == open - all
  {
    assert all[inode] == rest[inode] + 1 && all[inode] <= open[inode];
    forall i: Inode
      ensures rest[i] <= (open - multiset{inode})[i] && (open - multiset{inode} - rest)[i] == (open - all)[i]
    {
      assert all[i] == rest[i] + multiset{inode}[i] && all[i] <= open[i];
    }
  }

  /** Closing one of the held descriptors, the first or the last, leaves the rest of them. */
  lemma ClosedOne(open: multiset<Inode>, taken: seq<Quarantined>, q: Quarantined, rest: seq<Quarantined>)
    requires taken == [q] + rest || taken == rest + [q]
    requires HeldHandles(taken) <= open
    ensures q.identity in open && HeldHandles(rest) <= Less(open, q.identity)
    ensures Minus(Less(open, q.identity), HeldHandles(rest)) == Minus(open, HeldHandles(taken))
  {
    HeldHandlesJoin([q], rest);
    HeldHandlesJoin(rest, [q]);
    HeldHandlesOne(q);
    hide HeldHandles;
    LessAndMinus(open, HeldHandles(taken), HeldHandles(rest), q.identity);
  }

  /** Closing the descriptors of a list of entries in their order. */
  lemma ClosedOneMore(open: multiset<Inode>, entries: seq<Entry>, k: nat)
    requires k < |entries| && Handles(entries) <= open
    ensures entries[k].inode in Minus(open, Handles(entries[..k]))
    ensures Less(Minus(open, Handles(entries[..k])), entries[k].inode) == Minus(open, Handles(entries[..k + 1]))
  {
    HandlesStep(entries, k);
    assert Handles(entries[..k + 1])[entries[k].inode] <= open[entries[k].inode];
  }

  /** The same where what is still open is known only together with what has been closed. */
  lemma OneMoreOpen(open: multiset<Inode>, all: multiset<Inode>, entries: seq<Entry>, k: nat)
    requires k < |entries| && Plus(open, Handles(entries[..k])) == all && Handles(entries) <= all
    ensures entries[k].inode in open
    ensures Plus(Less(open, entries[k].inode), Handles(entries[..k + 1])) == all
  {
    HandlesStep(entries, k);
    var done, inode := Handles(entries[..k]), entries[k].inode;
    assert (open + done)[inode] == all[inode] && (done + multiset{inode})[inode] <= all[inode];
  }

  /** The error that a trouble leads to when it is the last one; an absent name may also be a storage error. */
  predicate LeadsTo(t: Trouble, e: Error) {
    match t
    case Taken(_) => e == Collision || e == AlreadyExists
    case Absent(_) => e == Missing || e == Storage
    case Irregular(_) => e == InvalidUri
    case TooLong => e == TooLarge
    case Refused => e == Storage
    case Unclean => e == Cleanup
  }

  /** An error told by the troubles since `before`: the last one leads to it. */
  ghost predicate Told(before: seq<Trouble>, after: seq<Trouble>, e: Error) {
    before <= after && |before| < |after| && LeadsTo(after[|after| - 1], e)
  }

  /** The same for an operation that only reads: an absent name is told as such. */
  ghost predicate ReadTold(before: seq<Trouble>, after: seq<Trouble>, e: Error) {
    Told(before, after, e) && (after[|after| - 1].Absent? ==> e == Missing)
  }

  /** Since `before` every name without an entry was absent, in the order of the names, and nothing else went wrong. */
  ghost predicate Missed(before: seq<Trouble>, after: seq<Trouble>, names: seq<Name>, entries: seq<Entry>) {
    && before <= after && |after| - |before| == |names| - |entries|
    && (entries == [] ==> forall k | |before| <= k < |after| :: after[k] == Absent(names[k - |before|]))
    && (forall k | |before| <= k < |after| :: after[k].Absent? && after[k].name in names)
  }

  lemma MissedOne(before: seq<Trouble>, after: seq<Trouble>, names: seq<Name>, entries: seq<Entry>, name: Name)
    requires Missed(before, after, names, entries)
    ensures Missed(before, after + [Absent(name)], names + [name], entries)
    ensures forall i :: Missed(before, after, names + [name], entries + [Entry(name, i)])
  {
  }

  lemma NothingMissed(t: seq<Trouble>)
    ensures Missed(t, t, [], [])
  {
  }

  /** The halves that were absent and the troubles of the removal tell how a removal ends. */
  lemma DeleteTold(missed: seq<Trouble>, after: seq<Trouble>, contentName: Name, sidecarName: Name, entries: seq<Entry>, r: Outcome<()>)
    requires Missed([], missed, [contentName, sidecarName], entries) && |entries| <= 2
    requires if entries == [] then after == missed && r == Raised(Missing)
             else Spoiled(missed, after, r.Raised?) && (r.Raised? ==> r.error == Cleanup)
    ensures r.Ok? <==> after == [] || after == [Absent(contentName)] || after == [Absent(sidecarName)]
    ensures r == Raised(Missing) <==> after == [Absent(contentName), Absent(sidecarName)]
    ensures r == Raised(Cleanup) <==> after != [] && after[|after| - 1] == Unclean
    ensures after != [] ==> !after[|after| - 1].Irregular? && after[|after| - 1] != Refused
  {
    if |entries| == 1 {
      assert missed == [missed[0]];
    } else if entries == [] {
      assert missed == [missed[0], missed[1]];
    }
    assert |missed| < |after| ==> after[|missed|] == after[|after| - 1] == Unclean || entries == [];
  }

  /** The name whose turn it was exists. */
  ghost predicate LastTaken(t: seq<Trouble>, contentName: Name, sidecarName: Name) {
    t != [] && t[|t| - 1].Taken? &&
    var name := t[|t| - 1].name;
    name == contentName || name == sidecarName || IsTemporary(name)
  }

  /** Why a name may be taken: it is in the directory, both are the same, or a temporary name is. */
  ghost predicate SomeTaken(contentName: Name, sidecarName: Name, root: map<Name, Inode>) {
    || contentName in root || sidecarName in root || contentName == sidecarName
    || IsTemporary(contentName) || IsTemporary(sidecarName) || exists n | n in root :: IsTemporary(n)
  }

  lemma FinalTaken(before: map<Name, Inode>, staged: map<Name, Inode>, temporary: seq<Entry>, contentName: Name, sidecarName: Name)
    ensures AddsOnly(before, staged, temporary) && (forall e | e in temporary :: IsTemporary(e.name)) ==>
      contentName in staged || sidecarName in staged || contentName == sidecarName ==> SomeTaken(contentName, sidecarName, before)
    ensures forall n | n in before && IsTemporary(n) :: SomeTaken(contentName, sidecarName, before)
  {
    if AddsOnly(before, staged, temporary) && (forall e | e in temporary :: IsTemporary(e.name)) {
      FinalsAreOld(before, staged, temporary);
    }
  }

  lemma CollisionTold(before: seq<Trouble>, after: seq<Trouble>, contentName: Name, sidecarName: Name)
    ensures Told(before, after, Collision) ==> Told(before, after, AlreadyExists)
    ensures after != [] && after[|after| - 1].Taken? ==>
      after[|after| - 1].name in {contentName, sidecarName} || IsTemporary(after[|after| - 1].name) ==>
        LastTaken(after, contentName, sidecarName)
  {
  }

  /** With plain names, the temporary files do not get in the way of the final ones. */
  lemma PlainStaged(before: map<Name, Inode>, staged: map<Name, Inode>, temporary: seq<Entry>, published: seq<Entry>,
                    contentName: Name, sidecarName: Name)
    requires |temporary| <= 2 && (|temporary| == 2 ==> temporary[0].name != temporary[1].name)
    requires |published| <= 2 && (|published| == 2 ==> published[0].name == contentName && published[1].name == sidecarName)
    requires AllAt(temporary, staged) && NoneNamed(published, staged) && Within(before, staged)
    ensures PlainNames(contentName, sidecarName, before) ==>
      && (forall n | n in before :: !IsTemporary(n))
      && contentName != sidecarName && DistinctNames(temporary + published)
      && (AddsOnly(before, staged, temporary) && (forall e | e in temporary :: IsTemporary(e.name)) ==>
            (contentName in staged <==> contentName in before) && (sidecarName in staged <==> sidecarName in before))
  {
    hide AllAt, NoneNamed, DistinctNames, AddsOnly;
    if PlainNames(contentName, sidecarName, before) {
      DistinctTogether(staged, temporary, published);
      if AddsOnly(before, staged, temporary) && (forall e | e in temporary :: IsTemporary(e.name)) {
        FinalsAreOld(before, staged, temporary);
      }
    }
  }

  /** Since `before` nothing has gone wrong but in the clean-up. */
  ghost predicate OnlyUnclean(before: seq<Trouble>, after: seq<Trouble>) {
    before <= after && forall k | |before| <= k < |after| :: after[k] == Unclean
  }

  /** And whether anything has. */
  ghost predicate Spoiled(before: seq<Trouble>, after: seq<Trouble>, failed: bool) {
    OnlyUnclean(before, after) && (failed <==> after != before)
  }

  lemma SpoiledOnce(t: seq<Trouble>)
    ensures Spoiled(t, t, false) && Spoiled(t, t + [Unclean], true) && OnlyUnclean(t, t)
  {
  }

  lemma SpoiledMore(a: seq<Trouble>, b: seq<Trouble>, c: seq<Trouble>)
    ensures forall f, g | Spoiled(a, b, f) && Spoiled(b, c, g) :: Spoiled(a, c, f || g)
    ensures forall f | Spoiled(a, b, f) && f && OnlyUnclean(b, c) :: Spoiled(a, c, true)
    ensures OnlyUnclean(a, b) && OnlyUnclean(b, c) ==> OnlyUnclean(a, c)
  {
  }

  lemma SpoiledIs(a: seq<Trouble>, b: seq<Trouble>, failed: bool)
    requires Spoiled(a, b, failed)
    ensures OnlyUnclean(a, b) && (!failed ==> b == a)
    ensures failed ==> a <= b && |a| < |b| && b[|b| - 1] == Unclean
  {
  }

  lemma ToldOnce(before: seq<Trouble>, t: seq<Trouble>, last: Trouble)
    requires before <= t
    ensures forall e | LeadsTo(last, e) :: Told(before, t + [last], e)
  {
  }

  lemma ToldUnclean(before: seq<Trouble>, t: seq<Trouble>, after: seq<Trouble>)
    requires before <= t && Spoiled(t, after, true)
    ensures Told(before, after, Cleanup)
  {
  }

  /** `small` is a part of `large`: same names, same inodes. */
  ghost predicate Within(small: map<Name, Inode>, large: map<Name, Inode>) {
    forall n | n in small :: n in large && large[n] == small[n]
  }

  /** Everything moved away from the root was put back, destroyed, or still is in quarantine. */
  ghost predicate Accounted(events: seq<Event>, quarantine: map<Name, Inode>) {
    forall n, s, i | Moved(n, s, i) in events ::
      || (s in quarantine && quarantine[s] == i)
      || Restored(s, n, i) in events
      || Destroyed(s, i) in events
  }

  ghost predicate Grown(log0: seq<Event>, log1: seq<Event>) {
    forall e | e in log0 :: e in log1
  }

  /** File contents that exist stay what they are. */
  ghost predicate Kept(data0: map<Inode, seq<byte>>, data1: map<Inode, seq<byte>>) {
    forall i | i in data0 :: i in data1 && data1[i] == data0[i]
  }

  ghost predicate NewWith(data0: map<Inode, seq<byte>>, data1: map<Inode, seq<byte>>, inode: Inode, bytes: seq<byte>) {
    inode !in data0 && inode in data1 && data1[inode] == bytes
  }

  /** Only files this operation created itself were destroyed. */
  ghost predicate DestroysOnlyCreated(events: seq<Event>) {
    forall s, i | Destroyed(s, i) in events :: exists n :: Created(n, i) in events
  }

  /**
     Every destruction is a withdrawal that meant a file this operation created and found one with
     the same number; the one found existed then.
   */
  ghost predicate Traced(events: seq<Event>) {
    && (forall s, i | Destroyed(s, i) in events :: exists n, m, l :: Withdrew(n, m, i, l) in events)
    && (forall n, m, i, l | Withdrew(n, m, i, l) in events ::
          && Unique(l) && i in l && i.number == m.number
          && exists c :: Created(c, m) in events)
  }

  /** At every withdrawal the file that was meant still had a link or a descriptor somewhere. */
  ghost predicate MeantExist(events: seq<Event>) {
    forall n, m, i, l | Withdrew(n, m, i, l) in events :: m in l
  }

  ghost predicate FindsMeant(events: seq<Event>) {
    forall n, m, i, l | Withdrew(n, m, i, l) in events :: i == m
  }

  /**
     Exactly when nothing but the files that were meant is destroyed: each of them still existed
     when its name was withdrawn, so that nobody else could have been given its number.
   */
  lemma FindsMeantIff(events: seq<Event>)
    requires Traced(events)
    ensures FindsMeant(events) <==> MeantExist(events)
    ensures MeantExist(events) ==> DestroysOnlyCreated(events)
  {
    if MeantExist(events) {
      forall n, m, i, l | Withdrew(n, m, i, l) in events
        ensures i == m
      {
        assert m in l && i in l && i.number == m.number;
      }
      forall s, i | Destroyed(s, i) in events
        ensures exists c :: Created(c, i) in events
      {
        var n, m, l :| Withdrew(n, m, i, l) in events;
      }
    }
  }

  /** At most two things, the last first. */
  function Reversed<T(!new)>(s: seq<T>): (r: seq<T>)
    requires |s| <= 2
    ensures |r| == |s| && forall k | 0 <= k < |s| :: r[k] == s[|s| - 1 - k]
    ensures forall x :: x in r <==> x in s
  {
    if |s| == 2 then [s[1], s[0]] else s
  }

  /** What was meant had ceased to exist only at withdrawals of these names. */
  ghost predicate LostOnly(events: seq<Event>, entries: seq<Entry>) {
    forall n, m, i, l | Withdrew(n, m, i, l) in events && m !in l :: NamedBy(entries, n)
  }

  lemma LostAfter(log0: seq<Event>, log1: seq<Event>, entries: seq<Entry>)
    requires MeantExist(log0) && WithdrewOnly(log0, log1, entries)
    ensures LostOnly(log1, entries)
  {
  }

  lemma LostNames(entries: seq<Entry>, first: Name, second: Name, events: seq<Event>)
    requires forall e | e in entries :: e.name == first || e.name == second
    requires MeantExist(events) || LostOnly(events, entries)
    ensures forall n, m, i, l | Withdrew(n, m, i, l) in events && m !in l :: n == first || n == second
  {
  }

  lemma WithdrewNothing(events: seq<Event>, entries: seq<Entry>)
    ensures WithdrewOnly(events, events, entries)
  {
  }

  lemma WithdrewOne(log0: seq<Event>, log1: seq<Event>, log2: seq<Event>, entries: seq<Entry>, k: nat)
    requires k < |entries|
    requires WithdrewOnly(log0, log1, entries) && WithdrewOnly(log1, log2, [Entry(entries[k].name, entries[k].inode)])
    ensures WithdrewOnly(log0, log2, entries)
  {
    assert entries[k] in entries;
  }

  lemma WithdrewReversed(log0: seq<Event>, log1: seq<Event>, entries: seq<Entry>)
    requires |entries| <= 2 && WithdrewOnly(log0, log1, Reversed(entries))
    ensures WithdrewOnly(log0, log1, entries)
  {
    assert forall n | NamedBy(Reversed(entries), n) :: NamedBy(entries, n);
  }

  lemma NothingYet(quarantine: map<Name, Inode>)
    ensures Accounted([], quarantine) && Traced([]) && MeantExist([])
  {
  }

  lemma OpeningNoted(name: Name, inode: Inode, log0: seq<Event>, q: map<Name, Inode>)
    requires Accounted(log0, q) && Traced(log0)
    ensures var log1 := log0 + [Opened(name, inode)];
            Accounted(log1, q) && Traced(log1) && Grown(log0, log1) && (MeantExist(log0) ==> MeantExist(log1))
  {
  }

  /** New withdrawals are of these names. */
  ghost predicate WithdrewOnly(log0: seq<Event>, log1: seq<Event>, entries: seq<Entry>) {
    forall n, m, i, l | Withdrew(n, m, i, l) in log1 :: Withdrew(n, m, i, l) in log0 || NamedBy(entries, n)
  }

  /** Only inodes this operation had opened itself were destroyed. */
  ghost predicate DestroysOnlyOpened(events: seq<Event>) {
    forall s, i | Destroyed(s, i) in events :: exists n :: Opened(n, i) in events
  }

  ghost predicate NothingDestroyed(events: seq<Event>) {
    forall s, i :: Destroyed(s, i) !in events
  }

  /** Every half that was found has left the root: it was moved, or was seen to be gone. */
  ghost predicate FoundHalvesLeft(events: seq<Event>) {
    forall n, i | Opened(n, i) in events ::
      || Vanished(n) in events
      || exists s :: Moved(n, s, i) in events
  }

  /** A quarantine attempt that raised: nothing moved, or moved and put back, or moved and left. */
  ghost predicate FailedAttempt(name: Name, q0: map<Name, Inode>, q1: map<Name, Inode>, log0: seq<Event>, log1: seq<Event>) {
    || (log1 == log0 && q1 == q0)
    || (exists s, i | s !in q0 ::
          || (log1 == log0 + [Moved(name, s, i)] && q1 == q0[s := i])
          || (log1 == log0 + [Moved(name, s, i), Restored(s, name, i)] && q1 == q0))
  }

  /** The name still is where it was, or what it named sits in a new quarantine slot. */
  ghost predicate Stuck(name: Name, root0: map<Name, Inode>, root1: map<Name, Inode>, q0: map<Name, Inode>, q1: map<Name, Inode>) {
    || (root1 == root0 && q1 == q0)
    || (&& name in root0 && root1 == root0 - {name}
        && exists s :: s !in q0 && q1 == q0[s := root0[name]])
  }

  /** `after` is `before` plus at most the given entries. */
  ghost predicate AddsOnly(before: map<Name, Inode>, after: map<Name, Inode>, entries: seq<Entry>) {
    forall n | n in after :: (n in before && after[n] == before[n]) || Entry(n, after[n]) in entries
  }

  ghost predicate NoneNamed(entries: seq<Entry>, root: map<Name, Inode>) {
    forall e | e in entries :: e.name !in root
  }

  /** What one link, and then a second one, does to a root; either may have been withdrawn again. */
  lemma OneLinked(root0: map<Name, Inode>, root1: map<Name, Inode>, e: Entry, linked: bool)
    requires e.inode.File?
    requires root1 == root0 || (linked && root1 == root0[e.name := e.inode])
    requires linked ==> e.name !in root0
    ensures var published := if linked then [e] else [];
            && Within(root0, root1) && NoneNamed(published, root0) && AddsOnly(root0, root1, published)
            && (root1 == root0[e.name := e.inode] ==> AllAt(published, root1))
  {
  }

  lemma EmptyIsFine(root0: map<Name, Inode>, root1: map<Name, Inode>)
    ensures NoneNamed([], root0) && AllAt([], root1) && (root1 == root0 ==> AddsOnly(root0, root1, []))
  {
  }

  lemma TwoLinked(root0: map<Name, Inode>, root2: map<Name, Inode>, d: Entry, e: Entry, linked: bool)
    requires d.inode.File? && e.inode.File? && d.name !in root0
    requires var root1 := root0[d.name := d.inode]; root2 == root1 || (linked && root2 == root1[e.name := e.inode])
    requires linked ==> e.name !in root0[d.name := d.inode]
    ensures var published := if linked then [d, e] else [d];
            && Within(root0, root2) && NoneNamed(published, root0) && AddsOnly(root0, root2, published)
            && (!linked || root2 == root0[d.name := d.inode][e.name := e.inode] ==> AllAt(published, root2))
  {
  }

  /** Adding temporaries and links and then taking some of those away leaves the old names alone. */
  lemma OldNamesStay(root0: map<Name, Inode>, root1: map<Name, Inode>, root2: map<Name, Inode>, root3: map<Name, Inode>,
                     temporary: seq<Entry>, published: seq<Entry>)
    requires Within(root0, root1) && Within(root1, root2) && Within(root3, root2)
    requires NoneNamed(temporary, root0) && NoneNamed(published, root1)
    requires forall n | n in root2 && n !in root3 :: NamedBy(temporary, n) || NamedBy(published, n)
    ensures Within(root0, root3)
  {
  }

  /** Taking all of them away restores the directory. */
  lemma NoTrace(root0: map<Name, Inode>, root1: map<Name, Inode>, root2: map<Name, Inode>, root3: map<Name, Inode>,
                temporary: seq<Entry>, published: seq<Entry>)
    requires AddsOnly(root0, root1, temporary) && AddsOnly(root1, root2, published)
    requires Within(root0, root3) && Within(root3, root2)
    requires forall n | NamedBy(temporary, n) || NamedBy(published, n) :: n !in root3
    ensures root3 == root0
  {
    forall n | n in root3
      ensures n in root0
    {
      assert root3[n] == root2[n];
      var e := Entry(n, root2[n]);
      assert e in published ==> NamedBy(published, n);
      assert e in temporary ==> NamedBy(temporary, n);
    }
    assert root3.Keys == root0.Keys;
  }

  /** Taking the temporaries away leaves exactly the two published names. */
  lemma WholePair(root0: map<Name, Inode>, root1: map<Name, Inode>, root2: map<Name, Inode>, root3: map<Name, Inode>,
                  temporary: seq<Entry>, published: seq<Entry>)
    requires AddsOnly(root0, root1, temporary) && AddsOnly(root1, root2, published)
    requires Within(root0, root3) && Within(root3, root2)
    requires AllAt(temporary, root1) && NoneNamed(published, root1) && AllAt(published, root2)
    requires |published| == 2 && published[0].name != published[1].name
    requires forall n | n in root2 && n !in root3 :: NamedBy(temporary, n)
    requires forall n | NamedBy(temporary, n) :: n !in root3
    ensures root3 == root0[published[0].name := published[0].inode][published[1].name := published[1].inode]
  {
    var root := root0[published[0].name := published[0].inode][published[1].name := published[1].inode];
    assert published[0] in published && published[1] in published;
    forall e | e in published
      ensures e.name in root3 && root3[e.name] == e.inode
    {
      assert e.name !in root1;
      assert !NamedBy(temporary, e.name);
    }
    forall n | n in root3
      ensures n in root && root[n] == root3[n]
    {
      var e := Entry(n, root2[n]);
      assert e in temporary ==> NamedBy(temporary, n);
    }
    assert root.Keys == root3.Keys;
  }

  lemma TwoDistinct(entries: seq<Entry>)
    ensures |entries| < 2 || (|entries| == 2 && entries[0].name != entries[1].name) ==> DistinctNames(entries)
  {
  }

  lemma DistinctTogether(root1: map<Name, Inode>, temporary: seq<Entry>, published: seq<Entry>)
    requires AllAt(temporary, root1) && NoneNamed(published, root1)
    requires |temporary| <= 2 && |published| <= 2
    requires |temporary| == 2 ==> temporary[0].name != temporary[1].name
    requires |published| == 2 ==> published[0].name != published[1].name
    ensures DistinctNames(temporary + published)
  {
    var all := temporary + published;
    forall j, k | 0 <= j < k < |all|
      ensures all[j].name != all[k].name
    {
      if j < |temporary| <= k {
        assert all[j] in temporary && all[k] in published;
      }
    }
  }

  /** Each quarantined half sits in a slot of its own, holding the identity that was checked. */
  ghost predicate Held(taken: seq<Quarantined>, quarantine: map<Name, Inode>, events: seq<Event>) {
    && (forall t | t in taken :: t.slot in quarantine && quarantine[t.slot] == t.identity)
    && (forall j, k | 0 <= j < k < |taken| :: taken[j].slot != taken[k].slot)
    && (forall t, n, i | t in taken && Moved(n, t.slot, i) in events :: n == t.original)
  }

  /** What happened to one held slot leaves the others held. */
  lemma HeldRest(taken: seq<Quarantined>, k: nat, q0: map<Name, Inode>, log0: seq<Event>, q1: map<Name, Inode>, log1: seq<Event>)
    requires k < |taken| && Held(taken, q0, log0)
    requires q1 == q0 || q1 == q0 - {taken[k].slot}
    requires forall n, s, i | Moved(n, s, i) in log1 :: Moved(n, s, i) in log0
    ensures Held(taken[..k], q1, log1) && Held(taken[k + 1..], q1, log1)
  {
    forall t | t in taken[..k] || t in taken[k + 1..]
      ensures t in taken && t.slot != taken[k].slot
    {
    }
  }

  lemma AccountedAfterRestore(slot: Name, name: Name, log0: seq<Event>, q0: map<Name, Inode>)
    requires Accounted(log0, q0) && slot in q0
    requires forall n, i | Moved(n, slot, i) in log0 :: n == name
    ensures Accounted(log0 + [Restored(slot, name, q0[slot])], q0 - {slot})
  {
  }

  ghost predicate SlotOf(taken: seq<Quarantined>, slot: Name) {
    exists t :: t in taken && t.slot == slot
  }

  ghost predicate SlotHeld(taken: seq<Quarantined>, slot: Name, inode: Inode) {
    exists t :: t in taken && t.slot == slot && t.identity == inode
  }

  ghost predicate OriginalOf(taken: seq<Quarantined>, name: Name, inode: Inode) {
    exists t :: t in taken && t.original == name && t.identity == inode
  }

  /** The root lost nothing, and gained at most names that had been taken. */
  ghost predicate PutBack(taken: seq<Quarantined>, before: map<Name, Inode>, after: map<Name, Inode>) {
    && Within(before, after)
    && forall n | n in after && n !in before :: OriginalOf(taken, n, after[n])
  }

  /** From one log to the next nothing was moved or destroyed. */
  ghost predicate OnlyRestoredSince(log0: seq<Event>, log1: seq<Event>) {
    && Grown(log0, log1)
    && (forall n, i | Opened(n, i) in log1 :: Opened(n, i) in log0)
    && (forall n, s, i | Moved(n, s, i) in log1 :: Moved(n, s, i) in log0)
    && (forall s, i | Destroyed(s, i) in log1 :: Destroyed(s, i) in log0)
  }

  /** Putting one file back, or failing to, and then the others. */
  lemma RestoreStep(taken: seq<Quarantined>, last: Quarantined, rest: seq<Quarantined>,
                    q0: map<Name, Inode>, q1: map<Name, Inode>, q2: map<Name, Inode>, log0: seq<Event>, log1: seq<Event>, log2: seq<Event>)
    requires taken == rest + [last]
    requires (q1 == q0 - {last.slot} && log1 == log0 + [Restored(last.slot, last.original, last.identity)]) || (q1 == q0 && log1 == log0)
    requires OnlyRestoredSince(log1, log2) && Within(q2, q1) && forall s | s in q1 && s !in q2 :: SlotOf(rest, s)
    ensures OnlyRestoredSince(log0, log2) && Within(q2, q0) && forall s | s in q0 && s !in q2 :: SlotOf(taken, s)
  {
    assert forall t | t in rest || t == last :: t in taken;
  }

  lemma PutBackStep(taken: seq<Quarantined>, last: Quarantined, rest: seq<Quarantined>,
                    root0: map<Name, Inode>, root1: map<Name, Inode>, root2: map<Name, Inode>)
    requires taken == rest + [last] && PutBack(rest, root1, root2)
    requires root1 == root0 || (last.original !in root0 && root1 == root0[last.original := last.identity])
    ensures PutBack(taken, root0, root2)
  {
    assert forall t | t in rest || t == last :: t in taken;
  }

  lemma NothingRestored(events: seq<Event>, root: map<Name, Inode>)
    ensures OnlyRestoredSince(events, events) && PutBack([], root, root)
  {
  }

  /** Whatever was moved is still in its slot. */
  ghost predicate MovedStay(events: seq<Event>, quarantine: map<Name, Inode>) {
    forall n, s, i | Moved(n, s, i) in events :: s in quarantine
  }

  /** Events were added: moves into slots that were free, but no destruction and no opening. */
  ghost predicate TakenSince(log0: seq<Event>, log1: seq<Event>, quarantine0: map<Name, Inode>) {
    && Grown(log0, log1)
    && (forall n, s, i | Moved(n, s, i) in log1 :: Moved(n, s, i) in log0 || s !in quarantine0)
    && (forall s, i | Destroyed(s, i) in log1 :: Destroyed(s, i) in log0)
    && (forall n, i | Opened(n, i) in log1 :: Opened(n, i) in log0)
  }

  ghost predicate AllLeft(entries: seq<Entry>, events: seq<Event>) {
    forall e | e in entries :: Vanished(e.name) in events || exists s :: Moved(e.name, s, e.inode) in events
  }

  /** Nothing is destroyed before every half that was found has left the root. */
  ghost predicate DestroysLast(events: seq<Event>) {
    NothingDestroyed(events) || exists k :: 0 <= k <= |events| && NothingDestroyed(events[..k]) && FoundHalvesLeft(events[..k])
  }

  /** What destroying or restoring the held halves did to the quarantine and the log. */
  ghost predicate GoneFrom(taken: seq<Quarantined>, clean: bool, q0: map<Name, Inode>, q1: map<Name, Inode>, log0: seq<Event>, log1: seq<Event>) {
    && (forall s, i | Destroyed(s, i) in log1 :: Destroyed(s, i) in log0 || SlotHeld(taken, s, i))
    && Within(q1, q0)
    && (forall s | s in q0 && s !in q1 :: SlotOf(taken, s))
    && (clean ==> forall s | SlotOf(taken, s) :: s !in q1)
  }

  lemma RestoredIsGone(taken: seq<Quarantined>, q0: map<Name, Inode>, q1: map<Name, Inode>, log0: seq<Event>, log1: seq<Event>)
    requires OnlyRestoredSince(log0, log1) && Within(q1, q0) && forall s | s in q0 && s !in q1 :: SlotOf(taken, s)
    ensures GoneFrom(taken, false, q0, q1, log0, log1)
  {
  }

  lemma GoneStep(taken: seq<Quarantined>, clean: bool, q0: map<Name, Inode>, q1: map<Name, Inode>, q2: map<Name, Inode>,
                 log0: seq<Event>, log1: seq<Event>, log2: seq<Event>)
    requires taken != [] && taken[0].slot in q0 && q0[taken[0].slot] == taken[0].identity
    requires (q1 == q0 - {taken[0].slot} && log1 == log0 + [Destroyed(taken[0].slot, taken[0].identity)]) || (!clean && q1 == q0 && log1 == log0)
    requires GoneFrom(taken[1..], clean, q1, q2, log1, log2)
    ensures GoneFrom(taken, clean, q0, q2, log0, log2)
  {
    assert taken[0] in taken && forall t | t in taken :: t == taken[0] || t in taken[1..];
    forall s, i | Destroyed(s, i) in log2 && Destroyed(s, i) !in log0
      ensures SlotHeld(taken, s, i)
    {
      if Destroyed(s, i) !in log1 {
        var t :| t in taken[1..] && t.slot == s && t.identity == i;
        assert t in taken;
      }
    }
    forall s | s in q0 && s !in q2
      ensures SlotOf(taken, s)
    {
      if s in q1 {
        var t :| t in taken[1..] && t.slot == s;
        assert t in taken;
      }
    }
  }

  lemma PutBackMore(taken: seq<Quarantined>, before: map<Name, Inode>, after: map<Name, Inode>)
    requires taken != []
    ensures PutBack(taken[1..], before, after) ==> PutBack(taken, before, after)
  {
    assert forall t | t in taken[1..] :: t in taken;
  }

  /** What taking some halves into the quarantine did to it and to the log. */
  ghost predicate Took(entries: seq<Entry>, taken: seq<Quarantined>, failed: bool, q0: map<Name, Inode>, q1: map<Name, Inode>,
                       log0: seq<Event>, log1: seq<Event>) {
    && Within(q0, q1) && TakenSince(log0, log1, q0)
    && (failed ==> taken == [])
    && Held(taken, q1, log1)
    && (forall t | t in taken :: t.slot !in q0 && Entry(t.original, t.identity) in entries)
    && (!failed ==> MovedStay(log1, q1) && AllLeft(entries, log1) && forall s | s in q1 :: s in q0 || SlotOf(taken, s))
  }

  /** What it did to a root that nobody else changed. */
  ghost predicate TookFrom(entries: seq<Entry>, taken: seq<Quarantined>, failed: bool, root0: map<Name, Inode>, root1: map<Name, Inode>) {
    && Within(root1, root0)
    && (forall n | n in root0 && n !in root1 :: NamedBy(entries, n))
    && (!failed ==> NoneNamed(entries, root1))
    && (forall t | t in taken :: t.original in root0 && root0[t.original] == t.identity)
  }

  /** What the three outcomes of one quarantine move leave behind. */
  lemma TookOne(entry: Entry, slot: Name, q0: map<Name, Inode>, log0: seq<Event>)
    requires Accounted(log0, q0) && MovedStay(log0, q0) && slot !in q0
    ensures var q1, log1 := q0[slot := entry.inode], log0 + [Moved(entry.name, slot, entry.inode)];
            Accounted(log1, q1) && Took([entry], [Quarantined(entry.name, slot, entry.inode)], false, q0, q1, log0, log1)
  {
    AccountedAfterMove(entry.name, slot, entry.inode, log0, q0);
  }

  lemma TookMissing(entry: Entry, q0: map<Name, Inode>, log0: seq<Event>)
    requires Accounted(log0, q0) && MovedStay(log0, q0)
    ensures var log1 := log0 + [Vanished(entry.name)];
            Accounted(log1, q0) && Took([entry], [], false, q0, q0, log0, log1)
  {
  }

  lemma TookNothing(entry: Entry, q0: map<Name, Inode>, q1: map<Name, Inode>, log0: seq<Event>, log1: seq<Event>)
    requires Accounted(log0, q0) && FailedAttempt(entry.name, q0, q1, log0, log1)
    ensures Accounted(log1, q1) && Took([entry], [], true, q0, q1, log0, log1)
  {
    AccountedAfterFailedAttempt(entry.name, log0, q0, log1, q1);
  }

  lemma TookStays(entries: seq<Entry>, taken: seq<Quarantined>, q0: map<Name, Inode>, q1: map<Name, Inode>, log0: seq<Event>, log1: seq<Event>)
    requires Took(entries, taken, false, q0, q1, log0, log1)
    ensures MovedStay(log1, q1) && Held(taken, q1, log1)
  {
  }

  lemma TookPart(entries: seq<Entry>, q0: map<Name, Inode>, q1: map<Name, Inode>, log0: seq<Event>, log1: seq<Event>)
    requires entries != [] && Took([entries[0]], [], true, q0, q1, log0, log1)
    ensures Took(entries, [], true, q0, q1, log0, log1)
  {
  }

  lemma TookFromPart(entries: seq<Entry>, root0: map<Name, Inode>, root1: map<Name, Inode>)
    requires entries != [] && TookFrom([entries[0]], [], true, root0, root1)
    ensures TookFrom(entries, [], true, root0, root1)
  {
    forall n | NamedBy([entries[0]], n)
      ensures NamedBy(entries, n)
    {
      assert entries[0] in entries;
    }
  }

  lemma FirstOfAll(entries: seq<Entry>, root: map<Name, Inode>)
    requires entries != []
    ensures AllAt(entries, root) ==> AllAt([entries[0]], root)
    ensures DistinctNames(entries) ==> DistinctNames([entries[0]]) && DistinctNames(entries[1..])
  {
  }

  lemma RestStillThere(entries: seq<Entry>, first: seq<Quarantined>, root0: map<Name, Inode>, root1: map<Name, Inode>)
    requires entries != [] && TookFrom([entries[0]], first, false, root0, root1)
    ensures AllAt(entries, root0) && DistinctNames(entries) ==> AllAt(entries[1..], root1)
  {
    if AllAt(entries, root0) && DistinctNames(entries) {
      forall e | e in entries[1..]
        ensures e.name in root1 && root1[e.name] == e.inode
      {
        var k :| 0 <= k < |entries| - 1 && entries[1..][k] == e;
        assert e == entries[k + 1] && e in entries && e.name != entries[0].name;
        assert !NamedBy([entries[0]], e.name);
      }
    }
  }

  /** What was held before more was taken is still held. */
  lemma HeldStill(first: seq<Quarantined>, rest: seq<Entry>, q1: map<Name, Inode>, q2: map<Name, Inode>, log1: seq<Event>, log2: seq<Event>)
    requires Held(first, q1, log1) && Took(rest, [], true, q1, q2, log1, log2)
    ensures Held(first, q2, log2)
  {
  }

  lemma TookJoin(entries: seq<Entry>, first: seq<Quarantined>, more: seq<Quarantined>,
                 q0: map<Name, Inode>, q1: map<Name, Inode>, q2: map<Name, Inode>, log0: seq<Event>, log1: seq<Event>, log2: seq<Event>)
    requires entries != [] && Took([entries[0]], first, false, q0, q1, log0, log1) && Took(entries[1..], more, false, q1, q2, log1, log2)
    ensures Took(entries, first + more, false, q0, q2, log0, log2)
  {
    var all := first + more;
    assert entries[0] in entries && forall e | e in entries :: e == entries[0] || e in entries[1..];
    forall t | t in all
      ensures t in first || t in more
    {
    }
    assert Held(all, q2, log2) by {
      forall j, k | 0 <= j < k < |all|
        ensures all[j].slot != all[k].slot
      {
        assert j < |first| ==> all[j] in first;
        assert k >= |first| ==> all[k] in more;
      }
    }
    forall s | s in q2
      ensures s in q0 || SlotOf(all, s)
    {
      if s !in q0 {
        if s in q1 {
          var t :| t in first && t.slot == s;
          assert t in all;
        } else {
          var t :| t in more && t.slot == s;
          assert t in all;
        }
      }
    }
    assert AllLeft(entries, log2) by {
      assert forall e | e in entries[1..] :: Vanished(e.name) in log2 || exists s :: Moved(e.name, s, e.inode) in log2;
      assert entries[0] in [entries[0]];
    }
  }

  lemma TookFromJoin(entries: seq<Entry>, first: seq<Quarantined>, more: seq<Quarantined>,
                     root0: map<Name, Inode>, root1: map<Name, Inode>, root2: map<Name, Inode>)
    requires entries != [] && TookFrom([entries[0]], first, false, root0, root1) && TookFrom(entries[1..], more, false, root1, root2)
    ensures TookFrom(entries, first + more, false, root0, root2)
  {
    assert entries[0] in entries && entries[0] in [entries[0]] && forall e | e in entries :: e == entries[0] || e in entries[1..];
    assert forall t | t in first + more :: t in first || t in more;
    forall n | n in root0 && n !in root2
      ensures NamedBy(entries, n)
    {
      if n in root1 {
        var e :| e in entries[1..] && e.name == n;
        assert e in entries;
      }
    }
  }

  lemma TookUndone(entries: seq<Entry>, first: seq<Quarantined>,
                   q0: map<Name, Inode>, q1: map<Name, Inode>, q2: map<Name, Inode>, q3: map<Name, Inode>,
                   log0: seq<Event>, log1: seq<Event>, log2: seq<Event>, log3: seq<Event>)
    requires entries != [] && Took([entries[0]], first, false, q0, q1, log0, log1) && Took(entries[1..], [], true, q1, q2, log1, log2)
    requires OnlyRestoredSince(log2, log3) && Within(q3, q2) && forall s | s in q2 && s !in q3 :: SlotOf(first, s)
    ensures Took(entries, [], true, q0, q3, log0, log3)
  {
  }

  lemma TookFromUndone(entries: seq<Entry>, first: seq<Quarantined>,
                       root0: map<Name, Inode>, root1: map<Name, Inode>, root2: map<Name, Inode>, root3: map<Name, Inode>)
    requires entries != [] && TookFrom([entries[0]], first, false, root0, root1) && TookFrom(entries[1..], [], true, root1, root2)
    requires PutBack(first, root2, root3)
    ensures TookFrom(entries, [], true, root0, root3)
  {
    TookFromJoinNames(entries, root0, root1, root2);
  }

  lemma TookFromJoinNames(entries: seq<Entry>, root0: map<Name, Inode>, root1: map<Name, Inode>, root2: map<Name, Inode>)
    requires entries != []
    requires forall n | n in root0 && n !in root1 :: NamedBy([entries[0]], n)
    requires forall n | n in root1 && n !in root2 :: NamedBy(entries[1..], n)
    ensures forall n | n in root0 && n !in root2 :: NamedBy(entries, n)
  {
    assert entries[0] in entries;
    forall n | n in root0 && n !in root2
      ensures NamedBy(entries, n)
    {
      if n in root1 {
        var e :| e in entries[1..] && e.name == n;
        assert e in entries;
      }
    }
  }

  // --- which halves of a pair stay ---

  /** A name has not been moved away, or all that was moved from it has been put back. */
  ghost predicate InPlace(name: Name, events: seq<Event>) {
    forall s, i | Moved(name, s, i) in events :: Restored(s, name, i) in events
  }

  /** Of the names that were there, exactly those in place are there now. */
  ghost predicate Tracks(root0: map<Name, Inode>, root1: map<Name, Inode>, events: seq<Event>) {
    forall n | n in root0 :: n in root1 <==> InPlace(n, events)
  }

  ghost predicate Unmoved(name: Name, events: seq<Event>) {
    forall s, i :: Moved(name, s, i) !in events && Restored(s, name, i) !in events
  }

  /** New moves and restorations are of these names. */
  ghost predicate About(entries: seq<Entry>, log0: seq<Event>, log1: seq<Event>) {
    && (forall n, s, i | Moved(n, s, i) in log1 :: Moved(n, s, i) in log0 || NamedBy(entries, n))
    && (forall n, s, i | Restored(s, n, i) in log1 :: Restored(s, n, i) in log0 || NamedBy(entries, n))
  }

  /** Each of these names has been moved away once, to the slot it is held in. */
  ghost predicate Away(taken: seq<Quarantined>, events: seq<Event>) {
    && (forall j, k | 0 <= j < k < |taken| :: taken[j].original != taken[k].original)
    && (forall t, s, i | t in taken && Moved(t.original, s, i) in events :: s == t.slot && i == t.identity)
  }

  /** An attempt that raised, seen in the root and the log together. */
  ghost predicate StuckInStep(name: Name, root0: map<Name, Inode>, root1: map<Name, Inode>, log0: seq<Event>, log1: seq<Event>) {
    || (root1 == root0 && (log1 == log0 || exists s, i :: log1 == log0 + [Moved(name, s, i), Restored(s, name, i)]))
    || (root1 == root0 - {name} && exists s, i :: log1 == log0 + [Moved(name, s, i)])
  }

  lemma TracksFromStart(root: map<Name, Inode>, events: seq<Event>)
    requires forall v | v in events :: v.Opened?
    ensures Tracks(root, root, events) && forall n :: Unmoved(n, events)
  {
  }

  lemma MovedAway(name: Name, slot: Name, inode: Inode, root0: map<Name, Inode>, root1: map<Name, Inode>, events: seq<Event>)
    requires Unmoved(name, events)
    ensures var after := events + [Moved(name, slot, inode)];
      && About([Entry(name, inode)], events, after) && Away([Quarantined(name, slot, inode)], after)
      && (Tracks(root0, root1, events) ==> Tracks(root0, root1 - {name}, after))
  {
    var after := events + [Moved(name, slot, inode)];
    assert Entry(name, inode) in [Entry(name, inode)];
    assert Moved(name, slot, inode) in after && Restored(slot, name, inode) !in after;
    forall n | n != name
      ensures InPlace(n, after) <==> InPlace(n, events)
    {
      assert forall s, i | Moved(n, s, i) in events :: Moved(n, s, i) in after;
    }
  }

  lemma TracksNote(e: Event, root0: map<Name, Inode>, root1: map<Name, Inode>, events: seq<Event>, entries: seq<Entry>)
    requires !e.Moved? && !e.Restored?
    ensures Tracks(root0, root1, events) ==> Tracks(root0, root1, events + [e])
    ensures About(entries, events, events + [e]) && Away([], events + [e])
  {
    forall n | InPlace(n, events + [e])
      ensures InPlace(n, events)
    {
      forall s, i | Moved(n, s, i) in events
        ensures Restored(s, n, i) in events
      {
        assert Moved(n, s, i) in events + [e];
      }
    }
  }

  lemma TracksStuck(entry: Entry, root0: map<Name, Inode>, root1: map<Name, Inode>, root2: map<Name, Inode>, log1: seq<Event>, log2: seq<Event>)
    requires Tracks(root0, root1, log1) && Unmoved(entry.name, log1) && StuckInStep(entry.name, root1, root2, log1, log2)
    ensures Tracks(root0, root2, log2)
  {
    var name := entry.name;
    if s, i :| root2 == root1 - {name} && log2 == log1 + [Moved(name, s, i)] {
      MovedAway(name, s, i, root0, root1, log1);
    } else if s, i :| root2 == root1 && log2 == log1 + [Moved(name, s, i), Restored(s, name, i)] {
      assert Restored(s, name, i) in log2 && Moved(name, s, i) in log2;
      forall n | n in root0
        ensures InPlace(n, log2) <==> InPlace(n, log1)
      {
      }
    }
  }

  lemma AboutAttempt(entry: Entry, q0: map<Name, Inode>, q1: map<Name, Inode>, log0: seq<Event>, log1: seq<Event>)
    requires FailedAttempt(entry.name, q0, q1, log0, log1)
    ensures About([entry], log0, log1)
  {
    assert entry in [entry];
  }

  /** Putting back what was moved once puts its name in place. */
  lemma TracksRestore(t: Quarantined, root0: map<Name, Inode>, root1: map<Name, Inode>, events: seq<Event>)
    requires Tracks(root0, root1, events) && Away([t], events)
    ensures Tracks(root0, root1[t.original := t.identity], events + [Restored(t.slot, t.original, t.identity)])
  {
    var after := events + [Restored(t.slot, t.original, t.identity)];
    assert t in [t] && Restored(t.slot, t.original, t.identity) in after;
    forall n | n != t.original
      ensures InPlace(n, after) <==> InPlace(n, events)
    {
    }
  }

  /** Only these names have been put back since. */
  ghost predicate RestoredOnly(taken: seq<Quarantined>, log0: seq<Event>, log1: seq<Event>) {
    forall n, s, i | Restored(s, n, i) in log1 :: Restored(s, n, i) in log0 || exists t :: t in taken && t.original == n
  }

  lemma NothingPutBack(taken: seq<Quarantined>, events: seq<Event>)
    ensures RestoredOnly(taken, events, events)
  {
  }

  lemma RestoredOneMore(taken: seq<Quarantined>, last: Quarantined, rest: seq<Quarantined>, log0: seq<Event>, log1: seq<Event>, log2: seq<Event>)
    requires taken == rest + [last] && (log1 == log0 || log1 == log0 + [Restored(last.slot, last.original, last.identity)])
    requires RestoredOnly(rest, log1, log2)
    ensures RestoredOnly(taken, log0, log2)
  {
    assert forall t | t in rest || t == last :: t in taken;
  }

  /** Putting back what had been taken concerns the names it was taken from. */
  lemma AboutUndone(entries: seq<Entry>, taken: seq<Quarantined>, log0: seq<Event>, log1: seq<Event>, log2: seq<Event>)
    requires About(entries, log0, log1) && RestoredOnly(taken, log1, log2) && OnlyRestoredSince(log1, log2)
    requires forall t | t in taken :: NamedBy(entries, t.original)
    ensures About(entries, log0, log2)
  {
  }

  /** Each entry has been taken, in order. */
  ghost predicate TookEach(entries: seq<Entry>, taken: seq<Quarantined>) {
    |taken| == |entries| && forall k | 0 <= k < |taken| :: taken[k].original == entries[k].name && taken[k].identity == entries[k].inode
  }

  lemma TookEachJoin(entries: seq<Entry>, first: seq<Quarantined>, more: seq<Quarantined>)
    requires entries != [] && TookEach([entries[0]], first) && TookEach(entries[1..], more)
    ensures TookEach(entries, first + more)
  {
  }

  lemma TakenAreNamed(entries: seq<Entry>, part: seq<Entry>, taken: seq<Quarantined>)
    requires (forall t | t in taken :: Entry(t.original, t.identity) in part) && forall e | e in part :: e in entries
    ensures forall t | t in taken :: NamedBy(part, t.original) && NamedBy(entries, t.original)
  {
  }

  lemma AwayStays(taken: seq<Quarantined>, log0: seq<Event>, log1: seq<Event>)
    requires Away(taken, log0) && forall n, s, i | Moved(n, s, i) in log1 :: Moved(n, s, i) in log0
    ensures Away(taken, log1)
  {
  }

  lemma AwayParts(taken: seq<Quarantined>, first: seq<Quarantined>, rest: seq<Quarantined>, events: seq<Event>)
    requires Away(taken, events) && taken == first + rest
    ensures Away(first, events) && Away(rest, events)
  {
    forall j, k | 0 <= j < k < |rest|
      ensures rest[j].original != rest[k].original
    {
      assert taken[|first| + j] == rest[j] && taken[|first| + k] == rest[k];
    }
    forall j, k | 0 <= j < k < |first|
      ensures first[j].original != first[k].original
    {
      assert taken[j] == first[j] && taken[k] == first[k];
    }
  }

  lemma UnmovedStays(entries: seq<Entry>, others: seq<Entry>, log0: seq<Event>, log1: seq<Event>)
    requires (forall e | e in others :: Unmoved(e.name, log0)) && About(entries, log0, log1)
    requires forall e | e in others :: !NamedBy(entries, e.name)
    ensures forall e | e in others :: Unmoved(e.name, log1)
  {
  }

  lemma AboutBoth(entries: seq<Entry>, log0: seq<Event>, log1: seq<Event>, log2: seq<Event>)
    requires entries != [] && About([entries[0]], log0, log1) && About(entries[1..], log1, log2)
    ensures About(entries, log0, log2)
  {
    assert entries[0] in entries;
    forall n | NamedBy([entries[0]], n) || NamedBy(entries[1..], n)
      ensures NamedBy(entries, n)
    {
      assert forall e | e in entries[1..] :: e in entries;
    }
  }

  lemma AboutOnly(entries: seq<Entry>, events: seq<Event>)
    ensures About(entries, events, events)
  {
  }

  /** What was taken first and what was taken after it are away together. */
  lemma AwayTogether(entries: seq<Entry>, first: seq<Quarantined>, more: seq<Quarantined>, log1: seq<Event>, log2: seq<Event>)
    requires entries != [] && DistinctNames(entries) && |first| <= 1 && (forall t | t in first :: t.original == entries[0].name)
    requires Away(first, log1) && About(entries[1..], log1, log2) && Away(more, log2)
    requires forall t | t in more :: NamedBy(entries[1..], t.original)
    ensures Away(first, log2) && Away(first + more, log2)
  {
    OthersDiffer(entries);
    assert forall t | t in first + more :: t in first || t in more;
    forall j, k | 0 <= j < k < |first + more|
      ensures (first + more)[j].original != (first + more)[k].original
    {
      if j < |first| {
        assert (first + more)[j] in first && (first + more)[k] in more;
      } else {
        assert (first + more)[j] == more[j - |first|] && (first + more)[k] == more[k - |first|];
      }
    }
  }

  lemma OthersDiffer(entries: seq<Entry>)
    requires entries != [] && DistinctNames(entries)
    ensures !NamedBy(entries[1..], entries[0].name)
    ensures forall e | e in entries[1..] :: !NamedBy([entries[0]], e.name)
  {
    forall e | e in entries[1..]
      ensures e.name != entries[0].name
    {
      var k :| 0 <= k < |entries| - 1 && entries[1..][k] == e;
      assert entries[k + 1] == e;
    }
  }

  ghost predicate Regular(root: map<Name, Inode>) {
    forall n | n in root :: root[n].File?
  }

  lemma OnlyOpenings(events: seq<Event>, quarantine: map<Name, Inode>)
    requires forall v | v in events :: v.Opened?
    ensures Accounted(events, quarantine) && MovedStay(events, quarantine) && DestroysLast(events) && DestroysOnlyOpened(events)
  {
  }

  lemma NothingTook(quarantine: map<Name, Inode>, root: map<Name, Inode>, events: seq<Event>)
    requires MovedStay(events, quarantine)
    ensures Took([], [], false, quarantine, quarantine, events, events) && Away([], events)
    ensures TookFrom([], [], false, root, root) && TookEach([], [])
  {
  }

  lemma NothingLeftTaken(entries: seq<Entry>, taken: seq<Quarantined>, q0: map<Name, Inode>, q1: map<Name, Inode>, log0: seq<Event>, log1: seq<Event>)
    requires Took(entries, taken, true, q0, q1, log0, log1)
    ensures taken == []
  {
  }

  lemma TakenAreOf(entries: seq<Entry>, taken: seq<Quarantined>, failed: bool, q0: map<Name, Inode>, q1: map<Name, Inode>,
                   log0: seq<Event>, log1: seq<Event>)
    requires Took(entries, taken, failed, q0, q1, log0, log1)
    ensures forall t | t in taken :: Entry(t.original, t.identity) in entries
  {
  }

  lemma NoneAway(events: seq<Event>)
    ensures Away([], events)
  {
  }

  lemma TookNone(entries: seq<Entry>, taken: seq<Quarantined>, q0: map<Name, Inode>, q1: map<Name, Inode>, log0: seq<Event>, log1: seq<Event>)
    requires Took(entries, taken, true, q0, q1, log0, log1) && forall v | v in log0 :: v.Opened?
    ensures taken == [] && Within(q0, q1) && DestroysLast(log1) && DestroysOnlyOpened(log1)
  {
  }

  lemma TookNoneFrom(entries: seq<Entry>, taken: seq<Quarantined>, root0: map<Name, Inode>, root1: map<Name, Inode>)
    requires TookFrom(entries, taken, true, root0, root1)
    ensures Within(root1, root0) && forall n | n in root0 && n !in root1 :: NamedBy(entries, n)
  {
  }

  /** Everything found has left the root before anything is destroyed, and only that is destroyed. */
  lemma RemovalBooks(entries: seq<Entry>, taken: seq<Quarantined>, clean: bool,
                     q0: map<Name, Inode>, q1: map<Name, Inode>, q2: map<Name, Inode>, log0: seq<Event>, log1: seq<Event>, log2: seq<Event>)
    requires forall v | v in log0 :: v.Opened? && Entry(v.name, v.inode) in entries
    requires forall e | e in entries :: Opened(e.name, e.inode) in log0
    requires Took(entries, taken, false, q0, q1, log0, log1) && GoneFrom(taken, clean, q1, q2, log1, log2) && log1 <= log2
    ensures DestroysLast(log2) && DestroysOnlyOpened(log2) && Within(q0, q2) && (clean ==> q2 == q0)
  {
    assert NothingDestroyed(log1) && FoundHalvesLeft(log1) && log2[..|log1|] == log1;
    forall s, i | Destroyed(s, i) in log2
      ensures exists n :: Opened(n, i) in log2
    {
      var t :| t in taken && t.slot == s && t.identity == i;
      assert Opened(t.original, t.identity) in log0;
    }
    forall s | s in q0
      ensures s in q2
    {
      assert !SlotOf(taken, s);
    }
    if clean {
      assert q2.Keys == q0.Keys;
    }
  }

  lemma RemovalRoot(entries: seq<Entry>, taken: seq<Quarantined>, root0: map<Name, Inode>, root1: map<Name, Inode>, root2: map<Name, Inode>)
    requires TookFrom(entries, taken, false, root0, root1) && PutBack(taken, root1, root2)
    ensures Within(root2, root0) && forall n | n in root0 && n !in root2 :: NamedBy(entries, n)
    ensures root2 == root1 ==> NoneNamed(entries, root2)
  {
  }

  lemma WithoutBoth(before: map<Name, Inode>, after: map<Name, Inode>, first: Name, second: Name)
    requires Within(after, before) && first !in after && second !in after
    requires forall n | n in before && n !in after :: n == first || n == second
    ensures after == before - {first, second}
  {
    assert after.Keys == before.Keys - {first, second};
  }

  /** What taking the found halves away means for the pair. */
  lemma BothLooked(entries: seq<Entry>, first: Name, second: Name, root: map<Name, Inode>)
    requires Found(entries, [first, second], root)
    ensures AllAt(entries, root)
    ensures (first in root ==> NamedBy(entries, first)) && (second in root ==> NamedBy(entries, second))
  {
    assert first in [first, second] && second in [first, second];
  }

  lemma PairGone(entries: seq<Entry>, first: Name, second: Name, before: map<Name, Inode>, after: map<Name, Inode>)
    requires AllAt(entries, before) && (forall e | e in entries :: e.name == first || e.name == second)
    requires (first in before ==> NamedBy(entries, first)) && (second in before ==> NamedBy(entries, second))
    requires Within(after, before) && forall n | n in before && n !in after :: NamedBy(entries, n)
    ensures forall n | n in before && n !in after :: n == first || n == second
    ensures entries == [] <==> first !in before && second !in before
    ensures entries == [] ==> after == before
    ensures NoneNamed(entries, after) ==> after == before - {first, second}
  {
    if entries == [] {
      assert after.Keys == before.Keys;
    } else {
      assert entries[0] in entries;
    }
    if NoneNamed(entries, after) {
      WithoutBoth(before, after, first, second);
    }
  }

  method NumberFree(living: set<Inode>) returns (number: nat)
    ensures forall i | i in living :: i.number < number
  {
    number := 0;
    var left := living;
    while left != {}
      invariant left <= living && forall i | i in living - left :: i.number < number
    {
      var i :| i in left;
      number := if i.number < number then number else i.number + 1;
      left := left - {i};
    }
  }

  lemma LongerThanAll(names: set<Name>) returns (long: Name)
    ensures forall n | n in names :: |n| < |long|
  {
    long := "x";
    if names != {} {
      var n :| n in names;
      var rest := LongerThanAll(names - {n});
      long := rest + n + "x";
    }
  }

  ghost predicate NamedBy(entries: seq<Entry>, name: Name) {
    exists e :: e in entries && e.name == name
  }

  ghost predicate AllAt(entries: seq<Entry>, root: map<Name, Inode>) {
    forall e | e in entries :: e.inode.File? && e.name in root && root[e.name] == e.inode
  }

  ghost predicate DistinctNames(entries: seq<Entry>) {
    forall j, k | 0 <= j < k < |entries| :: entries[j].name != entries[k].name
  }

  lemma NewIsNew(data0: map<Inode, seq<byte>>, data1: map<Inode, seq<byte>>, inode: Inode, bytes: seq<byte>)
    requires NewWith(data0, data1, inode, bytes)
    ensures inode !in data0
  {
  }

  lemma BothCreated(temporary: seq<Entry>, published: seq<Entry>, events: seq<Event>)
    requires forall e | e in temporary :: Created(e.name, e.inode) in events
    requires |published| <= |temporary| <= 2 && forall k | 0 <= k < |published| :: published[k].inode == temporary[k].inode
    ensures forall e | e in temporary + published :: exists n :: Created(n, e.inode) in events
  {
    forall e | e in published
      ensures exists n :: Created(n, e.inode) in events
    {
      var k :| 0 <= k < |published| && published[k] == e;
      assert temporary[k] in temporary;
    }
    assert forall e | e in temporary + published :: e in temporary || e in published;
  }

  lemma AllTogether(a: seq<Entry>, b: seq<Entry>, root0: map<Name, Inode>, root1: map<Name, Inode>)
    requires AllAt(a, root0) && Within(root0, root1)
    ensures AllAt(a, root1) && (AllAt(b, root1) ==> AllAt(a + b, root1))
  {
  }

  /** What is known of the names looked at so far when one more has been. */
  ghost predicate Found(entries: seq<Entry>, seen: seq<Name>, root: map<Name, Inode>) {
    AllAt(entries, root) && forall n | n in seen && n in root :: NamedBy(entries, n)
  }

  lemma NothingFound(root: map<Name, Inode>)
    ensures Found([], [], root) && AllAt([], root)
  {
  }

  lemma FoundMore(entries: seq<Entry>, seen: seq<Name>, root: map<Name, Inode>, name: Name)
    requires Found(entries, seen, root)
    ensures name !in root ==> Found(entries, seen + [name], root)
    ensures name in root && root[name].File? ==> Found(entries + [Entry(name, root[name])], seen + [name], root)
  {
    if name in root {
      var more := entries + [Entry(name, root[name])];
      assert more[|more| - 1] in more;
      forall n | NamedBy(entries, n)
        ensures NamedBy(more, n)
      {
        var e :| e in entries && e.name == n;
        assert e in more;
      }
    }
  }

  lemma DistinctParts(a: seq<Entry>, b: seq<Entry>)
    requires DistinctNames(a + b)
    ensures DistinctNames(a) && DistinctNames(b)
    ensures forall d, e | d in a && e in b :: d.name != e.name
  {
    var all := a + b;
    forall j, k | 0 <= j < k < |a|
      ensures a[j].name != a[k].name
    {
      assert all[j] == a[j] && all[k] == a[k];
    }
    forall j, k | 0 <= j < k < |b|
      ensures b[j].name != b[k].name
    {
      assert all[|a| + j] == b[j] && all[|a| + k] == b[k];
    }
    forall d, e | d in a && e in b
      ensures d.name != e.name
    {
      var j :| 0 <= j < |a| && a[j] == d;
      var k :| 0 <= k < |b| && b[k] == e;
      assert all[j] == d && all[|a| + k] == e;
    }
  }

  lemma NothingMoved(name: Name, root: map<Name, Inode>, q: map<Name, Inode>, events: seq<Event>)
    ensures FailedAttempt(name, q, q, events, events) && Stuck(name, root, root, q, q) && StuckInStep(name, root, root, events, events)
  {
  }

  lemma MovedInVain(name: Name, slot: Name, inode: Inode, restored: bool,
                    q0: map<Name, Inode>, q1: map<Name, Inode>, log0: seq<Event>, log1: seq<Event>)
    requires slot !in q0 && q1 == if restored then q0[slot := inode] - {slot} else q0[slot := inode]
    requires log1 == if restored then log0 + [Moved(name, slot, inode)] + [Restored(slot, name, inode)] else log0 + [Moved(name, slot, inode)]
    ensures FailedAttempt(name, q0, q1, log0, log1)
  {
    AddThenRemove(q0, slot, inode);
    assert log0 + [Moved(name, slot, inode)] + [Restored(slot, name, inode)] == log0 + [Moved(name, slot, inode), Restored(slot, name, inode)];
  }

  lemma StuckInVain(name: Name, slot: Name, restored: bool, root0: map<Name, Inode>, root1: map<Name, Inode>, root2: map<Name, Inode>,
                    q0: map<Name, Inode>, q1: map<Name, Inode>, log0: seq<Event>, log1: seq<Event>)
    requires name in root0 && root1 == root0 - {name} && slot !in q0
    requires var inode, moved := root0[name], log0 + [Moved(name, slot, root0[name])];
      if restored then root2 == root1[name := inode] && q1 == q0[slot := inode] - {slot} && log1 == moved + [Restored(slot, name, inode)]
      else root2 == root1 && q1 == q0[slot := inode] && log1 == moved
    ensures Stuck(name, root0, root2, q0, q1) && StuckInStep(name, root0, root2, log0, log1)
  {
    var inode := root0[name];
    AddThenRemove(q0, slot, inode);
    RemoveThenAdd(root0, name);
    assert log0 + [Moved(name, slot, inode)] + [Restored(slot, name, inode)] == log0 + [Moved(name, slot, inode), Restored(slot, name, inode)];
  }

  lemma AddThenRemove(m: map<Name, Inode>, name: Name, inode: Inode)
    requires name !in m
    ensures m[name := inode] - {name} == m
  {
  }

  lemma RemoveThenAdd(m: map<Name, Inode>, name: Name)
    requires name in m
    ensures (m - {name})[name := m[name]] == m
  {
  }

  lemma AccountedAfterFailedAttempt(name: Name, log0: seq<Event>, q0: map<Name, Inode>, log1: seq<Event>, q1: map<Name, Inode>)
    requires Accounted(log0, q0) && FailedAttempt(name, q0, q1, log0, log1)
    ensures Within(q0, q1) && Accounted(log1, q1)
    ensures Grown(log0, log1) && forall s, i | Destroyed(s, i) in log1 :: Destroyed(s, i) in log0
  {
  }

  lemma AccountedAfterMove(name: Name, slot: Name, inode: Inode, log0: seq<Event>, q0: map<Name, Inode>)
    requires Accounted(log0, q0) && slot !in q0
    ensures Accounted(log0 + [Moved(name, slot, inode)], q0[slot := inode])
  {
  }

  lemma AccountedAfterCreation(name: Name, inode: Inode, log0: seq<Event>, q: map<Name, Inode>)
    requires Accounted(log0, q) && Traced(log0)
    ensures Accounted(log0 + [Created(name, inode)], q) && Traced(log0 + [Created(name, inode)])
    ensures MeantExist(log0) ==> MeantExist(log0 + [Created(name, inode)])
  {
  }

  lemma AccountedAfterNote(e: Event, log0: seq<Event>, q: map<Name, Inode>)
    requires Accounted(log0, q) && !e.Moved?
    ensures Accounted(log0 + [e], q)
  {
  }

  lemma AccountedAfterMiss(name: Name, identity: Inode, log0: seq<Event>, q: map<Name, Inode>)
    requires Accounted(log0, q) && Traced(log0)
    ensures var log1 := log0 + [Vanished(name)];
            && Accounted(log1, q) && Traced(log1) && Grown(log0, log1) && WithdrewOnly(log0, log1, [Entry(name, identity)])
            && (MeantExist(log0) ==> MeantExist(log1))
  {
  }

  lemma TracedAfterFailedAttempt(name: Name, identity: Inode, log0: seq<Event>, q0: map<Name, Inode>, log1: seq<Event>, q1: map<Name, Inode>)
    requires Traced(log0) && FailedAttempt(name, q0, q1, log0, log1)
    ensures Traced(log1) && WithdrewOnly(log0, log1, [Entry(name, identity)]) && (MeantExist(log0) ==> MeantExist(log1))
  {
  }

  lemma StuckIsLittle(name: Name, root0: map<Name, Inode>, root1: map<Name, Inode>, q0: map<Name, Inode>, q1: map<Name, Inode>)
    requires Stuck(name, root0, root1, q0, q1)
    ensures root1 == root0 || root1 == root0 - {name}
  {
  }

  /** Moving a file, destroying it or failing to, and noting what was meant. */
  lemma TracedAfterCommit(name: Name, slot: Name, meant: Inode, found: Inode, living: set<Inode>,
                          log0: seq<Event>, log1: seq<Event>, log2: seq<Event>)
    requires Traced(log0) && log1 == log0 + [Moved(name, slot, found)]
    requires log2 == log1 || log2 == log1 + [Destroyed(slot, found)]
    requires Unique(living) && found in living && found.number == meant.number && exists c :: Created(c, meant) in log0
    ensures var log3 := log2 + [Withdrew(name, meant, found, living)];
            && Traced(log3) && Grown(log0, log3) && WithdrewOnly(log0, log3, [Entry(name, meant)])
            && (meant in living && MeantExist(log0) ==> MeantExist(log3))
            && (log2 != log1 ==> Destroyed(slot, found) in log3)
  {
    var note := Withdrew(name, meant, found, living);
    var log3 := log2 + [note];
    var c :| Created(c, meant) in log0;
    assert note in log3 && Created(c, meant) in log3;
    assert Entry(name, meant) in [Entry(name, meant)];
    forall e | e in log3
      ensures e in log0 || e == note || e == Moved(name, slot, found) || e == Destroyed(slot, found)
    {
    }
    forall e | e in log0
      ensures e in log3
    {
    }
  }

  /** Destroying what a slot holds keeps the books balanced. */
  lemma AccountedAfterCommit(slot: Name, log0: seq<Event>, q0: map<Name, Inode>)
    requires Accounted(log0, q0) && slot in q0
    ensures Accounted(log0 + [Destroyed(slot, q0[slot])], q0 - {slot})
  {
  }

  /**
     The files that this operation staged as content and as sidecar are the ones that the final
     names were seen to lead to when they were opened after the link.
   */
  ghost predicate Confirmed(contentName: Name, sidecarName: Name, events: seq<Event>) {
    exists token, i, j ::
      && Created(TemporaryName(token, ".blob.tmp"), i) in events && Opened(contentName, i) in events
      && Created(TemporaryName(token, ".metadata.tmp"), j) in events && Opened(sidecarName, j) in events
  }

  lemma IsConfirmed(token: string, i: Inode, j: Inode, contentName: Name, sidecarName: Name, events: seq<Event>)
    requires Created(TemporaryName(token, ".blob.tmp"), i) in events && Opened(contentName, i) in events
    requires Created(TemporaryName(token, ".metadata.tmp"), j) in events && Opened(sidecarName, j) in events
    ensures Confirmed(contentName, sidecarName, events)
  {
  }

  lemma ConfirmedStays(contentName: Name, sidecarName: Name, log0: seq<Event>, log1: seq<Event>)
    requires Confirmed(contentName, sidecarName, log0) && Grown(log0, log1)
    ensures Confirmed(contentName, sidecarName, log1)
  {
  }

  predicate IsTemporary(name: Name) { |name| > 0 && name[0] == '.' }

  /** Two different final names, and no temporary file left over in the directory. */
  ghost predicate PlainNames(contentName: Name, sidecarName: Name, root: map<Name, Inode>) {
    && contentName != sidecarName && !IsTemporary(contentName) && !IsTemporary(sidecarName)
    && forall n | n in root :: !IsTemporary(n)
  }

  function TemporaryName(token: string, part: string): (n: Name)
    ensures IsTemporary(n)
  {
    "." + token + part
  }

  lemma FinalsAreOld(before: map<Name, Inode>, staged: map<Name, Inode>, temporary: seq<Entry>)
    requires AddsOnly(before, staged, temporary) && forall e | e in temporary :: IsTemporary(e.name)
    ensures forall n | n in staged && !IsTemporary(n) :: n in before
  {
  }
}
