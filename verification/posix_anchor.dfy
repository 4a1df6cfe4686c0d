/**
 The POSIX anchor of the local blob store: how a content file and its sidecar are published
 (temporary files, hard links) and removed (rename into a private quarantine, identity check,
 unlink), with a possible failure at every system call and, optionally, other processes that
 rename, replace or remove names of the root directory between any two system calls.

 A system call that fails changes nothing.  A file has its inode number to itself while it has a
 link or an open descriptor; after that the number may be given to a new file.
 */
module PosixAnchor {
  import opened AnchorBooks
  import opened Basics

  class Anchor {
    const disturbed: bool   // other processes change the root directory
    const faulty: bool      // system calls may fail
    var root: map<Name, Inode>
    var quarantine: map<Name, Inode>
    var data: map<Inode, seq<byte>>
    var open: multiset<Inode>    // the descriptors this store has open
    var alive: set<Inode>        // the files that exist, here or elsewhere
    var next: nat
    ghost var log: seq<Event>
    ghost var trouble: seq<Trouble>    // what went wrong in the present operation

    ghost predicate Valid()
      reads this`root, this`quarantine, this`data, this`open, this`alive, this`next
    {
      Exist(root, quarantine, open, alive, data, next)
    }

    constructor (disturbed: bool, faulty: bool)
      ensures Valid() && this.disturbed == disturbed && this.faulty == faulty
      ensures root == map[] && quarantine == map[] && open == multiset{}
    {
      this.disturbed, this.faulty := disturbed, faulty;
      root, quarantine, data, open, alive, next := map[], map[], map[], multiset{}, {}, 0;
      log, trouble := [], [];
    }

    // --- what the environment may do ---

    /**
       Other processes act: root names, new files and file contents change in any way, and files
       without a link or descriptor of this store may go or stay.
     */
    method Disturb()
      requires Valid()
      modifies this`root, this`data, this`alive, this`next
      ensures Valid() && old(data).Keys <= data.Keys
      ensures !disturbed ==> root == old(root) && data == old(data) && next == old(next)
    {
      hide Unique;
      var r: map<Name, Inode> := *;
      var d: map<Inode, seq<byte>> := *;
      var a: set<Inode> := *;
      var k: nat := *;
      if !disturbed {
        r, d, k := root, data, next;
      }
      if StayGone(alive, data, a, d) && Exist(r, quarantine, open, a, d, k) {
        root, data, alive, next := r, d, a, k;
      }
    }

    /** One thing they may do: replace a file that has no other link and that nobody has open, and get its number. */
    method Replace(name: Name) returns (other: Inode)
      requires Valid() && quarantine == map[] && open == multiset{}
      requires name in root && forall n | n in root && n != name :: root[n] != root[name]
      modifies this`root, this`data, this`alive, this`next
      ensures Valid() && old(data).Keys <= data.Keys && StayGone(old(alive), old(data), alive, data)
      ensures other.File? && other.number == old(root)[name].number && other !in old(data) && other != old(root)[name]
      ensures root == old(root)[name := other]
    {
      other := File(root[name].number, next);
      alive, data := alive - {root[name]} + {other}, data[other := []];
      root, next := root[name := other], next + 1;
    }

    method Fails() returns (b: bool)
      ensures b ==> faulty
    {
      b := false;
      if faulty {
        b := *;
      }
    }

    // --- system calls ---

    /** Every operation starts by checking the two directory descriptors. */
    method Begin() returns (r: Outcome<()>)
      requires Valid()
      modifies this`root, this`data, this`alive, this`next, this`log, this`trouble
      ensures Valid() && old(data).Keys <= data.Keys && log == []
      ensures trouble == if r.Raised? then [Refused] else []
      ensures !disturbed ==> root == old(root) && data == old(data)
      ensures r.Raised? ==> r.error == Storage && faulty
    {
      log, trouble := [], [];
      Disturb();
      var f := Fails();
      if f {
        trouble := [Refused];
      }
      r := if f then Raised(Storage) else Ok(());
    }

    method FreeNumber() returns (number: nat)
      ensures forall i | i in alive :: i.number != number
    {
      number := *;
      if exists i :: i in alive && i.number == number {
        var least := NumberFree(alive);
        number := *;
        if number < least {
          number := least;
        }
      }
    }

    method OpenNew(name: Name) returns (r: Outcome<Inode>)
      requires Valid()
      modifies this
      ensures Valid() && quarantine == old(quarantine) && old(data).Keys <= data.Keys
      ensures r.Ok? ==> r.value.File? && r.value !in old(data) && r.value in data
      ensures open == if r.Ok? then With(old(open), r.value) else old(open)
      ensures log == if r.Ok? then old(log) + [Created(name, r.value)] else old(log)
      ensures r.Raised? ==> r.error == Collision || r.error == Storage
      ensures trouble == if r.Ok? then old(trouble) else old(trouble) + [if r.error == Collision then Taken(name) else Refused]
      ensures !disturbed && r == Raised(Collision) ==> name in old(root)
      ensures !disturbed && r.Raised? ==> root == old(root) && data == old(data)
      ensures !disturbed && r.Ok? ==>
        && name !in old(root) && root == old(root)[name := r.value]
        && data == old(data)[r.value := []]
      ensures !disturbed && !faulty ==> if name in old(root) then r == Raised(Collision) else r.Ok?
    {
      hide Anchor.Valid, With;
      Disturb();
      var f := Fails();
      if f {
        trouble := trouble + [Refused];
        return Raised(Storage);
      }
      if name in root {
        trouble := trouble + [Taken(name)];
        return Raised(Collision);
      }
      var inode := Create(name);
      log := log + [Created(name, inode)];
      r := Ok(inode);
    }

    /** A new empty file, open and under this name. */
    method Create(name: Name) returns (inode: Inode)
      requires Valid()
      modifies this`root, this`data, this`open, this`alive, this`next
      ensures Valid() && inode.File? && inode !in old(data) && data == old(data)[inode := []]
      ensures root == old(root)[name := inode] && open == With(old(open), inode)
    {
      hide Exist, Unique;
      var number := FreeNumber();
      inode := File(number, next);
      ExistAfterCreation(root, quarantine, open, alive, data, next, name, inode);
      data, root, alive, next := data[inode := []], root[name := inode], alive + {inode}, next + 1;
      open := open + multiset{inode};
    }

    method OpenName(name: Name) returns (r: Inode)
      requires Valid() && name in root
      modifies this`open
      ensures Valid() && r == root[name] && r in data && open == With(old(open), r)
    {
      hide Exist, Unique;
      r := root[name];
      Linked(root, quarantine, open, alive, data, next);
      ExistWithDescriptor(root, quarantine, open, alive, data, next, r);
      open := open + multiset{r};
    }

    /** Only a regular file stays open. */
    method CheckOpened(name: Name, inode: Inode) returns (r: Outcome<()>)
      requires Valid() && inode in open
      modifies this`open, this`trouble
      ensures Valid() && open == if r.Ok? then old(open) else Less(old(open), inode)
      ensures r.Ok? ==> inode.File? && trouble == old(trouble)
      ensures r.Raised? ==> (r.error == InvalidUri && !inode.File?) || (r.error == Storage && faulty)
      ensures r == Raised(InvalidUri) ==> trouble == old(trouble) + [Irregular(name)]
      ensures r == Raised(Storage) ==> old(trouble) <= trouble && |old(trouble)| < |trouble| && trouble[|trouble| - 1] == Refused
    {
      hide Anchor.Valid;
      var f := Fails();
      if !f && inode.File? {
        return Ok(());
      }
      trouble := trouble + [if f then Refused else Irregular(name)];
      var closeFailed := Close(inode, false);
      r := Raised(if f || closeFailed then Storage else InvalidUri);
    }

    /** Open a root name that is expected to exist, refusing anything but a regular file. */
    method OpenExisting(name: Name) returns (r: Outcome<Inode>)
      requires Valid()
      modifies this
      ensures Valid() && quarantine == old(quarantine) && old(data).Keys <= data.Keys
      ensures r.Ok? ==> r.value.File? && r.value in data
      ensures open == if r.Ok? then With(old(open), r.value) else old(open)
      ensures log == if r.Ok? then old(log) + [Opened(name, r.value)] else old(log)
      ensures r.Raised? ==> r.error == Missing || r.error == InvalidUri || r.error == Storage
      ensures r.Ok? ==> trouble == old(trouble)
      ensures r == Raised(Missing) ==> trouble == old(trouble) + [Absent(name)]
      ensures r == Raised(InvalidUri) ==> trouble == old(trouble) + [Irregular(name)]
      ensures r == Raised(Storage) ==> old(trouble) <= trouble && |old(trouble)| < |trouble| && trouble[|trouble| - 1] == Refused
      ensures !disturbed ==> root == old(root) && data == old(data)
      ensures !disturbed && r.Ok? ==> name in root && root[name] == r.value
      ensures !disturbed && r == Raised(Missing) ==> name !in root
      ensures !disturbed && r == Raised(InvalidUri) ==> name in root && !root[name].File?
      ensures !disturbed && !faulty && name in root && root[name].File? ==> r.Ok?
      ensures !disturbed && !faulty && name !in root ==> r == Raised(Missing)
    {
      hide Anchor.Valid, Exist, Unique, With, Less;
      Disturb();
      if name !in root {
        trouble := trouble + [Absent(name)];
        return Raised(Missing);
      }
      var f := Fails();
      if f {
        trouble := trouble + [Refused];
        return Raised(Storage);
      }
      var inode := OpenName(name);
      OpenedOne(old(open), inode);
      var checked := CheckOpened(name, inode);
      if checked.Raised? {
        return Raised(checked.error);
      }
      log := log + [Opened(name, inode)];
      r := Ok(inode);
    }

    /** Closing releases the descriptor even when it reports a failure; `cleanup` says what error that is. */
    method Close(inode: Inode, cleanup: bool) returns (failed: bool)
      requires Valid() && inode in open
      modifies this`open, this`trouble
      ensures Valid() && open == Less(old(open), inode)
      ensures trouble == if !failed then old(trouble) else old(trouble) + [if cleanup then Unclean else Refused]
      ensures failed ==> faulty
    {
      hide Exist, Unique;
      ExistWithDescriptor(root, quarantine, open, alive, data, next, inode);
      open := open - multiset{inode};
      failed := Fails();
      if failed {
        trouble := trouble + [if cleanup then Unclean else Refused];
      }
    }

    method Link(source: Name, destination: Name) returns (r: Outcome<Inode>)
      requires Valid()
      modifies this`root, this`data, this`alive, this`next, this`trouble
      ensures Valid() && old(data).Keys <= data.Keys
      ensures r.Ok? ==> r.value in data
      ensures r.Raised? ==> r.error == Collision || r.error == Storage
      ensures trouble == if r.Ok? then old(trouble) else old(trouble) + [if r.error == Collision then Taken(destination) else Refused]
      ensures !disturbed ==> data == old(data)
      ensures !disturbed && r.Raised? ==> root == old(root)
      ensures !disturbed && r.Ok? ==>
        && source in old(root) && r.value == old(root)[source]
        && destination !in old(root) && root == old(root)[destination := r.value]
      ensures !disturbed && r == Raised(Collision) ==> destination in old(root)
      ensures !disturbed && !faulty && source in old(root) && destination !in old(root) ==> r.Ok?
      ensures !disturbed && !faulty && source in old(root) && destination in old(root) ==> r == Raised(Collision)
    {
      hide Exist, Unique;
      Disturb();
      var f := Fails();
      if f || source !in root {
        trouble := trouble + [Refused];
        return Raised(Storage);
      }
      if destination in root {
        trouble := trouble + [Taken(destination)];
        return Raised(Collision);
      }
      Linked(root, quarantine, open, alive, data, next);
      ExistWithLinks(root, quarantine, open, alive, data, next, root[destination := root[source]], quarantine);
      r := Ok(root[source]);
      root := root[destination := root[source]];
    }

    /** `renameat2(..., RENAME_NOREPLACE)` from the root into the quarantine. */
    method MoveToQuarantine(name: Name, slot: Name) returns (r: Outcome<Inode>)
      requires Valid()
      modifies this
      ensures Valid() && old(data).Keys <= data.Keys && open == old(open)
      ensures r.Ok? ==> slot !in old(quarantine) && quarantine == old(quarantine)[slot := r.value]
      ensures r.Ok? ==> r.value in data && log == old(log) + [Moved(name, slot, r.value)]
      ensures r.Raised? ==> quarantine == old(quarantine)
      ensures r.Raised? && r.error != Missing ==> log == old(log)
      ensures r == Raised(Missing) ==> log == old(log) + [Vanished(name)]
      ensures r.Raised? ==> r.error in {Missing, Collision, Storage, Cleanup}
      ensures trouble == if r.Ok? || r.error == Missing || r.error == Collision then old(trouble) else old(trouble) + [Unclean]
      ensures !disturbed ==> data == old(data)
      ensures !disturbed && r.Ok? ==> name in old(root) && r.value == old(root)[name] && root == old(root) - {name}
      ensures !disturbed && r.Raised? ==> root == old(root)
      ensures !disturbed && r == Raised(Missing) ==> name !in root
      ensures !disturbed && !faulty && name !in old(root) ==> r == Raised(Missing)
      ensures !disturbed && !faulty && name in old(root) && slot !in old(quarantine) ==> r.Ok?
    {
      hide Exist, Unique;
      Disturb();
      if name !in root {
        log := log + [Vanished(name)];
        return Raised(Missing);
      }
      if slot in quarantine {
        return Raised(Collision);
      }
      var f := Fails();
      if f {
        trouble := trouble + [Unclean];
        f := Fails();
        return Raised(if f then Storage else Cleanup);
      }
      var inode := root[name];
      Linked(root, quarantine, open, alive, data, next);
      ExistWithLinks(root, quarantine, open, alive, data, next, root - {name}, quarantine[slot := inode]);
      root, quarantine := root - {name}, quarantine[slot := inode];
      log := log + [Moved(name, slot, inode)];
      r := Ok(inode);
    }

    /** The same call from the quarantine back to the root; every failure is a cleanup error. */
    method RestoreName(slot: Name, name: Name) returns (restored: bool)
      requires Valid() && slot in quarantine
      modifies this
      ensures Valid() && old(data).Keys <= data.Keys && open == old(open)
      ensures restored ==> quarantine == old(quarantine) - {slot}
      ensures restored ==> log == old(log) + [Restored(slot, name, old(quarantine)[slot])]
      ensures !restored ==> quarantine == old(quarantine) && log == old(log)
      ensures trouble == if restored then old(trouble) else old(trouble) + [Unclean]
      ensures !disturbed ==> data == old(data)
      ensures !disturbed && restored ==> name !in old(root) && root == old(root)[name := old(quarantine)[slot]]
      ensures !disturbed && !restored ==> root == old(root)
      ensures !disturbed && !faulty && name !in old(root) ==> restored
    {
      hide Exist, Unique;
      Disturb();
      var f := Fails();
      if f || name in root {
        trouble := trouble + [Unclean];
        return false;
      }
      var inode := quarantine[slot];
      Linked(root, quarantine, open, alive, data, next);
      ExistWithLinks(root, quarantine, open, alive, data, next, root[name := inode], quarantine - {slot});
      root, quarantine := root[name := inode], quarantine - {slot};
      log := log + [Restored(slot, name, inode)];
      restored := true;
    }

    method UnlinkSlot(slot: Name) returns (failed: bool)
      requires Valid() && slot in quarantine
      modifies this
      ensures Valid() && old(data).Keys <= data.Keys && open == old(open)
      ensures !failed ==> quarantine == old(quarantine) - {slot}
      ensures !failed ==> log == old(log) + [Destroyed(slot, old(quarantine)[slot])]
      ensures failed ==> faulty && quarantine == old(quarantine) && log == old(log)
      ensures trouble == if failed then old(trouble) + [Unclean] else old(trouble)
      ensures !disturbed ==> root == old(root) && data == old(data)
    {
      hide Exist, Unique;
      Disturb();
      failed := Fails();
      if failed {
        trouble := trouble + [Unclean];
      } else {
        log := log + [Destroyed(slot, quarantine[slot])];
        Linked(root, quarantine, open, alive, data, next);
        ExistWithLinks(root, quarantine, open, alive, data, next, root, quarantine - {slot});
        quarantine := quarantine - {slot};
      }
    }

    // --- quarantine protocol ---

    /** A random slot name; without faults it is one that is not in use. */
    method DrawSlot() returns (slot: Name)
      ensures !faulty ==> slot !in quarantine
    {
      var token: string := *;
      if !faulty {
        ghost var long := LongerThanAll(quarantine.Keys);
        assert TemporaryName(long, ".quarantine") !in quarantine;
        token :| TemporaryName(token, ".quarantine") !in quarantine;
      }
      slot := TemporaryName(token, ".quarantine");
    }

    /** At most eight random slots are tried before giving up. */
    method MoveToFreshSlot(name: Name) returns (r: Outcome<Entry>)
      requires Valid()
      modifies this
      ensures Valid() && old(data).Keys <= data.Keys && open == old(open)
      ensures r.Ok? ==>
        && r.value.name !in old(quarantine) && quarantine == old(quarantine)[r.value.name := r.value.inode]
        && log == old(log) + [Moved(name, r.value.name, r.value.inode)]
      ensures r.Raised? ==> quarantine == old(quarantine) && (r.error == Missing || r.error.IsStorageError())
      ensures r.Raised? ==> log == if r.error == Missing then old(log) + [Vanished(name)] else old(log)
      ensures Spoiled(old(trouble), trouble, r.Raised? && r.error != Missing)
      ensures !disturbed ==> data == old(data)
      ensures !disturbed && r.Ok? ==> name in old(root) && r.value.inode == old(root)[name] && root == old(root) - {name}
      ensures !disturbed && r.Raised? ==> root == old(root)
      ensures !disturbed && r == Raised(Missing) ==> name !in root
      ensures !disturbed && !faulty && name in old(root) ==> r.Ok?
      ensures !disturbed && !faulty && name !in old(root) ==> r == Raised(Missing)
    {
      hide Anchor.Valid, Unique, With, Less, Plus, Minus;
      for tries := 0 to 8
        invariant Valid() && old(data).Keys <= data.Keys && open == old(open)
        invariant quarantine == old(quarantine) && log == old(log) && trouble == old(trouble)
        invariant !disturbed ==> data == old(data) && root == old(root)
        invariant !disturbed && !faulty ==> tries == 0
      {
        var slot := DrawSlot();
        var moved := MoveToQuarantine(name, slot);
        if moved.Ok? {
          return Ok(Entry(slot, moved.value));
        }
        if moved.error != Collision {
          return Raised(moved.error);
        }
      }
      trouble := trouble + [Unclean];
      return Raised(Cleanup);
    }

    /** An open file with the number of another is that file exactly when the other still exists. */
    lemma NumberTells(found: Inode, identity: Inode)
      requires Valid() && found in open && found.number == identity.number
      ensures Unique(alive) && found in alive && (found == identity <==> identity in alive)
      ensures identity in open ==> found == identity
    {
    }

    method OpenSlot(slot: Name) returns (r: Inode)
      requires Valid() && slot in quarantine
      modifies this`open
      ensures Valid() && r == quarantine[slot] && open == With(old(open), r)
    {
      hide Exist, Unique;
      r := quarantine[slot];
      Linked(root, quarantine, open, alive, data, next);
      ExistWithDescriptor(root, quarantine, open, alive, data, next, r);
      open := open + multiset{r};
    }

    /** Open what was moved to a slot, if it has the expected number. */
    method OpenExpected(slot: Name, identity: Inode) returns (expected: bool)
      requires Valid() && slot in quarantine
      modifies this`open, this`trouble
      ensures Valid() && open == if expected then With(old(open), quarantine[slot]) else old(open)
      ensures expected ==> quarantine[slot].File? && quarantine[slot].number == identity.number
      ensures Spoiled(old(trouble), trouble, !expected)
      ensures !faulty && quarantine[slot].File? && quarantine[slot].number == identity.number ==> expected
    {
      hide Anchor.Valid, Unique, With, Less;
      expected := false;
      var f := Fails();
      if f {
        trouble := trouble + [Unclean];
      } else {
        var inode := OpenSlot(slot);
        OpenedOne(old(open), inode);
        f := Fails();
        if !f && inode.File? && inode.number == identity.number {
          return true;
        }
        trouble := trouble + [Unclean];
        var _ := Close(inode, true);
      }
    }

    /**
       Take `name` out of the root, and keep it out only if its number is the expected one.  It is
       the expected file exactly when that one still exists, so always when its descriptor is held.
     */
    method QuarantineExpected(name: Name, identity: Inode) returns (r: Outcome<Quarantined>)
      requires Valid()
      modifies this
      ensures Valid() && old(data).Keys <= data.Keys
      ensures r.Ok? ==>
        && r.value.original == name && r.value.identity.File? && r.value.identity.number == identity.number
        && r.value.slot !in old(quarantine) && quarantine == old(quarantine)[r.value.slot := r.value.identity]
        && log == old(log) + [Moved(name, r.value.slot, r.value.identity)]
      ensures open == if r.Ok? then With(old(open), r.value.identity) else old(open)
      ensures r.Ok? ==> Unique(alive) && r.value.identity in alive && (r.value.identity == identity <==> identity in alive)
      ensures r.Ok? && identity in old(open) ==> r.value.identity == identity
      ensures r == Raised(Missing) ==> quarantine == old(quarantine) && log == old(log) + [Vanished(name)]
      ensures Spoiled(old(trouble), trouble, r.Raised? && r.error != Missing)
      ensures r.Raised? && r.error != Missing ==>
        r.error.IsStorageError() && FailedAttempt(name, old(quarantine), quarantine, old(log), log)
      ensures !disturbed ==> data == old(data)
      ensures !disturbed && r.Ok? ==> name in old(root) && old(root)[name] == r.value.identity && root == old(root) - {name}
      ensures !disturbed && r == Raised(Missing) ==> name !in old(root) && root == old(root)
      ensures !disturbed && r.Raised? && r.error != Missing ==>
        Stuck(name, old(root), root, old(quarantine), quarantine) && StuckInStep(name, old(root), root, old(log), log)
      ensures !disturbed && !faulty ==>
        name in old(root) && old(root)[name].number == identity.number && old(root)[name].File? ==> r.Ok?
      ensures !disturbed && !faulty && name !in old(root) ==> r == Raised(Missing)
    {
      hide Anchor.Valid, Unique, With, Less, Plus, Minus, FailedAttempt, Stuck, StuckInStep, Spoiled, OnlyUnclean;
      SpoiledOnce(trouble);
      var moved := MoveToFreshSlot(name);
      if moved.Raised? {
        NothingMoved(name, root, quarantine, log);
        return Raised(moved.error);
      }
      // The quarantine is private, so what is opened here is what was moved.
      var slot, inode := moved.value.name, moved.value.inode;
      ghost var noted := trouble;
      var expected := OpenExpected(slot, identity);
      SpoiledMore(old(trouble), noted, trouble);
      if expected {
        OpenedOne(old(open), inode);
        NumberTells(inode, identity);
        return Ok(Quarantined(name, slot, inode));
      }
      ghost var root1, told := root, trouble;
      var restored := RestoreName(slot, name);
      SpoiledOnce(told);
      SpoiledMore(old(trouble), told, trouble);
      MovedInVain(name, slot, inode, restored, old(quarantine), quarantine, old(log), log);
      if !disturbed {
        StuckInVain(name, slot, restored, old(root), root1, root, old(quarantine), quarantine, old(log), log);
      }
      return Raised(Cleanup);
    }

    method CommitQuarantined(q: Quarantined) returns (r: Outcome<()>)
      requires Valid() && q.slot in quarantine && quarantine[q.slot] == q.identity && q.identity in open
      modifies this
      ensures Valid() && old(data).Keys <= data.Keys
      ensures open == Less(old(open), q.identity)
      ensures
        || (quarantine == old(quarantine) - {q.slot} && log == old(log) + [Destroyed(q.slot, q.identity)])
        || (r.Raised? && quarantine == old(quarantine) && log == old(log))
      ensures r.Raised? ==> r.error == Cleanup && faulty
      ensures Spoiled(old(trouble), trouble, r.Raised?)
      ensures !disturbed ==> root == old(root) && data == old(data)
    {
      hide Anchor.Valid, Unique, With, Less, Plus, Minus;
      var unlinkFailed := UnlinkSlot(q.slot);
      var closeFailed := Close(q.identity, true);
      r := if unlinkFailed || closeFailed then Raised(Cleanup) else Ok(());
    }

    method RestoreQuarantined(q: Quarantined) returns (r: Outcome<()>)
      requires Valid() && q.slot in quarantine && quarantine[q.slot] == q.identity && q.identity in open
      modifies this
      ensures Valid() && old(data).Keys <= data.Keys
      ensures open == Less(old(open), q.identity)
      ensures
        || (quarantine == old(quarantine) - {q.slot} && log == old(log) + [Restored(q.slot, q.original, q.identity)])
        || (r.Raised? && quarantine == old(quarantine) && log == old(log))
      ensures r.Raised? ==> r.error == Cleanup
      ensures Spoiled(old(trouble), trouble, r.Raised?)
      ensures !disturbed ==> data == old(data)
      ensures !disturbed ==>
        || (quarantine == old(quarantine) && root == old(root))
        || (quarantine == old(quarantine) - {q.slot} && q.original !in old(root) && root == old(root)[q.original := q.identity])
      ensures !disturbed && !faulty && q.original !in old(root) ==> q.original in root
    {
      hide Anchor.Valid, Unique, With, Less, Plus, Minus;
      var closeFailed := Close(q.identity, true);
      var restored := RestoreName(q.slot, q.original);
      r := if restored && !closeFailed then Ok(()) else Raised(Cleanup);
    }

    /**
       Remove `name` if its number still is that of a file this operation created; a name that is
       gone is fine.
     */
    method UnlinkExpected(name: Name, identity: Inode) returns (r: Outcome<()>)
      requires Valid() && Accounted(log, quarantine) && Traced(log)
      requires exists n :: Created(n, identity) in log
      modifies this
      ensures Valid() && Accounted(log, quarantine) && Traced(log)
      ensures old(data).Keys <= data.Keys && open == old(open)
      ensures r.Raised? ==> r.error.IsStorageError()
      ensures Spoiled(old(trouble), trouble, r.Raised?)
      ensures Within(old(quarantine), quarantine) && Grown(old(log), log) && WithdrewOnly(old(log), log, [Entry(name, identity)])
      ensures identity in old(open) && MeantExist(old(log)) ==> MeantExist(log)
      ensures !disturbed ==> data == old(data)
      ensures !disturbed && r.Ok? ==> root == old(root) - {name} && quarantine == old(quarantine)
      ensures !disturbed && r.Raised? ==> root == old(root) || root == old(root) - {name}
      ensures !disturbed && !faulty ==>
        name in old(root) && old(root)[name].number == identity.number && old(root)[name].File? ==>
          r.Ok? && exists s, l :: Destroyed(s, old(root)[name]) in log && Withdrew(name, identity, old(root)[name], l) in log
    {
      hide Anchor.Valid, Unique, With, Less, Plus, Minus, FailedAttempt, Stuck, Accounted, Traced, MeantExist, WithdrewOnly, OnlyUnclean;
      var q := QuarantineExpected(name, identity);
      if q.Raised? {
        if q.error == Missing {
          AccountedAfterMiss(name, identity, old(log), quarantine);
          return Ok(());
        }
        AccountedAfterFailedAttempt(name, old(log), old(quarantine), log, quarantine);
        TracedAfterFailedAttempt(name, identity, old(log), old(quarantine), log, quarantine);
        if !disturbed {
          StuckIsLittle(name, old(root), root, old(quarantine), quarantine);
        }
        return Raised(q.error);
      }
      var slot, found := q.value.slot, q.value.identity;
      ghost var living, before := alive, log;
      OpenedOne(old(open), found);
      AccountedAfterMove(name, slot, found, old(log), old(quarantine));
      AccountedAfterCommit(slot, log, quarantine);
      r := CommitQuarantined(q.value);
      TracedAfterCommit(name, slot, identity, found, living, old(log), before, log);
      AccountedAfterNote(Withdrew(name, identity, found, living), log, quarantine);
      log := log + [Withdrew(name, identity, found, living)];
      AddThenRemove(old(quarantine), slot, found);
    }

    // --- file contents ---

    /** Write everything; each system call may write only a part. */
    method WriteAll(inode: Inode, bytes: seq<byte>) returns (r: Outcome<()>)
      requires Valid() && inode in data
      modifies this`root, this`data, this`alive, this`next, this`trouble
      ensures Valid() && old(data).Keys <= data.Keys
      ensures r.Raised? ==> r.error == Storage && faulty
      ensures trouble == if r.Ok? then old(trouble) else old(trouble) + [Refused]
      ensures !disturbed ==> root == old(root)
      ensures !disturbed ==> exists n: nat :: n <= |bytes| && data == old(data)[inode := old(data)[inode] + bytes[..n]]
      ensures !disturbed && r.Ok? ==> data == old(data)[inode := old(data)[inode] + bytes]
    {
      hide Exist, Unique;
      var offset := 0;
      if !disturbed {
        assert old(data)[inode] + bytes[..offset] == old(data)[inode];
        assert data == old(data)[inode := old(data)[inode] + bytes[..offset]];
      }
      while offset < |bytes|
        invariant 0 <= offset <= |bytes|
        invariant Valid() && old(data).Keys <= data.Keys && trouble == old(trouble)
        invariant !disturbed ==> root == old(root)
        invariant !disturbed ==> data == old(data)[inode := old(data)[inode] + bytes[..offset]]
      {
        Disturb();
        var f := Fails();
        if f {
          trouble := trouble + [Refused];
          return Raised(Storage);
        }
        var written := Portion(|bytes| - offset);
        assert bytes[..offset] + bytes[offset..offset + written] == bytes[..offset + written];
        if !disturbed {
          assert data[inode] + bytes[offset..offset + written] == old(data)[inode] + (bytes[..offset] + bytes[offset..offset + written]);
        }
        ExistWritten(root, quarantine, open, alive, data, next, inode, data[inode] + bytes[offset..offset + written]);
        data := data[inode := data[inode] + bytes[offset..offset + written]];
        offset := offset + written;
      }
      assert bytes[..offset] == bytes;
      var f := Fails();
      if f {
        trouble := trouble + [Refused];
      }
      r := if f then Raised(Storage) else Ok(());
    }

    /** Read up to `limit` bytes in chunks of any size; one byte more is too large. */
    method ReadBounded(inode: Inode, limit: nat) returns (r: Outcome<seq<byte>>)
      requires Valid() && inode in data
      modifies this`root, this`data, this`alive, this`next, this`trouble
      ensures Valid() && old(data).Keys <= data.Keys
      ensures r.Raised? ==> r.error == TooLarge || (r.error == Storage && faulty)
      ensures trouble == if r.Ok? then old(trouble) else old(trouble) + [if r.error == TooLarge then TooLong else Refused]
      ensures r.Ok? ==> |r.value| <= limit
      ensures !disturbed ==> root == old(root) && data == old(data)
      ensures !disturbed && r.Ok? ==> r.value == data[inode]
      ensures !disturbed && r == Raised(TooLarge) ==> |data[inode]| > limit
    {
      hide Exist, Unique;
      var result: seq<byte> := [];
      var maximum := limit + 1;
      while |result| < maximum
        invariant |result| <= maximum
        invariant Valid() && old(data).Keys <= data.Keys && trouble == old(trouble)
        invariant !disturbed ==> root == old(root) && data == old(data)
        invariant !disturbed ==> result <= data[inode]
        decreases maximum - |result|
      {
        Disturb();
        var f := Fails();
        if f {
          trouble := trouble + [Refused];
          return Raised(Storage);
        }
        var left := if |data[inode]| > |result| then |data[inode]| - |result| else 0;
        var size := Least(left, Least(64 * 1024, maximum - |result|));
        if size == 0 {
          break;
        }
        size := Portion(size);
        result := result + data[inode][|result|..|result| + size];
      }
      if |result| > limit {
        trouble := trouble + [TooLong];
        return Raised(TooLarge);
      }
      r := Ok(result);
    }

    // --- publication ---

    method CreateTemporary(name: Name, bytes: seq<byte>) returns (r: Outcome<Inode>)
      requires Valid() && Accounted(log, quarantine) && Traced(log)
      modifies this
      ensures Valid() && Accounted(log, quarantine) && Traced(log)
      ensures old(data).Keys <= data.Keys && Within(old(quarantine), quarantine)
      ensures open == if r.Ok? then With(old(open), r.value) else old(open)
      ensures Grown(old(log), log) && (MeantExist(old(log)) ==> MeantExist(log))
      ensures r.Ok? ==> r.value.File? && Created(name, r.value) in log
      ensures r.Raised? ==> r.error in {Collision, Storage, Cleanup}
      ensures if r.Ok? then trouble == old(trouble) else Told(old(trouble), trouble, r.error)
      ensures r == Raised(Collision) ==> trouble[|trouble| - 1] == Taken(name) && (!disturbed ==> name in old(root))
      ensures !disturbed ==> Kept(old(data), data)
      ensures !disturbed && r.Ok? ==>
        && name !in old(root) && root == old(root)[name := r.value] && quarantine == old(quarantine)
        && r.value !in old(data) && r.value in data && data[r.value] == bytes
      ensures !disturbed && r.Raised? ==> Within(old(root), root)
      ensures !disturbed && r.Raised? && r.error != Cleanup ==> root == old(root) && quarantine == old(quarantine)
      ensures !disturbed && !faulty ==> if name in old(root) then r == Raised(Collision) else r.Ok?
    {
      hide Anchor.Valid, Unique, With, Less, Plus, Minus, Accounted, Traced, MeantExist, OnlyUnclean;
      var opening := OpenNew(name);
      if opening.Raised? {
        return Raised(opening.error);
      }
      var inode := opening.value;
      AccountedAfterCreation(name, inode, old(log), quarantine);
      OpenedOne(old(open), inode);
      var statFailed := Fails();
      if statFailed {
        trouble := trouble + [Refused];
      } else {
        var written := WriteAll(inode, bytes);
        if written.Ok? {
          return Ok(inode);
        }
      }
      if !disturbed {
        AddThenRemove(old(root), name, inode);
      }
      ghost var told := trouble;
      var abandoned := Abandon(name, inode, !statFailed);
      r := Raised(if abandoned then Storage else Cleanup);
      if !abandoned {
        ToldUnclean(old(trouble), told, trouble);
      }
    }

    /** Give up a temporary file; its identity may not even be known. */
    method Abandon(name: Name, inode: Inode, identified: bool) returns (clean: bool)
      requires Valid() && Accounted(log, quarantine) && Traced(log)
      requires Created(name, inode) in log && inode in open
      modifies this
      ensures Valid() && Accounted(log, quarantine) && Traced(log)
      ensures old(data).Keys <= data.Keys && Within(old(quarantine), quarantine)
      ensures open == Less(old(open), inode) && Grown(old(log), log) && (MeantExist(old(log)) ==> MeantExist(log))
      ensures Spoiled(old(trouble), trouble, !clean)
      ensures !disturbed ==> data == old(data)
      ensures !disturbed ==> root == old(root) || root == old(root) - {name}
      ensures !disturbed && clean ==> root == old(root) - {name} && quarantine == old(quarantine)
    {
      hide Anchor.Valid, Unique, With, Less, Plus, Minus;
      clean := identified;
      if identified {
        var removed := UnlinkExpected(name, inode);
        clean := removed.Ok?;
      } else {
        trouble := trouble + [Unclean];
      }
      var closeFailed := Close(inode, true);
      clean := clean && !closeFailed;
    }

    /** Check that an open file is the one that is meant, and close it; a failing close is what is reported. */
    method Confirm(found: Inode, meant: Inode) returns (r: Outcome<()>)
      requires Valid() && found in open && meant in open
      modifies this`open, this`trouble
      ensures Valid() && open == Less(old(open), found)
      ensures r.Ok? ==> found == meant && trouble == old(trouble)
      ensures r.Raised? ==> (r.error == Storage || r.error == Cleanup) && Told(old(trouble), trouble, r.error)
      ensures !faulty && found == meant ==> r == Ok(())
    {
      hide Anchor.Valid, Unique, Less;
      var statFailed := Fails();
      r := if statFailed then Raised(Storage) else if found.number != meant.number then Raised(Cleanup) else Ok(());
      if r.Ok? {
        NumberTells(found, meant);
      } else {
        trouble := trouble + [if statFailed then Refused else Unclean];
      }
      var closeFailed := Close(found, false);
      if closeFailed {
        r := Raised(Storage);
      }
    }

    /** Open what was published and check that it is the file that is meant, or withdraw it. */
    method Verify(destination: Name, meant: Inode) returns (r: Outcome<()>)
      requires Valid() && Accounted(log, quarantine) && Traced(log)
      requires (exists n :: Created(n, meant) in log) && meant.File? && meant in open
      modifies this
      ensures Valid() && Accounted(log, quarantine) && Traced(log)
      ensures old(data).Keys <= data.Keys && Within(old(quarantine), quarantine)
      ensures open == old(open) && Grown(old(log), log) && (MeantExist(old(log)) ==> MeantExist(log))
      ensures r.Ok? ==> Opened(destination, meant) in log
      ensures r.Raised? ==> r.error in {Storage, InvalidUri, Cleanup}
      ensures if r.Ok? then trouble == old(trouble) else Told(old(trouble), trouble, r.error)
      ensures !disturbed ==> data == old(data)
      ensures !disturbed && destination in old(root) && old(root)[destination] == meant ==>
        && (root == old(root) || root == old(root) - {destination})
        && (r.Ok? ==> root == old(root))
        && (r.Ok? || r.error != Cleanup ==> quarantine == old(quarantine))
        && (!faulty ==> r == Ok(()))
    {
      hide Anchor.Valid, Unique, With, Less, Plus, Minus, Accounted, Traced, MeantExist, OnlyUnclean;
      var opening := OpenExisting(destination);
      if opening.Ok? {
        OpenedOne(old(open), opening.value);
        OpeningNoted(destination, opening.value, old(log), quarantine);
        r := Confirm(opening.value, meant);
      } else {
        ghost var told := trouble;
        var removed := UnlinkExpected(destination, meant);
        if removed.Raised? {
          ToldUnclean(old(trouble), told, trouble);
          return Raised(Cleanup);
        }
        r := Raised(if opening.error.IsStorageError() then opening.error else Storage);
      }
    }

    /** Link a temporary file to its final name and check what the name now leads to. */
    method Publish(source: Entry, destination: Name) returns (linked: bool, r: Outcome<()>)
      requires Valid() && Accounted(log, quarantine) && Traced(log)
      requires Created(source.name, source.inode) in log && source.inode.File? && source.inode in open
      modifies this
      ensures Valid() && Accounted(log, quarantine) && Traced(log)
      ensures old(data).Keys <= data.Keys && Within(old(quarantine), quarantine)
      ensures open == old(open) && Grown(old(log), log) && (MeantExist(old(log)) ==> MeantExist(log))
      ensures r.Ok? ==> linked && Opened(destination, source.inode) in log
      ensures r.Raised? ==> r.error in {Collision, Storage, InvalidUri, Cleanup}
      ensures if r.Ok? then trouble == old(trouble) else Told(old(trouble), trouble, r.error)
      ensures r == Raised(Collision) ==> trouble[|trouble| - 1] == Taken(destination) && (!disturbed ==> destination in old(root))
      ensures !disturbed ==> data == old(data)
      ensures !disturbed && source.name in old(root) && old(root)[source.name] == source.inode ==>
        && (linked ==> destination !in old(root))
        && (!linked ==> root == old(root) && quarantine == old(quarantine))
        && (root == old(root) || root == old(root)[destination := source.inode])
        && (r.Ok? ==> root == old(root)[destination := source.inode])
        && (r.Ok? || r.error != Cleanup ==> quarantine == old(quarantine))
        && (!faulty ==> r == if destination in old(root) then Raised(Collision) else Ok(()))
    {
      hide Anchor.Valid, Unique, With, Less, Plus, Minus, Accounted, Traced, MeantExist, OnlyUnclean;
      var made := Link(source.name, destination);
      if made.Raised? {
        return false, Raised(made.error);
      }
      if !disturbed {
        AddThenRemove(old(root), destination, made.value);
      }
      linked := true;
      r := Verify(destination, source.inode);
    }

    /** Unlink every entry of a list, carrying on after failures; perhaps close a descriptor each. */
    method UnlinkAll(entries: seq<Entry>, descriptorsToo: bool) returns (clean: bool)
      requires Valid() && Accounted(log, quarantine) && Traced(log)
      requires forall e | e in entries :: exists n :: Created(n, e.inode) in log
      requires descriptorsToo ==> Handles(entries) <= open
      modifies this
      ensures Valid() && Accounted(log, quarantine) && Traced(log)
      ensures old(data).Keys <= data.Keys && Within(old(quarantine), quarantine)
      ensures if descriptorsToo then Plus(open, Handles(entries)) == old(open) else open == old(open)
      ensures Grown(old(log), log) && WithdrewOnly(old(log), log, entries)
      ensures descriptorsToo && MeantExist(old(log)) ==> MeantExist(log)
      ensures Spoiled(old(trouble), trouble, !clean)
      ensures !disturbed ==> data == old(data) && Within(root, old(root))
      ensures !disturbed ==> forall n | n in old(root) && n !in root :: NamedBy(entries, n)
      ensures !disturbed && clean ==> quarantine == old(quarantine) && forall n | NamedBy(entries, n) :: n !in root
      ensures !disturbed && !faulty ==>
        AllAt(entries, old(root)) && DistinctNames(entries) ==> clean
    {
      hide Anchor.Valid, Unique, With, Less, Plus, Minus, Accounted, Traced, MeantExist, WithdrewOnly, Handles, Spoiled;
      clean := true;
      SpoiledOnce(trouble);
      NoHandles(open);
      WithdrewNothing(log, entries);
      for k := 0 to |entries|
        invariant Valid() && Accounted(log, quarantine) && Traced(log)
        invariant old(data).Keys <= data.Keys && Within(old(quarantine), quarantine)
        invariant if descriptorsToo then Plus(open, Handles(entries[..k])) == old(open) else open == old(open)
        invariant Grown(old(log), log) && WithdrewOnly(old(log), log, entries)
        invariant descriptorsToo && MeantExist(old(log)) ==> MeantExist(log)
        invariant Spoiled(old(trouble), trouble, !clean)
        invariant !disturbed ==> data == old(data) && Within(root, old(root))
        invariant !disturbed ==> forall n | n in old(root) && n !in root :: NamedBy(entries[..k], n)
        invariant !disturbed && clean ==> quarantine == old(quarantine) && forall e | e in entries[..k] :: e.name !in root
        invariant !disturbed && !faulty ==>
          AllAt(entries, old(root)) && DistinctNames(entries) ==> clean
      {
        assert entries[k] in entries;
        ghost var before, told, cleanBefore := log, trouble, clean;
        if descriptorsToo {
          OneMoreOpen(open, old(open), entries, k);
        }
        var removed := UnlinkExpected(entries[k].name, entries[k].inode);
        if removed.Raised? {
          clean := false;
        }
        WithdrewOne(old(log), before, log, entries, k);
        if descriptorsToo {
          ghost var removal := trouble;
          var closeFailed := Close(entries[k].inode, true);
          if closeFailed {
            clean := false;
          }
          SpoiledOnce(removal);
          SpoiledMore(told, removal, trouble);
        }
        SpoiledMore(old(trouble), told, trouble);
        assert entries[..k + 1] == entries[..k] + [entries[k]];
      }
      assert entries[..|entries|] == entries;
    }

    /** Create both temporary files; after a failure `temporary` lists the one that is there. */
    method CreateBoth(contentName: Name, content: seq<byte>, sidecarName: Name, sidecar: seq<byte>)
      returns (temporary: seq<Entry>, r: Outcome<()>)
      requires Valid() && Accounted(log, quarantine) && Traced(log)
      requires contentName != sidecarName
      modifies this
      ensures Valid() && Accounted(log, quarantine) && Traced(log)
      ensures old(data).Keys <= data.Keys && Within(old(quarantine), quarantine) && Grown(old(log), log)
      ensures |temporary| <= 2 && (r.Ok? ==> |temporary| == 2)
      ensures open == Plus(old(open), Handles(temporary)) && (MeantExist(old(log)) ==> MeantExist(log))
      ensures r.Raised? ==> r.error in {Collision, Storage, Cleanup}
      ensures if r.Ok? then trouble == old(trouble) else Told(old(trouble), trouble, r.error)
      ensures r == Raised(Collision) ==>
        && trouble != [] && trouble[|trouble| - 1] in {Taken(contentName), Taken(sidecarName)}
        && (!disturbed ==> contentName in old(root) || sidecarName in old(root))
      ensures forall e | e in temporary :: e.inode.File? && Created(e.name, e.inode) in log
      ensures |temporary| > 0 ==> temporary[0].name == contentName
      ensures |temporary| > 1 ==> temporary[1].name == sidecarName
      ensures !disturbed ==> Kept(old(data), data) && Within(old(root), root)
      ensures !disturbed ==> NoneNamed(temporary, old(root)) && AllAt(temporary, root)
      ensures !disturbed && |temporary| > 0 ==> NewWith(old(data), data, temporary[0].inode, content)
      ensures !disturbed && |temporary| > 1 ==> NewWith(old(data), data, temporary[1].inode, sidecar)
      ensures !disturbed && (r.Ok? || r.error != Cleanup) ==>
        quarantine == old(quarantine) && AddsOnly(old(root), root, temporary)
      ensures !disturbed && !faulty && contentName !in old(root) && sidecarName !in old(root) ==> r.Ok?
    {
      hide Anchor.Valid, Unique, With, Less, Plus, Minus, Accounted, Traced, MeantExist, NoneNamed, AddsOnly, Handles;
      NoHandles(open);
      temporary := [];
      var first := CreateTemporary(contentName, content);
      if first.Raised? {
        EmptyIsFine(old(root), root);
        return temporary, Raised(first.error);
      }
      var entry := Entry(contentName, first.value);
      temporary := [entry];
      OpenedBoth(old(open), entry, entry);
      ghost var middle := root;
      if !disturbed {
        OneLinked(old(root), middle, entry, true);
      }
      var second := CreateTemporary(sidecarName, sidecar);
      if second.Raised? {
        return temporary, Raised(second.error);
      }
      temporary := [entry, Entry(sidecarName, second.value)];
      OpenedBoth(old(open), entry, temporary[1]);
      if !disturbed {
        TwoLinked(old(root), root, entry, temporary[1], true);
      }
      r := Ok(());
    }

    /** Publish the content and then the sidecar; `published` lists the links that were made. */
    method PublishBoth(content: Entry, sidecar: Entry, contentName: Name, sidecarName: Name, ghost token: string)
      returns (published: seq<Entry>, r: Outcome<()>)
      requires content.name == TemporaryName(token, ".blob.tmp") && sidecar.name == TemporaryName(token, ".metadata.tmp")
      requires Valid() && Accounted(log, quarantine) && Traced(log)
      requires content.inode.File? && Created(content.name, content.inode) in log
      requires sidecar.inode.File? && Created(sidecar.name, sidecar.inode) in log
      requires content.inode in open && sidecar.inode in open
      requires !disturbed ==> AllAt([content, sidecar], root)
      modifies this
      ensures Valid() && Accounted(log, quarantine) && Traced(log)
      ensures old(data).Keys <= data.Keys && Within(old(quarantine), quarantine) && Grown(old(log), log)
      ensures open == old(open) && (MeantExist(old(log)) ==> MeantExist(log))
      ensures r.Raised? ==> r.error in {Collision, Storage, InvalidUri, Cleanup}
      ensures if r.Ok? then trouble == old(trouble) else Told(old(trouble), trouble, r.error)
      ensures r == Raised(Collision) ==>
        && trouble != [] && trouble[|trouble| - 1] in {Taken(contentName), Taken(sidecarName)}
        && (!disturbed ==> contentName in old(root) || sidecarName in old(root) || contentName == sidecarName)
      ensures var first, second := Entry(contentName, content.inode), Entry(sidecarName, sidecar.inode);
        published == [] || published == [first] || published == [first, second]
      ensures r.Ok? ==> |published| == 2
      ensures r.Ok? ==> Confirmed(contentName, sidecarName, log)
      ensures !disturbed ==> data == old(data) && Within(old(root), root)
      ensures !disturbed ==> NoneNamed(published, old(root)) && AddsOnly(old(root), root, published)
      ensures !disturbed && r.Ok? ==> contentName != sidecarName && AllAt(published, root)
      ensures !disturbed && (r.Ok? || r.error != Cleanup) ==> quarantine == old(quarantine)
      ensures !disturbed && !faulty && contentName != sidecarName ==>
        && r == (if contentName in old(root) || sidecarName in old(root) then Raised(Collision) else Ok(()))
        && AllAt(published, root)
        && (contentName !in old(root) ==> published != [])
    {
      hide Anchor.Valid, Unique, With, Less, Plus, Minus, Accounted, Traced, MeantExist, NoneNamed, AddsOnly, Confirmed, TemporaryName;
      published := [];
      var first, second := Entry(contentName, content.inode), Entry(sidecarName, sidecar.inode);
      assert content in [content, sidecar] && sidecar in [content, sidecar];
      var linked: bool;
      linked, r := Publish(content, contentName);
      ghost var middle := root;
      if linked {
        published := [first];
      }
      if !disturbed {
        OneLinked(old(root), middle, first, linked);
      }
      if r.Raised? {
        return;
      }
      linked, r := Publish(sidecar, sidecarName);
      if !disturbed {
        TwoLinked(old(root), root, first, second, linked);
      }
      if linked {
        published := [first, second];
      }
      if r.Ok? {
        IsConfirmed(token, content.inode, sidecar.inode, contentName, sidecarName, log);
      }
    }

    /** Everything `write_pair` does before its cleanup; `staged` is the root with the temporaries in it. */
    method StageAndPublish(contentName: Name, content: seq<byte>, sidecarName: Name, sidecar: seq<byte>)
      returns (temporary: seq<Entry>, published: seq<Entry>, r: Outcome<()>, ghost staged: map<Name, Inode>)
      requires Valid() && Accounted(log, quarantine) && Traced(log)
      modifies this
      ensures Valid() && Accounted(log, quarantine) && Traced(log)
      ensures old(data).Keys <= data.Keys && Within(old(quarantine), quarantine)
      ensures open == Plus(old(open), Handles(temporary)) && (MeantExist(old(log)) ==> MeantExist(log))
      ensures |temporary| <= 2 && |published| <= 2
      ensures forall e | e in published :: e.name == contentName || e.name == sidecarName
      ensures forall e | e in temporary + published :: exists n :: Created(n, e.inode) in log
      ensures r.Raised? ==> r.error in {AlreadyExists, Storage, InvalidUri, Cleanup}
      ensures if r.Ok? then trouble == old(trouble) else Told(old(trouble), trouble, r.error)
      ensures r == Raised(AlreadyExists) ==>
        && LastTaken(trouble, contentName, sidecarName)
        && (!disturbed ==> SomeTaken(contentName, sidecarName, old(root)))
      ensures r.Ok? ==> Confirmed(contentName, sidecarName, log)
      ensures !disturbed ==> Kept(old(data), data) && Within(old(root), staged) && Within(staged, root)
      ensures published != [] ==> |temporary| == 2 && published[0].inode == temporary[0].inode
      ensures !disturbed && temporary != [] ==> temporary[0].inode !in old(data)
      ensures !disturbed ==> NoneNamed(temporary, old(root)) && AllAt(temporary, staged) && NoneNamed(published, staged)
      ensures !disturbed && (r.Ok? || r.error != Cleanup) ==>
        quarantine == old(quarantine) && AddsOnly(old(root), staged, temporary) && AddsOnly(staged, root, published)
      ensures !disturbed && r.Ok? ==>
        && |temporary| == |published| == 2 && AllAt(published, root) && contentName != sidecarName
        && published[0].name == contentName && published[1].name == sidecarName
        && NewWith(old(data), data, published[0].inode, content) && NewWith(old(data), data, published[1].inode, sidecar)
      ensures !disturbed && !faulty && PlainNames(contentName, sidecarName, old(root)) ==>
        && r == (if contentName in old(root) || sidecarName in old(root) then Raised(AlreadyExists) else Ok(()))
        && AllAt(temporary + published, root) && DistinctNames(temporary + published)
        && (contentName !in old(root) ==> published != [] && published[0].name == contentName)
    {
      hide Anchor.Valid, Unique, With, Less, Plus, Minus, Confirmed, Accounted, Traced, MeantExist, Handles, AddsOnly, NoneNamed, AllAt;
      hide Told, LastTaken, SomeTaken, Kept, IsTemporary, DistinctNames, PlainNames;
      var token: string := *;
      var stagedContent, stagedSidecar := TemporaryName(token, ".blob.tmp"), TemporaryName(token, ".metadata.tmp");
      assert |stagedContent| != |stagedSidecar| && IsTemporary(stagedContent) && IsTemporary(stagedSidecar);
      temporary, r := CreateBoth(stagedContent, content, stagedSidecar, sidecar);
      published, staged := [], root;
      EmptyIsFine(root, root);
      if r.Ok? {
        assert temporary == [temporary[0], temporary[1]];
        OpenedBoth(old(open), temporary[0], temporary[1]);
        assert temporary[0] in temporary && temporary[1] in temporary;
        published, r := PublishBoth(temporary[0], temporary[1], contentName, sidecarName, token);
      }
      CollisionTold(old(trouble), trouble, contentName, sidecarName);
      BothCreated(temporary, published, log);
      if !disturbed {
        FinalTaken(old(root), staged, temporary, contentName, sidecarName);
        AllTogether(temporary, published, staged, root);
        PlainStaged(old(root), staged, temporary, published, contentName, sidecarName);
      }
      r := if r == Raised(Collision) then Raised(AlreadyExists) else r;
    }

    /** The cleanup that ends every publication: temporary files go, and after a failure all goes. */
    method Conclude(temporary: seq<Entry>, published: seq<Entry>, primary: Outcome<()>) returns (r: Outcome<()>)
      requires Valid() && Accounted(log, quarantine) && Traced(log)
      requires forall e | e in temporary + published :: exists n :: Created(n, e.inode) in log
      requires Handles(temporary) <= open && |published| <= 2
      modifies this
      ensures Valid() && Accounted(log, quarantine) && Traced(log)
      ensures old(data).Keys <= data.Keys && Within(old(quarantine), quarantine)
      ensures Plus(open, Handles(temporary)) == old(open)
      ensures MeantExist(old(log)) ==> (r.Ok? ==> MeantExist(log)) && LostOnly(log, published)
      ensures r == primary || r == Raised(Cleanup)
      ensures Spoiled(old(trouble), trouble, trouble != old(trouble)) && r == if trouble == old(trouble) then primary else Raised(Cleanup)
      ensures Grown(old(log), log)
      ensures !disturbed ==> data == old(data) && Within(root, old(root))
      ensures !disturbed ==> forall n | n in old(root) && n !in root :: NamedBy(temporary, n) || NamedBy(published, n)
      ensures !disturbed && (r.Ok? || r.error != Cleanup) ==>
        && quarantine == old(quarantine)
        && (forall n | NamedBy(temporary, n) :: n !in root)
        && (r.Raised? ==> forall n | NamedBy(published, n) :: n !in root)
      ensures !disturbed && r.Ok? ==> forall n | n in old(root) && n !in root :: NamedBy(temporary, n)
      ensures !disturbed && !faulty ==>
        AllAt(temporary + published, old(root)) && DistinctNames(temporary + published) ==> r == primary
    {
      hide Anchor.Valid, Unique, With, Less, Plus, Minus, Accounted, Traced, MeantExist, Handles, WithdrewOnly, LostOnly;
      assert forall e | e in temporary :: e in temporary + published;
      assert forall e | e in published :: e in temporary + published;
      var clean := UnlinkAll(temporary, true);
      ghost var middle := log;
      if primary.Raised? || !clean {
        if !disturbed && !faulty && AllAt(temporary + published, old(root)) && DistinctNames(temporary + published) {
          DistinctParts(temporary, published);
        }
        var withdrawn := UnlinkAll(Reversed(published), false);
        WithdrewReversed(middle, log, published);
        clean := clean && withdrawn;
      } else {
        assert !disturbed ==> forall n | n in old(root) && n !in root :: NamedBy(temporary, n);
        WithdrewNothing(log, published);
      }
      if MeantExist(middle) {
        LostAfter(middle, log, published);
      }
      r := if !clean then Raised(Cleanup) else primary;
    }

    /**
     Store the two files under their final names, or leave no trace.  The first group of
     clauses holds whatever other processes do; the second when they leave the root alone.
     */
    method WritePair(contentName: Name, content: seq<byte>, sidecarName: Name, sidecar: seq<byte>) returns (r: Outcome<()>)
      requires Valid()
      modifies this
      ensures Valid() && open == old(open)
      ensures r.Raised? ==> r.error in {Storage, InvalidUri, AlreadyExists, Cleanup}
      ensures r.Ok? <==> trouble == []
      ensures r == Raised(AlreadyExists) <==> trouble != [] && trouble[|trouble| - 1].Taken?
      ensures r == Raised(InvalidUri) <==> trouble != [] && trouble[|trouble| - 1].Irregular?
      ensures r == Raised(Cleanup) <==> trouble != [] && trouble[|trouble| - 1] == Unclean
      ensures r == Raised(Storage) <==> trouble != [] && (trouble[|trouble| - 1] == Refused || trouble[|trouble| - 1].Absent?)
      ensures r == Raised(AlreadyExists) ==>
        var name := trouble[|trouble| - 1].name; name == contentName || name == sidecarName || IsTemporary(name)
      ensures Traced(log) && Accounted(log, quarantine) && Within(old(quarantine), quarantine)
      ensures FindsMeant(log) <==> MeantExist(log)
      ensures r.Ok? ==> MeantExist(log) && DestroysOnlyCreated(log)
      ensures forall n, m, i, l | Withdrew(n, m, i, l) in log && m !in l :: n == contentName || n == sidecarName
      ensures r.Ok? ==> Confirmed(contentName, sidecarName, log)

      ensures !disturbed ==> Within(old(root), root) && Kept(old(data), data)
      ensures !disturbed && r.Ok? ==>
        && contentName !in old(root) && sidecarName !in old(root) && contentName != sidecarName
        && contentName in root && sidecarName in root && root[contentName] in data && root[sidecarName] in data
        && root == old(root)[contentName := root[contentName]][sidecarName := root[sidecarName]]
        && root[contentName] !in old(data) && root[contentName].File? && data[root[contentName]] == content
        && root[sidecarName] !in old(data) && root[sidecarName].File? && data[root[sidecarName]] == sidecar
      ensures !disturbed && (r.Ok? || r.error != Cleanup) ==> quarantine == old(quarantine)
      ensures !disturbed && r.Raised? && r.error != Cleanup ==> root == old(root)
      ensures !disturbed && r == Raised(AlreadyExists) ==>
        || contentName in old(root) || sidecarName in old(root) || contentName == sidecarName
        || IsTemporary(contentName) || IsTemporary(sidecarName) || exists n | n in old(root) :: IsTemporary(n)
      ensures !disturbed && !faulty && PlainNames(contentName, sidecarName, old(root)) ==>
        if contentName in old(root) || sidecarName in old(root) then r == Raised(AlreadyExists) else r.Ok?
    {
      hide Anchor.Valid, Unique, With, Less, Plus, Minus, Accounted, Traced, MeantExist, FindsMeant, Confirmed, Handles, LostOnly, Grown;
      var checked := Begin();
      NothingYet(quarantine);
      if checked.Raised? {
        LostNames([], contentName, sidecarName, log);
        FindsMeantIff(log);
        return checked;
      }
      var temporary, published, primary, staged := StageAndPublish(contentName, content, sidecarName, sidecar);
      ghost var linked, before := root, log;
      OpenedAll(old(open), Handles(temporary));
      r := Conclude(temporary, published, primary);
      Cancel(open, old(open), Handles(temporary));
      if r.Ok? {
        ConfirmedStays(contentName, sidecarName, before, log);
      }
      LostNames(published, contentName, sidecarName, log);
      FindsMeantIff(log);
      if !disturbed {
        OldNamesStay(old(root), staged, linked, root, temporary, published);
        if r.Ok? {
          WholePair(old(root), staged, linked, root, temporary, published);
        } else if r.error != Cleanup {
          NoTrace(old(root), staged, linked, root, temporary, published);
        }
      }
    }

    // --- removal ---

    /** Open one half and check its status; a descriptor whose check fails is closed again. */
    method OpenHalf(name: Name) returns (r: Outcome<Inode>)
      requires Valid()
      modifies this
      ensures Valid() && quarantine == old(quarantine) && old(data).Keys <= data.Keys
      ensures open == if r.Ok? then With(old(open), r.value) else old(open)
      ensures r.Ok? ==> r.value.File?
      ensures r.Raised? ==> r.error in {Missing, InvalidUri, Storage}
      ensures r.Ok? ==> trouble == old(trouble)
      ensures r == Raised(Missing) ==> trouble == old(trouble) + [Absent(name)]
      ensures r == Raised(InvalidUri) ==> trouble == old(trouble) + [Irregular(name)]
      ensures r == Raised(Storage) ==> old(trouble) <= trouble && |old(trouble)| < |trouble| && trouble[|trouble| - 1] == Refused
      ensures r == Raised(Missing) ==> log == old(log)
      ensures r.Ok? ==> log == old(log) + [Opened(name, r.value)]
      ensures log == old(log) || exists i :: log == old(log) + [Opened(name, i)]
      ensures !disturbed ==> root == old(root) && data == old(data)
      ensures !disturbed && r.Ok? ==> name in root && root[name] == r.value
      ensures !disturbed && r == Raised(Missing) ==> name !in root
      ensures !disturbed && !faulty && (name in root ==> root[name].File?) ==>
        if name in root then r.Ok? else r == Raised(Missing)
    {
      hide Anchor.Valid, Unique, With, Less, Plus, Minus;
      r := OpenExisting(name);
      var statFailed := Fails();
      if r.Ok? && statFailed {
        OpenedOne(old(open), r.value);
        trouble := trouble + [Refused];
        var _ := Close(r.value, false);
        r := Raised(Storage);
      }
    }

    /** Close the half that was opened before, if there is one; that may fail too. */
    method GiveUpHalf(entries: seq<Entry>, error: Error, ghost before: multiset<Inode>) returns (e: Error)
      requires Valid() && |entries| <= 1 && open == Plus(before, Handles(entries)) && trouble != []
      modifies this`open, this`trouble
      ensures Valid() && open == before && old(trouble) <= trouble
      ensures if trouble == old(trouble) then e == error else e == Storage && trouble[|trouble| - 1] == Refused && faulty
    {
      hide Anchor.Valid, With, Less, Plus, Handles;
      e := error;
      NoHandles(before);
      if entries != [] {
        assert entries == [entries[0]];
        OpenedBoth(before, entries[0], entries[0]);
        OpenedOne(before, entries[0].inode);
        var closeFailed := Close(entries[0].inode, false);
        e := if closeFailed then Storage else error;
      }
    }

    /** Open whichever halves exist; any other failure closes what was opened. */
    method OpenHalves(names: seq<Name>) returns (entries: seq<Entry>, r: Outcome<()>)
      requires Valid() && log == [] && |names| == 2
      modifies this
      ensures Valid() && old(data).Keys <= data.Keys && quarantine == old(quarantine)
      ensures open == if r.Ok? then Plus(old(open), Handles(entries)) else old(open)
      ensures r.Raised? ==> r.error in {InvalidUri, Storage}
      ensures r.Raised? ==> old(trouble) <= trouble && |old(trouble)| < |trouble|
      ensures r == Raised(InvalidUri) ==> trouble[|trouble| - 1].Irregular?
      ensures r == Raised(Storage) ==> trouble[|trouble| - 1] == Refused
      ensures r.Ok? ==> Missed(old(trouble), trouble, names, entries)
      ensures |entries| <= 2 && |log| <= 2
      ensures forall e | e in entries :: e.inode.File? && Opened(e.name, e.inode) in log
      ensures forall v | v in log :: v.Opened? && (r.Ok? ==> Entry(v.name, v.inode) in entries)
      ensures forall e | e in entries :: e.name in names
      ensures names[0] != names[1] ==> DistinctNames(entries)
      ensures !disturbed ==> root == old(root) && data == old(data) && (r.Ok? ==> Found(entries, names, root))
      ensures !disturbed && !faulty && (forall n | n in names && n in old(root) :: old(root)[n].File?) ==> r.Ok?
    {
      hide Anchor.Valid, Unique, With, Less, Plus, Minus, Handles;
      hide Found, Missed, DistinctNames;
      NoHandles(open);
      NothingFound(root);
      NothingMissed(trouble);
      entries := [];
      for k := 0 to 2
        invariant Valid() && old(data).Keys <= data.Keys && quarantine == old(quarantine)
        invariant open == Plus(old(open), Handles(entries)) && |entries| <= k && |log| <= k
        invariant Missed(old(trouble), trouble, names[..k], entries)
        invariant forall e | e in entries :: e.inode.File? && Opened(e.name, e.inode) in log
        invariant forall v | v in log :: v.Opened? && Entry(v.name, v.inode) in entries
        invariant |entries| == 2 ==> entries[0].name == names[0] && entries[1].name == names[1]
        invariant |entries| == 1 ==> entries[0].name in names[..k]
        invariant !disturbed ==> root == old(root) && data == old(data) && Found(entries, names[..k], root)
      {
        MissedOne(old(trouble), trouble, names[..k], entries, names[k]);
        var opening := OpenHalf(names[k]);
        if !disturbed {
          FoundMore(entries, names[..k], root, names[k]);
        }
        if opening.Ok? {
          OpenedMore(old(open), entries, Entry(names[k], opening.value));
          entries := entries + [Entry(names[k], opening.value)];
          assert entries[|entries| - 1] in entries;
        } else if opening.error != Missing {
          TwoDistinct([]);
          var error := GiveUpHalf(entries, opening.error, old(open));
          return [], Raised(error);
        }
        assert names[..k + 1] == names[..k] + [names[k]];
      }
      assert names[..2] == names && (!disturbed ==> Found(entries, names, root));
      TwoDistinct(entries);
      r := Ok(());
    }

    /** Put taken halves back under their names, the last first; failures are swallowed. */
    method RestoreAll(taken: seq<Quarantined>, ghost before: map<Name, Inode>)
      requires Valid() && Accounted(log, quarantine) && Held(taken, quarantine, log)
      requires Away(taken, log) && (!disturbed ==> Tracks(before, root, log))
      requires HeldHandles(taken) <= open
      modifies this
      decreases |taken|
      ensures Valid() && Accounted(log, quarantine) && old(data).Keys <= data.Keys
      ensures open == Minus(old(open), HeldHandles(taken))
      ensures old(log) <= log && OnlyRestoredSince(old(log), log) && RestoredOnly(taken, old(log), log)
      ensures !disturbed ==> Tracks(before, root, log)
      ensures Within(quarantine, old(quarantine)) && OnlyUnclean(old(trouble), trouble)
      ensures forall s | s in old(quarantine) && s !in quarantine :: SlotOf(taken, s)
      ensures !disturbed ==> data == old(data) && PutBack(taken, old(root), root)
    {
      hide Anchor.Valid, Unique, With, Less, Plus, Minus, HeldHandles;
      NoHandles(open);
      NothingPutBack(taken, log);
      SpoiledOnce(trouble);
      if taken == [] {
        return;
      }
      var last, rest := taken[|taken| - 1], taken[..|taken| - 1];
      assert taken == rest + [last];
      ClosedOne(open, taken, last, rest);
      assert last in taken && taken == rest + [last];
      AccountedAfterRestore(last.slot, last.original, log, quarantine);
      AwayParts(taken, rest, [last], log);
      if !disturbed {
        TracksRestore(last, before, root, log);
      }
      var restoring := RestoreQuarantined(last);
      ghost var q1, log1, root1, told := quarantine, log, root, trouble;
      SpoiledIs(old(trouble), told, restoring.Raised?);
      HeldRest(taken, |taken| - 1, old(quarantine), old(log), q1, log1);
      AwayStays(rest, old(log), log1);
      hide Held, SlotOf, Accounted, OnlyRestoredSince, PutBack, Within, Away, Tracks, RestoredOnly, OnlyUnclean, Spoiled;
      RestoreAll(rest, before);
      SpoiledMore(old(trouble), told, trouble);
      RestoredOneMore(taken, last, rest, old(log), log1, log);
      RestoreStep(taken, last, rest, old(quarantine), q1, quarantine, old(log), log1, log);
      if !disturbed {
        PutBackStep(taken, last, rest, old(root), root1, root);
      }
    }

    /** Destroy the taken halves in order; after a failure the rest is put back. */
    method CommitAll(taken: seq<Quarantined>, ghost before: map<Name, Inode>) returns (clean: bool)
      requires Valid() && Accounted(log, quarantine) && Held(taken, quarantine, log)
      requires Away(taken, log) && (!disturbed ==> Tracks(before, root, log))
      requires HeldHandles(taken) <= open
      modifies this
      decreases |taken|
      ensures Valid() && Accounted(log, quarantine) && old(data).Keys <= data.Keys
      ensures open == Minus(old(open), HeldHandles(taken))
      ensures old(log) <= log
      ensures GoneFrom(taken, clean, old(quarantine), quarantine, old(log), log)
      ensures !disturbed ==> Tracks(before, root, log)
      ensures !clean ==> faulty
      ensures Spoiled(old(trouble), trouble, !clean)
      ensures !disturbed ==> data == old(data) && PutBack(taken, old(root), root)
      ensures !disturbed && clean ==> root == old(root)
    {
      hide Anchor.Valid, Unique, With, Less, Plus, Minus, HeldHandles;
      NoHandles(open);
      SpoiledOnce(trouble);
      if taken == [] {
        return true;
      }
      var rest := taken[1..];
      ClosedOne(open, taken, taken[0], rest);
      assert taken[0] in taken;
      AccountedAfterCommit(taken[0].slot, log, quarantine);
      var committed := CommitQuarantined(taken[0]);
      ghost var q1, log1, told := quarantine, log, trouble;
      HeldRest(taken, 0, old(quarantine), old(log), q1, log1);
      AwayParts(taken, [taken[0]], rest, old(log));
      AwayStays(rest, old(log), log1);
      TracksNote(Destroyed(taken[0].slot, taken[0].identity), before, root, old(log), []);
      hide Accounted, Held, PutBack, Away, Tracks, Spoiled, OnlyUnclean;
      if committed.Raised? {
        RestoreAll(rest, before);
        clean := false;
        RestoredIsGone(rest, q1, quarantine, log1, log);
      } else {
        clean := CommitAll(rest, before);
      }
      SpoiledMore(old(trouble), told, trouble);
      GoneStep(taken, clean, old(quarantine), q1, quarantine, old(log), log1, log);
      if !disturbed {
        PutBackMore(taken, old(root), root);
      }
    }

    /** Move one opened half into the quarantine; a half that is gone already is no failure. */
    method TakeOne(entry: Entry, ghost before: map<Name, Inode>) returns (taken: seq<Quarantined>, failed: bool)
      requires Valid() && Accounted(log, quarantine) && MovedStay(log, quarantine) && entry.inode in open
      requires Unmoved(entry.name, log) && (!disturbed ==> Tracks(before, root, log))
      modifies this
      ensures Valid() && Accounted(log, quarantine) && old(data).Keys <= data.Keys
      ensures open == Plus(old(open), HeldHandles(taken)) && Spoiled(old(trouble), trouble, failed)
      ensures Took([entry], taken, failed, old(quarantine), quarantine, old(log), log)
      ensures About([entry], old(log), log) && Away(taken, log) && |taken| <= 1 && forall t | t in taken :: t.original == entry.name
      ensures !disturbed ==> Tracks(before, root, log)
      ensures !disturbed ==> data == old(data) && TookFrom([entry], taken, failed, old(root), root)
      ensures !disturbed && !faulty && AllAt([entry], old(root)) && DistinctNames([entry]) ==> !failed && TookEach([entry], taken)
    {
      hide Anchor.Valid, Unique, With, Less, Plus, Minus, Accounted, MovedStay, Took, FailedAttempt, HeldHandles;
      hide Unmoved, Tracks, About, StuckInStep, Spoiled;
      NoHandles(open);
      taken, failed := [], false;
      var q := QuarantineExpected(entry.name, entry.inode);
      if q.Ok? {
        TookOne(entry, q.value.slot, old(quarantine), old(log));
        MovedAway(entry.name, q.value.slot, entry.inode, before, old(root), old(log));
        taken := [q.value];
        TakenOne(old(open), q.value);
      } else if q.error == Missing {
        TookMissing(entry, old(quarantine), old(log));
        TracksNote(Vanished(entry.name), before, root, old(log), [entry]);
      } else {
        TookNothing(entry, old(quarantine), quarantine, old(log), log);
        AboutAttempt(entry, old(quarantine), quarantine, old(log), log);
        if !disturbed {
          TracksStuck(entry, before, old(root), root, old(log), log);
        }
        failed := true;
      }
    }

    /** Move every opened half into the quarantine, or put all of them back, the last first. */
    method TakeAll(entries: seq<Entry>, ghost before: map<Name, Inode>) returns (taken: seq<Quarantined>, failed: bool)
      requires Valid() && Accounted(log, quarantine) && MovedStay(log, quarantine)
      requires forall e | e in entries :: e.inode in open && Unmoved(e.name, log)
      requires DistinctNames(entries) && (!disturbed ==> Tracks(before, root, log))
      modifies this
      decreases |entries|
      ensures Valid() && Accounted(log, quarantine) && old(data).Keys <= data.Keys
      ensures open == Plus(old(open), HeldHandles(taken)) && Spoiled(old(trouble), trouble, failed)
      ensures Took(entries, taken, failed, old(quarantine), quarantine, old(log), log)
      ensures About(entries, old(log), log) && Away(taken, log)
      ensures !disturbed ==> Tracks(before, root, log)
      ensures !disturbed ==> data == old(data) && TookFrom(entries, taken, failed, old(root), root)
      ensures !disturbed && !faulty && AllAt(entries, old(root)) ==> !failed && TookEach(entries, taken)
    {
      hide Anchor.Valid, Unique, With, Less, Plus, Minus, HeldHandles, Spoiled, OnlyUnclean, Took, TookFrom, TookEach;
      hide Accounted, Held, AllAt, DistinctNames, MovedStay, About, Away, Tracks, Unmoved, NamedBy;
      NothingTook(quarantine, root, log);
      NoHandles(open);
      AboutOnly(entries, log);
      SpoiledOnce(trouble);
      taken, failed := [], false;
      if entries == [] {
        return;
      }
      var rest := entries[1..];
      assert entries == [entries[0]] + rest && entries[0] in entries && forall e | e in rest :: e in entries;
      var first: seq<Quarantined>;
      OthersDiffer(entries);
      FirstOfAll(entries, old(root));
      first, failed := TakeOne(entries[0], before);
      UnmovedStays([entries[0]], rest, old(log), log);
      ghost var q1, log1, root1, told := quarantine, log, root, trouble;
      if failed {
        NothingLeftTaken([entries[0]], first, old(quarantine), q1, old(log), log1);
        TookPart(entries, old(quarantine), q1, old(log), log1);
        AboutOnly(rest, log1);
        AboutBoth(entries, old(log), log1, log1);
        if !disturbed {
          TookFromPart(entries, old(root), root1);
        }
        return;
      }
      TookStays([entries[0]], first, old(quarantine), q1, old(log), log1);
      if !disturbed {
        RestStillThere(entries, first, old(root), root1);
      }
      OpenedAll(old(open), HeldHandles(first));
      taken, failed := TakeAll(rest, before);
      ghost var q2, log2, root2, told2 := quarantine, log, root, trouble;
      SpoiledMore(old(trouble), told, told2);
      TakenAreOf([entries[0]], first, false, old(quarantine), q1, old(log), log1);
      TakenAreOf(rest, taken, failed, q1, q2, log1, log2);
      TakenAreNamed(entries, [entries[0]], first);
      TakenAreNamed(entries, rest, taken);
      AboutBoth(entries, old(log), log1, log2);
      AwayTogether(entries, first, taken, log1, log2);
      if failed {
        NothingLeftTaken(rest, taken, q1, q2, log1, log2);
        NoHandles(Plus(old(open), HeldHandles(first)));
        HeldStill(first, rest, q1, q2, log1, log2);
        RestoreAll(first, before);
        NoneAway(log);
        SpoiledMore(old(trouble), told2, trouble);
        AboutUndone(entries, first, old(log), log2, log);
        TookUndone(entries, first, old(quarantine), q1, q2, quarantine, old(log), log1, log2, log);
        if !disturbed {
          TookFromUndone(entries, first, old(root), root1, root2, root);
        }
      } else {
        TookJoin(entries, first, taken, old(quarantine), q1, q2, old(log), log1, log2);
        if !disturbed {
          TookFromJoin(entries, first, taken, old(root), root1, root2);
        }
        TakenTogether(old(open), first, taken);
        if TookEach([entries[0]], first) && TookEach(rest, taken) {
          TookEachJoin(entries, first, taken);
        }
        taken := first + taken;
      }
    }

    /** Close one descriptor of each entry, carrying on after failures. */
    method CloseAll(entries: seq<Entry>) returns (failed: bool)
      requires Valid() && Handles(entries) <= open
      modifies this`open, this`trouble
      ensures Valid() && open == Minus(old(open), Handles(entries))
      ensures failed ==> faulty
      ensures Spoiled(old(trouble), trouble, failed)
    {
      hide Anchor.Valid, Unique, With, Less, Plus, Minus, Handles;
      failed := false;
      SpoiledOnce(trouble);
      NoHandles(open);
      for k := 0 to |entries|
        invariant Valid() && open == Minus(old(open), Handles(entries[..k]))
        invariant failed ==> faulty
        invariant Spoiled(old(trouble), trouble, failed)
      {
        ClosedOneMore(old(open), entries, k);
        ghost var told := trouble;
        var closeFailed := Close(entries[k].inode, true);
        SpoiledOnce(told);
        SpoiledMore(old(trouble), told, trouble);
        failed := failed || closeFailed;
      }
      assert entries[..|entries|] == entries;
    }

    /** Quarantine and destroy the halves that were opened. */
    method RemoveFound(entries: seq<Entry>) returns (r: Outcome<()>)
      requires Valid() && Handles(entries) <= open && DistinctNames(entries)
      requires forall v | v in log :: v.Opened? && Entry(v.name, v.inode) in entries
      requires forall e | e in entries :: Opened(e.name, e.inode) in log
      modifies this
      ensures !disturbed ==> Tracks(old(root), root, log)
      ensures Valid() && open == Minus(old(open), Handles(entries))
      ensures r.Ok? || r == Raised(if entries == [] then Missing else Cleanup)
      ensures if entries == [] then trouble == old(trouble) else Spoiled(old(trouble), trouble, r.Raised?)
      ensures DestroysOnlyOpened(log) && Accounted(log, quarantine) && Within(old(quarantine), quarantine)
      ensures DestroysLast(log)
      ensures r.Ok? ==> entries != []
      ensures r.Ok? || entries == [] ==> quarantine == old(quarantine)
      ensures !disturbed ==> data == old(data)
      ensures !disturbed && AllAt(entries, old(root)) ==>
        && Within(root, old(root)) && (forall n | n in old(root) && n !in root :: NamedBy(entries, n))
        && (r.Ok? ==> NoneNamed(entries, root))
        && (!faulty && entries != [] ==> r.Ok?)
    {
      hide Anchor.Valid, Unique, With, Less, Plus, Minus;
      hide Accounted, Held, DestroysOnlyOpened, DestroysLast, Took, GoneFrom, MovedStay;
      hide TookFrom, PutBack, NoneNamed, NamedBy, AllAt, DistinctNames;
      NoHandles(open);
      OnlyOpenings(log, quarantine);
      TracksFromStart(root, log);
      hide Tracks, Unmoved, About, Away, TookEach;
      if entries == [] {
        return Raised(Missing);
      }
      AllOpen(entries);
      hide Handles, HeldHandles, Spoiled, OnlyUnclean;
      var taken, failed := TakeAll(entries, root);
      ghost var told := trouble;
      OpenedAll(old(open), HeldHandles(taken));
      ghost var held, moved, left := quarantine, log, root;
      if failed {
        TookNone(entries, taken, old(quarantine), quarantine, old(log), log);
        if !disturbed {
          TookNoneFrom(entries, taken, old(root), root);
        }
        var _ := CloseAll(entries);
        SpoiledMore(old(trouble), told, trouble);
        return Raised(Cleanup);
      }
      TookStays(entries, taken, old(quarantine), held, old(log), moved);
      var clean := CommitAll(taken, old(root));
      SpoiledMore(old(trouble), told, trouble);
      told := trouble;
      RemovalBooks(entries, taken, clean, old(quarantine), held, quarantine, old(log), moved, log);
      if !disturbed {
        RemovalRoot(entries, taken, old(root), left, root);
      }
      var closeFailed := CloseAll(entries);
      SpoiledMore(old(trouble), told, trouble);
      r := if clean && !closeFailed then Ok(()) else Raised(Cleanup);
    }

    /**
     Remove the two files.  The first group of clauses holds whatever other processes do; the
     second when they leave the root alone.
     */
    method DeletePair(contentName: Name, sidecarName: Name) returns (r: Outcome<()>)
      requires Valid() && contentName != sidecarName
      modifies this
      ensures Valid() && open == old(open)
      ensures r.Raised? ==> r.error in {Missing, Storage, InvalidUri, Cleanup}
      ensures r.Ok? <==> trouble == [] || trouble == [Absent(contentName)] || trouble == [Absent(sidecarName)]
      ensures r == Raised(Missing) <==> trouble == [Absent(contentName), Absent(sidecarName)]
      ensures r == Raised(InvalidUri) <==> trouble != [] && trouble[|trouble| - 1].Irregular?
      ensures r == Raised(Storage) <==> trouble != [] && trouble[|trouble| - 1] == Refused
      ensures r == Raised(Cleanup) <==> trouble != [] && trouble[|trouble| - 1] == Unclean
      ensures DestroysOnlyOpened(log) && Accounted(log, quarantine) && Within(old(quarantine), quarantine)
      ensures DestroysLast(log)
      ensures r.Ok? || r.error != Cleanup ==> quarantine == old(quarantine)

      ensures !disturbed ==> data == old(data) && Within(root, old(root))
      ensures !disturbed ==> forall n | n in old(root) && n !in root :: n == contentName || n == sidecarName
      ensures !disturbed && r.Ok? ==>
        && (contentName in old(root) || sidecarName in old(root))
        && root == old(root) - {contentName, sidecarName}
      ensures !disturbed ==> Tracks(old(root), root, log)
      ensures !disturbed && r.Raised? && r.error != Cleanup ==> root == old(root)
      ensures !disturbed && r == Raised(Missing) ==> contentName !in root && sidecarName !in root
      ensures !disturbed && !faulty && Regular(old(root)) ==>
        if contentName in old(root) || sidecarName in old(root) then r.Ok? else r == Raised(Missing)
    {
      hide Anchor.Valid, Unique, With, Less, Plus, Minus, Missed, Spoiled, Tracks, Found;
      hide DestroysLast, DestroysOnlyOpened, Accounted, DistinctNames, NamedBy, AllAt, NoneNamed, Handles;
      var checked := Begin();
      TracksFromStart(root, log);
      if checked.Raised? {
        OnlyOpenings(log, quarantine);
        return checked;
      }
      var names := [contentName, sidecarName];
      var entries, found := OpenHalves(names);
      TracksFromStart(root, log);
      if found.Raised? {
        OnlyOpenings(log, quarantine);
        return found;
      }
      if !disturbed {
        BothLooked(entries, contentName, sidecarName, root);
      }
      OpenedAll(old(open), Handles(entries));
      ghost var told := trouble;
      r := RemoveFound(entries);
      DeleteTold(told, trouble, contentName, sidecarName, entries, r);
      if !disturbed {
        PairGone(entries, contentName, sidecarName, old(root), root);
      }
    }

    // --- reading ---

    /** Open both files, or neither. */
    method OpenBoth(contentName: Name, sidecarName: Name) returns (r: Outcome<(Inode, Inode)>)
      requires Valid()
      modifies this
      ensures Valid() && quarantine == old(quarantine)
      ensures open == if r.Ok? then With(With(old(open), r.value.0), r.value.1) else old(open)
      ensures r.Ok? ==> r.value.0 in data && r.value.1 in data
      ensures r.Raised? ==> r.error in {Missing, Storage, InvalidUri}
      ensures if r.Ok? then trouble == old(trouble) else ReadTold(old(trouble), trouble, r.error)
      ensures !disturbed ==> root == old(root) && data == old(data)
      ensures !disturbed && r.Ok? ==>
        && contentName in root && root[contentName] == r.value.0
        && sidecarName in root && root[sidecarName] == r.value.1
      ensures !disturbed && r == Raised(Missing) ==> contentName !in root || sidecarName !in root
      ensures !disturbed && !faulty && Regular(root) ==>
        if contentName in root && sidecarName in root then r.Ok? else r == Raised(Missing)
    {
      hide Anchor.Valid, Unique, With, Less, Plus, Minus;
      var content := OpenExisting(contentName);
      if content.Raised? {
        return Raised(content.error);
      }
      var sidecar := OpenExisting(sidecarName);
      if sidecar.Raised? {
        OpenedOne(old(open), content.value);
        var closeFailed := Close(content.value, false);
        return Raised(if closeFailed then Storage else sidecar.error);
      }
      r := Ok((content.value, sidecar.value));
    }

    /** Both files, each within its limit. */
    method ReadPair(contentName: Name, sidecarName: Name, contentLimit: nat, sidecarLimit: nat)
      returns (r: Outcome<(seq<byte>, seq<byte>)>)
      requires Valid()
      modifies this
      ensures Valid() && open == old(open) && quarantine == old(quarantine)
      ensures r.Raised? ==> r.error in {Missing, Storage, InvalidUri, TooLarge}
      ensures r.Ok? <==> trouble == []
      ensures r == Raised(Missing) <==> trouble != [] && trouble[|trouble| - 1].Absent?
      ensures r == Raised(InvalidUri) <==> trouble != [] && trouble[|trouble| - 1].Irregular?
      ensures r == Raised(TooLarge) <==> trouble != [] && trouble[|trouble| - 1] == TooLong
      ensures r == Raised(Storage) <==> trouble != [] && trouble[|trouble| - 1] == Refused
      ensures r.Ok? ==> |r.value.0| <= contentLimit && |r.value.1| <= sidecarLimit
      ensures !disturbed ==> root == old(root) && data == old(data)
      ensures !disturbed && r.Ok? ==>
        && contentName in root && r.value.0 == data[root[contentName]]
        && sidecarName in root && r.value.1 == data[root[sidecarName]]
      ensures !disturbed && r == Raised(Missing) ==> contentName !in root || sidecarName !in root
      ensures !disturbed && !faulty && Regular(root) ==>
        && (r == Raised(Missing) <==> contentName !in root || sidecarName !in root)
        && (r.Ok? || r.error in {Missing, TooLarge})
        && (contentName in root && sidecarName in root ==>
              |data[root[contentName]]| <= contentLimit && |data[root[sidecarName]]| <= sidecarLimit ==> r.Ok?)
    {
      hide Anchor.Valid, Unique, With, Less, Plus, Minus;
      var checked := Begin();
      if checked.Raised? {
        return Raised(checked.error);
      }
      var opening := OpenBoth(contentName, sidecarName);
      if opening.Raised? {
        return Raised(opening.error);
      }
      r := ReadBoth(opening.value.0, opening.value.1, contentLimit, sidecarLimit);
      OpenedOther(old(open), opening.value.0, opening.value.1);
      var sidecarFailed := Close(opening.value.1, false);
      var contentFailed := Close(opening.value.0, false);
      if sidecarFailed || contentFailed {
        r := Raised(Storage);
      }
    }

    method ReadBoth(content: Inode, sidecar: Inode, contentLimit: nat, sidecarLimit: nat) returns (r: Outcome<(seq<byte>, seq<byte>)>)
      requires Valid() && content in data && sidecar in data
      modifies this`root, this`data, this`alive, this`next, this`trouble
      ensures Valid() && old(data).Keys <= data.Keys
      ensures r.Raised? ==> r.error == TooLarge || (r.error == Storage && faulty)
      ensures trouble == if r.Ok? then old(trouble) else old(trouble) + [if r.error == TooLarge then TooLong else Refused]
      ensures r.Ok? ==> |r.value.0| <= contentLimit && |r.value.1| <= sidecarLimit
      ensures !disturbed ==> root == old(root) && data == old(data)
      ensures !disturbed && r.Ok? ==> r.value == (data[content], data[sidecar])
      ensures !disturbed && r == Raised(TooLarge) ==> |data[content]| > contentLimit || |data[sidecar]| > sidecarLimit
    {
      hide Anchor.Valid, Unique, With, Less, Plus, Minus;
      var first := ReadBounded(content, contentLimit);
      if first.Raised? {
        return Raised(first.error);
      }
      var second := ReadBounded(sidecar, sidecarLimit);
      r := if second.Raised? then Raised(second.error) else Ok((first.value, second.value));
    }

    method Exists(name: Name) returns (r: Outcome<bool>)
      requires Valid()
      modifies this
      ensures Valid() && open == old(open) && quarantine == old(quarantine)
      ensures r.Raised? ==> r.error in {Storage, InvalidUri} && ReadTold(old(trouble), trouble, r.error)
      ensures r.Ok? ==> trouble == if r.value then old(trouble) else old(trouble) + [Absent(name)]
      ensures !disturbed ==> root == old(root) && data == old(data)
      ensures !disturbed && r.Ok? ==> r.value == (name in root)
      ensures !disturbed && !faulty && Regular(root) ==> r.Ok?
    {
      hide Anchor.Valid, Unique, With, Less, Plus, Minus;
      var opening := OpenExisting(name);
      if opening.Raised? {
        return if opening.error == Missing then Ok(false) else Raised(opening.error);
      }
      OpenedOne(old(open), opening.value);
      var closeFailed := Close(opening.value, false);
      r := if closeFailed then Raised(Storage) else Ok(true);
    }

    method PairExists(contentName: Name, sidecarName: Name) returns (r: Outcome<(bool, bool)>)
      requires Valid()
      modifies this
      ensures Valid() && open == old(open) && quarantine == old(quarantine)
      ensures r.Raised? ==> r.error in {Storage, InvalidUri}
      ensures r.Ok? ==> trouble == (if r.value.0 then [] else [Absent(contentName)]) + if r.value.1 then [] else [Absent(sidecarName)]
      ensures r == Raised(InvalidUri) <==> trouble != [] && trouble[|trouble| - 1].Irregular?
      ensures r == Raised(Storage) <==> trouble != [] && trouble[|trouble| - 1] == Refused
      ensures !disturbed ==> root == old(root) && data == old(data)
      ensures !disturbed && r.Ok? ==> r.value == (contentName in root, sidecarName in root)
      ensures !disturbed && !faulty && Regular(root) ==> r.Ok?
    {
      hide Anchor.Valid, Unique, With, Less, Plus, Minus;
      var checked := Begin();
      if checked.Raised? {
        return Raised(checked.error);
      }
      var content := Exists(contentName);
      if content.Raised? {
        return Raised(content.error);
      }
      var sidecar := Exists(sidecarName);
      r := if sidecar.Raised? then Raised(sidecar.error) else Ok((content.value, sidecar.value));
    }
  }

  /** A directory with one file, made by somebody else. */
  method NameTaken() returns (anchor: Anchor)
    ensures fresh(anchor) && anchor.Valid() && !anchor.disturbed && !anchor.faulty
    ensures anchor.quarantine == map[] && anchor.open == multiset{} && anchor.log == []
    ensures anchor.root.Keys == {"s"} && anchor.root["s"] in anchor.data
  {
    hide With, Less;
    anchor := new Anchor(false, false);
    var taken := anchor.OpenNew("s");
    OpenedOne(multiset{}, taken.value);
    var _ := anchor.Close(taken.value, false);
    var _ := anchor.Begin();
  }

  /** Up to the gap: the content is published, the sidecar's name is taken, and the temporary files are gone. */
  method ContentPublished() returns (anchor: Anchor, own: Inode, primary: Outcome<()>)
    ensures fresh(anchor) && anchor.Valid() && !anchor.disturbed && !anchor.faulty
    ensures Accounted(anchor.log, anchor.quarantine) && Traced(anchor.log) && exists n :: Created(n, own) in anchor.log
    ensures anchor.quarantine == map[] && anchor.open == multiset{} && primary == Raised(AlreadyExists)
    ensures "c" in anchor.root && anchor.root["c"] == own && forall n | n in anchor.root && n != "c" :: anchor.root[n] != own
  {
    hide Anchor.Valid, Accounted, Traced, MeantExist, Confirmed, Handles, WithdrewOnly, AddsOnly, NoneNamed, AllAt, DistinctNames, NamedBy;
    hide Plus, Less, With, Minus, Within;
    anchor := NameTaken();
    NothingYet(anchor.quarantine);
    ghost var root0 := anchor.root;
    var temporary, published, raised, staged := anchor.StageAndPublish("c", [1], "s", [2]);
    OpenedAll(multiset{}, Handles(temporary));
    OnlyContent(temporary, published, root0, staged, anchor.root);
    ghost var linked := anchor.root;
    assert forall e | e in temporary :: e in temporary + published;
    var _ := anchor.UnlinkAll(temporary, true);
    Cancel(anchor.open, multiset{}, Handles(temporary));
    OnlyOneLink(temporary, published, root0, staged, linked, anchor.root);
    own, primary := published[0].inode, raised;
  }

  /**
     The gap in `write_pair`: the published content is withdrawn only after the descriptors have
     been closed.  In between another process puts a file of its own in the place of the content
     and gets its number; that file is destroyed.
   */
  method NumberReused() returns (anchor: Anchor, r: Outcome<()>, own: Inode, other: Inode)
    ensures fresh(anchor) && anchor.Valid() && r == Raised(AlreadyExists)
    ensures other.number == own.number && other != own
    ensures exists s, l :: Destroyed(s, other) in anchor.log && Withdrew("c", own, other, l) in anchor.log
    ensures !FindsMeant(anchor.log) && "c" !in anchor.root
  {
    hide Anchor.Valid, Accounted, Traced, MeantExist, WithdrewOnly;
    anchor, own, r := ContentPublished();
    other := anchor.Replace("c");
    var withdrawn := anchor.UnlinkExpected("c", own);
    r := if withdrawn.Ok? then r else Raised(Cleanup);
  }

  /** A pair of files, written by the store itself. */
  method PairWritten() returns (anchor: Anchor)
    ensures fresh(anchor) && anchor.Valid() && !anchor.disturbed && !anchor.faulty
    ensures "c" in anchor.root && "s" in anchor.root && anchor.root["c"].File? && anchor.root["s"].File?
    ensures anchor.log == [] && anchor.open == multiset{}
  {
    hide Anchor.Valid, Accounted, Traced, MeantExist, Confirmed;
    anchor := new Anchor(false, false);
    var written := anchor.WritePair("c", [1], "s", [2]);
    var _ := anchor.Begin();
  }

  /** Both halves opened and in quarantine, and nothing destroyed yet. */
  method PairTaken() returns (anchor: Anchor, taken: seq<Quarantined>, ghost before: map<Name, Inode>)
    ensures fresh(anchor) && anchor.Valid() && !anchor.disturbed && !anchor.faulty
    ensures Held(taken, anchor.quarantine, anchor.log) && HeldHandles(taken) <= anchor.open
    ensures |taken| == 2 && {taken[0].original, taken[1].original} == {"c", "s"}
    ensures "c" in before && "s" in before && "c" !in anchor.root && "s" !in anchor.root
    ensures Tracks(before, anchor.root, anchor.log) && Away(taken, anchor.log)
  {
    hide Anchor.Valid, Accounted, Held, HeldHandles, Handles, Tracks, Away, About, Unmoved, MovedStay, DestroysLast, DestroysOnlyOpened;
    hide Plus, Minus, With, Less, Took, DistinctNames, NoneNamed, Found, AllAt;
    anchor := PairWritten();
    before := anchor.root;
    var entries, found := anchor.OpenHalves(["c", "s"]);
    OnlyOpenings(anchor.log, anchor.quarantine);
    TracksFromStart(before, anchor.log);
    BothFound(entries, before);
    AllOpen(entries);
    OpenedAll(multiset{}, Handles(entries));
    ghost var q0, log0, open0 := anchor.quarantine, anchor.log, anchor.open;
    var failed;
    taken, failed := anchor.TakeAll(entries, before);
    TookStays(entries, taken, q0, anchor.quarantine, log0, anchor.log);
    OpenedAll(open0, HeldHandles(taken));
    NoneLeft(entries, anchor.root);
  }

  lemma NoneLeft(entries: seq<Entry>, root: map<Name, Inode>)
    requires |entries| == 2 && {entries[0].name, entries[1].name} == {"c", "s"} && NoneNamed(entries, root)
    ensures "c" !in root && "s" !in root
  {
    assert entries[0] in entries && entries[1] in entries;
    assert "c" in {entries[0].name, entries[1].name} && "s" in {entries[0].name, entries[1].name};
  }

  lemma BothFound(entries: seq<Entry>, root: map<Name, Inode>)
    requires |entries| <= 2 && Found(entries, ["c", "s"], root) && "c" in root && "s" in root
    requires DistinctNames(entries) && forall e | e in entries :: e.name in ["c", "s"]
    ensures |entries| == 2 && {entries[0].name, entries[1].name} == {"c", "s"} && AllAt(entries, root)
  {
    assert "c" in ["c", "s"] && "s" in ["c", "s"];
    var c :| c in entries && c.name == "c";
    var s :| s in entries && s.name == "s";
  }

  /**
     Half an entry stays: the first half is destroyed, closing its descriptor reports a failure, and
     the code stops and puts the other half back.
   */
  method HalfEntry() returns (anchor: Anchor, r: Outcome<()>, lost: Name, kept: Name)
    ensures fresh(anchor) && anchor.Valid() && r == Raised(Cleanup)
    ensures {lost, kept} == {"c", "s"} && lost !in anchor.root && kept in anchor.root
    ensures !InPlace(lost, anchor.log) && InPlace(kept, anchor.log)
  {
    hide Anchor.Valid, Tracks, Away, InPlace, HeldHandles, Less;
    var taken: seq<Quarantined>;
    ghost var before;
    anchor, taken, before := PairTaken();
    var first, second := taken[0], taken[1];
    lost, kept := first.original, second.original;
    assert first in taken && second in taken && taken == [first] + [second];
    ClosedOne(anchor.open, taken, first, [second]);
    assert [second] == [second] + [];
    ClosedOne(Less(anchor.open, first.identity), [second], second, []);
    AwayParts(taken, [first], [second], anchor.log);
    TracksNote(Destroyed(first.slot, first.identity), before, anchor.root, anchor.log, []);
    ghost var log0 := anchor.log;
    var unlinkFailed := anchor.UnlinkSlot(first.slot);
    var closeFailed := true;
    var _ := anchor.Close(first.identity, true);
    AwayStays([second], log0, anchor.log);
    TracksRestore(second, before, anchor.root, anchor.log);
    var _ := anchor.RestoreQuarantined(second);
    PlacesOf(lost, kept, before, anchor.root, anchor.log);
    r := if unlinkFailed || closeFailed then Raised(Cleanup) else Ok(());
  }

  lemma PlacesOf(lost: Name, kept: Name, before: map<Name, Inode>, root: map<Name, Inode>, events: seq<Event>)
    requires Tracks(before, root, events) && lost in before && kept in before && lost !in root && kept in root
    ensures !InPlace(lost, events) && InPlace(kept, events)
  {
  }

  lemma OnlyContent(temporary: seq<Entry>, published: seq<Entry>, root0: map<Name, Inode>, staged: map<Name, Inode>, root1: map<Name, Inode>)
    requires "s" in root0 && Within(root0, staged) && NoneNamed(published, staged) && published != []
    requires forall e | e in published :: e.name == "c" || e.name == "s"
    requires AllAt(temporary + published, root1) && DistinctNames(temporary + published)
    ensures |published| == 1 && published[0].name == "c" && AllAt(temporary, root1) && DistinctNames(temporary)
    ensures forall e | e in temporary :: e.name != "c"
    ensures "c" in root1 && root1["c"] == published[0].inode && published[0].inode.File?
  {
    DistinctParts(temporary, published);
    assert forall e | e in temporary || e in published :: e in temporary + published;
    assert published[0] in published && published[|published| - 1] in published;
  }

  lemma OnlyOneLink(temporary: seq<Entry>, published: seq<Entry>, root0: map<Name, Inode>, staged: map<Name, Inode>,
                    linked: map<Name, Inode>, root1: map<Name, Inode>)
    requires root0.Keys == {"s"} && published[..] != [] && |published| == 1 && published[0].name == "c"
    requires AddsOnly(root0, staged, temporary) && AddsOnly(staged, linked, published) && Within(root1, linked)
    requires "c" in linked && linked["c"] == published[0].inode && root0["s"] != published[0].inode
    requires (forall n | NamedBy(temporary, n) :: n !in root1) && (forall e | e in temporary :: e.name != "c")
    requires forall n | n in linked && n !in root1 :: NamedBy(temporary, n)
    ensures "c" in root1 && root1["c"] == published[0].inode
    ensures forall n | n in root1 && n != "c" :: root1[n] != root1["c"]
  {
    assert "c" in root1 by {
      assert !NamedBy(temporary, "c");
    }
    forall n | n in root1 && n != "c"
      ensures n == "s" && root1[n] == root0[n]
    {
      assert Entry(n, root1[n]) in temporary ==> NamedBy(temporary, n);
    }
  }

  /** Some number from 1 to n. */
  method Portion(n: nat) returns (k: nat)
    requires n > 0
    ensures 1 <= k <= n
  {
    k := *;
    if k < 1 || n < k {
      k := n;
    }
  }

  function Least(a: nat, b: nat): nat { if a < b then a else b }
}
