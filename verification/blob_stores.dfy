/**
 The two blob stores.  The in-memory store is the reference; the local store keeps each blob as
 a content file and a JSON sidecar behind a POSIX anchor.  On a fault-free file system that
 nobody else changes the two give the same answers and errors, except for one family of URIs:
 the local store also compares the text of the URI with the one in the sidecar.
 */
module BlobStores {
  import opened Basics
  import opened AnchorBooks
  import opened PosixAnchor
  import opened BlobFormat

  datatype Blob = Blob(data: Content, metadata: Metadata)
  type Blobs = map<string, Blob>

  /** The library, the backend name in URIs and the configured size limit. */
  datatype Setting = Setting(lib: Library, backend: string, limit: nat)

  datatype Call =
    | Put(data: Content, contentType: string, entries: map<string, string>, draw: Option<string>)
    | Get(uri: string)
    | Exists(uri: string)
    | Delete(uri: string)
    | Checksum(uri: string)
    | Describe(uri: string)

  datatype Reply =
    | Stored(metadata: Metadata)
    | Bytes(bytes: Content)
    | Present(present: bool)
    | Deleted
    | Sum(sum: string)

  // --- the reference ---

  function NewMetadata(s: Setting, key: string, data: Content, contentType: string, entries: map<string, string>): Metadata {
    Metadata(Canonical(s.backend, key), s.lib.sha(data), |data|, contentType, entries)
  }

  /** The checks of `put` in their order; `draw` is what the key factory returns, if it does. */
  ghost function PutAnswer(s: Setting, blobs: Blobs, c: Call): Answer<Metadata>
    requires c.Put?
  {
    if |c.data| > s.limit then Failed(SizeLimit)
    else if !ValidContentType(s.lib, c.contentType) then Failed(StorageError)
    else if !ValidEntries(s.lib, c.entries) then Failed(StorageError)
    else if c.draw.None? || !IsKey(c.draw.value) then Failed(InvalidUriError)
    else if c.draw.value in blobs then Failed(AlreadyExistsError)
    else Got(NewMetadata(s, c.draw.value, c.data, c.contentType, c.entries))
  }

  ghost function AfterPut(s: Setting, blobs: Blobs, c: Call): Blobs
    requires c.Put?
  {
    var answer := PutAnswer(s, blobs, c);
    if answer.Got? then blobs[c.draw.value := Blob(c.data, answer.value)] else blobs
  }

  function Find(s: Setting, blobs: Blobs, uri: string): Answer<Blob> {
    match ParseUri(s.lib, uri, s.backend)
    case None => Failed(InvalidUriError)
    case Some(key) => if key in blobs then Got(blobs[key]) else Failed(NotFound)
  }

  function ExistsAnswer(s: Setting, blobs: Blobs, uri: string): Answer<bool> {
    match ParseUri(s.lib, uri, s.backend)
    case None => Failed(InvalidUriError)
    case Some(key) => Got(key in blobs)
  }

  function DeleteAnswer(s: Setting, blobs: Blobs, uri: string): Answer<()> {
    match ParseUri(s.lib, uri, s.backend)
    case None => Failed(InvalidUriError)
    case Some(key) => if key in blobs then Got(()) else Failed(NotFound)
  }

  function AfterDelete(s: Setting, blobs: Blobs, uri: string): Blobs {
    match ParseUri(s.lib, uri, s.backend)
    case None => blobs
    case Some(key) => blobs - {key}
  }

  /** What the local store finds: the text of the URI must also be the stored one. */
  function FindLocal(s: Setting, blobs: Blobs, uri: string): Answer<Blob> {
    var found := Find(s, blobs, uri);
    if found.Got? && uri != found.value.metadata.uri then Failed(StorageError) else found
  }

  /** What every reachable store holds. */
  ghost predicate WellFormed(s: Setting, blobs: Blobs) {
    forall k | k in blobs ::
      && IsKey(k)
      && ValidMetadata(s.lib, blobs[k].metadata, s.limit)
      && blobs[k].metadata == NewMetadata(s, k, blobs[k].data, blobs[k].metadata.contentType, blobs[k].metadata.entries)
  }

  ghost predicate Sound(s: Setting) { s.lib.Lawful() && IsBackend(s.backend) }

  lemma PutKeepsWellFormed(s: Setting, blobs: Blobs, c: Call)
    requires Sound(s) && WellFormed(s, blobs) && c.Put?
    ensures WellFormed(s, AfterPut(s, blobs, c))
    ensures PutAnswer(s, blobs, c).Got? ==> ValidMetadata(s.lib, PutAnswer(s, blobs, c).value, s.limit)
  {
    assert IsChecksum(s.lib.sha(c.data));
  }

  /** The answer of `put` written out: the refusals in their order, and what is stored otherwise. */
  lemma PutAnswerIs(s: Setting, blobs: Blobs, data: Content, contentType: string, entries: map<string, string>,
                    draw: Option<string>)
    ensures PutAnswer(s, blobs, Call.Put(data, contentType, entries, draw)) ==
      if |data| > s.limit then Failed(SizeLimit)
      else if s.lib.blank(contentType) || |contentType| > 255 || (exists c | c in contentType :: s.lib.control(c))
      then Failed(StorageError)
      else if |entries| > 32 || TotalLength(entries) > 8192 || (exists k | k in entries ::
        s.lib.blank(k) || s.lib.blank(entries[k]) || |k| > 64 || |entries[k]| > 1024 || s.lib.absolute(k) || s.lib.absolute(entries[k])
        || (exists c | c in k :: s.lib.control(c)) || (exists c | c in entries[k] :: s.lib.control(c)))
      then Failed(StorageError)
      else if draw.None? || |draw.value| != 32 || (exists c | c in draw.value :: !('0' <= c <= '9' || 'a' <= c <= 'f'))
      then Failed(InvalidUriError)
      else if draw.value in blobs then Failed(AlreadyExistsError)
      else Got(Metadata("blob://" + s.backend + "/" + draw.value, s.lib.sha(data), |data|, contentType, entries))
    ensures AfterPut(s, blobs, Call.Put(data, contentType, entries, draw)) ==
      var answer := PutAnswer(s, blobs, Call.Put(data, contentType, entries, draw));
      if answer.Got? then blobs[draw.value := Blob(data, answer.value)] else blobs
  {
    hide TotalLength, ValidContentType, ValidEntries, IsKey, Canonical;
    RefusedType(s.lib, contentType);
    RefusedEntries(s.lib, entries);
    if draw.Some? {
      RefusedKey(s.backend, draw.value);
    }
  }

  lemma RefusedType(lib: Library, contentType: string)
    ensures !ValidContentType(lib, contentType) <==>
      lib.blank(contentType) || |contentType| > 255 || exists c | c in contentType :: lib.control(c)
  {
  }

  lemma RefusedEntries(lib: Library, entries: map<string, string>)
    ensures !ValidEntries(lib, entries) <==> |entries| > 32 || TotalLength(entries) > 8192 || exists k | k in entries ::
      lib.blank(k) || lib.blank(entries[k]) || |k| > 64 || |entries[k]| > 1024 || lib.absolute(k) || lib.absolute(entries[k])
      || (exists c | c in k :: lib.control(c)) || (exists c | c in entries[k] :: lib.control(c))
  {
    assert ValidEntries(lib, entries) || |entries| > 32 || TotalLength(entries) > 8192
      || exists k | k in entries :: !ValidEntry(lib, k, entries[k]);
  }

  lemma RefusedKey(backend: string, key: string)
    ensures !IsKey(key) <==> |key| != 32 || exists c | c in key :: !('0' <= c <= '9' || 'a' <= c <= 'f')
    ensures Canonical(backend, key) == "blob://" + backend + "/" + key
  {
    assert "blob:" + ("//" + backend + ("/" + key)) == "blob://" + backend + "/" + key;
  }

  class InMemoryBlobStorage {
    const s: Setting
    var blobs: Blobs

    ghost predicate Valid()
      reads this
    {
      Sound(s) && WellFormed(s, blobs)
    }

    constructor (s: Setting)
      requires Sound(s)
      ensures Valid() && this.s == s && blobs == map[]
    {
      this.s, blobs := s, map[];
    }

    method Put(data: Content, contentType: string, entries: map<string, string>, draw: Option<string>)
      returns (r: Answer<Metadata>)
      requires Valid()
      modifies this
      ensures Valid()
      ensures r ==
        if |data| > s.limit then Failed(SizeLimit)
        else if s.lib.blank(contentType) || |contentType| > 255 || (exists c | c in contentType :: s.lib.control(c))
        then Failed(StorageError)
        else if |entries| > 32 || TotalLength(entries) > 8192 || (exists k | k in entries ::
          s.lib.blank(k) || s.lib.blank(entries[k]) || |k| > 64 || |entries[k]| > 1024 || s.lib.absolute(k) || s.lib.absolute(entries[k])
          || (exists c | c in k :: s.lib.control(c)) || (exists c | c in entries[k] :: s.lib.control(c)))
        then Failed(StorageError)
        else if draw.None? || |draw.value| != 32 || (exists c | c in draw.value :: !('0' <= c <= '9' || 'a' <= c <= 'f'))
        then Failed(InvalidUriError)
        else if draw.value in old(blobs) then Failed(AlreadyExistsError)
        else Got(Metadata("blob://" + s.backend + "/" + draw.value, s.lib.sha(data), |data|, contentType, entries))
      ensures blobs == if r.Got? then old(blobs)[draw.value := Blob(data, r.value)] else old(blobs)
      ensures r == PutAnswer(s, old(blobs), Call.Put(data, contentType, entries, draw))
      ensures blobs == AfterPut(s, old(blobs), Call.Put(data, contentType, entries, draw))
    {
      PutAnswerIs(s, blobs, data, contentType, entries, draw);
      if |data| > s.limit {
        return Failed(SizeLimit);
      }
      if !ValidContentType(s.lib, contentType) {
        return Failed(StorageError);
      }
      var valid := ValidateEntries(s.lib, entries);
      if !valid {
        return Failed(StorageError);
      }
      if draw.None? || !IsKey(draw.value) {
        return Failed(InvalidUriError);
      }
      var m := NewMetadata(s, draw.value, data, contentType, entries);
      if draw.value in blobs {
        return Failed(AlreadyExistsError);
      }
      PutKeepsWellFormed(s, blobs, Call.Put(data, contentType, entries, draw));
      blobs := blobs[draw.value := Blob(data, m)];
      r := Got(m);
    }

    method Get(uri: string) returns (r: Answer<Content>)
      requires Valid()
      ensures match ParseUri(s.lib, uri, s.backend)
        case None => r == Failed(InvalidUriError)
        case Some(key) =>
          && (key !in blobs ==> r == Failed(NotFound))
          && (key in blobs ==> r == Got(blobs[key].data) && s.lib.sha(r.value) == blobs[key].metadata.checksum)
    {
      var found := Find(s, blobs, uri);
      r := if found.Got? then Got(found.value.data) else Failed(found.error);
    }

    method Exists(uri: string) returns (r: Answer<bool>)
      requires Valid()
      ensures r == ExistsAnswer(s, blobs, uri)
    {
      var key := ParseUri(s.lib, uri, s.backend);
      r := if key.None? then Failed(InvalidUriError) else Got(key.value in blobs);
    }

    method Delete(uri: string) returns (r: Answer<()>)
      requires Valid()
      modifies this
      ensures Valid()
      ensures r == DeleteAnswer(s, old(blobs), uri) && blobs == AfterDelete(s, old(blobs), uri)
    {
      var key := ParseUri(s.lib, uri, s.backend);
      if key.None? {
        return Failed(InvalidUriError);
      }
      if key.value !in blobs {
        return Failed(NotFound);
      }
      blobs := blobs - {key.value};
      r := Got(());
    }

    /** The integrity check never fails. */
    method Checksum(uri: string) returns (r: Answer<string>)
      requires Valid()
      ensures var found := Find(s, blobs, uri); r == if found.Got? then Got(s.lib.sha(found.value.data)) else Failed(found.error)
    {
      var found := Find(s, blobs, uri);
      if found.Failed? {
        return Failed(found.error);
      }
      var sum := s.lib.sha(found.value.data);
      r := if sum != found.value.metadata.checksum then Failed(StorageError) else Got(sum);
    }

    method Describe(uri: string) returns (r: Answer<Metadata>)
      requires Valid()
      ensures var found := Find(s, blobs, uri); r == if found.Got? then Got(found.value.metadata) else Failed(found.error)
    {
      var found := Find(s, blobs, uri);
      if found.Failed? {
        return Failed(found.error);
      }
      var sum := s.lib.sha(found.value.data);
      r := if sum != found.value.metadata.checksum then Failed(StorageError) else Got(found.value.metadata);
    }
  }

  // --- the local store ---

  function SidecarName(key: string): Name { key + SUFFIX }

  /** The key a file name belongs to. */
  predicate Belongs(name: Name, blobs: Blobs) {
    |name| >= 32 && name[..32] in blobs && (name == name[..32] || name == SidecarName(name[..32]))
  }

  ghost predicate Holds(root: map<Name, Inode>, data: map<Inode, seq<byte>>, name: Name, bytes: seq<byte>) {
    name in root && root[name] in data && data[root[name]] == bytes
  }

  ghost predicate FilesOf(lib: Library, root: map<Name, Inode>, data: map<Inode, seq<byte>>, key: string, blob: Blob) {
    Holds(root, data, key, blob.data) && Holds(root, data, SidecarName(key), lib.dumps(Sidecar(blob.metadata)))
  }

  /** The root directory holds exactly the two files of each blob. */
  ghost predicate Mirrors(lib: Library, root: map<Name, Inode>, data: map<Inode, seq<byte>>, blobs: Blobs) {
    && (forall n | n in root :: Belongs(n, blobs))
    && (forall k | k in blobs :: IsKey(k) && FilesOf(lib, root, data, k, blobs[k]))
  }

  lemma NamesOfKey(key: string, blobs: Blobs)
    requires IsKey(key)
    ensures Belongs(key, blobs) <==> key in blobs
    ensures Belongs(SidecarName(key), blobs) <==> key in blobs
    ensures !IsTemporary(key) && !IsTemporary(SidecarName(key)) && key != SidecarName(key)
  {
    assert key[..32] == key && SidecarName(key)[..32] == key;
    assert key[0] in key && SidecarName(key)[0] == key[0];
  }

  lemma OtherKey(k: string, key: string)
    requires IsKey(k) && IsKey(key) && k != key
    ensures {k, SidecarName(k)} !! {key, SidecarName(key)}
  {
    assert SidecarName(k)[..32] == k && SidecarName(key)[..32] == key;
    assert |k| == |key| == 32;
  }

  lemma NamesInRoot(lib: Library, root: map<Name, Inode>, data: map<Inode, seq<byte>>, blobs: Blobs, key: string)
    requires Mirrors(lib, root, data, blobs) && IsKey(key)
    ensures PlainNames(key, SidecarName(key), root)
    ensures key in blobs <==> key in root
    ensures key in blobs <==> SidecarName(key) in root
  {
    NamesOfKey(key, blobs);
    forall n | n in root
      ensures !IsTemporary(n)
    {
      assert Belongs(n, blobs);
      NamesOfKey(n[..32], blobs);
    }
    hide SidecarName, Belongs, IsTemporary;
    if key in blobs {
      assert FilesOf(lib, root, data, key, blobs[key]);
    }
  }

  /** What is stored is in the two files, and both are within the limits of a read. */
  lemma StoredFits(s: Setting, root: map<Name, Inode>, data: map<Inode, seq<byte>>, blobs: Blobs, key: string)
    requires Sound(s) && WellFormed(s, blobs) && Mirrors(s.lib, root, data, blobs) && key in blobs
    ensures key in root && root[key] in data && data[root[key]] == blobs[key].data && |blobs[key].data| <= s.limit
    ensures var name, text := SidecarName(key), s.lib.dumps(Sidecar(blobs[key].metadata));
      name in root && root[name] in data && data[root[name]] == text && |text| <= MAX_SIDECAR
  {
    assert FilesOf(s.lib, root, data, key, blobs[key]);
    assert |blobs[key].data| == blobs[key].metadata.size;
    SidecarFits(s.lib, blobs[key].metadata, s.limit);
  }

  lemma BelongsMore(name: Name, blobs: Blobs, key: string, blob: Blob)
    requires Belongs(name, blobs)
    ensures Belongs(name, blobs[key := blob])
  {
    hide SidecarName;
  }

  lemma BelongsElsewhere(name: Name, blobs: Blobs, key: string)
    requires Belongs(name, blobs) && name != key && name != SidecarName(key)
    ensures Belongs(name, blobs - {key})
  {
    hide SidecarName;
  }

  lemma FilesUntouched(lib: Library, root0: map<Name, Inode>, data0: map<Inode, seq<byte>>, root1: map<Name, Inode>,
                       data1: map<Inode, seq<byte>>, k: string, blob: Blob, key: string)
    requires FilesOf(lib, root0, data0, k, blob) && IsKey(k) && IsKey(key) && k != key && Kept(data0, data1)
    requires forall n | n in root0 && n != key && n != SidecarName(key) :: n in root1 && root1[n] == root0[n]
    ensures FilesOf(lib, root1, data1, k, blob)
  {
    OtherKey(k, key);
    hide SidecarName, IsKey;
    assert k !in {key, SidecarName(key)} && SidecarName(k) !in {key, SidecarName(key)};
  }

  lemma MirrorsAfterWrite(lib: Library, root0: map<Name, Inode>, data0: map<Inode, seq<byte>>, root1: map<Name, Inode>,
                          data1: map<Inode, seq<byte>>, blobs: Blobs, key: string, blob: Blob)
    requires Mirrors(lib, root0, data0, blobs) && IsKey(key) && key !in blobs && Kept(data0, data1)
    requires FilesOf(lib, root1, data1, key, blob)
    requires root1 == root0[key := root1[key]][SidecarName(key) := root1[SidecarName(key)]]
    ensures Mirrors(lib, root1, data1, blobs[key := blob])
  {
    hide IsKey, FilesOf, SidecarName, Belongs, Kept;
    var after := blobs[key := blob];
    NamesOfKey(key, after);
    forall n | n in root0
      ensures Belongs(n, after)
    {
      assert Belongs(n, blobs);
      BelongsMore(n, blobs, key, blob);
    }
    forall k | k in blobs
      ensures FilesOf(lib, root1, data1, k, blobs[k])
    {
      FilesUntouched(lib, root0, data0, root1, data1, k, blobs[k], key);
    }
  }

  lemma MirrorsAfterDelete(lib: Library, root0: map<Name, Inode>, data: map<Inode, seq<byte>>, root1: map<Name, Inode>,
                           blobs: Blobs, key: string)
    requires Mirrors(lib, root0, data, blobs) && IsKey(key)
    requires root1 == root0 - {key, SidecarName(key)}
    ensures Mirrors(lib, root1, data, blobs - {key})
  {
    hide IsKey, FilesOf, SidecarName, Belongs;
    var after := blobs - {key};
    forall n | n in root1
      ensures Belongs(n, after)
    {
      assert Belongs(n, blobs);
      BelongsElsewhere(n, blobs, key);
    }
    forall k | k in after
      ensures FilesOf(lib, root1, data, k, after[k])
    {
      FilesUntouched(lib, root0, data, root1, data, k, blobs[k], key);
    }
  }

  /** How an anchor error reaches the caller. */
  function ErrorOf<T>(o: Outcome<T>): BlobError {
    match o
    case Raised(Missing) => NotFound
    case Raised(AlreadyExists) => AlreadyExistsError
    case Raised(InvalidUri) => InvalidUriError
    case Raised(TooLarge) => SizeLimit
    case Raised(Cleanup) => CleanupError
    case _ => StorageError
  }

  class LocalBlobStorage {
    const s: Setting
    const anchor: Anchor
    ghost var blobs: Blobs

    /** Nobody else changes the directory, no system call fails. */
    ghost predicate Valid()
      reads this, anchor
    {
      && Sound(s) && WellFormed(s, blobs)
      && anchor.Valid() && !anchor.disturbed && !anchor.faulty
      && Regular(anchor.root) && Mirrors(s.lib, anchor.root, anchor.data, blobs)
    }

    constructor (s: Setting)
      requires Sound(s)
      ensures Valid() && this.s == s && blobs == map[]
    {
      this.s, blobs := s, map[];
      anchor := new Anchor(false, false);
    }

    method Put(data: Content, contentType: string, entries: map<string, string>, draw: Option<string>)
      returns (r: Answer<Metadata>)
      requires Valid()
      modifies this, anchor
      ensures Valid()
      ensures r ==
        if |data| > s.limit then Failed(SizeLimit)
        else if s.lib.blank(contentType) || |contentType| > 255 || (exists c | c in contentType :: s.lib.control(c))
        then Failed(StorageError)
        else if |entries| > 32 || TotalLength(entries) > 8192 || (exists k | k in entries ::
          s.lib.blank(k) || s.lib.blank(entries[k]) || |k| > 64 || |entries[k]| > 1024 || s.lib.absolute(k) || s.lib.absolute(entries[k])
          || (exists c | c in k :: s.lib.control(c)) || (exists c | c in entries[k] :: s.lib.control(c)))
        then Failed(StorageError)
        else if draw.None? || |draw.value| != 32 || (exists c | c in draw.value :: !('0' <= c <= '9' || 'a' <= c <= 'f'))
        then Failed(InvalidUriError)
        else if draw.value in old(blobs) then Failed(AlreadyExistsError)
        else Got(Metadata("blob://" + s.backend + "/" + draw.value, s.lib.sha(data), |data|, contentType, entries))
      ensures blobs == if r.Got? then old(blobs)[draw.value := Blob(data, r.value)] else old(blobs)
      ensures r == PutAnswer(s, old(blobs), Call.Put(data, contentType, entries, draw))
      ensures blobs == AfterPut(s, old(blobs), Call.Put(data, contentType, entries, draw))
    {
      hide Anchor.Valid, Mirrors, Regular, Library.Lawful;
      PutAnswerIs(s, blobs, data, contentType, entries, draw);
      if |data| > s.limit {
        return Failed(SizeLimit);
      }
      if !ValidContentType(s.lib, contentType) {
        return Failed(StorageError);
      }
      var valid := ValidateEntries(s.lib, entries);
      if !valid {
        return Failed(StorageError);
      }
      if draw.None? || !IsKey(draw.value) {
        return Failed(InvalidUriError);
      }
      r := Write(draw.value, data, NewMetadata(s, draw.value, data, contentType, entries));
      PutKeepsWellFormed(s, old(blobs), Call.Put(data, contentType, entries, draw));
    }

    method Write(key: string, data: Content, m: Metadata) returns (r: Answer<Metadata>)
      requires Valid() && IsKey(key)
      modifies this, anchor
      ensures WellFormed(s, blobs) ==> Valid()
      ensures if key in old(blobs) then r == Failed(AlreadyExistsError) && blobs == old(blobs)
              else r == Got(m) && blobs == old(blobs)[key := Blob(data, m)]
    {
      hide Library.Lawful, SidecarName, Belongs, IsKey, ParseUri, ValidMetadata, ValidContentType, ValidEntries, Anchor.Valid;
      var sidecar := s.lib.dumps(Sidecar(m));
      NamesInRoot(s.lib, anchor.root, anchor.data, blobs, key);
      var written := anchor.WritePair(key, data, SidecarName(key), sidecar);
      if written.Ok? {
        MirrorsAfterWrite(s.lib, old(anchor.root), old(anchor.data), anchor.root, anchor.data, blobs, key, Blob(data, m));
        blobs := blobs[key := Blob(data, m)];
        r := Got(m);
      } else {
        r := Failed(ErrorOf(written));
      }
    }

    method Exists(uri: string) returns (r: Answer<bool>)
      requires Valid()
      modifies anchor
      ensures Valid() && r == ExistsAnswer(s, blobs, uri)
    {
      hide Library.Lawful, SidecarName, Belongs, IsKey, ParseUri, ValidMetadata, ValidContentType, ValidEntries, Anchor.Valid;
      var key := ParseUri(s.lib, uri, s.backend);
      if key.None? {
        return Failed(InvalidUriError);
      }
      NamesInRoot(s.lib, anchor.root, anchor.data, blobs, key.value);
      var present := anchor.PairExists(key.value, SidecarName(key.value));
      if present.Raised? {
        return Failed(ErrorOf(present));
      }
      r := if !present.value.0 && !present.value.1 then Got(false)
           else if !present.value.0 || !present.value.1 then Failed(StorageError)
           else Got(true);
    }

    method Delete(uri: string) returns (r: Answer<()>)
      requires Valid()
      modifies this, anchor
      ensures Valid()
      ensures r == DeleteAnswer(s, old(blobs), uri) && blobs == AfterDelete(s, old(blobs), uri)
    {
      hide Anchor.Valid, Mirrors, Regular, Library.Lawful, ParseUri, IsKey, ValidMetadata;
      var key := ParseUri(s.lib, uri, s.backend);
      if key.None? {
        return Failed(InvalidUriError);
      }
      r := Remove(key.value);
    }

    method Remove(key: string) returns (r: Answer<()>)
      requires Valid() && IsKey(key)
      modifies this, anchor
      ensures Valid()
      ensures r == if key in old(blobs) then Got(()) else Failed(NotFound)
      ensures blobs == old(blobs) - {key}
    {
      hide Library.Lawful, SidecarName, Belongs, IsKey, ParseUri, ValidMetadata, ValidContentType, ValidEntries, Anchor.Valid;
      hide Tracks, Accounted, DestroysLast, DestroysOnlyOpened, Within, Mirrors, Sound;
      NamesInRoot(s.lib, anchor.root, anchor.data, blobs, key);
      var deleted := anchor.DeletePair(key, SidecarName(key));
      if deleted.Raised? {
        return Failed(ErrorOf(deleted));
      }
      MirrorsAfterDelete(s.lib, old(anchor.root), anchor.data, anchor.root, blobs, key);
      blobs := blobs - {key};
      r := Got(());
    }

    /** Both files, verified: size and checksum never disagree with the sidecar. */
    method ReadVerified(uri: string) returns (r: Answer<Blob>)
      requires Valid()
      modifies anchor
      ensures Valid() && r == FindLocal(s, blobs, uri)
    {
      hide Library.Lawful, SidecarName, Belongs, IsKey, ParseUri, ValidMetadata, ValidContentType, ValidEntries, Anchor.Valid;
      var key := ParseUri(s.lib, uri, s.backend);
      if key.None? {
        return Failed(InvalidUriError);
      }
      NamesInRoot(s.lib, anchor.root, anchor.data, blobs, key.value);
      var read := ReadFiles(key.value);
      if read.Failed? {
        return Failed(read.error);
      }
      var m := Deserialize(s.lib, read.value.1, uri, s.limit);
      SidecarRoundTrip(s.lib, blobs[key.value].metadata, uri, s.limit);
      if m.Failed? {
        return Failed(m.error);
      }
      if |read.value.0| != m.value.size || s.lib.sha(read.value.0) != m.value.checksum {
        return Failed(StorageError);
      }
      r := Got(Blob(read.value.0, m.value));
    }

    method ReadFiles(key: string) returns (r: Answer<(Content, seq<byte>)>)
      requires Valid() && IsKey(key)
      modifies anchor
      ensures Valid()
      ensures r == if key in blobs then Got((blobs[key].data, s.lib.dumps(Sidecar(blobs[key].metadata)))) else Failed(NotFound)
    {
      hide Library.Lawful, SidecarName, Belongs, IsKey, ParseUri, ValidMetadata, ValidContentType, ValidEntries;
      hide Anchor.Valid, Regular, Mirrors, WellFormed, Sound, PlainNames;
      NamesInRoot(s.lib, anchor.root, anchor.data, blobs, key);
      if key in blobs {
        StoredFits(s, anchor.root, anchor.data, blobs, key);
      }
      var read := anchor.ReadPair(key, SidecarName(key), s.limit, MAX_SIDECAR);
      if read == Raised(Missing) {
        var present := anchor.PairExists(key, SidecarName(key));
        return Failed(if present.Ok? && !present.value.0 && !present.value.1 then NotFound else StorageError);
      }
      if read.Raised? {
        return Failed(ErrorOf(read));
      }
      r := Got(read.value);
    }

    method Get(uri: string) returns (r: Answer<Content>)
      requires Valid()
      modifies anchor
      ensures Valid()
      ensures var found := FindLocal(s, blobs, uri); r == if found.Got? then Got(found.value.data) else Failed(found.error)
    {
      hide Library.Lawful, SidecarName, Belongs, IsKey, ParseUri, ValidMetadata, ValidContentType, ValidEntries, Anchor.Valid;
      var read := ReadVerified(uri);
      r := if read.Got? then Got(read.value.data) else Failed(read.error);
    }

    method Checksum(uri: string) returns (r: Answer<string>)
      requires Valid()
      modifies anchor
      ensures Valid()
      ensures var found := FindLocal(s, blobs, uri); r == if found.Got? then Got(s.lib.sha(found.value.data)) else Failed(found.error)
    {
      hide Library.Lawful, SidecarName, Belongs, IsKey, ParseUri, ValidMetadata, ValidContentType, ValidEntries, Anchor.Valid;
      var read := ReadVerified(uri);
      r := if read.Got? then Got(read.value.metadata.checksum) else Failed(read.error);
    }

    method Describe(uri: string) returns (r: Answer<Metadata>)
      requires Valid()
      modifies anchor
      ensures Valid()
      ensures var found := FindLocal(s, blobs, uri); r == if found.Got? then Got(found.value.metadata) else Failed(found.error)
    {
      hide Library.Lawful, SidecarName, Belongs, IsKey, ParseUri, ValidMetadata, ValidContentType, ValidEntries, Anchor.Valid;
      var read := ReadVerified(uri);
      r := if read.Got? then Got(read.value.metadata) else Failed(read.error);
    }
  }

  // --- whole runs ---

  function Mapped<T, U>(a: Answer<T>, f: T -> U): Answer<U> {
    match a
    case Got(v) => Got(f(v))
    case Failed(e) => Failed(e)
  }

  function Looked(s: Setting, blobs: Blobs, uri: string, local: bool): Answer<Blob> {
    if local then FindLocal(s, blobs, uri) else Find(s, blobs, uri)
  }

  /** What the contracts of the two classes above say about one call. */
  ghost function Answered(s: Setting, blobs: Blobs, c: Call, local: bool): Answer<Reply> {
    match c
    case Put(_, _, _, _) => Mapped(PutAnswer(s, blobs, c), m => Stored(m))
    case Exists(uri) => Mapped(ExistsAnswer(s, blobs, uri), b => Present(b))
    case Delete(uri) => Mapped(DeleteAnswer(s, blobs, uri), _ => Deleted)
    case Get(uri) => Mapped(Looked(s, blobs, uri, local), (b: Blob) => Bytes(b.data))
    case Checksum(uri) => Mapped(Looked(s, blobs, uri, local), (b: Blob) => Sum(s.lib.sha(b.data)))
    case Describe(uri) => Mapped(Looked(s, blobs, uri, local), (b: Blob) => Stored(b.metadata))
  }

  ghost function After(s: Setting, blobs: Blobs, c: Call): Blobs {
    match c
    case Put(_, _, _, _) => AfterPut(s, blobs, c)
    case Delete(uri) => AfterDelete(s, blobs, uri)
    case _ => blobs
  }

  ghost function AfterAll(s: Setting, blobs: Blobs, calls: seq<Call>): Blobs
    decreases |calls|
  {
    if calls == [] then blobs else AfterAll(s, After(s, blobs, calls[0]), calls[1..])
  }

  ghost function Replies(s: Setting, blobs: Blobs, calls: seq<Call>, local: bool): seq<Answer<Reply>>
    decreases |calls|
  {
    if calls == [] then [] else
      [Answered(s, blobs, calls[0], local)] + Replies(s, After(s, blobs, calls[0]), calls[1..], local)
  }

  predicate IsRead(c: Call) { c.Get? || c.Checksum? || c.Describe? }

  /** A read that names a stored blob by another spelling of its URI. */
  ghost predicate Misspelt(s: Setting, blobs: Blobs, c: Call) {
    IsRead(c) &&
    match ParseUri(s.lib, c.uri, s.backend)
    case None => false
    case Some(key) => key in blobs && c.uri != Canonical(s.backend, key)
  }

  ghost predicate WellSpelt(s: Setting, blobs: Blobs, calls: seq<Call>)
    decreases |calls|
  {
    calls == [] || (!Misspelt(s, blobs, calls[0]) && WellSpelt(s, After(s, blobs, calls[0]), calls[1..]))
  }

  /** The other calls written out: what they answer and what they leave, for a URI that names a key. */
  lemma AnswersAre(s: Setting, blobs: Blobs, c: Call, local: bool)
    requires !c.Put?
    ensures var parsed := ParseUri(s.lib, c.uri, s.backend);
      && (parsed.None? ==> Answered(s, blobs, c, local) == Failed(InvalidUriError) && After(s, blobs, c) == blobs)
      && (parsed.Some? && parsed.value !in blobs ==>
        && Answered(s, blobs, c, local) == (if c.Exists? then Got(Present(false)) else Failed(NotFound))
        && After(s, blobs, c) == blobs)
      && (parsed.Some? && parsed.value in blobs ==>
        && var blob := blobs[parsed.value];
        && (c.Exists? ==> Answered(s, blobs, c, local) == Got(Present(true)))
        && (c.Delete? ==> Answered(s, blobs, c, local) == Got(Deleted))
        && (!c.Exists? && !c.Delete? && local && c.uri != blob.metadata.uri ==> Answered(s, blobs, c, local) == Failed(StorageError))
        && (!local || c.uri == blob.metadata.uri ==>
          && (c.Get? ==> Answered(s, blobs, c, local) == Got(Bytes(blob.data)))
          && (c.Checksum? ==> Answered(s, blobs, c, local) == Got(Sum(s.lib.sha(blob.data))))
          && (c.Describe? ==> Answered(s, blobs, c, local) == Got(Stored(blob.metadata))))
        && After(s, blobs, c) == if c.Delete? then blobs - {parsed.value} else blobs)
  {
    hide ParseUri;
  }

  lemma StepKeepsWellFormed(s: Setting, blobs: Blobs, c: Call)
    requires Sound(s) && WellFormed(s, blobs)
    ensures WellFormed(s, After(s, blobs, c))
  {
    if c.Put? {
      PutKeepsWellFormed(s, blobs, c);
    }
  }

  lemma OneCallAgrees(s: Setting, blobs: Blobs, c: Call)
    requires WellFormed(s, blobs)
    ensures Answered(s, blobs, c, true) == Answered(s, blobs, c, false) <==> !Misspelt(s, blobs, c)
  {
    hide ParseUri, ValidMetadata, ValidContentType, ValidEntries, Canonical;
  }

  /**
     Over every run the two stores hold the same blobs, and they give the same answers and errors
     exactly when no read names a stored blob by a spelling other than the one `put` returned.
   */
  lemma {:induction false} RunsAgree(s: Setting, blobs: Blobs, calls: seq<Call>)
    requires Sound(s) && WellFormed(s, blobs)
    ensures Replies(s, blobs, calls, true) == Replies(s, blobs, calls, false) <==> WellSpelt(s, blobs, calls)
    decreases |calls|
  {
    if calls != [] {
      hide Library.Lawful, Answered, After, Misspelt, WellFormed;
      OneCallAgrees(s, blobs, calls[0]);
      StepKeepsWellFormed(s, blobs, calls[0]);
      var next := After(s, blobs, calls[0]);
      RunsAgree(s, next, calls[1..]);
      var l, m := Replies(s, blobs, calls, true), Replies(s, blobs, calls, false);
      assert l[0] == Answered(s, blobs, calls[0], true) && l[1..] == Replies(s, next, calls[1..], true);
      assert m[0] == Answered(s, blobs, calls[0], false) && m[1..] == Replies(s, next, calls[1..], false);
    }
  }

  /** Callers that only read the URIs that `put` hands out cannot tell the two stores apart. */
  lemma CanonicalRunsAgree(s: Setting, blobs: Blobs, calls: seq<Call>)
    requires Sound(s) && WellFormed(s, blobs)
    requires forall c | c in calls && IsRead(c) :: exists k :: IsKey(k) && c.uri == Canonical(s.backend, k)
    ensures Replies(s, blobs, calls, true) == Replies(s, blobs, calls, false)
  {
    CanonicalIsWellSpelt(s, blobs, calls);
    RunsAgree(s, blobs, calls);
  }

  lemma {:induction false} CanonicalIsWellSpelt(s: Setting, blobs: Blobs, calls: seq<Call>)
    requires Sound(s)
    requires forall c | c in calls && IsRead(c) :: exists k :: IsKey(k) && c.uri == Canonical(s.backend, k)
    ensures WellSpelt(s, blobs, calls)
    decreases |calls|
  {
    if calls != [] {
      var c := calls[0];
      assert c in calls;
      CanonicalRead(s, blobs, c);
      CanonicalIsWellSpelt(s, After(s, blobs, c), calls[1..]);
    }
  }

  lemma CanonicalRead(s: Setting, blobs: Blobs, c: Call)
    requires Sound(s) && (IsRead(c) ==> exists k :: IsKey(k) && c.uri == Canonical(s.backend, k))
    ensures !Misspelt(s, blobs, c)
  {
    if IsRead(c) {
      var k :| IsKey(k) && c.uri == Canonical(s.backend, k);
      CanonicalParses(s.lib, s.backend, k);
    }
  }

  /** The stores do differ: the scheme in capitals reads the blob from memory but not from disk. */
  lemma CapitalsDiffer(s: Setting, blobs: Blobs, key: string)
    requires Sound(s) && WellFormed(s, blobs) && key in blobs
    ensures var uri := Spelling(0, "BLOB", s.backend, key);
      && Answered(s, blobs, Get(uri), false) == Got(Bytes(blobs[key].data))
      && Answered(s, blobs, Get(uri), true) == Failed(StorageError)
      && Answered(s, blobs, Exists(uri), true) == Got(Present(true))
  {
    assert Lower("BLOB") == "blob";
    SpellingParses(s.lib, 0, "BLOB", s.backend, key);
    assert Spelling(0, "BLOB", s.backend, key)[0] == 'B' && Canonical(s.backend, key)[0] == 'b';
  }

  /**
     What was put is read back, by the URI that `put` returned, until it is deleted: the same bytes,
     their checksum and size, and the content type and every entry that the caller gave.
   */
  lemma PutThenRead(s: Setting, blobs: Blobs, put: Call, calls: seq<Call>, local: bool)
    requires Sound(s) && put.Put? && PutAnswer(s, blobs, put).Got?
    requires forall c | c in calls && c.Delete? :: ParseUri(s.lib, c.uri, s.backend) != put.draw
    ensures put.draw.Some?
    ensures var uri := "blob://" + s.backend + "/" + put.draw.value;
      var m := Metadata(uri, s.lib.sha(put.data), |put.data|, put.contentType, put.entries);
      var after := AfterAll(s, AfterPut(s, blobs, put), calls);
      && PutAnswer(s, blobs, put) == Got(m)
      && Answered(s, after, Get(uri), local) == Got(Bytes(put.data))
      && Answered(s, after, Checksum(uri), local) == Got(Sum(s.lib.sha(put.data)))
      && Answered(s, after, Describe(uri), local) == Got(Stored(m))
      && Answered(s, after, Exists(uri), local) == Got(Present(true))
  {
    PutAnswerIs(s, blobs, put.data, put.contentType, put.entries, put.draw);
    var key := put.draw.value;
    assert Canonical(s.backend, key) == "blob:" + ("//" + s.backend + ("/" + key)) == "blob://" + s.backend + "/" + key;
    hide Library.Lawful, ParseUri, Canonical, ValidContentType, ValidEntries, Answered, AfterAll;
    BlobStays(s, AfterPut(s, blobs, put), calls, key);
    Readable(s, AfterAll(s, AfterPut(s, blobs, put), calls), key, local);
  }

  lemma Readable(s: Setting, blobs: Blobs, key: string, local: bool)
    requires Sound(s) && IsKey(key) && key in blobs && blobs[key].metadata.uri == Canonical(s.backend, key)
    ensures var uri := Canonical(s.backend, key);
      && Answered(s, blobs, Get(uri), local) == Got(Bytes(blobs[key].data))
      && Answered(s, blobs, Checksum(uri), local) == Got(Sum(s.lib.sha(blobs[key].data)))
      && Answered(s, blobs, Describe(uri), local) == Got(Stored(blobs[key].metadata))
      && Answered(s, blobs, Exists(uri), local) == Got(Present(true))
  {
    hide ParseUri, Canonical;
    CanonicalParses(s.lib, s.backend, key);
  }

  lemma {:induction false} BlobStays(s: Setting, blobs: Blobs, calls: seq<Call>, key: string)
    requires key in blobs
    requires forall c | c in calls && c.Delete? :: ParseUri(s.lib, c.uri, s.backend) != Some(key)
    ensures var after := AfterAll(s, blobs, calls); key in after && after[key] == blobs[key]
    decreases |calls|
  {
    if calls != [] {
      hide ParseUri;
      var c := calls[0];
      assert c in calls;
      var next := After(s, blobs, c);
      assert key in next && next[key] == blobs[key];
      BlobStays(s, next, calls[1..], key);
    }
  }
}
