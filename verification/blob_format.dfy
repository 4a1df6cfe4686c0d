/**
 Blob URIs, metadata and the JSON sidecar.

 SHA-256, the JSON text format and the Unicode tables are parameters (`Library`) with the laws
 the two stores need of them (`Lawful`).  The backend name that a URI carries ("memory",
 "local") is a parameter too, so that one URI can be put to both stores.
 */
module BlobFormat {
  import opened Basics
  import opened AnchorBooks
  import opened PosixAnchor

  datatype BlobError = InvalidUriError | NotFound | AlreadyExistsError | SizeLimit | CleanupError | StorageError
  datatype Answer<+T> = Got(value: T) | Failed(error: BlobError)

  const MAX_URI := 256
  const MAX_CONTENT_TYPE := 255
  const MAX_ENTRIES := 32
  const MAX_KEY := 64
  const MAX_VALUE := 1024
  const MAX_TOTAL := 8192
  const MAX_SIDECAR := 128 * 1024
  const SUFFIX := ".metadata.json"
  const MAX_LENGTH := 0x8000_0000_0000_0000

  /** The bytes of a blob; no byte string is as long as `MAX_LENGTH`. */
  type Content = b: seq<byte> | |b| < MAX_LENGTH

  /** The metadata of one blob. */
  datatype Metadata = Metadata(uri: string, checksum: string, size: int, contentType: string, entries: map<string, string>)

  datatype Json =
    | Text(text: string)
    | Number(number: int)
    | Object(members: map<string, Json>)
    | OtherJson

  function Digits(n: nat): nat {
    if n < 10 then 1 else 1 + Digits(n / 10)
  }

  datatype Library = Library(
    sha: seq<byte> -> string,
    dumps: Json -> seq<byte>,
    loads: seq<byte> -> Option<Json>,
    control: char -> bool,
    blank: string -> bool,
    absolute: string -> bool)
  {
    /**
     Compact ASCII JSON: a character takes at most twelve bytes (a surrogate pair of escapes),
     members are joined by one comma, and what was dumped loads back.
     */
    ghost predicate JsonLaw() {
      && (forall v {:trigger dumps(v)} :: loads(dumps(v)) == Some(v))
      && (forall s {:trigger dumps(Text(s))} :: |dumps(Text(s))| <= 12 * |s| + 2)
      && (forall n: nat {:trigger dumps(Number(n))} :: |dumps(Number(n))| <= Digits(n))
      && |dumps(Object(map[]))| == 2
      && (forall m, k, v {:trigger dumps(Object(m[k := v]))} | k !in m ::
            |dumps(Object(m[k := v]))| <= |dumps(Object(m))| + 12 * |k| + 4 + |dumps(v)|)
    }

    /** Printable ASCII is not in a control category, and C0 is. */
    ghost predicate TextLaw() {
      && (forall c | c < ' ' :: control(c))
      && (forall c | ' ' <= c <= '~' :: !control(c))
    }

    ghost predicate Lawful() {
      JsonLaw() && TextLaw() && forall d :: IsChecksum(sha(d))
    }
  }

  // --- validation ---

  predicate IsHex(c: char) { '0' <= c <= '9' || 'a' <= c <= 'f' }

  predicate IsKey(s: string) { |s| == 32 && forall c | c in s :: IsHex(c) }

  predicate IsChecksum(s: string) { |s| == 64 && forall c | c in s :: IsHex(c) }

  predicate HasControl(lib: Library, s: string) { exists c | c in s :: lib.control(c) }

  predicate ValidContentType(lib: Library, s: string) {
    !lib.blank(s) && |s| <= MAX_CONTENT_TYPE && !HasControl(lib, s)
  }

  predicate ValidEntry(lib: Library, key: string, value: string) {
    && !lib.blank(key) && !lib.blank(value)
    && |key| <= MAX_KEY && |value| <= MAX_VALUE
    && !HasControl(lib, key) && !HasControl(lib, value)
    && !lib.absolute(key) && !lib.absolute(value)
  }

  /** The running total of the validation loop, over the entries in any order. */
  ghost function TotalLength(m: map<string, string>): nat {
    if m == map[] then 0 else
      var k :| k in m;
      |k| + |m[k]| + TotalLength(m - {k})
  }

  lemma {:induction false} TotalLengthOf(m: map<string, string>, k: string)
    requires k in m
    ensures TotalLength(m) == |k| + |m[k]| + TotalLength(m - {k})
    decreases |m|
  {
    var j :| j in m && TotalLength(m) == |j| + |m[j]| + TotalLength(m - {j});
    if j != k {
      TotalLengthOf(m - {j}, k);
      TotalLengthOf(m - {k}, j);
      assert m - {j} - {k} == m - {k} - {j};
    }
  }

  ghost predicate ValidEntries(lib: Library, m: map<string, string>) {
    && |m| <= MAX_ENTRIES
    && (forall k | k in m :: ValidEntry(lib, k, m[k]))
    && TotalLength(m) <= MAX_TOTAL
  }

  // --- URIs ---

  function Rest(backend: string, key: string): string { "//" + backend + ("/" + key) }

  /** blob://backend/key */
  function Canonical(backend: string, key: string): string { "blob:" + Rest(backend, key) }

  /** Index of the first character that is in `stop`, or the length. */
  function IndexOf(s: string, stop: set<char>): (i: nat)
    ensures i <= |s|
    ensures i < |s| ==> s[i] in stop
    ensures forall j | 0 <= j < i :: s[j] !in stop
  {
    if s == [] || s[0] in stop then 0 else 1 + IndexOf(s[1..], stop)
  }

  function LeftStripped(s: string): string {
    if s != [] && s[0] == ' ' then LeftStripped(s[1..]) else s
  }

  function Lower(s: string): string {
    seq(|s|, i requires 0 <= i < |s| => if 'A' <= s[i] <= 'Z' then s[i] + 32 as char else s[i])
  }

  /** What `urlsplit` leaves after "blob:"; the scheme is compared without case. */
  function AfterScheme(url: string): Option<string> {
    var colon := IndexOf(url, {':'});
    if colon == |url| || Lower(url[..colon]) != "blob" then None else Some(url[colon + 1..])
  }

  /** The path, query and fragment of a text that names this backend. */
  function AfterBackend(rest: string, backend: string): Option<string> {
    if !("//" <= rest) then None else
      var slash := IndexOf(rest[2..], {'/', '?', '#'});
      if rest[2..][..slash] != backend then None else Some(rest[2..][slash..])
  }

  /** One path segment that is a key; an empty query or fragment is not seen. */
  function ParsePath(text: string): Option<string> {
    var hash := IndexOf(text, {'#'});
    var mark := IndexOf(text[..hash], {'?'});
    if hash + 1 < |text| || mark + 1 < hash then None
    else
      var path := text[..mark];
      if path == [] || path[0] != '/' || '/' in path[1..] || !IsKey(path[1..]) then None
      else Some(path[1..])
  }

  predicate Accepted(lib: Library, uri: string) {
    |uri| <= MAX_URI && !HasControl(lib, uri) && '%' !in uri && '\\' !in uri
  }

  function ParseUri(lib: Library, uri: string, backend: string): (r: Option<string>)
    ensures r.Some? ==> IsKey(r.value)
  {
    if !Accepted(lib, uri) then None else
      match AfterScheme(LeftStripped(uri))
      case None => None
      case Some(rest) =>
        match AfterBackend(rest, backend)
        case None => None
        case Some(path) => ParsePath(path)
  }

  lemma {:induction false} IndexOfAfter(a: string, b: string, stop: set<char>)
    requires forall c | c in a :: c !in stop
    ensures IndexOf(a + b, stop) == |a| + IndexOf(b, stop)
  {
    if a == [] {
      assert a + b == b;
    } else {
      assert a[0] in a && (a + b)[1..] == a[1..] + b;
      IndexOfAfter(a[1..], b, stop);
    }
  }

  lemma NoneOf(a: string, stop: set<char>)
    requires forall c | c in a :: c !in stop
    ensures IndexOf(a, stop) == |a|
  {
    IndexOfAfter(a, [], stop);
    assert a + [] == a;
  }

  predicate IsBackend(backend: string) {
    0 < |backend| <= 16 && forall c | c in backend :: 'a' <= c <= 'z'
  }

  predicate IsPlain(s: string) { forall c | c in s :: ' ' <= c <= '~' && c != '%' && c != '\\' }

  lemma PathOfKey(key: string)
    requires IsKey(key)
    ensures ParsePath("/" + key) == Some(key)
  {
    var text := "/" + key;
    NoneOf(text, {'#'});
    NoneOf(text, {'?'});
    assert text[..|text|] == text && text[1..] == key;
  }

  lemma BackendOf(backend: string, path: string)
    requires IsBackend(backend) && path != [] && path[0] == '/'
    ensures AfterBackend("//" + backend + path, backend) == Some(path)
  {
    var rest := "//" + backend + path;
    assert rest[2..] == backend + path;
    IndexOfAfter(backend, path, {'/', '?', '#'});
    assert (backend + path)[..|backend|] == backend && (backend + path)[|backend|..] == path;
  }

  lemma SchemeOf(scheme: string, rest: string)
    requires Lower(scheme) == "blob"
    ensures AfterScheme(scheme + ":" + rest) == Some(rest)
    ensures LeftStripped(scheme + ":" + rest) == scheme + ":" + rest
    ensures IsPlain(scheme)
  {
    var url := scheme + ":" + rest;
    assert |scheme| == |Lower(scheme)| == 4;
    forall i | 0 <= i < 4
      ensures scheme[i] != ':' && 'A' <= scheme[i] <= 'z' && scheme[i] != '\\'
    {
      assert Lower(scheme)[i] == "blob"[i];
    }
    assert url == scheme + (":" + rest) && url[0] == scheme[0];
    IndexOfAfter(scheme, ":" + rest, {':'});
    assert url[..4] == scheme && url[5..] == rest;
  }

  /** A text that starts with any number of blanks, "blob:" in any case, then this backend's path. */
  function Spelling(blanks: nat, scheme: string, backend: string, key: string): string {
    seq(blanks, _ => ' ') + (scheme + ":" + Rest(backend, key))
  }

  lemma {:induction false} BlanksStripped(blanks: nat, s: string)
    requires LeftStripped(s) == s
    ensures LeftStripped(seq(blanks, _ => ' ') + s) == s
  {
    var t: string := seq(blanks, _ => ' ');
    if blanks == 0 {
      assert t + s == s;
    } else {
      assert (t + s)[1..] == seq(blanks - 1, _ => ' ') + s;
      BlanksStripped(blanks - 1, s);
    }
  }

  lemma SpellingAccepted(lib: Library, blanks: nat, scheme: string, backend: string, key: string)
    requires lib.TextLaw() && IsBackend(backend) && IsKey(key) && IsPlain(scheme) && |scheme| == 4 && blanks <= 128
    ensures Accepted(lib, Spelling(blanks, scheme, backend, key))
  {
    var uri := Spelling(blanks, scheme, backend, key);
    assert IsPlain("//") && IsPlain("/") && IsPlain(":");
    assert IsPlain(backend) && IsPlain(key) && IsPlain(seq(blanks, _ => ' '));
    assert IsPlain(uri);
  }

  /** Leading blanks and any spelling of the scheme reach the same blob. */
  lemma SpellingParses(lib: Library, blanks: nat, scheme: string, backend: string, key: string)
    requires lib.TextLaw() && IsBackend(backend) && IsKey(key) && Lower(scheme) == "blob" && blanks <= 128
    ensures ParseUri(lib, Spelling(blanks, scheme, backend, key), backend) == Some(key)
  {
    hide Accepted, AfterScheme, AfterBackend, ParsePath, LeftStripped;
    var rest := Rest(backend, key);
    SchemeOf(scheme, rest);
    BlanksStripped(blanks, scheme + ":" + rest);
    BackendOf(backend, "/" + key);
    PathOfKey(key);
    assert |scheme| == |Lower(scheme)|;
    SpellingAccepted(lib, blanks, scheme, backend, key);
  }

  lemma CanonicalParses(lib: Library, backend: string, key: string)
    requires lib.TextLaw() && IsBackend(backend) && IsKey(key)
    ensures ParseUri(lib, Canonical(backend, key), backend) == Some(key)
  {
    assert Lower("blob") == "blob";
    hide ParseUri, Canonical, Spelling, Library.TextLaw, Lower;
    SpellingParses(lib, 0, "blob", backend, key);
    CanonicalIsASpelling(backend, key);
  }

  lemma CanonicalIsASpelling(backend: string, key: string)
    ensures Canonical(backend, key) == Spelling(0, "blob", backend, key)
  {
    var rest := "://" + backend + "/" + key;
    var none: string := seq(0, _ => ' ');
    assert none + ("blob:" + Rest(backend, key)) == "blob:" + Rest(backend, key);
  }

  /**
     The texts that name one blob: any number of blanks, "blob" in any case, the backend and the key,
     and at most an empty query and an empty fragment.
   */
  ghost predicate Names(uri: string, blanks: nat, scheme: string, backend: string, key: string, tail: string) {
    && |scheme| == 4 && scheme[0] in "bB" && scheme[1] in "lL" && scheme[2] in "oO" && scheme[3] in "bB"
    && tail in {"", "?", "#", "?#"}
    && uri == seq(blanks, _ => ' ') + (scheme + (":" + ("//" + backend + ("/" + key + tail))))
  }

  /** Exactly these texts parse, if they are short and free of control characters, percent signs and backslashes. */
  lemma ParsesIff(lib: Library, uri: string, backend: string, key: string)
    requires IsBackend(backend)
    ensures ParseUri(lib, uri, backend) == Some(key) <==>
      && |uri| <= 256 && (forall c | c in uri :: !lib.control(c) && c != '%' && c != '\\')
      && |key| == 32 && (forall c | c in key :: '0' <= c <= '9' || 'a' <= c <= 'f')
      && exists blanks, scheme, tail :: Names(uri, blanks, scheme, backend, key, tail)
  {
    if ParseUri(lib, uri, backend) == Some(key) {
      ParsedIsNamed(lib, uri, backend, key);
    }
    if blanks, scheme, tail :| Names(uri, blanks, scheme, backend, key, tail) {
      if Accepted(lib, uri) && IsKey(key) {
        NamedParses(lib, uri, blanks, scheme, backend, key, tail);
      }
    }
  }

  lemma NamedParses(lib: Library, uri: string, blanks: nat, scheme: string, backend: string, key: string, tail: string)
    requires IsBackend(backend) && IsKey(key) && Accepted(lib, uri) && Names(uri, blanks, scheme, backend, key, tail)
    ensures ParseUri(lib, uri, backend) == Some(key)
  {
    hide Accepted, AfterScheme, AfterBackend, ParsePath, LeftStripped, IsKey;
    var path := "/" + key + tail;
    var rest := "//" + backend + path;
    assert Lower(scheme) == "blob";
    SchemeOf(scheme, rest);
    assert scheme + (":" + rest) == scheme + ":" + rest;
    BlanksStripped(blanks, scheme + ":" + rest);
    BackendOf(backend, path);
    PathWithTail(key, tail);
  }

  lemma PathWithTail(key: string, tail: string)
    requires IsKey(key) && tail in {"", "?", "#", "?#"}
    ensures ParsePath("/" + key + tail) == Some(key)
  {
    var path := "/" + key;
    var text := path + tail;
    assert IndexOf("", {'#'}) == 0 && IndexOf("#", {'#'}) == 0;
    IndexOfAfter(path, tail, {'#'});
    if tail == "?" || tail == "?#" {
      assert tail[0] == '?' && tail[1..] == (if tail == "?" then "" else "#");
    }
    var hash := IndexOf(text, {'#'});
    var front := tail[..hash - |path|];
    assert text[..hash] == path + front;
    IndexOfAfter(path, front, {'?'});
    assert front == "" || front[0] == '?';
    assert text[..|path|] == path && path[1..] == key;
  }

  lemma {:induction false} StrippedIs(s: string) returns (blanks: nat)
    ensures s == seq(blanks, _ => ' ') + LeftStripped(s)
  {
    if s != [] && s[0] == ' ' {
      var n := StrippedIs(s[1..]);
      blanks := n + 1;
      assert seq(n + 1, _ => ' ') == [' '] + seq(n, _ => ' ');
      assert s == [s[0]] + s[1..];
    } else {
      blanks := 0;
    }
  }

  lemma ParsedIsNamed(lib: Library, uri: string, backend: string, key: string)
    requires ParseUri(lib, uri, backend) == Some(key)
    ensures Accepted(lib, uri) && IsKey(key) && exists blanks, scheme, tail :: Names(uri, blanks, scheme, backend, key, tail)
  {
    hide Accepted, LeftStripped, IsKey, IndexOf, AfterScheme, AfterBackend, ParsePath, Names;
    var blanks := StrippedIs(uri);
    var rest := AfterScheme(LeftStripped(uri)).value;
    var scheme := SchemeIs(LeftStripped(uri), rest);
    var path := AfterBackend(rest, backend).value;
    BackendIs(rest, backend, path);
    var tail := PathIsNamed(path, key);
    assert Names(uri, blanks, scheme, backend, key, tail) by {
      NamedAll(uri, blanks, scheme, backend, key, tail, rest);
    }
  }

  lemma NamedAll(uri: string, blanks: nat, scheme: string, backend: string, key: string, tail: string, rest: string)
    requires Lower(scheme) == "blob" && tail in {"", "?", "#", "?#"} && rest == "//" + backend + ("/" + key + tail)
    requires uri == seq(blanks, _ => ' ') + (scheme + (":" + rest))
    ensures Names(uri, blanks, scheme, backend, key, tail)
  {
    assert |scheme| == |Lower(scheme)| == 4;
    forall i | 0 <= i < 4
      ensures scheme[i] == "blob"[i] || scheme[i] == "BLOB"[i]
    {
      assert Lower(scheme)[i] == "blob"[i];
    }
  }

  lemma SchemeIs(url: string, rest: string) returns (scheme: string)
    requires AfterScheme(url) == Some(rest)
    ensures url == scheme + (":" + rest) && Lower(scheme) == "blob"
  {
    hide IndexOf, Lower;
    scheme := url[..IndexOf(url, {':'})];
  }

  lemma BackendIs(rest: string, backend: string, path: string)
    requires AfterBackend(rest, backend) == Some(path)
    ensures rest == "//" + backend + path
  {
    hide IndexOf;
    assert rest == "//" + rest[2..];
  }

  lemma PathIsNamed(path: string, key: string) returns (tail: string)
    requires ParsePath(path) == Some(key)
    ensures tail in {"", "?", "#", "?#"} && path == "/" + key + tail
  {
    hide IsKey, IndexOf;
    var hash := IndexOf(path, {'#'});
    var mark := IndexOf(path[..hash], {'?'});
    tail := path[mark..];
    var query, fragment := path[mark..hash], path[hash..];
    assert path[..mark] == [path[0]] + path[..mark][1..] == "/" + key;
    assert path == path[..mark] + tail && tail == query + fragment;
    if mark < hash {
      assert path[..hash][mark] == '?' && query == [path[mark]];
    }
    if hash < |path| {
      assert path[hash] == '#' && fragment == [path[hash]];
    }
    assert query in {"", "?"} && fragment in {"", "#"};
    assert "" + "" == "" && "?" + "" == "?" && "" + "#" == "#" && "?" + "#" == "?#";
  }

  // --- the sidecar ---

  ghost predicate ValidMetadata(lib: Library, m: Metadata, limit: nat) {
    && |m.uri| <= MAX_URI && IsChecksum(m.checksum) && 0 <= m.size <= limit && m.size < MAX_LENGTH
    && ValidContentType(lib, m.contentType) && ValidEntries(lib, m.entries)
  }

  function Texts(m: map<string, string>): map<string, Json> { map k | k in m :: Text(m[k]) }

  function Strings(members: map<string, Json>): map<string, string> {
    map k | k in members && members[k].Text? :: members[k].text
  }

  function Sidecar(m: Metadata): Json {
    Object(map[][
        "checksum_sha256" := Text(m.checksum)][
        "content_type" := Text(m.contentType)][
        "metadata" := Object(Texts(m.entries))][
        "size_bytes" := Number(m.size)][
        "uri" := Text(m.uri)])
  }

  predicate AllText(members: map<string, Json>) { forall k | k in members :: members[k].Text? }

  /** The shape checks on a parsed sidecar. */
  predicate ShapeOk(v: Json, uri: string, limit: nat) {
    && v.Object?
    && v.members.Keys == {"checksum_sha256", "content_type", "metadata", "size_bytes", "uri"}
    && v.members["uri"] == Text(uri)
    && v.members["checksum_sha256"].Text? && IsChecksum(v.members["checksum_sha256"].text)
    && v.members["size_bytes"].Number? && 0 <= v.members["size_bytes"].number <= limit
    && v.members["metadata"].Object? && AllText(v.members["metadata"].members)
    && v.members["content_type"].Text?
  }

  function Described(v: Json, uri: string): Metadata
    requires exists limit :: ShapeOk(v, uri, limit)
  {
    Metadata(uri, v.members["checksum_sha256"].text, v.members["size_bytes"].number,
             v.members["content_type"].text, Strings(v.members["metadata"].members))
  }

  ghost function Deserialized(lib: Library, raw: seq<byte>, uri: string, limit: nat): Answer<Metadata> {
    match lib.loads(raw)
    case None => Failed(StorageError)
    case Some(v) =>
      if !ShapeOk(v, uri, limit) then Failed(StorageError) else
        var m := Described(v, uri);
        if ValidContentType(lib, m.contentType) && ValidEntries(lib, m.entries) then Got(m) else Failed(StorageError)
  }

  lemma Loaded(lib: Library, v: Json)
    requires lib.Lawful()
    ensures lib.loads(lib.dumps(v)) == Some(v)
  {
  }

  lemma Joined(lib: Library, m: map<string, Json>, k: string, v: Json)
    requires lib.Lawful() && k !in m
    ensures |lib.dumps(Object(m[k := v]))| <= |lib.dumps(Object(m))| + 12 * |k| + 4 + |lib.dumps(v)|
  {
  }

  lemma Quoted(lib: Library, m: map<string, Json>, k: string, s: string)
    requires lib.Lawful() && k !in m
    ensures |lib.dumps(Object(m[k := Text(s)]))| <= |lib.dumps(Object(m))| + 12 * |k| + 12 * |s| + 6
  {
    Joined(lib, m, k, Text(s));
    assert |lib.dumps(Text(s))| <= 12 * |s| + 2;
  }

  /** What `put` writes is what a read gets back, under the URI that was written and no other. */
  lemma SidecarRoundTrip(lib: Library, m: Metadata, uri: string, limit: nat)
    requires lib.Lawful() && ValidMetadata(lib, m, limit)
    ensures Deserialized(lib, lib.dumps(Sidecar(m)), uri, limit) == if uri == m.uri then Got(m) else Failed(StorageError)
  {
    Loaded(lib, Sidecar(m));
    hide Library.Lawful, ValidContentType, ValidEntries, IsChecksum;
    SidecarShape(m, uri, limit);
  }

  lemma SidecarShape(m: Metadata, uri: string, limit: nat)
    requires IsChecksum(m.checksum) && 0 <= m.size <= limit
    ensures ShapeOk(Sidecar(m), uri, limit) <==> uri == m.uri
    ensures uri == m.uri ==> Described(Sidecar(m), uri) == m
  {
    hide IsChecksum;
    assert Strings(Texts(m.entries)) == m.entries;
  }

  /** A sidecar is accepted exactly when it is the one that `put` writes for valid metadata under this URI. */
  lemma AcceptedIff(lib: Library, raw: seq<byte>, uri: string, limit: nat, m: Metadata)
    ensures Deserialized(lib, raw, uri, limit) == Got(m) <==>
      && lib.loads(raw) == Some(Object(map[
            "checksum_sha256" := Text(m.checksum), "content_type" := Text(m.contentType),
            "metadata" := Object(map k | k in m.entries :: Text(m.entries[k])),
            "size_bytes" := Number(m.size), "uri" := Text(m.uri)]))
      && m.uri == uri && 0 <= m.size <= limit
      && |m.checksum| == 64 && (forall c | c in m.checksum :: '0' <= c <= '9' || 'a' <= c <= 'f')
      && !lib.blank(m.contentType) && |m.contentType| <= 255 && (forall c | c in m.contentType :: !lib.control(c))
      && ValidEntries(lib, m.entries)
  {
    hide ValidEntries;
    var v := Object(map["checksum_sha256" := Text(m.checksum), "content_type" := Text(m.contentType),
                        "metadata" := Object(map k | k in m.entries :: Text(m.entries[k])),
                        "size_bytes" := Number(m.size), "uri" := Text(m.uri)]);
    assert v == Sidecar(m);
    if lib.loads(raw) == Some(v) {
      if IsChecksum(m.checksum) && 0 <= m.size <= limit {
        SidecarShape(m, uri, limit);
      }
    } else if lib.loads(raw).Some? && ShapeOk(lib.loads(raw).value, uri, limit) {
      ShapeIsSidecar(lib.loads(raw).value, uri, limit);
    }
  }

  lemma ShapeIsSidecar(v: Json, uri: string, limit: nat)
    requires ShapeOk(v, uri, limit)
    ensures v == Sidecar(Described(v, uri)) && Described(v, uri).uri == uri
  {
    hide IsChecksum;
    var entries := v.members["metadata"].members;
    assert Texts(Strings(entries)) == entries;
    assert v.members == Sidecar(Described(v, uri)).members;
  }

  lemma {:induction false} TextsFit(lib: Library, m: map<string, string>)
    requires lib.Lawful()
    ensures |lib.dumps(Object(Texts(m)))| <= 2 + 12 * TotalLength(m) + 6 * |m|
    decreases |m|
  {
    if m == map[] {
      assert Texts(m) == map[];
    } else {
      var k :| k in m;
      var rest := m - {k};
      TextsFit(lib, rest);
      Quoted(lib, Texts(rest), k, m[k]);
      hide Library.Lawful;
      TotalLengthOf(m, k);
      assert Texts(m) == Texts(rest)[k := Text(m[k])];
    }
  }

  function Power(d: nat): nat { if d == 0 then 1 else 10 * Power(d - 1) }

  lemma {:induction false} FewDigits(n: nat, d: nat)
    requires d > 0 && n < Power(d)
    ensures Digits(n) <= d
  {
    if n >= 10 {
      FewDigits(n / 10, d - 1);
    }
  }

  lemma SizeDigits(n: nat)
    requires n < MAX_LENGTH
    ensures Digits(n) <= 20
  {
    assert Power(5) == 100_000;
    assert Power(10) == 100_000 * Power(5);
    assert Power(15) == 100_000 * Power(10);
    assert Power(20) == 100_000 * Power(15);
    FewDigits(n, 20);
  }

  /** Every sidecar an accepted `put` writes can be read back. */
  lemma SidecarFits(lib: Library, m: Metadata, limit: nat)
    requires lib.Lawful() && ValidMetadata(lib, m, limit)
    ensures |lib.dumps(Sidecar(m))| <= MAX_SIDECAR
  {
    TextsFit(lib, m.entries);
    SizeDigits(m.size);
    assert |lib.dumps(Object(map[]))| == 2;
    assert |lib.dumps(Number(m.size))| <= Digits(m.size);
    var m0: map<string, Json> := map[];
    var m1 := m0["checksum_sha256" := Text(m.checksum)];
    var m2 := m1["content_type" := Text(m.contentType)];
    var m3 := m2["metadata" := Object(Texts(m.entries))];
    var m4 := m3["size_bytes" := Number(m.size)];
    Quoted(lib, m0, "checksum_sha256", m.checksum);
    Quoted(lib, m1, "content_type", m.contentType);
    Joined(lib, m2, "metadata", Object(Texts(m.entries)));
    Joined(lib, m3, "size_bytes", Number(m.size));
    Quoted(lib, m4, "uri", m.uri);
    hide Library.Lawful;
    assert Sidecar(m) == Object(m4["uri" := Text(m.uri)]);
  }

  // --- validation of caller metadata, as a loop over the items ---

  method ValidateEntries(lib: Library, m: map<string, string>) returns (ok: bool)
    ensures ok <==> ValidEntries(lib, m)
    ensures ok <==> |m| <= 32 && TotalLength(m) <= 8192 && forall k | k in m ::
      && !lib.blank(k) && !lib.blank(m[k]) && |k| <= 64 && |m[k]| <= 1024 && !lib.absolute(k) && !lib.absolute(m[k])
      && (forall c | c in k :: !lib.control(c)) && (forall c | c in m[k] :: !lib.control(c))
  {
    if |m| > MAX_ENTRIES {
      return false;
    }
    var left, total := m, 0;
    while left != map[]
      invariant forall k | k in left :: k in m && left[k] == m[k]
      invariant forall k | k in m && k !in left :: ValidEntry(lib, k, m[k])
      invariant total + TotalLength(left) == TotalLength(m) && total <= MAX_TOTAL
      decreases |left|
    {
      var k :| k in left;
      if !ValidEntry(lib, k, left[k]) {
        return false;
      }
      TotalLengthOf(left, k);
      total := total + |k| + |left[k]|;
      if total > MAX_TOTAL {
        return false;
      }
      left := left - {k};
    }
    ok := true;
  }

  method Deserialize(lib: Library, raw: seq<byte>, uri: string, limit: nat) returns (r: Answer<Metadata>)
    ensures r == Deserialized(lib, raw, uri, limit)
  {
    var parsed := lib.loads(raw);
    if parsed.None? || !ShapeOk(parsed.value, uri, limit) {
      return Failed(StorageError);
    }
    var m := Described(parsed.value, uri);
    var valid := ValidateEntries(lib, m.entries);
    r := if ValidContentType(lib, m.contentType) && valid then Got(m) else Failed(StorageError);
  }
}
