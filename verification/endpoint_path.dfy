/**
 The path of an endpoint: checks, percent-encoding and expansion.  Parameter values are taken as
 their UTF-8 bytes; the regular expression that finds placeholders is a parameter.
 Percent-encoding is that of section 2.1 of RFC 3986.
 */
module EndpointPath {
  import opened Basics
  import opened EndpointTemplate

  datatype Result<+T> = Ok(value: T) | Err(error: Error)
  datatype Error = ParametersMismatch | PlaceholdersMismatch | ParameterUnsafe | PathUnsafe

  // --- percent-encoding ---

  predicate Unreserved(b: byte) {
    ('a' as int <= b <= 'z' as int) || ('A' as int <= b <= 'Z' as int) || ('0' as int <= b <= '9' as int)
    || b == '-' as int || b == '.' as int || b == '_' as int || b == '~' as int
  }

  function Hex(d: nat): char
    requires d < 16
  {
    "0123456789ABCDEF"[d]
  }

  function HexValue(c: char): (d: nat)
    ensures d < 16
  {
    if '0' <= c <= '9' then c as int - '0' as int
    else if 'A' <= c <= 'F' then c as int - 'A' as int + 10
    else 0
  }

  function Quote(value: seq<byte>): string {
    if value == [] then "" else QuoteByte(value[0]) + Quote(value[1..])
  }

  function Unquote(s: string): seq<byte> {
    if s == "" then []
    else if s[0] == '%' && |s| >= 3 then [HexValue(s[1]) * 16 + HexValue(s[2])] + Unquote(s[3..])
    else [if s[0] as int < 256 then s[0] as int else 0] + Unquote(s[1..])
  }

  predicate IsSafe(c: char) { (c as int < 256 && Unreserved(c as int)) || c == '%' }

  lemma {:induction false} QuoteRoundTrip(value: seq<byte>)
    ensures Unquote(Quote(value)) == value
  {
    if value != [] {
      QuoteRoundTrip(value[1..]);
      UnquoteByte(value[0], Quote(value[1..]));
      assert value == [value[0]] + value[1..];
    }
  }

  function QuoteByte(b: byte): string { if Unreserved(b) then [b as char] else ['%', Hex(b / 16), Hex(b % 16)] }

  lemma UnquoteByte(b: byte, rest: string)
    ensures Unquote(QuoteByte(b) + rest) == [b] + Unquote(rest)
  {
    var s := QuoteByte(b) + rest;
    if Unreserved(b) {
      assert s[1..] == rest;
    } else {
      HexDigits(b / 16);
      HexDigits(b % 16);
      assert s[0] == '%' && s[1] == Hex(b / 16) && s[2] == Hex(b % 16) && s[3..] == rest;
    }
  }

  lemma {:induction false} QuotedIsSafe(value: seq<byte>)
    ensures forall c | c in Quote(value) :: IsSafe(c)
  {
    if value != [] {
      HexDigits(value[0] / 16);
      HexDigits(value[0] % 16);
      QuotedIsSafe(value[1..]);
    }
  }

  lemma HexDigits(d: nat)
    requires d < 16
    ensures HexValue(Hex(d)) == d && IsSafe(Hex(d))
  {
  }

  /**
     Percent-encoding with no character declared safe, byte by byte: letters, digits and `-._~` stay,
     every other byte becomes a percent sign and its two upper-case hexadecimal digits.
   */
  lemma {:induction false} QuotedBytes(value: seq<byte>)
    ensures Quote(value) ==
      if value == [] then "" else
        var b := value[0];
        (if 0x41 <= b <= 0x5A || 0x61 <= b <= 0x7A || 0x30 <= b <= 0x39 || b == 0x2D || b == 0x2E || b == 0x5F || b == 0x7E
          then [b as char]
          else ['%', "0123456789ABCDEF"[b / 16], "0123456789ABCDEF"[b % 16]]) + Quote(value[1..])
    ensures forall c | c in Quote(value) ::
      'A' <= c <= 'Z' || 'a' <= c <= 'z' || '0' <= c <= '9' || c == '-' || c == '.' || c == '_' || c == '~' || c == '%'
  {
    if value != [] {
      QuotedBytes(value[1..]);
      QuotedDigit(value[0] / 16);
      QuotedDigit(value[0] % 16);
    }
  }

  lemma QuotedDigit(d: nat)
    requires d < 16
    ensures Hex(d) == "0123456789ABCDEF"[d] && ('0' <= Hex(d) <= '9' || 'A' <= Hex(d) <= 'F')
  {
  }

  lemma QuotedIsPlain(value: seq<byte>)
    ensures NoBraces(Quote(value)) && '/' !in Quote(value)
  {
    QuotedIsSafe(value);
    assert !IsSafe('{') && !IsSafe('}') && !IsSafe('/');
  }

  predicate UnsafeParameter(value: seq<byte>) {
    value == ['.' as int] || value == ['.' as int, '.' as int]
    || '/' as int in value || '\\' as int in value || '%' as int in value
  }

  predicate Contains(s: string, part: string) { exists k | 0 <= k <= |s| :: part <= s[k..] }

  predicate UnsafePath(path: string) {
    path == "" || path[0] != '/' || '\\' in path || Contains(path + "/", "/../") || Contains(path + "/", "/./")
  }

  // --- paths as segments ---

  /** `str.split("/")`. */
  function Split(s: string): (r: seq<string>)
    ensures r != []
  {
    if s == "" then [""]
    else
      var rest := Split(s[1..]);
      if s[0] == '/' then [""] + rest else [[s[0]] + rest[0]] + rest[1..]
  }

  lemma {:induction false} FirstSegment(s: string, x: string)
    requires '/' !in x
    ensures x + "/" <= s + "/" <==> Split(s)[0] == x
  {
    if s == "" {
      assert x != "" ==> (x + "/")[0] == x[0] && x[0] in x;
    } else if s[0] == '/' {
      assert x != "" ==> (x + "/")[0] == x[0] && x[0] in x;
      assert (s + "/")[..1] == "/";
    } else if x == "" {
      assert (x + "/")[0] == '/' && (s + "/")[0] == s[0];
    } else {
      FirstSegment(s[1..], x[1..]);
      assert s + "/" == [s[0]] + (s[1..] + "/") && x + "/" == [x[0]] + (x[1..] + "/") && x == [x[0]] + x[1..];
      assert x + "/" <= s + "/" <==> x[0] == s[0] && x[1..] + "/" <= s[1..] + "/" by {
        OneMore(x[0], x[1..] + "/", s[0], s[1..] + "/");
      }
    }
  }

  lemma OneMore(c: char, x: string, d: char, y: string)
    ensures [c] + x <= [d] + y <==> c == d && x <= y
  {
    if [c] + x <= [d] + y {
      assert ([c] + x)[0] == ([d] + y)[0];
      assert x == ([c] + x)[1..] && x == ([d] + y)[1..][..|x|];
    }
  }

  lemma ContainsLater(s: string, part: string)
    requires s != "" && part != ""
    ensures Contains(s, part) <==> part <= s || Contains(s[1..], part)
  {
    if Contains(s, part) {
      var k :| 0 <= k <= |s| && part <= s[k..];
      if k > 0 {
        assert s[k..] == s[1..][k - 1..];
      }
    }
    if part <= s {
      assert part <= s[0..];
    }
    if Contains(s[1..], part) {
      var k :| 0 <= k <= |s[1..]| && part <= s[1..][k..];
      assert s[1..][k..] == s[k + 1..];
    }
  }

  lemma {:induction false} LaterSegment(s: string, x: string)
    requires '/' !in x
    ensures Contains(s + "/", "/" + x + "/") <==> x in Split(s)[1..]
  {
    var part := "/" + x + "/";
    assert part == ['/'] + (x + "/");
    if s == "" {
      assert |part| > |s + "/"|;
    } else {
      var rest := s[1..];
      LaterSegment(rest, x);
      ContainsLater(s + "/", part);
      assert (s + "/")[1..] == rest + "/" && s + "/" == [s[0]] + (rest + "/");
      OneMore('/', x + "/", s[0], rest + "/");
      FirstSegment(rest, x);
      assert s[0] == '/' ==> Split(s)[1..] == Split(rest) == [Split(rest)[0]] + Split(rest)[1..];
    }
  }

  /** A path is refused unless it starts with a slash, has no backslash, and no segment of it is "." or "..". */
  lemma UnsafePathIff(path: string)
    ensures UnsafePath(path) <==>
      !("/" <= path) || '\\' in path || "." in Split(path) || ".." in Split(path)
  {
    assert "/" + ".." + "/" == "/../" && "/" + "." + "/" == "/./";
    LaterSegment(path, "..");
    LaterSegment(path, ".");
    if "/" <= path {
      assert path[0] == "/"[0] && Split(path)[0] == "";
      assert Split(path) == [""] + Split(path)[1..];
    } else if path != "" {
      assert path[..1] == [path[0]];
    }
  }

  function Quoted(values: map<string, seq<byte>>): map<string, string> { map n | n in values :: Quote(values[n]) }

  // --- templates on which the loop is right for all values ---

  predicate NameChar(c: char) { 'a' <= c <= 'z' || '0' <= c <= '9' || c == '_' }

  predicate IsText(s: string) { forall c | c in s :: NameChar(c) }

  /** What the regular expression takes for a placeholder's name. */
  predicate IsName(s: string) { 1 <= |s| <= 64 && 'a' <= s[0] <= 'z' && IsText(s) }

  /** Names that no request may give a value for. */
  const RESERVED := {"url", "uri", "host", "port", "path", "file", "filename", "sql", "headers", "cookie",
                     "authorization", "credential", "provider"}

  /** How many characters the bytes encode: continuation bytes do not count. */
  function Characters(value: seq<byte>): (n: nat)
    ensures n <= |value|
  {
    if value == [] then 0 else (if 0x80 <= value[0] < 0xC0 then 0 else 1) + Characters(value[1..])
  }

  /** The check of a request on its values; `trimmed` says that a text has no blanks at its ends. */
  predicate Normalized(value: seq<byte>, trimmed: seq<byte> -> bool) {
    1 <= Characters(value) <= 512 && trimmed(value) && forall b | b in value :: 32 <= b && b != 127
  }

  /** Some values of the earlier placeholders, the same at each place, make the text spell `name`. */
  predicate CanType(t: Template, earlier: set<string>, name: string, chosen: map<string, string>) {
    t != [] &&
    match t[0]
    case Ch(c) => if c == '}' then name == "" else name != "" && name[0] == c && CanType(t[1..], earlier, name[1..], chosen)
    case Hole(h) =>
      if h in chosen then chosen[h] <= name && CanType(t[1..], earlier, name[|chosen[h]|..], chosen)
      else h in earlier && exists k :: 1 <= k <= |name| && CanType(t[1..], earlier, name[k..], chosen[h := name[..k]])
  }

  predicate CanSpell(t: Template, earlier: set<string>, name: string) {
    t != [] && ((t[0] == Ch('{') && CanType(t[1..], earlier, name, map[])) || CanSpell(t[1..], earlier, name))
  }

  /** No name can be spelled at its turn: a condition on the template and the names alone. */
  predicate AlwaysClean(t: Template, names: seq<string>, earlier: set<string>)
    decreases |names|
  {
    names == [] || (!CanSpell(t, earlier, names[0]) && AlwaysClean(t, names[1..], earlier + {names[0]}))
  }

  lemma {:induction false} TypedCan(t: Template, done: map<string, string>, name: string, chosen: map<string, string>)
    requires Typed(t, done, name) && forall h | h in chosen :: h in done && chosen[h] == done[h]
    requires forall h | h in done :: done[h] != ""
    ensures CanType(t, done.Keys, name, chosen)
  {
    match t[0]
    case Ch(c) => if c != '}' { TypedCan(t[1..], done, name[1..], chosen); }
    case Hole(h) =>
      var k := |done[h]|;
      if h in chosen {
        TypedCan(t[1..], done, name[k..], chosen);
      } else {
        assert done[h] == name[..k];
        TypedCan(t[1..], done, name[k..], chosen[h := name[..k]]);
      }
  }

  lemma {:induction false} SpellsCan(t: Template, done: map<string, string>, name: string)
    requires Spells(t, done, name) && forall h | h in done :: done[h] != ""
    ensures CanSpell(t, done.Keys, name)
  {
    if t[0] == Ch('{') && Typed(t[1..], done, name) {
      TypedCan(t[1..], done, name, map[]);
    } else {
      SpellsCan(t[1..], done, name);
    }
  }

  lemma {:induction false} TypedMore(t: Template, done: map<string, string>, more: map<string, string>, name: string)
    requires Typed(t, done, name) && forall h | h in done :: h in more && more[h] == done[h]
    ensures Typed(t, more, name)
  {
    match t[0]
    case Ch(c) => if c != '}' { TypedMore(t[1..], done, more, name[1..]); }
    case Hole(h) => TypedMore(t[1..], done, more, name[|done[h]|..]);
  }

  predicate AllTexts(m: map<string, string>) { forall h | h in m :: 1 <= |m[h]| <= 64 && IsText(m[h]) }

  /** The values that make it spell the name. */
  lemma {:induction false} Choose(t: Template, earlier: set<string>, name: string, chosen: map<string, string>) returns (all: map<string, string>)
    requires CanType(t, earlier, name, chosen) && IsText(name) && |name| <= 64 && AllTexts(chosen)
    ensures Typed(t, all, name) && AllTexts(all)
    ensures (forall h | h in chosen :: h in all && all[h] == chosen[h]) && forall h | h in all :: h in chosen || h in earlier
  {
    all := chosen;
    match t[0]
    case Ch(c) => if c != '}' { all := Choose(t[1..], earlier, name[1..], chosen); }
    case Hole(h) =>
      if h in chosen {
        all := Choose(t[1..], earlier, name[|chosen[h]|..], chosen);
      } else {
        var k :| 1 <= k <= |name| && CanType(t[1..], earlier, name[k..], chosen[h := name[..k]]);
        all := Choose(t[1..], earlier, name[k..], chosen[h := name[..k]]);
      }
  }

  lemma {:induction false} ChooseSpelling(t: Template, earlier: set<string>, name: string) returns (all: map<string, string>)
    requires CanSpell(t, earlier, name) && IsText(name) && |name| <= 64
    ensures Spells(t, all, name) && AllTexts(all) && forall h | h in all :: h in earlier
  {
    if t[0] == Ch('{') && CanType(t[1..], earlier, name, map[]) {
      all := Choose(t[1..], earlier, name, map[]);
    } else {
      all := ChooseSpelling(t[1..], earlier, name);
    }
  }

  lemma {:induction false} SpellsMore(t: Template, done: map<string, string>, more: map<string, string>, name: string)
    requires Spells(t, done, name) && forall h | h in done :: h in more && more[h] == done[h]
    ensures Spells(t, more, name)
  {
    if t[0] == Ch('{') && Typed(t[1..], done, name) {
      TypedMore(t[1..], done, more, name);
    } else {
      SpellsMore(t[1..], done, more, name);
    }
  }

  function ByteOf(c: char): byte
    requires NameChar(c)
  {
    c as int
  }

  function Bytes(s: string): (b: seq<byte>)
    requires IsText(s)
    ensures |b| == |s| && forall k | 0 <= k < |s| :: b[k] == s[k] as int && NameChar(s[k])
  {
    assert forall k | 0 <= k < |s| :: s[k] in s;
    seq(|s|, k requires 0 <= k < |s| => ByteOf(s[k]))
  }

  lemma BytesTail(s: string)
    requires IsText(s) && s != ""
    ensures IsText(s[1..]) && NameChar(s[0]) && Bytes(s)[0] == ByteOf(s[0]) && Bytes(s)[1..] == Bytes(s[1..])
  {
  }

  /** A text of name characters is quoted as itself. */
  lemma {:induction false} TextQuotesItself(s: string)
    requires IsText(s)
    ensures Quote(Bytes(s)) == s
  {
    if s != "" {
      BytesTail(s);
      hide IsText, Bytes;
      TextQuotesItself(s[1..]);
      assert [s[0]] + s[1..] == s;
    }
  }

  lemma {:induction false} TextHasCharacters(s: string)
    requires IsText(s)
    ensures Characters(Bytes(s)) == |s|
  {
    if s != "" {
      BytesTail(s);
      hide IsText, Bytes;
      TextHasCharacters(s[1..]);
    }
  }

  /** It is a safe value, and one that a request may have. */
  lemma TextIsSafe(s: string, trimmed: seq<byte> -> bool)
    requires IsText(s) && 1 <= |s| <= 512 && trimmed(Bytes(s))
    ensures !UnsafeParameter(Bytes(s)) && Normalized(Bytes(s), trimmed)
  {
    TextHasCharacters(s);
    forall b | b in Bytes(s)
      ensures b != '.' as int && b != '/' as int && b != '\\' as int && b != '%' as int && 32 <= b < 127
    {
      var k :| 0 <= k < |s| && Bytes(s)[k] == b;
      assert NameChar(s[k]);
    }
    assert Bytes(s)[0] in Bytes(s);
  }

  /** The values that a request may have and that pass the check on parameters. */
  ghost predicate SafeValues(values: map<string, seq<byte>>, names: set<string>, trimmed: seq<byte> -> bool) {
    values.Keys == names && forall n | n in values :: Normalized(values[n], trimmed) && !UnsafeParameter(values[n])
  }

  /** The same, character by character and byte by byte. */
  lemma SafeValuesAre(values: map<string, seq<byte>>, names: set<string>, trimmed: seq<byte> -> bool)
    ensures SafeValues(values, names, trimmed) <==>
      && values.Keys == names
      && forall n | n in values ::
        && 1 <= Characters(values[n]) <= 512 && trimmed(values[n])
        && values[n] != [0x2E] && values[n] != [0x2E, 0x2E]
        && forall b | b in values[n] :: 0x20 <= b && b != 0x7F && b != 0x2F && b != 0x5C && b != 0x25
  {
    if SafeValues(values, names, trimmed) {
      forall n | n in values
        ensures Normalized(values[n], trimmed) && !UnsafeParameter(values[n])
      {
      }
    }
  }

  /** Texts of name characters have no blanks at their ends. */
  ghost predicate TextsAreTrimmed(trimmed: seq<byte> -> bool) {
    forall s: string | IsText(s) :: trimmed(Bytes(s))
  }

  lemma SafeIsNotEmpty(values: map<string, seq<byte>>, names: set<string>, trimmed: seq<byte> -> bool)
    requires SafeValues(values, names, trimmed)
    ensures forall n | n in Quoted(values) :: Quoted(values)[n] != ""
  {
    hide UnsafeParameter, Normalized;
    forall n | n in values
      ensures Quote(values[n]) != ""
    {
      assert Normalized(values[n], trimmed);
      NormalizedIsNotEmpty(values[n], trimmed);
    }
  }

  lemma NormalizedIsNotEmpty(value: seq<byte>, trimmed: seq<byte> -> bool)
    requires Normalized(value, trimmed)
    ensures value != [] && Quote(value) != ""
  {
  }

  function Restricted(m: map<string, string>, names: set<string>): map<string, string> { map n | n in m && n in names :: m[n] }

  lemma {:induction false} CleanForAll(t: Template, names: seq<string>, values: map<string, string>, done: map<string, string>)
    requires (forall n | n in names :: n in values) && AlwaysClean(t, names, done.Keys)
    requires (forall n | n in values :: values[n] != "") && forall n | n in done :: done[n] != ""
    ensures Clean(t, names, values, done)
    decreases |names|
  {
    if names != [] {
      if Spells(t, done, names[0]) {
        SpellsCan(t, done, names[0]);
      }
      assert done[names[0] := values[names[0]]].Keys == done.Keys + {names[0]};
      CleanForAll(t, names[1..], values, done[names[0] := values[names[0]]]);
    }
  }

  /** Otherwise there are values on which the loop goes wrong. */
  lemma {:induction false} WrongValues(t: Template, names: seq<string>, earlier: set<string>, all: set<string>, trimmed: seq<byte> -> bool)
    returns (values: map<string, seq<byte>>)
    requires !AlwaysClean(t, names, earlier) && earlier <= all && forall n | n in names :: n in all && IsName(n)
    requires TextsAreTrimmed(trimmed)
    ensures SafeValues(values, all, trimmed) && values.Keys == all
    ensures !Clean(t, names, Quoted(values), Restricted(Quoted(values), earlier))
    decreases |names|
  {
    hide SafeValues, CanSpell, Spells, TextsAreTrimmed;
    var n := names[0];
    assert n in names;
    if CanSpell(t, earlier, n) {
      values := WrongAtOnce(t, n, earlier, all, trimmed);
    } else {
      values := WrongValues(t, names[1..], earlier + {n}, all, trimmed);
      OneMoreName(values, earlier, n, all, trimmed);
    }
  }

  lemma WrongAtOnce(t: Template, name: string, earlier: set<string>, all: set<string>, trimmed: seq<byte> -> bool)
    returns (values: map<string, seq<byte>>)
    requires CanSpell(t, earlier, name) && IsName(name) && earlier <= all && TextsAreTrimmed(trimmed)
    ensures SafeValues(values, all, trimmed) && values.Keys == all && Spells(t, Restricted(Quoted(values), earlier), name)
  {
    hide CanSpell, TextsAreTrimmed, Normalized, UnsafeParameter, Spells;
    var chosen := ChooseSpelling(t, earlier, name);
    values := Completed(chosen, all, trimmed);
    hide AllTexts;
    SpellsMore(t, chosen, Restricted(Quoted(values), earlier), name);
  }

  lemma OneMoreName(values: map<string, seq<byte>>, earlier: set<string>, name: string, all: set<string>, trimmed: seq<byte> -> bool)
    requires SafeValues(values, all, trimmed) && name in all
    ensures var q := Quoted(values); name in q && Restricted(q, earlier)[name := q[name]] == Restricted(q, earlier + {name})
    ensures Quoted(values).Keys == all
  {
    hide Normalized, UnsafeParameter, Quote;
  }

  /** Any value will do for the other names. */
  lemma Completed(chosen: map<string, string>, all: set<string>, trimmed: seq<byte> -> bool) returns (values: map<string, seq<byte>>)
    requires AllTexts(chosen) && TextsAreTrimmed(trimmed)
    ensures SafeValues(values, all, trimmed)
    ensures forall m | m in chosen && m in all :: Quoted(values)[m] == chosen[m]
  {
    values := map m | m in all :: Bytes(if m in chosen then chosen[m] else "x");
    forall m | m in all
      ensures Normalized(values[m], trimmed) && !UnsafeParameter(values[m]) && (m in chosen ==> Quote(values[m]) == chosen[m])
    {
      var s := if m in chosen then chosen[m] else "x";
      TextIsSafe(s, trimmed);
      TextQuotesItself(s);
      hide Normalized, UnsafeParameter;
    }
  }

  /**
     For all values that a request may have: the loop gives the simultaneous substitution for every
     safe assignment exactly when, going through the names in order, no plain brace can come to
     spell one of them.
   */
  lemma AgreesForAllIff(t: Template, names: seq<string>, trimmed: seq<byte> -> bool)
    requires HolesOk(t) && HolesIn(t, set n | n in names) && TextsAreTrimmed(trimmed)
    requires forall n | n in names :: IsName(n) && n !in RESERVED
    requires forall j, k | 0 <= j < k < |names| :: names[j] != names[k]
    ensures (forall values | SafeValues(values, (set n | n in names), trimmed) ::
      Looped(Render(t), names, Quoted(values)) == Render(Substitute(t, Quoted(values)))) <==> AlwaysClean(t, names, {})
  {
    hide IsName, Normalized, UnsafeParameter, TextsAreTrimmed;
    var all := set n | n in names;
    forall values | SafeValues(values, all, trimmed)
      ensures Looped(Render(t), names, Quoted(values)) == Render(Substitute(t, Quoted(values))) <==> Clean(t, names, Quoted(values), map[])
    {
      Agrees(t, names, values);
    }
    if AlwaysClean(t, names, {}) {
      forall values | SafeValues(values, all, trimmed)
        ensures Clean(t, names, Quoted(values), map[])
      {
        var none: map<string, string> := map[];
        assert none.Keys == {};
        SafeIsNotEmpty(values, all, trimmed);
        CleanForAll(t, names, Quoted(values), map[]);
      }
    } else {
      var values := WrongValues(t, names, {}, all, trimmed);
      assert Restricted(Quoted(values), {}) == map[];
    }
  }

  lemma NamesHaveNoBraces(s: string)
    requires IsName(s)
    ensures NoBraces(s)
  {
    assert !NameChar('{') && !NameChar('}');
  }

  lemma Agrees(t: Template, names: seq<string>, values: map<string, seq<byte>>)
    requires HolesOk(t) && HolesIn(t, set n | n in names) && values.Keys == set n | n in names
    requires (forall n | n in names :: IsName(n)) && forall j, k | 0 <= j < k < |names| :: names[j] != names[k]
    ensures Looped(Render(t), names, Quoted(values)) == Render(Substitute(t, Quoted(values))) <==> Clean(t, names, Quoted(values), map[])
  {
    forall n | n in names
      ensures NoBraces(n) && n in values
    {
      NamesHaveNoBraces(n);
    }
    forall n | n in values
      ensures NoBraces(Quote(values[n]))
    {
      QuotedIsPlain(values[n]);
    }
    SubstituteNothing(t);
    LoopAgreesIff(t, names, Quoted(values), map[]);
  }

  // --- the path of an endpoint ---

  function HoleNames(t: Template): set<string> { set a | a in t && a.Hole? :: a.name }

  /**
     The path part of `expand_endpoint`; `names` is the policy's list of parameters in its order,
     `t` the template as the regular expression takes it apart.
   */
  method ExpandPath(template: string, ghost t: Template, names: seq<string>, values: map<string, seq<byte>>, placeholders: string -> set<string>)
    returns (r: Result<string>)
    requires template == Render(t) && placeholders(template) == HoleNames(t)
    requires (forall n | n in HoleNames(t) :: IsName(n)) && forall j, k | 0 <= j < k < |names| :: names[j] != names[k]
    ensures var all := set n | n in names;
      r == if values.Keys != all then Err(ParametersMismatch)
           else if HoleNames(t) != all then Err(PlaceholdersMismatch)
           else if exists n | n in values ::
             values[n] == [0x2E] || values[n] == [0x2E, 0x2E] || 0x2F in values[n] || 0x5C in values[n] || 0x25 in values[n]
           then Err(ParameterUnsafe)
           else
             var path := Looped(template, names, Quoted(values));
             if !("/" <= path) || '\\' in path || "." in Split(path) || ".." in Split(path) then Err(PathUnsafe) else Ok(path)
    ensures r.Ok? ==> forall c | c in r.value ::
      c in template
      || 'A' <= c <= 'Z' || 'a' <= c <= 'z' || '0' <= c <= '9' || c == '-' || c == '.' || c == '_' || c == '~' || c == '%'
    ensures r.Ok? ==> (r.value == Render(Substitute(t, Quoted(values))) <==> Clean(t, names, Quoted(values), map[]))
    ensures r.Ok? && OnlyDelimits(t) ==> r.value == Render(Substitute(t, Quoted(values)))
  {
    hide UnsafePath, Render, Substitute, Clean, OnlyDelimits;
    if values.Keys != set n | n in names {
      return Err(ParametersMismatch);
    }
    if placeholders(template) != set n | n in names {
      return Err(PlaceholdersMismatch);
    }
    var filled := Fill(template, names, values);
    if filled.None? {
      return Err(ParameterUnsafe);
    }
    HolesAreNames(t, names);
    Agrees(t, names, values);
    FromTemplateOrValue(template, names, values);
    UnsafePathIff(filled.value);
    if UnsafePath(filled.value) {
      return Err(PathUnsafe);
    }
    r := Ok(filled.value);
    if OnlyDelimits(t) {
      DelimitersAreClean(t, names, Quoted(values), map[]);
    }
  }

  lemma {:induction false} ReplaceChars(s: string, pattern: string, text: string)
    requires pattern != ""
    ensures forall c | c in Replace(s, pattern, text) :: c in s || c in text
  {
    if s != "" {
      if pattern <= s {
        ReplaceChars(s[|pattern|..], pattern, text);
      } else {
        ReplaceChars(s[1..], pattern, text);
      }
    }
  }

  lemma {:induction false} LoopedChars(s: string, names: seq<string>, values: map<string, string>)
    requires forall n | n in names :: n in values
    ensures forall c | c in Looped(s, names, values) :: c in s || exists n | n in names :: c in values[n]
    decreases |names|
  {
    if names != [] {
      var next := Replace(s, Pattern(names[0]), values[names[0]]);
      assert names[0] in names;
      ReplaceChars(s, Pattern(names[0]), values[names[0]]);
      LoopedChars(next, names[1..], values);
    }
  }

  /** From a value only letters, digits, `-._~` and percent signs reach the path: no `?`, `#`, blank, or byte above 126. */
  lemma FromTemplateOrValue(template: string, names: seq<string>, values: map<string, seq<byte>>)
    requires forall n | n in names :: n in values
    ensures forall c | c in Looped(template, names, Quoted(values)) ::
      c in template
      || 'A' <= c <= 'Z' || 'a' <= c <= 'z' || '0' <= c <= '9' || c == '-' || c == '.' || c == '_' || c == '~' || c == '%'
  {
    hide Looped, Quote;
    LoopedChars(template, names, Quoted(values));
    forall n | n in values
      ensures forall c | c in Quoted(values)[n] ::
        'A' <= c <= 'Z' || 'a' <= c <= 'z' || '0' <= c <= '9' || c == '-' || c == '.' || c == '_' || c == '~' || c == '%'
    {
      QuotedBytes(values[n]);
    }
  }

  lemma HolesAreNames(t: Template, names: seq<string>)
    requires HoleNames(t) == (set n | n in names) && forall n | n in HoleNames(t) :: IsName(n)
    ensures HolesOk(t) && HolesIn(t, set n | n in names) && forall n | n in names :: IsName(n)
  {
    forall a | a in t && a.Hole?
      ensures a.name in HoleNames(t) && NoBraces(a.name)
    {
      assert a.name in HoleNames(t);
      NamesHaveNoBraces(a.name);
    }
    forall n | n in names
      ensures n in HoleNames(t)
    {
    }
  }

  /** The loop of replacements, which stops at the first unsafe value. */
  method Fill(template: string, names: seq<string>, values: map<string, seq<byte>>) returns (r: Option<string>)
    requires values.Keys == set n | n in names
    ensures r.None? <==> exists n :: n in values && UnsafeParameter(values[n])
    ensures r.Some? ==> r.value == Looped(template, names, Quoted(values))
  {
    hide Replace, Quote, UnsafeParameter;
    var path := template;
    ghost var quoted := Quoted(values);
    for i := 0 to |names|
      invariant Looped(path, names[i..], quoted) == Looped(template, names, quoted)
      invariant forall k | 0 <= k < i :: !UnsafeParameter(values[names[k]])
    {
      var name := names[i];
      assert name in names;
      if UnsafeParameter(values[name]) {
        return None;
      }
      assert names[i..][0] == name && names[i..][1..] == names[i + 1..];
      path := Replace(path, Pattern(name), Quote(values[name]));
    }
    assert names[|names|..] == [];
    assert forall n | n in values :: exists k :: 0 <= k < |names| && names[k] == n;
    r := Some(path);
  }

  const NESTED := [Ch('/'), Ch('{'), Hole("a"), Ch('}'), Hole("b")]
  const NESTED_VALUES: map<string, seq<byte>> := map["a" := ['b' as int], "b" := ['x' as int]]

  lemma NestedQuoted()
    ensures Quoted(NESTED_VALUES) == map["a" := "b", "b" := "x"]
  {
    QuoteOne('b' as int);
    QuoteOne('x' as int);
    assert QuoteByte('b' as int) == "b" && QuoteByte('x' as int) == "x";
  }

  lemma QuoteOne(b: byte)
    ensures Quote([b]) == QuoteByte(b)
  {
    assert [b][1..] == [] && Quote([]) == "";
  }

  lemma NestedRewrites(q: map<string, string>)
    requires q == map["a" := "b", "b" := "x"]
    ensures Rewrites(NESTED, ["a", "b"], q) == Chars("/xx")
  {
    var after := [Hole("b")];
    assert NESTED[1..] == [Ch('{'), Hole("a"), Ch('}'), Hole("b")] && NESTED[1..][1..] == [Hole("a"), Ch('}'), Hole("b")];
    assert NESTED[1..][1..][1..] == [Ch('}'), Hole("b")] && NESTED[1..][1..][1..][1..] == after && after[1..] == [];
    assert Rewritten(after, "a", "b") == after;
    assert Rewritten([Ch('}'), Hole("b")], "a", "b") == [Ch('}'), Hole("b")];
    assert Rewritten([Hole("a"), Ch('}'), Hole("b")], "a", "b") == [Ch('b'), Ch('}'), Hole("b")];
    var first := [Ch('/'), Ch('{'), Ch('b'), Ch('}'), Hole("b")];
    assert Rewritten(NESTED, "a", "b") == first;
    assert first[1..] == [Ch('{'), Ch('b'), Ch('}'), Hole("b")] && first[1..][1..] == [Ch('b'), Ch('}'), Hole("b")];
    assert first[1..][1..][1..] == [Ch('}'), Hole("b")] && first[1..][3..] == after;
    assert Typed([Ch('b'), Ch('}'), Hole("b")], map[], "b");
    assert Rewritten(after, "b", "x") == Chars("x");
    assert Rewritten(first, "b", "x") == Chars("/xx");
    assert ["a", "b"][1..] == ["b"] && ["b"][1..] == [];
  }

  lemma NestedSubstitutes(q: map<string, string>)
    requires q == map["a" := "b", "b" := "x"]
    ensures Substitute(NESTED, q) == Chars("/{b}x")
  {
    var after := [Hole("b")];
    assert NESTED[1..] == [Ch('{'), Hole("a"), Ch('}'), Hole("b")] && NESTED[1..][1..] == [Hole("a"), Ch('}'), Hole("b")];
    assert NESTED[1..][1..][1..] == [Ch('}'), Hole("b")] && NESTED[1..][1..][1..][1..] == after && after[1..] == [];
    assert Substitute(after, q) == Chars("x");
    assert Substitute([Ch('}'), Hole("b")], q) == Chars("}x");
    assert Substitute([Hole("a"), Ch('}'), Hole("b")], q) == Chars("b}x");
    assert Substitute([Ch('{'), Hole("a"), Ch('}'), Hole("b")], q) == Chars("{b}x");
  }

  lemma NestedLoop()
    ensures Looped("/{{a}}{b}", ["a", "b"], Quoted(NESTED_VALUES)) == "/xx"
    ensures Render(Substitute(NESTED, Quoted(NESTED_VALUES))) == "/{b}x"
  {
    NestedQuoted();
    var q := Quoted(NESTED_VALUES);
    NestedRewrites(q);
    NestedSubstitutes(q);
    RenderChars("/xx");
    RenderChars("/{b}x");
    NestedText();
    hide Rewrites, Substitute, Looped, Render, Quoted;
    assert NoBraces("a") && NoBraces("b") && NoBraces("x");
    LoopRewrites(NESTED, ["a", "b"], q, {"a", "b"});
  }

  /** An admissible template, with the names in their only order, and values for which the path is wrong. */
  method WrongPath() returns (r: Result<string>)
    ensures r == Ok("/xx") && Render(Substitute(NESTED, Quoted(NESTED_VALUES))) == "/{b}x"
  {
    NestedLoop();
    NestedText();
    NestedAdmissible();
    UnsafePathIff("/xx");
    hide *;
    r := ExpandPath("/{{a}}{b}", NESTED, ["a", "b"], NESTED_VALUES, s => {"a", "b"});
  }

  /** No check of the code refuses the example. */
  lemma NestedAdmissible()
    ensures HolesOk(NESTED) && HoleNames(NESTED) == {"a", "b"} == NESTED_VALUES.Keys == set n | n in ["a", "b"]
    ensures IsName("a") && IsName("b") && !UnsafePath("/xx")
    ensures forall n | n in NESTED_VALUES ::
      var v := NESTED_VALUES[n];
      v != [0x2E] && v != [0x2E, 0x2E] && 0x2F !in v && 0x5C !in v && 0x25 !in v
  {
    SafeEnough();
    assert NESTED[2] in NESTED && NESTED[4] in NESTED;
    hide UnsafePath;
  }

  lemma NestedIsSafe(trimmed: seq<byte> -> bool)
    requires TextsAreTrimmed(trimmed)
    ensures SafeValues(NESTED_VALUES, {"a", "b"}, trimmed)
  {
    assert Bytes("b") == NESTED_VALUES["a"] && Bytes("x") == NESTED_VALUES["b"];
    TextIsSafe("b", trimmed);
    TextIsSafe("x", trimmed);
    hide Normalized, UnsafeParameter;
  }

  lemma NestedText()
    ensures Render(NESTED) == "/{{a}}{b}"
  {
    assert NESTED[1..] == [Ch('{'), Hole("a"), Ch('}'), Hole("b")] && NESTED[1..][1..] == [Hole("a"), Ch('}'), Hole("b")];
    assert NESTED[1..][1..][1..] == [Ch('}'), Hole("b")] && NESTED[1..][1..][1..][1..] == [Hole("b")] && [Hole("b")][1..] == [];
    assert Render([Hole("b")]) == "{b}";
    assert Render([Ch('}'), Hole("b")]) == "}{b}";
    assert Render([Hole("a"), Ch('}'), Hole("b")]) == "{a}}{b}";
  }

  lemma SafeEnough()
    ensures !UnsafePath("/xx")
  {
    var s := "/xx" + "/";
    forall k | 0 <= k <= |s|
      ensures !("/../" <= s[k..]) && !("/./" <= s[k..])
    {
      assert "/../"[1] == '.' && "/./"[1] == '.';
      assert k + 1 < |s| ==> s[k..][1] == s[k + 1] && s[k + 1] != '.';
    }
  }

  // --- whole segments ---

  /** A template whose placeholders fill whole path segments. */
  datatype Segment = Fixed(text: string) | Parameter(name: string)

  predicate SegmentsOk(segments: seq<Segment>) {
    forall s | s in segments :: if s.Fixed? then NoBraces(s.text) && '/' !in s.text else NoBraces(s.name)
  }

  function TemplateOf(segments: seq<Segment>): Template {
    if segments == [] then [] else
      [Ch('/')] + (if segments[0].Fixed? then Chars(segments[0].text) else [Hole(segments[0].name)]) + TemplateOf(segments[1..])
  }

  /** The text of each segment once the values are in. */
  function Texts(segments: seq<Segment>, values: map<string, seq<byte>>): (r: seq<string>)
    requires forall s | s in segments && s.Parameter? :: s.name in values
    ensures |r| == |segments|
    ensures forall k | 0 <= k < |r| :: r[k] == if segments[k].Fixed? then segments[k].text else Quote(values[segments[k].name])
  {
    seq(|segments|, k requires 0 <= k < |segments| =>
      assert segments[k] in segments; if segments[k].Fixed? then segments[k].text else Quote(values[segments[k].name]))
  }

  function PathOf(texts: seq<string>): string { if texts == [] then "" else "/" + texts[0] + PathOf(texts[1..]) }

  lemma {:induction false} SplitSegment(text: string, rest: string)
    requires '/' !in text && (rest == "" || rest[0] == '/')
    ensures Split(text + rest) == [text] + Split(rest)[1..] && Split(rest)[0] == ""
  {
    if text == "" {
      assert text + rest == rest;
    } else {
      assert text[0] in text && (text + rest)[1..] == text[1..] + rest;
      SplitSegment(text[1..], rest);
      assert [text[0]] + text[1..] == text;
    }
  }

  lemma SlashSplits(rest: string)
    ensures Split("/" + rest) == [""] + Split(rest)
  {
    assert ("/" + rest)[1..] == rest;
  }

  lemma PathStarts(texts: seq<string>)
    ensures var path := PathOf(texts);
      if texts == [] then path == "" && Split(path) == [""]
      else path == "/" + (texts[0] + PathOf(texts[1..])) && path[0] == '/'
  {
    if texts != [] {
      assert "/" + texts[0] + PathOf(texts[1..]) == "/" + (texts[0] + PathOf(texts[1..]));
    }
  }

  lemma {:induction false} SplitPath(texts: seq<string>)
    requires forall t | t in texts :: '/' !in t
    ensures Split(PathOf(texts)) == [""] + texts
  {
    hide Split, PathOf;
    PathStarts(texts);
    if texts != [] {
      var rest := PathOf(texts[1..]);
      PathStarts(texts[1..]);
      SplitPath(texts[1..]);
      assert texts[0] in texts;
      SplitSegment(texts[0], rest);
      SlashSplits(texts[0] + rest);
      assert ([""] + texts[1..])[1..] == texts[1..] && [texts[0]] + texts[1..] == texts;
    }
  }

  lemma {:induction false} PathOfTemplate(segments: seq<Segment>, values: map<string, seq<byte>>)
    requires forall s | s in segments && s.Parameter? :: s.name in values
    ensures Render(Substitute(TemplateOf(segments), Quoted(values))) == PathOf(Texts(segments, values))
  {
    if segments != [] {
      var q, g, rest := Quoted(values), segments[0], TemplateOf(segments[1..]);
      assert g in segments;
      PathOfTemplate(segments[1..], values);
      var middle := if g.Fixed? then Chars(g.text) else [Hole(g.name)];
      var texts := Texts(segments, values);
      assert texts[1..] == Texts(segments[1..], values);
      SubstituteJoins([Ch('/')] + middle, rest, q);
      SubstituteJoins([Ch('/')], middle, q);
      RenderJoins(Substitute([Ch('/')] + middle, q), Substitute(rest, q));
      RenderJoins(Substitute([Ch('/')], q), Substitute(middle, q));
      OneSegment(g, middle, q, texts[0]);
    }
  }

  lemma OneSegment(g: Segment, middle: Template, q: map<string, string>, text: string)
    requires middle == if g.Fixed? then Chars(g.text) else [Hole(g.name)]
    requires if g.Fixed? then text == g.text else g.name in q && text == q[g.name]
    ensures Render(Substitute(middle, q)) == text && Render(Substitute([Ch('/')], q)) == "/"
  {
    RenderChars(text);
    if g.Fixed? {
      CharsStay(g.text, q);
    } else {
      assert middle[1..] == [] && Chars(text) + [] == Chars(text);
    }
    assert [Ch('/')][1..] == [];
  }

  /** The expanded path has as many segments as the template, and gives every parameter back. */
  lemma ParametersRecoverable(segments: seq<Segment>, values: map<string, seq<byte>>, path: string)
    requires SegmentsOk(segments) && forall s | s in segments && s.Parameter? :: s.name in values
    requires path == Render(Substitute(TemplateOf(segments), Quoted(values)))
    ensures |Split(path)| == |segments| + 1
    ensures forall k | 0 <= k < |segments| ::
      if segments[k].Fixed? then Split(path)[k + 1] == segments[k].text
      else Unquote(Split(path)[k + 1]) == values[segments[k].name]
  {
    var texts := Texts(segments, values);
    PathOfTemplate(segments, values);
    forall k | 0 <= k < |segments|
      ensures '/' !in texts[k] && (segments[k].Parameter? ==> Unquote(texts[k]) == values[segments[k].name])
    {
      assert segments[k] in segments;
      if segments[k].Parameter? {
        QuotedIsPlain(values[segments[k].name]);
        QuoteRoundTrip(values[segments[k].name]);
      }
    }
    SplitPath(texts);
  }

  /** Such templates are among those on which the loop is right for all values. */
  lemma {:induction false} SegmentsOnlyDelimit(segments: seq<Segment>)
    requires SegmentsOk(segments)
    ensures OnlyDelimits(TemplateOf(segments))
  {
    if segments != [] {
      assert segments[0] in segments;
      SegmentsOnlyDelimit(segments[1..]);
    }
  }
}
