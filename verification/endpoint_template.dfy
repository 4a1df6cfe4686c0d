/**
 Endpoint templates: placeholders are replaced one after the other in the text of the path, and
 the result should be what one simultaneous substitution gives.
 */
module EndpointTemplate {
  /** A template: plain characters, which may be braces, and the placeholders. */
  datatype Atom = Ch(c: char) | Hole(name: string)
  type Template = seq<Atom>

  predicate NoBraces(s: string) { '{' !in s && '}' !in s }

  predicate HolesOk(t: Template) { forall a | a in t && a.Hole? :: NoBraces(a.name) }

  /** Braces only delimit placeholders. */
  predicate OnlyDelimits(t: Template) { Ch('{') !in t && Ch('}') !in t }

  predicate HolesIn(t: Template, names: set<string>) { forall a | a in t && a.Hole? :: a.name in names }

  function Pattern(name: string): (p: string)
    ensures |p| == |name| + 2
  {
    "{" + name + "}"
  }

  function Text(a: Atom): string { if a.Ch? then [a.c] else Pattern(a.name) }

  function Render(t: Template): string { if t == [] then "" else Text(t[0]) + Render(t[1..]) }

  function Chars(s: string): (t: Template)
    ensures |t| == |s| && forall k | 0 <= k < |s| :: t[k] == Ch(s[k])
  {
    seq(|s|, k requires 0 <= k < |s| => Ch(s[k]))
  }

  /** `str.replace`: every occurrence, from left to right, without overlaps. */
  function Replace(s: string, pattern: string, text: string): string
    requires pattern != ""
  {
    if s == "" then ""
    else if pattern <= s then text + Replace(s[|pattern|..], pattern, text)
    else [s[0]] + Replace(s[1..], pattern, text)
  }

  /** All placeholders at once. */
  function Substitute(t: Template, values: map<string, string>): Template {
    if t == [] then [] else
      (if t[0].Hole? && t[0].name in values then Chars(values[t[0].name]) else [t[0]]) + Substitute(t[1..], values)
  }

  /** From here on the text, with the values of earlier placeholders put in, spells `name` and then a closing brace. */
  predicate Typed(t: Template, done: map<string, string>, name: string) {
    t != [] &&
    match t[0]
    case Ch(c) => if c == '}' then name == "" else name != "" && name[0] == c && Typed(t[1..], done, name[1..])
    case Hole(h) => h in done && done[h] <= name && Typed(t[1..], done, name[|done[h]|..])
  }

  /** Some plain opening brace is followed by such a text: it looks like the placeholder `name` but is none. */
  predicate Spells(t: Template, done: map<string, string>, name: string) {
    t != [] && ((t[0] == Ch('{') && Typed(t[1..], done, name)) || Spells(t[1..], done, name))
  }

  // --- one replacement ---

  lemma {:induction false} ReplaceSkips(plain: string, rest: string, name: string, text: string)
    requires '{' !in plain
    ensures Replace(plain + rest, Pattern(name), text) == plain + Replace(rest, Pattern(name), text)
  {
    if plain == "" {
      assert plain + rest == rest;
    } else {
      var s := plain + rest;
      assert s[0] == plain[0] && plain[0] in plain && Pattern(name)[0] == '{';
      assert s[1..] == plain[1..] + rest;
      ReplaceSkips(plain[1..], rest, name, text);
      assert [plain[0]] + (plain[1..] + Replace(rest, Pattern(name), text)) == plain + Replace(rest, Pattern(name), text);
    }
  }

  lemma ReplaceHere(name: string, rest: string, text: string)
    ensures Replace(Pattern(name) + rest, Pattern(name), text) == text + Replace(rest, Pattern(name), text)
  {
    assert (Pattern(name) + rest)[|Pattern(name)|..] == rest;
  }

  /** Another placeholder does not match, wherever its name begins like this one. */
  lemma OtherNameDiffers(name: string, other: string, rest: string)
    requires NoBraces(name) && NoBraces(other) && name != other
    ensures !(Pattern(name) <= Pattern(other) + rest)
  {
    var p, s := Pattern(name), Pattern(other) + rest;
    var k: nat :|
      && k < |p| && k < |s| && p[k] != s[k] by {
      if |name| < |other| {
        assert other[|name|] in other && p[|name| + 1] != s[|name| + 1];
      } else if |other| < |name| {
        assert name[|other|] in name && p[|other| + 1] != s[|other| + 1];
      } else {
        var j :| 0 <= j < |name| && name[j] != other[j];
        assert p[j + 1] != s[j + 1];
      }
    }
    assert |p| <= |s| ==> s[..|p|][k] == s[k];
  }

  lemma ReplaceElsewhere(name: string, other: string, rest: string, text: string)
    requires NoBraces(name) && NoBraces(other) && name != other
    ensures Replace(Pattern(other) + rest, Pattern(name), text) == Pattern(other) + Replace(rest, Pattern(name), text)
  {
    OtherNameDiffers(name, other, rest);
    var s, tail := Pattern(other) + rest, other + "}";
    assert s[1..] == tail + rest && s[0] == '{';
    ReplaceSkips(tail, rest, name, text);
    assert ["{"[0]] + (tail + Replace(rest, Pattern(name), text)) == Pattern(other) + Replace(rest, Pattern(name), text);
  }

  lemma {:induction false} TypedIsChars(t: Template, name: string)
    requires Typed(t, map[], name)
    ensures |t| > |name| && t[|name|] == Ch('}') && forall k | 0 <= k < |name| :: t[k] == Ch(name[k])
  {
    if name != "" {
      TypedIsChars(t[1..], name[1..]);
      forall k | 0 < k <= |name|
        ensures t[k] == t[1..][k - 1] && (k < |name| ==> name[k] == name[1..][k - 1])
      {
      }
    }
  }

  lemma TypedRenders(t: Template, name: string)
    requires NoBraces(name) && Typed(t, map[], name)
    ensures |t| >= |name| + 1 && Render(t) == name + "}" + Render(t[|name| + 1..])
    ensures Opens(t) == Opens(t[|name| + 1..])
  {
    TypedIsChars(t, name);
    var spelled, after := name + "}", t[|name| + 1..];
    assert t == Chars(spelled) + after;
    RenderChars(spelled);
    RenderJoins(Chars(spelled), after);
    OpensJoin(Chars(spelled), after);
    NoOpens(spelled);
  }

  lemma {:induction false} RenderedIsTyped(t: Template, name: string)
    requires NoBraces(name) && name + "}" <= Render(t)
    ensures Typed(t, map[], name)
  {
    var p, s := name + "}", Render(t);
    assert t != [] && s[0] == Text(t[0])[0];
    PrefixTail(p, s);
    if name != "" {
      assert name[0] in name && p[0] == name[0] && p[1..] == name[1..] + "}";
      assert t[0] == Ch(name[0]) && s[1..] == Render(t[1..]);
      RenderedIsTyped(t[1..], name[1..]);
    }
  }

  /** What one `replace` does to a template: the placeholder, and whatever only looks like it. */
  function Rewritten(t: Template, name: string, text: string): Template {
    if t == [] then []
    else if t[0] == Hole(name) then Chars(text) + Rewritten(t[1..], name, text)
    else if t[0] == Ch('{') && Typed(t[1..], map[], name) && |t| >= |name| + 2 then Chars(text) + Rewritten(t[|name| + 2..], name, text)
    else [t[0]] + Rewritten(t[1..], name, text)
  }

  lemma {:induction false} RenderJoins(a: Template, b: Template)
    ensures Render(a + b) == Render(a) + Render(b)
  {
    if a == [] {
      assert a + b == b;
    } else {
      assert (a + b)[1..] == a[1..] + b;
      RenderJoins(a[1..], b);
    }
  }

  lemma {:induction false} RenderChars(s: string)
    ensures Render(Chars(s)) == s
  {
    if s != "" {
      assert Chars(s)[1..] == Chars(s[1..]);
      RenderChars(s[1..]);
    }
  }

  lemma {:induction false} ReplaceRewrites(t: Template, name: string, text: string)
    requires NoBraces(name) && HolesOk(t)
    ensures Replace(Render(t), Pattern(name), text) == Render(Rewritten(t, name, text))
    decreases |t|
  {
    if t != [] {
      var a, rest := t[0], Render(t[1..]);
      assert a in t;
      RenderChars(text);
      if a == Hole(name) {
        ReplaceRewrites(t[1..], name, text);
        ReplaceHere(name, rest, text);
        RenderJoins(Chars(text), Rewritten(t[1..], name, text));
      } else if a.Hole? {
        ReplaceRewrites(t[1..], name, text);
        ReplaceElsewhere(name, a.name, rest, text);
        RenderJoins([a], Rewritten(t[1..], name, text));
        RenderOne(a);
      } else if a.c == '{' {
        ReplaceAtBrace(t, name, text);
      } else {
        ReplaceRewrites(t[1..], name, text);
        ReplaceSkips([a.c], rest, name, text);
        RenderJoins([a], Rewritten(t[1..], name, text));
        RenderOne(a);
      }
    }
  }

  lemma RenderOne(a: Atom)
    ensures Render([a]) == Text(a)
  {
    assert [a][1..] == [];
  }

  lemma {:induction false} ReplaceAtBrace(t: Template, name: string, text: string)
    requires NoBraces(name) && HolesOk(t) && t != [] && t[0] == Ch('{')
    ensures Replace(Render(t), Pattern(name), text) == Render(Rewritten(t, name, text))
    decreases |t|, 0
  {
    var rest := Render(t[1..]);
    if Typed(t[1..], map[], name) {
      TypedRenders(t[1..], name);
      var after := t[|name| + 2..];
      assert t[1..][|name| + 1..] == after;
      assert "{" + (name + "}" + Render(after)) == Pattern(name) + Render(after);
      hide Replace;
      ReplaceHere(name, Render(after), text);
      ReplaceRewrites(after, name, text);
      RenderChars(text);
      RenderJoins(Chars(text), Rewritten(after, name, text));
    } else {
      if name + "}" <= rest {
        RenderedIsTyped(t[1..], name);
      }
      SkipBrace(name, rest, text);
      hide Replace, Typed;
      ReplaceRewrites(t[1..], name, text);
      RenderJoins([t[0]], Rewritten(t[1..], name, text));
      RenderOne(t[0]);
    }
  }

  lemma SkipBrace(name: string, rest: string, text: string)
    requires !(name + "}" <= rest)
    ensures Replace("{" + rest, Pattern(name), text) == "{" + Replace(rest, Pattern(name), text)
  {
    var s := "{" + rest;
    assert s[1..] == rest && Pattern(name)[1..] == name + "}";
    if Pattern(name) <= s {
      PrefixTail(Pattern(name), s);
    }
  }

  lemma PrefixTail(p: string, s: string)
    requires p != "" && p <= s
    ensures p[1..] <= s[1..] && p[0] == s[0]
  {
  }

  // --- plain opening braces ---

  function Opens(t: Template): nat { if t == [] then 0 else (if t[0] == Ch('{') then 1 else 0) + Opens(t[1..]) }

  lemma {:induction false} OpensJoin(a: Template, b: Template)
    ensures Opens(a + b) == Opens(a) + Opens(b)
  {
    if a == [] {
      assert a + b == b;
    } else {
      assert (a + b)[1..] == a[1..] + b;
      OpensJoin(a[1..], b);
    }
  }

  lemma {:induction false} NoOpens(s: string)
    requires '{' !in s
    ensures Opens(Chars(s)) == 0
  {
    if s != "" {
      assert s[0] in s && Chars(s)[1..] == Chars(s[1..]);
      NoOpens(s[1..]);
    }
  }

  /** A replacement that hits only its placeholders is a substitution; any other costs an opening brace. */
  lemma {:induction false} RewriteOrLose(t: Template, name: string, text: string)
    requires NoBraces(name) && NoBraces(text)
    ensures Opens(Rewritten(t, name, text)) <= Opens(t)
    ensures Spells(t, map[], name) ==> Opens(Rewritten(t, name, text)) < Opens(t)
    ensures !Spells(t, map[], name) ==> Rewritten(t, name, text) == Substitute(t, map[name := text])
    decreases |t|
  {
    if t != [] {
      NoOpens(text);
      if t[0] == Ch('{') && Typed(t[1..], map[], name) {
        TypedRenders(t[1..], name);
        var after := t[|name| + 2..];
        assert t[1..][|name| + 1..] == after;
        RewriteOrLose(after, name, text);
        OpensJoin(Chars(text), Rewritten(after, name, text));
      } else {
        RewriteOrLose(t[1..], name, text);
        if t[0] == Hole(name) {
          OpensJoin(Chars(text), Rewritten(t[1..], name, text));
        } else {
          OpensJoin([t[0]], Rewritten(t[1..], name, text));
          assert Opens([t[0]]) == if t[0] == Ch('{') then 1 else 0 by { assert [t[0]][1..] == []; }
        }
      }
    }
  }

  // --- all replacements, one after the other ---

  /** The loop over the names. */
  function Looped(text: string, names: seq<string>, values: map<string, string>): string
    requires forall n | n in names :: n in values
    decreases |names|
  {
    if names == [] then text else Looped(Replace(text, Pattern(names[0]), values[names[0]]), names[1..], values)
  }

  function Rewrites(t: Template, names: seq<string>, values: map<string, string>): Template
    requires forall n | n in names :: n in values
    decreases |names|
  {
    if names == [] then t else Rewrites(Rewritten(t, names[0], values[names[0]]), names[1..], values)
  }

  /** At its turn no name is spelled by a plain brace and the text after it, the earlier values put in. */
  predicate Clean(t: Template, names: seq<string>, values: map<string, string>, done: map<string, string>)
    requires forall n | n in names :: n in values
    decreases |names|
  {
    names == [] || (!Spells(t, done, names[0]) && Clean(t, names[1..], values, done[names[0] := values[names[0]]]))
  }

  lemma {:induction false} HolesLeft(t: Template, name: string, text: string, names: set<string>)
    requires HolesIn(t, names) && HolesOk(t)
    ensures HolesIn(Rewritten(t, name, text), names - {name}) && HolesOk(Rewritten(t, name, text))
    decreases |t|
  {
    if t != [] {
      assert t[0] in t;
      if t[0] == Ch('{') && Typed(t[1..], map[], name) && |t| >= |name| + 2 {
        HolesLeft(t[|name| + 2..], name, text, names);
      } else {
        HolesLeft(t[1..], name, text, names);
      }
    }
  }

  lemma {:induction false} LoopRewrites(t: Template, names: seq<string>, values: map<string, string>, holes: set<string>)
    requires HolesOk(t) && HolesIn(t, holes) && forall n | n in names :: n in values && NoBraces(n) && NoBraces(values[n])
    ensures Looped(Render(t), names, values) == Render(Rewrites(t, names, values))
    ensures Opens(Rewrites(t, names, values)) <= Opens(t)
    ensures HolesIn(Rewrites(t, names, values), holes - set n | n in names)
    decreases |names|
  {
    if names != [] {
      var n, v := names[0], values[names[0]];
      assert n in names;
      ReplaceRewrites(t, n, v);
      HolesLeft(t, n, v, holes);
      RewriteOrLose(t, n, v);
      LoopRewrites(Rewritten(t, n, v), names[1..], values, holes - {n});
      assert (set m | m in names) == {n} + set m | m in names[1..];
    }
  }

  function Braces(s: string): nat { if s == "" then 0 else (if s[0] == '{' then 1 else 0) + Braces(s[1..]) }

  lemma {:induction false} BracesAreOpens(t: Template)
    requires HolesIn(t, {})
    ensures Braces(Render(t)) == Opens(t)
  {
    if t != [] {
      assert t[0] in t && Render(t)[1..] == Render(t[1..]);
      BracesAreOpens(t[1..]);
    }
  }

  lemma {:induction false} SubstituteHoles(t: Template, values: map<string, string>, holes: set<string>)
    requires HolesIn(t, holes) && HolesOk(t) && forall n | n in values :: NoBraces(values[n])
    ensures HolesIn(Substitute(t, values), holes - values.Keys) && HolesOk(Substitute(t, values))
    ensures Opens(Substitute(t, values)) == Opens(t)
  {
    if t != [] {
      assert t[0] in t;
      SubstituteHoles(t[1..], values, holes);
      if t[0].Hole? && t[0].name in values {
        NoOpens(values[t[0].name]);
        OpensJoin(Chars(values[t[0].name]), Substitute(t[1..], values));
      } else {
        OpensJoin([t[0]], Substitute(t[1..], values));
        assert [t[0]][1..] == [];
      }
    }
  }

  lemma {:induction false} SubstituteJoins(a: Template, b: Template, values: map<string, string>)
    ensures Substitute(a + b, values) == Substitute(a, values) + Substitute(b, values)
  {
    if a == [] {
      assert a + b == b;
    } else {
      assert (a + b)[1..] == a[1..] + b;
      SubstituteJoins(a[1..], b, values);
    }
  }

  lemma {:induction false} CharsStay(s: string, values: map<string, string>)
    ensures Substitute(Chars(s), values) == Chars(s)
  {
    if s != "" {
      assert Chars(s)[1..] == Chars(s[1..]);
      CharsStay(s[1..], values);
    }
  }

  lemma {:induction false} SubstituteTwice(t: Template, first: map<string, string>, name: string, text: string)
    requires name !in first
    ensures Substitute(Substitute(t, first), map[name := text]) == Substitute(t, first[name := text])
  {
    if t != [] {
      SubstituteTwice(t[1..], first, name, text);
      var second := map[name := text];
      if t[0].Hole? && t[0].name in first {
        SubstituteJoins(Chars(first[t[0].name]), Substitute(t[1..], first), second);
        CharsStay(first[t[0].name], second);
      } else {
        SubstituteJoins([t[0]], Substitute(t[1..], first), second);
        assert [t[0]][1..] == [];
      }
    }
  }

  lemma {:induction false} SubstituteNothing(t: Template)
    ensures Substitute(t, map[]) == t
  {
    if t != [] {
      SubstituteNothing(t[1..]);
    }
  }

  lemma {:induction false} TypedThrough(v: string, t: Template, name: string)
    requires NoBraces(v)
    ensures Typed(Chars(v) + t, map[], name) <==> v <= name && Typed(t, map[], name[|v|..])
  {
    if v == "" {
      assert Chars(v) + t == t && name[0..] == name;
    } else {
      var all := Chars(v) + t;
      assert v[0] in v && all[0] == Ch(v[0]) && all[1..] == Chars(v[1..]) + t;
      if name != "" {
        TypedThrough(v[1..], t, name[1..]);
        assert v <= name <==> v[0] == name[0] && v[1..] <= name[1..] by {
          if v[0] == name[0] && v[1..] <= name[1..] {
            assert v == [v[0]] + v[1..] && name == [name[0]] + name[1..];
          }
        }
        if v <= name {
          assert name[1..][|v| - 1..] == name[|v|..];
        }
      }
    }
  }

  /** Spelling after the substitution is spelling with the values put in. */
  lemma {:induction false} TypedAfter(t: Template, done: map<string, string>, name: string)
    requires (forall n | n in done :: NoBraces(done[n])) && NoBraces(name) && HolesOk(t)
    ensures Typed(Substitute(t, done), map[], name) <==> Typed(t, done, name)
  {
    if t != [] {
      var u := Substitute(t[1..], done);
      if t[0].Hole? && t[0].name in done {
        var v := done[t[0].name];
        TypedThrough(v, u, name);
        if v <= name {
          TypedAfter(t[1..], done, name[|v|..]);
        }
      } else {
        assert ([t[0]] + u)[1..] == u;
        if name != "" {
          TypedAfter(t[1..], done, name[1..]);
        }
      }
    }
  }

  lemma {:induction false} SpellsThrough(v: string, t: Template, name: string)
    requires NoBraces(v)
    ensures Spells(Chars(v) + t, map[], name) <==> Spells(t, map[], name)
  {
    if v == "" {
      assert Chars(v) + t == t;
    } else {
      var all := Chars(v) + t;
      assert v[0] in v && all[0] == Ch(v[0]) && all[1..] == Chars(v[1..]) + t;
      SpellsThrough(v[1..], t, name);
    }
  }

  lemma {:induction false} SpellsAfter(t: Template, done: map<string, string>, name: string)
    requires (forall n | n in done :: NoBraces(done[n])) && NoBraces(name) && HolesOk(t)
    ensures Spells(Substitute(t, done), map[], name) <==> Spells(t, done, name)
  {
    if t != [] {
      var u := Substitute(t[1..], done);
      SpellsAfter(t[1..], done, name);
      if t[0].Hole? && t[0].name in done {
        SpellsThrough(done[t[0].name], u, name);
      } else {
        assert ([t[0]] + u)[1..] == u;
        TypedAfter(t[1..], done, name);
      }
    }
  }

  /**
     For given values: the loop gives the simultaneous substitution exactly when no name, at its
     turn, is spelled by a plain brace of the template and what follows it.
   */
  lemma {:induction false} LoopAgreesIff(t: Template, names: seq<string>, values: map<string, string>, done: map<string, string>)
    requires HolesOk(t) && HolesIn(t, values.Keys)
    requires (forall n | n in values :: NoBraces(values[n])) && (forall n | n in names :: n in values && NoBraces(n))
    requires (forall n | n in done :: n in values && done[n] == values[n]) && (forall n | n in values :: n in done || n in names)
    requires (forall n | n in names :: n !in done) && forall j, k | 0 <= j < k < |names| :: names[j] != names[k]
    ensures Looped(Render(Substitute(t, done)), names, values) == Render(Substitute(t, values)) <==> Clean(t, names, values, done)
    decreases |names|
  {
    if names == [] {
      assert done == values;
    } else {
      var n := names[0];
      assert n in names;
      var u := Substitute(t, done);
      SubstituteHoles(t, done, values.Keys);
      SpellsAfter(t, done, n);
      RewriteOrLose(u, n, values[n]);
      ReplaceRewrites(u, n, values[n]);
      if Spells(t, done, n) {
        LoseForGood(t, u, names, values);
      } else {
        SubstituteTwice(t, done, n, values[n]);
        LoopAgreesIff(t, names[1..], values, done[n := values[n]]);
      }
    }
  }

  /** A brace that is lost does not come back. */
  lemma LoseForGood(t: Template, u: Template, names: seq<string>, values: map<string, string>)
    requires HolesOk(t) && HolesIn(t, values.Keys) && HolesOk(u) && HolesIn(u, set n | n in names) && Opens(u) == Opens(t)
    requires (forall n | n in values :: NoBraces(values[n])) && (forall n | n in names :: n in values && NoBraces(n))
    requires names != [] && Spells(u, map[], names[0])
    ensures Looped(Render(u), names, values) != Render(Substitute(t, values))
  {
    var n := names[0];
    assert n in names;
    var holes := set m | m in names;
    var r := Rewritten(u, n, values[n]);
    RewriteOrLose(u, n, values[n]);
    ReplaceRewrites(u, n, values[n]);
    HolesLeft(u, n, values[n], holes);
    LoopRewrites(r, names[1..], values, holes - {n});
    var last, whole := Rewrites(r, names[1..], values), Substitute(t, values);
    assert HolesIn(last, {});
    SubstituteHoles(t, values, values.Keys);
    assert HolesIn(whole, {});
    BracesAreOpens(last);
    BracesAreOpens(whole);
  }

  /** Braces that only delimit placeholders leave nothing to spell. */
  lemma {:induction false} DelimitersAreClean(t: Template, names: seq<string>, values: map<string, string>, done: map<string, string>)
    requires OnlyDelimits(t) && forall n | n in names :: n in values
    ensures Clean(t, names, values, done)
    decreases |names|
  {
    if names != [] {
      NothingSpelled(t, done, names[0]);
      DelimitersAreClean(t, names[1..], values, done[names[0] := values[names[0]]]);
    }
  }

  lemma {:induction false} NothingSpelled(t: Template, done: map<string, string>, name: string)
    requires OnlyDelimits(t)
    ensures !Spells(t, done, name)
  {
    if t != [] {
      assert t[0] in t;
      NothingSpelled(t[1..], done, name);
    }
  }
}
