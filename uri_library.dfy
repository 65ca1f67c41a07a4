/** A model of the URI library behaviour the web-target value factory relies on:
    template parsing and encoded-value expansion (JAX-RS `UriBuilder.fromUri(String)` and
    `buildFromEncodedMap`), absolute-versus-relative detection (`java.net.URI.isAbsolute`,
    a URI is absolute when it has a scheme, section 4.3 of RFC 3986) and path appending
    (`UriBuilder.path`). This library is not part of the modelled source; everything here is
    an ASSUMPTION about it, simplified, and the lemmas below are proved about this model of
    the library, not about the library itself. */
module UriLibrary {
  import opened Wrappers

  /** Faults the library raises at request time (an `IllegalArgumentException` in Java). */
  datatype Fault =
    | MalformedTemplate
    | UnboundVariable(name: string)

  /* ---------------------------------------------------------------------------------------
     Searching a string
     --------------------------------------------------------------------------------------- */

  /** The first index at or after `from` where `s` holds `c`, if any. */
  function IndexOf(s: string, c: char, from: nat): (r: Option<nat>)
    requires from <= |s|
    ensures r.Some? ==> from <= r.value < |s| && s[r.value] == c && c !in s[from..r.value]
    ensures r.None? ==> c !in s[from..]
    decreases |s| - from
  {
    if from == |s| then None
    else if s[from] == c then Some(from)
    else
      var r := IndexOf(s, c, from + 1);
      assert s[from..] == [s[from]] + s[from + 1..];
      assert r.Some? ==> s[from..r.value] == [s[from]] + s[from + 1..r.value];
      r
  }

  /** `IndexOf` finds exactly the first occurrence. */
  lemma IndexOfFirst(s: string, c: char, from: nat, k: nat)
    requires from <= k < |s| && s[k] == c && c !in s[from..k]
    ensures IndexOf(s, c, from) == Some(k)
  {
  }

  /* ---------------------------------------------------------------------------------------
     URI templates
     --------------------------------------------------------------------------------------- */

  /** A template is a sequence of literal characters and `{name}` placeholders. */
  datatype Piece = Char(c: char) | Var(name: string)

  type Template = seq<Piece>

  /** A placeholder name is non-empty and holds no brace. */
  predicate ValidName(n: string) {
    n != [] && '{' !in n && '}' !in n
  }

  /** The templates that the parser can produce. */
  predicate WellFormed(t: Template) {
    forall i :: 0 <= i < |t| ==>
      (t[i].Char? ==> t[i].c != '{') && (t[i].Var? ==> ValidName(t[i].name))
  }

  function RenderPiece(p: Piece): string {
    match p
    case Char(c) => [c]
    case Var(n) => "{" + n + "}"
  }

  /** The template text a template is written as. */
  function Render(t: Template): string {
    if t == [] then [] else RenderPiece(t[0]) + Render(t[1..])
  }

  /** Parses template text: `{` opens a placeholder that runs to the next `}`; an unclosed
      placeholder, an empty name or a name holding `{` is a malformed template. */
  function ParseTemplate(s: string): (r: Result<Template, Fault>)
    ensures r.Failure? ==> r.error == MalformedTemplate
    decreases |s|
  {
    if s == [] then Success([])
    else if s[0] == '{' then
      match IndexOf(s, '}', 1)
      case None => Failure(MalformedTemplate)
      case Some(k) =>
        if !ValidName(s[1..k]) then Failure(MalformedTemplate)
        else
          var rest :- ParseTemplate(s[k + 1..]);
          Success([Var(s[1..k])] + rest)
    else
      var rest :- ParseTemplate(s[1..]);
      Success([Char(s[0])] + rest)
  }

  /** The parser on a placeholder followed by more text. */
  lemma ParseVarStep(n: string, tail: string)
    requires ValidName(n)
    ensures ParseTemplate("{" + n + "}" + tail) ==
      if ParseTemplate(tail).Success? then Success([Var(n)] + ParseTemplate(tail).value)
      else Failure(MalformedTemplate)
  {
    var s := "{" + n + "}" + tail;
    var k := |n| + 1;
    assert s[0] == '{' && s[k] == '}';
    assert s[1..k] == n;
    assert s[k + 1..] == tail;
    IndexOfFirst(s, '}', 1, k);
  }

  /** The parser on a literal character followed by more text. */
  lemma ParseCharStep(c: char, tail: string)
    requires c != '{'
    ensures ParseTemplate([c] + tail) ==
      if ParseTemplate(tail).Success? then Success([Char(c)] + ParseTemplate(tail).value)
      else Failure(MalformedTemplate)
  {
    var s := [c] + tail;
    assert s[0] == c && s[1..] == tail;
  }

  lemma RenderCons(p: Piece, t: Template)
    ensures Render([p] + t) == RenderPiece(p) + Render(t)
  {
    assert ([p] + t)[0] == p && ([p] + t)[1..] == t;
  }

  lemma WellFormedCons(p: Piece, t: Template)
    ensures WellFormed([p] + t) <==>
      (p.Char? ==> p.c != '{') && (p.Var? ==> ValidName(p.name)) && WellFormed(t)
  {
    var pt := [p] + t;
    assert pt[0] == p;
    assert forall i :: 0 <= i < |t| ==> pt[i + 1] == t[i];
    if WellFormed(t) && (p.Char? ==> p.c != '{') && (p.Var? ==> ValidName(p.name)) {
      forall i | 0 <= i < |pt| ensures (pt[i].Char? ==> pt[i].c != '{') && (pt[i].Var? ==> ValidName(pt[i].name)) {
        if i > 0 { assert pt[i] == t[i - 1]; }
      }
    }
  }

  /** Text that opens a placeholder at its start and closes it at `k`. */
  lemma SplitAtClose(s: string, k: nat)
    requires 1 <= k < |s| && s[0] == '{' && s[k] == '}'
    ensures s == "{" + s[1..k] + "}" + s[k + 1..]
  {
    assert s == s[..1] + s[1..k] + s[k..k + 1] + s[k + 1..];
    assert s[..1] == "{" && s[k..k + 1] == "}";
  }

  /** Parsing loses nothing: a parsed template renders back to the text it came from,
      and it is well formed. */
  lemma {:induction false} ParseThenRender(s: string)
    ensures ParseTemplate(s).Success? ==>
      Render(ParseTemplate(s).value) == s && WellFormed(ParseTemplate(s).value)
    decreases |s|
  {
    if s != [] && ParseTemplate(s).Success? {
      if s[0] == '{' {
        var k := IndexOf(s, '}', 1).value;
        var name, rest := s[1..k], s[k + 1..];
        SplitAtClose(s, k);
        ParseVarStep(name, rest);
        ParseThenRender(rest);
        var tail := ParseTemplate(rest).value;
        RenderCons(Var(name), tail);
        WellFormedCons(Var(name), tail);
      } else {
        assert s == [s[0]] + s[1..];
        ParseCharStep(s[0], s[1..]);
        ParseThenRender(s[1..]);
        var tail := ParseTemplate(s[1..]).value;
        RenderCons(Char(s[0]), tail);
        WellFormedCons(Char(s[0]), tail);
      }
    }
  }

  /** Every well-formed template is recovered from its text. */
  lemma {:induction false} RenderThenParse(t: Template)
    requires WellFormed(t)
    ensures ParseTemplate(Render(t)) == Success(t)
    decreases |t|
  {
    if t != [] {
      assert t == [t[0]] + t[1..];
      WellFormedCons(t[0], t[1..]);
      RenderThenParse(t[1..]);
      RenderCons(t[0], t[1..]);
      match t[0]
      case Char(c) =>
        ParseCharStep(c, Render(t[1..]));
      case Var(n) =>
        assert RenderPiece(t[0]) + Render(t[1..]) == "{" + n + "}" + Render(t[1..]);
        ParseVarStep(n, Render(t[1..]));
    }
  }

  /** Literal text as template pieces. */
  function Literal(s: string): (t: Template)
    ensures |t| == |s| && forall i :: 0 <= i < |s| ==> t[i] == Char(s[i])
  {
    if s == [] then [] else [Char(s[0])] + Literal(s[1..])
  }

  lemma {:induction false} RenderLiteral(s: string)
    ensures Render(Literal(s)) == s
  {
    if s != [] {
      assert Literal(s)[1..] == Literal(s[1..]);
      RenderLiteral(s[1..]);
    }
  }

  /** Rendering distributes over concatenation of templates. */
  lemma {:induction false} RenderAppend(t1: Template, t2: Template)
    ensures Render(t1 + t2) == Render(t1) + Render(t2)
  {
    if t1 == [] {
      assert t1 + t2 == t2;
    } else {
      assert (t1 + t2)[1..] == t1[1..] + t2;
      RenderAppend(t1[1..], t2);
    }
  }

  /** Text without `{` is read as that text, character for character. */
  lemma LiteralParses(s: string)
    requires '{' !in s
    ensures ParseTemplate(s) == Success(Literal(s))
  {
    var t := Literal(s);
    forall i | 0 <= i < |t| ensures (t[i].Char? ==> t[i].c != '{') && (t[i].Var? ==> ValidName(t[i].name)) {
      assert t[i] == Char(s[i]);
      assert s[i] in s;
    }
    RenderLiteral(s);
    RenderThenParse(t);
  }

  lemma LiteralThenVarWellFormed(s: string, n: string)
    requires '{' !in s && ValidName(n)
    ensures WellFormed(Literal(s) + [Var(n)])
  {
    var t := Literal(s) + [Var(n)];
    forall i | 0 <= i < |t| ensures (t[i].Char? ==> t[i].c != '{') && (t[i].Var? ==> ValidName(t[i].name)) {
      if i < |s| {
        assert t[i] == Literal(s)[i] == Char(s[i]);
        assert s[i] in s;
      } else {
        assert t[i] == Var(n);
      }
    }
  }

  lemma LiteralThenVarRenders(s: string, n: string)
    ensures Render(Literal(s) + [Var(n)]) == s + "{" + n + "}"
  {
    RenderLiteral(s);
    RenderAppend(Literal(s), [Var(n)]);
    assert Render([Var(n)]) == "{" + n + "}";
  }

  /** Literal text followed by one placeholder, parsed. */
  lemma LiteralThenVarParses(s: string, n: string)
    requires '{' !in s && ValidName(n)
    ensures ParseTemplate(s + "{" + n + "}") == Success(Literal(s) + [Var(n)])
  {
    LiteralThenVarWellFormed(s, n);
    LiteralThenVarRenders(s, n);
    RenderThenParse(Literal(s) + [Var(n)]);
  }

  /** The value a placeholder expands to: bound names map to `Some(text)`. */
  predicate Bound(values: map<string, Option<string>>, n: string) {
    n in values && values[n].Some?
  }

  /** Every placeholder of `t` has a value. */
  predicate AllBound(t: Template, values: map<string, Option<string>>) {
    forall i :: 0 <= i < |t| && t[i].Var? ==> Bound(values, t[i].name)
  }

  function ExpandPiece(p: Piece, values: map<string, Option<string>>): Result<string, Fault> {
    match p
    case Char(c) => Success([c])
    case Var(n) => if Bound(values, n) then Success(values[n].value) else Failure(UnboundVariable(n))
  }

  /** Replaces every placeholder by its value, taken as already percent-encoded (no
      re-encoding). The first placeholder without a value (a missing name or a `None`
      value, Java's `null`) is a fault. */
  function Expand(t: Template, values: map<string, Option<string>>): (r: Result<string, Fault>)
    ensures r.Success? <==> AllBound(t, values)
    ensures r.Failure? ==>
      exists i :: 0 <= i < |t| && t[i].Var? && !Bound(values, t[i].name) &&
        r.error == UnboundVariable(t[i].name)
    decreases |t|
  {
    if t == [] then Success([])
    else
      var head :- ExpandPiece(t[0], values);
      var tail :- Expand(t[1..], values);
      Success(head + tail)
  }

  /** A template with no placeholder expands to its own text, whatever the values. */
  lemma {:induction false} ExpandLiteral(t: Template, values: map<string, Option<string>>)
    requires forall i :: 0 <= i < |t| ==> t[i].Char?
    ensures Expand(t, values) == Success(Render(t))
    decreases |t|
  {
    if t != [] {
      ExpandLiteral(t[1..], values);
    }
  }

  /** Expansion distributes over concatenation of templates. */
  lemma {:induction false} ExpandAppend(t1: Template, t2: Template, values: map<string, Option<string>>)
    requires AllBound(t1, values) && AllBound(t2, values)
    ensures Expand(t1 + t2, values) == Success(Expand(t1, values).value + Expand(t2, values).value)
    decreases |t1|
  {
    if t1 != [] {
      assert (t1 + t2)[1..] == t1[1..] + t2;
      assert AllBound(t1[1..], values) by {
        forall i | 0 <= i < |t1[1..]| && t1[1..][i].Var? ensures Bound(values, t1[1..][i].name) {
          assert t1[1..][i] == t1[i + 1];
        }
      }
      ExpandAppend(t1[1..], t2, values);
      assert (t1 + t2)[0] == t1[0];
      assert t1[0].Var? ==> Bound(values, t1[0].name);
      var head := ExpandPiece(t1[0], values).value;
      assert Expand(t1, values).value == head + Expand(t1[1..], values).value;
      assert Expand(t1 + t2, values).value == head + Expand(t1[1..] + t2, values).value;
      assert head + (Expand(t1[1..], values).value + Expand(t2, values).value)
          == (head + Expand(t1[1..], values).value) + Expand(t2, values).value;
    } else {
      assert t1 + t2 == t2;
      assert Expand(t1, values).value == [];
      assert [] + Expand(t2, values).value == Expand(t2, values).value;
    }
  }

  /** Only the values of the template's own placeholder names matter. */
  lemma {:induction false} ExpandFrame(t: Template, v1: map<string, Option<string>>, v2: map<string, Option<string>>)
    requires forall i :: 0 <= i < |t| && t[i].Var? ==>
      (t[i].name in v1 <==> t[i].name in v2) && (t[i].name in v1 ==> v1[t[i].name] == v2[t[i].name])
    ensures Expand(t, v1) == Expand(t, v2)
    decreases |t|
  {
    if t != [] {
      assert forall i :: 0 <= i < |t[1..]| ==> t[1..][i] == t[i + 1];
      ExpandFrame(t[1..], v1, v2);
    }
  }

  /** A single bound placeholder expands to its value. */
  lemma ExpandVar(n: string, values: map<string, Option<string>>)
    requires Bound(values, n)
    ensures Expand([Var(n)], values) == Success(values[n].value)
  {
    assert [Var(n)][1..] == [];
    assert values[n].value + [] == values[n].value;
  }

  /** Literal text followed by a bound placeholder expands to the text and the value. */
  lemma LiteralThenVarExpands(s: string, n: string, values: map<string, Option<string>>)
    requires Bound(values, n)
    ensures Expand(Literal(s) + [Var(n)], values) == Success(s + values[n].value)
  {
    var lit := Literal(s);
    assert forall i :: 0 <= i < |lit| ==> lit[i].Char? by {
      forall i | 0 <= i < |lit| ensures lit[i].Char? {
        assert lit[i] == Char(s[i]);
      }
    }
    ExpandLiteral(lit, values);
    RenderLiteral(s);
    ExpandVar(n, values);
    assert AllBound(lit, values) && AllBound([Var(n)], values);
    ExpandAppend(lit, [Var(n)], values);
  }

  /** Literal text followed by an unbound placeholder fails on that placeholder. */
  lemma LiteralThenVarUnbound(s: string, n: string, values: map<string, Option<string>>)
    requires !Bound(values, n)
    ensures Expand(Literal(s) + [Var(n)], values) == Failure(UnboundVariable(n))
  {
    var t := Literal(s) + [Var(n)];
    assert t[|s|] == Var(n);
  }

  /* ---------------------------------------------------------------------------------------
     URIs
     --------------------------------------------------------------------------------------- */

  /** A URI, split the way section 3 of RFC 3986 splits it: an optional scheme, an optional
      authority (after `//`, up to the first `/`, `?` or `#`) and the rest, here called the
      path (any query or fragment stays in it). */
  datatype Uri = Uri(scheme: Option<string>, authority: Option<string>, path: string)

  predicate IsAlpha(c: char) {
    'a' <= c <= 'z' || 'A' <= c <= 'Z'
  }

  predicate IsSchemeChar(c: char) {
    IsAlpha(c) || '0' <= c <= '9' || c == '+' || c == '-' || c == '.'
  }

  /** `scheme = ALPHA *( ALPHA / DIGIT / "+" / "-" / "." )`, section 3.1 of RFC 3986. */
  predicate IsSchemeName(s: string) {
    |s| > 0 && IsAlpha(s[0]) && forall i :: 1 <= i < |s| ==> IsSchemeChar(s[i])
  }

  /** Absolute means "has a scheme" (section 4.3 of RFC 3986, `java.net.URI.isAbsolute`). */
  predicate IsAbsolute(u: Uri) {
    u.scheme.Some?
  }

  /** The authority as written in URI text, after `//`. */
  function AuthorityText(authority: Option<string>): string {
    if authority.Some? then "//" + authority.value else ""
  }

  /** The characters that end an authority: `/`, `?` and `#` (section 3.2 of RFC 3986). */
  predicate EndsAuthority(c: char) {
    c == '/' || c == '?' || c == '#'
  }

  /** Text holding no character that would end an authority. */
  predicate NoAuthorityEnd(a: string) {
    forall i :: 0 <= i < |a| ==> !EndsAuthority(a[i])
  }

  /** The first index at or after `from` where `s` holds a character ending an authority. */
  function AuthorityEnd(s: string, from: nat): (r: Option<nat>)
    requires from <= |s|
    ensures r.Some? ==> from <= r.value < |s| && EndsAuthority(s[r.value]) && NoAuthorityEnd(s[from..r.value])
    ensures r.None? ==> NoAuthorityEnd(s[from..])
    decreases |s| - from
  {
    if from == |s| then None
    else if EndsAuthority(s[from]) then Some(from)
    else
      var r := AuthorityEnd(s, from + 1);
      assert forall i :: from + 1 <= i < |s| ==> s[from..][i - from] == s[i];
      assert r.Some? ==> forall i :: from + 1 <= i < r.value ==> s[from..r.value][i - from] == s[i];
      r
  }

  /** `AuthorityEnd` finds exactly the first such character. */
  lemma {:induction false} AuthorityEndFirst(s: string, from: nat, k: nat)
    requires from <= k < |s| && EndsAuthority(s[k]) && NoAuthorityEnd(s[from..k])
    ensures AuthorityEnd(s, from) == Some(k)
    decreases k - from
  {
    if from < k {
      assert s[from] == s[from..k][0];
      var t := s[from + 1..k];
      forall i | 0 <= i < |t| ensures !EndsAuthority(t[i]) {
        assert t[i] == s[from..k][i + 1];
      }
      AuthorityEndFirst(s, from + 1, k);
    }
  }

  /** Splits what follows the scheme into authority and path: after `//` the authority runs
      to the first `/`, `?` or `#`. */
  function SplitAuthority(rest: string): (r: (Option<string>, string))
    ensures r.0.Some? ==> NoAuthorityEnd(r.0.value) && (r.1 == [] || EndsAuthority(r.1[0]))
    ensures AuthorityText(r.0) + r.1 == rest
  {
    if |rest| >= 2 && rest[..2] == "//" then
      match AuthorityEnd(rest, 2)
      case Some(j) =>
        assert rest == "//" + rest[2..j] + rest[j..];
        (Some(rest[2..j]), rest[j..])
      case None =>
        assert rest == "//" + rest[2..];
        (Some(rest[2..]), [])
    else (None, rest)
  }

  /** Reads URI text: the text before the first `:` is the scheme when it is a scheme name,
      and `//` then opens an authority that runs to the next `/`, `?` or `#`. */
  function ParseUri(s: string): (r: Uri)
    ensures r.scheme.Some? ==> IsSchemeName(r.scheme.value) && ':' !in r.scheme.value
    ensures r.authority.Some? ==> NoAuthorityEnd(r.authority.value) && (r.path == [] || EndsAuthority(r.path[0]))
    ensures s != [] && s[0] == '/' ==> r.scheme.None?
  {
    var colon := IndexOf(s, ':', 0);
    if colon.Some? && IsSchemeName(s[..colon.value]) then
      var split := SplitAuthority(s[colon.value + 1..]);
      Uri(Some(s[..colon.value]), split.0, split.1)
    else
      var split := SplitAuthority(s);
      Uri(None, split.0, split.1)
  }

  /** The text of a URI (`URI.toString`). */
  function ToText(u: Uri): string {
    (if u.scheme.Some? then u.scheme.value + ":" else "")
      + AuthorityText(u.authority)
      + u.path
  }

  /** Reading URI text keeps it: the URI's text is the text it was read from. */
  lemma ParseUriText(s: string)
    ensures ToText(ParseUri(s)) == s
  {
    var colon := IndexOf(s, ':', 0);
    if colon.Some? && IsSchemeName(s[..colon.value]) {
      SchemeText(s, colon.value);
    } else {
      var split := SplitAuthority(s);
      assert ParseUri(s) == Uri(None, split.0, split.1);
    }
  }

  /** Text read with a scheme ending at `k` is written back as the same text. */
  lemma SchemeText(s: string, k: nat)
    requires k < |s| && IndexOf(s, ':', 0) == Some(k) && IsSchemeName(s[..k])
    ensures ToText(ParseUri(s)) == s
  {
    var split := SplitAuthority(s[k + 1..]);
    assert ParseUri(s) == Uri(Some(s[..k]), split.0, split.1);
    ColonSplit(s, k);
  }

  lemma ColonSplit(s: string, k: nat)
    requires k < |s| && s[k] == ':'
    ensures s == s[..k] + ":" + s[k + 1..]
  {
    assert s == s[..k] + s[k..k + 1] + s[k + 1..];
  }

  /** A URI read from text is absolute exactly when the text starts with a scheme name
      followed by `:` and holding no earlier `:`. */
  lemma ParseUriAbsolute(s: string)
    ensures IsAbsolute(ParseUri(s)) <==>
      exists k :: 0 <= k < |s| && s[k] == ':' && ':' !in s[..k] && IsSchemeName(s[..k])
  {
    var colon := IndexOf(s, ':', 0);
    if exists k :: 0 <= k < |s| && s[k] == ':' && ':' !in s[..k] && IsSchemeName(s[..k]) {
      var k :| 0 <= k < |s| && s[k] == ':' && ':' !in s[..k] && IsSchemeName(s[..k]);
      assert s[0..k] == s[..k];
      IndexOfFirst(s, ':', 0, k);
    }
    if colon.Some? && IsSchemeName(s[..colon.value]) {
      assert s[0..colon.value] == s[..colon.value];
    }
  }

  /** The URIs whose text reads back as the same URI: a valid scheme name; an authority
      without `/`, `?` or `#`, followed by an empty path or one starting with one of them; no authority-like
      `//` at the start of a path without authority; and, without a scheme, no `:` before
      the first `/` (section 4.2 of RFC 3986). */
  predicate WellFormedUri(u: Uri) {
    && (u.scheme.Some? ==> IsSchemeName(u.scheme.value))
    && (u.authority.Some? ==> NoAuthorityEnd(u.authority.value) && (u.path == [] || EndsAuthority(u.path[0])))
    && (u.authority.None? ==> !(|u.path| >= 2 && u.path[..2] == "//"))
    && (u.scheme.None? && u.authority.None? ==> NoColonBeforeSlash(u.path))
  }

  predicate NoColonBeforeSlash(p: string) {
    forall i :: 0 <= i < |p| && p[i] == ':' ==> '/' in p[..i]
  }

  lemma SplitAuthorityOfText(authority: Option<string>, path: string)
    requires authority.Some? ==> NoAuthorityEnd(authority.value) && (path == [] || EndsAuthority(path[0]))
    requires authority.None? ==> !(|path| >= 2 && path[..2] == "//")
    ensures SplitAuthority(AuthorityText(authority) + path) == (authority, path)
  {
    if authority.Some? {
      var a := authority.value;
      var rest := "//" + a + path;
      assert rest[..2] == "//";
      assert rest[2..2 + |a|] == a;
      if path == [] {
        assert rest[2..] == a;
      } else {
        assert rest[2 + |a|] == path[0];
        AuthorityEndFirst(rest, 2, 2 + |a|);
        assert rest[2 + |a|..] == path;
      }
    } else {
      assert AuthorityText(authority) + path == path;
    }
  }

  /** A scheme name holds no `:`, so it ends where the first `:` of the text is. */
  lemma SchemeThenColon(sc: string, rest: string)
    requires IsSchemeName(sc)
    ensures IndexOf(sc + ":" + rest, ':', 0) == Some(|sc|)
    ensures (sc + ":" + rest)[..|sc|] == sc && (sc + ":" + rest)[|sc| + 1..] == rest
  {
    var s := sc + ":" + rest;
    assert ':' !in sc by {
      forall i | 0 <= i < |sc| ensures sc[i] != ':' {
        if i > 0 { assert IsSchemeChar(sc[i]); }
      }
    }
    assert s[..|sc|] == sc;
    IndexOfFirst(s, ':', 0, |sc|);
    assert s[|sc| + 1..] == rest;
  }

  /** Text that starts with `/`, or has a `/` before its first `:`, has no scheme. */
  lemma NoSchemeBeforeSlash(s: string)
    requires (s != [] && s[0] == '/') || NoColonBeforeSlash(s)
    ensures IndexOf(s, ':', 0).Some? ==> !IsSchemeName(s[..IndexOf(s, ':', 0).value])
  {
    var colon := IndexOf(s, ':', 0);
    if colon.Some? && colon.value > 0 {
      var k := colon.value;
      if s[0] == '/' {
        assert s[..k][0] == '/';
      } else {
        assert '/' in s[..k];
        var j :| 0 <= j < k && s[..k][j] == '/';
        assert j == 0 || !IsSchemeChar(s[..k][j]);
      }
    }
  }

  lemma ParseUriWithScheme(sc: string, rest: string)
    requires IsSchemeName(sc)
    ensures ParseUri(sc + ":" + rest) == Uri(Some(sc), SplitAuthority(rest).0, SplitAuthority(rest).1)
  {
    SchemeThenColon(sc, rest);
  }

  lemma ParseUriWithoutScheme(s: string)
    requires (s != [] && s[0] == '/') || NoColonBeforeSlash(s)
    ensures ParseUri(s) == Uri(None, SplitAuthority(s).0, SplitAuthority(s).1)
  {
    NoSchemeBeforeSlash(s);
  }

  /** Writing a well-formed URI out and reading it back gives the same URI. */
  lemma TextThenParseUri(u: Uri)
    requires WellFormedUri(u)
    ensures ParseUri(ToText(u)) == u
  {
    if u.scheme.Some? {
      AbsoluteTextThenParse(u);
    } else {
      RelativeTextThenParse(u);
    }
  }

  lemma AbsoluteTextThenParse(u: Uri)
    requires WellFormedUri(u) && u.scheme.Some?
    ensures ParseUri(ToText(u)) == u
  {
    var rest := AuthorityText(u.authority) + u.path;
    assert ToText(u) == u.scheme.value + ":" + rest;
    SchemeThenColon(u.scheme.value, rest);
    SplitAuthorityOfText(u.authority, u.path);
  }

  lemma RelativeTextThenParse(u: Uri)
    requires WellFormedUri(u) && u.scheme.None?
    ensures ParseUri(ToText(u)) == u
  {
    var s := AuthorityText(u.authority) + u.path;
    assert ToText(u) == s;
    if u.authority.Some? {
      assert s[0] == '/';
    } else {
      assert s == u.path;
    }
    NoSchemeBeforeSlash(s);
    SplitAuthorityOfText(u.authority, u.path);
  }

  function DropTrailingSlash(p: string): string {
    if p != [] && p[|p| - 1] == '/' then p[..|p| - 1] else p
  }

  function DropLeadingSlash(p: string): string {
    if p != [] && p[0] == '/' then p[1..] else p
  }

  /** Appends path text to a URI's path (`UriBuilder.path`): nothing happens for empty text,
      and otherwise exactly one `/` separates the old path from the new text (one is
      inserted when neither side has it, and one is dropped when both have it). */
  function AppendPath(base: Uri, segments: string): (r: Uri)
    ensures r.scheme == base.scheme && r.authority == base.authority
    ensures segments == [] ==> r == base
    ensures segments != [] && base.path == [] ==> r.path == segments
    ensures segments != [] && base.path != [] ==>
      r.path == DropTrailingSlash(base.path) + "/" + DropLeadingSlash(segments)
  {
    if segments == [] then base
    else
      var p := base.path;
      var pathEndsInSlash := p != [] && p[|p| - 1] == '/';
      var segmentStartsWithSlash := segments[0] == '/';
      if p != [] && !pathEndsInSlash && !segmentStartsWithSlash then
        base.(path := p + "/" + segments)
      else if pathEndsInSlash && segmentStartsWithSlash then
        assert p == p[..|p| - 1] + "/";
        base.(path := p + segments[1..])
      else if pathEndsInSlash then
        assert p == p[..|p| - 1] + "/";
        base.(path := p + segments)
      else
        assert p != [] ==> segments == "/" + segments[1..];
        base.(path := p + segments)
  }

  /** The appended URI keeps the base path as a prefix and ends with the appended text. */
  lemma AppendPathKeepsBoth(base: Uri, segments: string)
    ensures base.path <= AppendPath(base, segments).path
    ensures var r := AppendPath(base, segments).path;
      |segments| <= |r| && r[|r| - |segments|..] == segments
  {
    var p := base.path;
    var r := AppendPath(base, segments).path;
    if segments != [] && p != [] {
      if p[|p| - 1] == '/' && segments[0] == '/' {
        assert p == p[..|p| - 1] + "/";
        assert r == p + segments[1..];
        assert r == p[..|p| - 1] + segments;
      }
    }
  }
}
