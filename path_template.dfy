/**
 * `interpolatePagePath`: a page path template such as `/blog/{slug}` is
 * resolved against one content record. Both copies of the function scan
 * and substitute alike (lib/transform.js:196-203, index.js:148-155); they
 * differ only in how the substituted string is normalised afterwards
 * (lib/transform.js:205 against index.js:157-161), and the data client
 * normalises a requested page path the same two ways.
 */
module PathTemplate {
  import opened Results
  import opened Text
  import opened JsValues

  /** Which copy of the plugin: the split one under lib/ or the older one in index.js. */
  datatype Edition = Lib | Legacy

  datatype InterpolationError =
    | MissingField(name: string)   // the placeholder's field is absent or falsy
    | NotATemplate                 // the template is not a string: `.replace` throws a TypeError

  /** A template is a run of literal characters and `{name}` placeholders. */
  datatype Token = Lit(c: char) | Hole(name: string)

  /** The first `}` at or after index `from`. */
  function CloseAt(t: string, from: nat): (r: Option<nat>)
    ensures r.Some? ==> from <= r.value < |t| && t[r.value] == '}'
    ensures r.Some? ==> forall k :: from <= k < r.value ==> t[k] != '}'
    ensures r.None? ==> forall k :: from <= k < |t| ==> t[k] != '}'
    decreases |t| - from
  {
    if from >= |t| then None
    else if t[from] == '}' then Some(from)
    else CloseAt(t, from + 1)
  }

  /** What the regular expression `{([\s\S]+?)}` can capture: a non-empty name with no `}` after its first character. */
  predicate PlaceholderName(name: string) {
    name != [] && forall k :: 1 <= k < |name| ==> name[k] != '}'
  }

  /**
   * The scan of `String.prototype.replace` with the global pattern
   * `{([\s\S]+?)}`: at a `{` the shortest capture of one or more characters
   * followed by `}` becomes a placeholder; a `{` with no such `}` is copied.
   */
  function Tokenize(t: string): (r: seq<Token>)
    ensures |r| <= |t|
    decreases |t|
  {
    if t == [] then []
    else if t[0] == '{' && CloseAt(t, 2).Some? then
      var j := CloseAt(t, 2).value;
      [Hole(t[1..j])] + Tokenize(t[j + 1..])
    else [Lit(t[0])] + Tokenize(t[1..])
  }

  /** Every placeholder the scan finds has a name the pattern can capture. */
  lemma {:induction false} TokenizeHoles(t: string)
    ensures forall i :: 0 <= i < |Tokenize(t)| && Tokenize(t)[i].Hole? ==> PlaceholderName(Tokenize(t)[i].name)
    decreases |t|
  {
    if t != [] {
      if t[0] == '{' && CloseAt(t, 2).Some? {
        var j := CloseAt(t, 2).value;
        TokenizeHoles(t[j + 1..]);
        assert PlaceholderName(t[1..j]);
        HolesNamedCons(Hole(t[1..j]), Tokenize(t[j + 1..]));
      } else {
        TokenizeHoles(t[1..]);
        HolesNamedCons(Lit(t[0]), Tokenize(t[1..]));
      }
    }
  }

  lemma HolesNamedCons(tk: Token, ts: seq<Token>)
    requires tk.Hole? ==> PlaceholderName(tk.name)
    requires forall i :: 0 <= i < |ts| && ts[i].Hole? ==> PlaceholderName(ts[i].name)
    ensures var r := [tk] + ts; forall i :: 0 <= i < |r| && r[i].Hole? ==> PlaceholderName(r[i].name)
  {
    var r := [tk] + ts;
    forall i | 1 <= i < |r| ensures r[i] == ts[i - 1] { }
  }

  /** The template text a token stands for. */
  function Untokenize(ts: seq<Token>): string {
    ExpandWith(ts, TokenSource)
  }

  /** The template text of one token: the character, or the placeholder in braces. */
  function TokenSource(t: Token): string {
    match t
    case Lit(c) => [c]
    case Hole(n) => "{" + n + "}"
  }

  /** The scan loses nothing: the tokens spell out the template again. */
  lemma {:induction false} UntokenizeTokenize(t: string)
    ensures Untokenize(Tokenize(t)) == t
    decreases |t|
  {
    if t != [] {
      if t[0] == '{' && CloseAt(t, 2).Some? {
        var j := CloseAt(t, 2).value;
        var name, rest := t[1..j], t[j + 1..];
        calc {
          Untokenize(Tokenize(t));
          Untokenize([Hole(name)] + Tokenize(rest));
          { UntokenizeCons(Hole(name), Tokenize(rest)); }
          "{" + name + "}" + Untokenize(Tokenize(rest));
          { UntokenizeTokenize(rest); }
          "{" + name + "}" + rest;
          {
            assert t[..1] == "{" && t[j..j + 1] == "}";
            assert t[..j] == t[..1] + name;
            assert t[..j + 1] == t[..j] + t[j..j + 1];
            assert t == t[..j + 1] + rest;
          }
          t;
        }
      } else {
        calc {
          Untokenize(Tokenize(t));
          Untokenize([Lit(t[0])] + Tokenize(t[1..]));
          { UntokenizeCons(Lit(t[0]), Tokenize(t[1..])); }
          [t[0]] + Untokenize(Tokenize(t[1..]));
          { UntokenizeTokenize(t[1..]); }
          [t[0]] + t[1..];
          t;
        }
      }
    }
  }

  /** The template text of a token run is that of its first token, then that of the rest. */
  lemma UntokenizeCons(tk: Token, ts: seq<Token>)
    ensures Untokenize([tk] + ts) == TokenSource(tk) + Untokenize(ts)
  {
    assert ([tk] + ts)[1..] == ts;
  }

  /** The text a placeholder is replaced with: the field's string form with its `/` stripped from both ends. */
  function FieldText(page: Value, name: string): string {
    Trim(LodashString(Get(page, name)), Slash)
  }

  /** A field's text neither starts nor ends with `/`. */
  lemma FieldTextUnslashed(page: Value, name: string)
    ensures var r := FieldText(page, name); r == [] || (r[0] != '/' && r[|r| - 1] != '/')
  {
    TrimSpec(LodashString(Get(page, name)), Slash);
  }

  /**
   * Replaces each placeholder by its field text, left to right; the first
   * placeholder whose field is falsy aborts with its name.
   */
  function Render(ts: seq<Token>, page: Value): (r: Result<string, InterpolationError>)
    ensures r.Failure? ==> r.error.MissingField?
  {
    if ts == [] then Success([])
    else
      match ts[0]
      case Lit(c) =>
        (match Render(ts[1..], page)
         case Success(rest) => Success([c] + rest)
         case Failure(e) => Failure(e))
      case Hole(n) =>
        if !Truthy(Get(page, n)) then Failure(MissingField(n))
        else
          match Render(ts[1..], page)
          case Success(rest) => Success(FieldText(page, n) + rest)
          case Failure(e) => Failure(e)
  }

  /** The token at `i` is a placeholder whose field is missing or falsy. */
  predicate MissingAt(ts: seq<Token>, page: Value, i: int) {
    0 <= i < |ts| && ts[i].Hole? && !Truthy(Get(page, ts[i].name))
  }

  /** A placeholder of `ts` whose field is missing or falsy. */
  predicate HasMissingField(ts: seq<Token>, page: Value) {
    exists i :: 0 <= i < |ts| && MissingAt(ts, page, i)
  }

  /** The token at `i` is the first placeholder whose field is missing or falsy. */
  predicate FirstMissingAt(ts: seq<Token>, page: Value, i: int) {
    MissingAt(ts, page, i) && forall j :: 0 <= j < i ==> !MissingAt(ts, page, j)
  }

  lemma MissingShift(ts: seq<Token>, page: Value, i: int)
    requires ts != [] && 0 <= i
    ensures MissingAt(ts[1..], page, i) <==> MissingAt(ts, page, i + 1)
  {
    if 0 <= i < |ts| - 1 {
      assert ts[1..][i] == ts[i + 1];
    }
  }

  /** The name of the first placeholder whose field is missing or falsy, if any. */
  function FirstMissing(ts: seq<Token>, page: Value): Option<string> {
    if ts == [] then None
    else if MissingAt(ts, page, 0) then Some(ts[0].name)
    else FirstMissing(ts[1..], page)
  }

  /** Substitution fails exactly at the first placeholder whose field is missing or falsy. */
  lemma {:induction false} RenderFailsAtFirstMissing(ts: seq<Token>, page: Value)
    ensures Render(ts, page).Failure? <==> FirstMissing(ts, page).Some?
    ensures Render(ts, page).Failure? ==> Render(ts, page).error.name == FirstMissing(ts, page).value
  {
    if ts != [] {
      RenderFailsAtFirstMissing(ts[1..], page);
    }
  }

  /** `FirstMissing` finds a placeholder exactly when some placeholder's field is missing or falsy. */
  lemma {:induction false} FirstMissingFinds(ts: seq<Token>, page: Value)
    ensures FirstMissing(ts, page).Some? <==> HasMissingField(ts, page)
  {
    if ts != [] && !MissingAt(ts, page, 0) {
      FirstMissingFinds(ts[1..], page);
      if HasMissingField(ts[1..], page) {
        var i :| 0 <= i < |ts| - 1 && MissingAt(ts[1..], page, i);
        MissingShift(ts, page, i);
      }
      if HasMissingField(ts, page) {
        var i :| 0 < i < |ts| && MissingAt(ts, page, i);
        MissingShift(ts, page, i - 1);
      }
    }
  }

  /** What `FirstMissing` names is the first placeholder whose field is missing or falsy. */
  lemma {:induction false} FirstMissingIsFirst(ts: seq<Token>, page: Value)
    ensures FirstMissing(ts, page).Some? ==>
      exists i :: FirstMissingAt(ts, page, i) && ts[i].name == FirstMissing(ts, page).value
  {
    if ts != [] {
      if MissingAt(ts, page, 0) {
        assert FirstMissingAt(ts, page, 0);
      } else if FirstMissing(ts[1..], page).Some? {
        FirstMissingIsFirst(ts[1..], page);
        var i :| FirstMissingAt(ts[1..], page, i) && ts[1..][i].name == FirstMissing(ts[1..], page).value;
        FirstMissingShift(ts, page, i);
      }
    }
  }

  /** The first missing placeholder after the first token, when that token is not one, is the first overall. */
  lemma FirstMissingShift(ts: seq<Token>, page: Value, i: nat)
    requires ts != [] && !MissingAt(ts, page, 0) && FirstMissingAt(ts[1..], page, i)
    ensures FirstMissingAt(ts, page, i + 1) && ts[i + 1] == ts[1..][i]
  {
    MissingShift(ts, page, i);
    forall j | 0 <= j < i + 1 ensures !MissingAt(ts, page, j) {
      if j > 0 {
        MissingShift(ts, page, j - 1);
      }
    }
  }

  /**
   * Substitution fails exactly when some placeholder's field is missing or
   * falsy, and then it names the first such placeholder.
   */
  lemma RenderFails(ts: seq<Token>, page: Value)
    ensures Render(ts, page).Failure? <==> HasMissingField(ts, page)
    ensures Render(ts, page).Failure? ==>
      exists i :: FirstMissingAt(ts, page, i) && ts[i].name == Render(ts, page).error.name
  {
    RenderFailsAtFirstMissing(ts, page);
    FirstMissingFinds(ts, page);
    FirstMissingIsFirst(ts, page);
  }

  /** The text of a substitution that succeeds, token by token. */
  function Expansion(ts: seq<Token>, page: Value): string {
    ExpandWith(ts, TextOf(page))
  }

  /** The text one token stands for: a literal character, or a placeholder's field text. */
  function TokenText(t: Token, page: Value): string {
    match t
    case Lit(c) => [c]
    case Hole(n) => FieldText(page, n)
  }

  /** `TokenText` for one record, as a function of the token. */
  function TextOf(page: Value): Token -> string {
    t => TokenText(t, page)
  }

  /** The texts of the tokens, one after another. */
  function ExpandWith(ts: seq<Token>, text: Token -> string): string {
    if ts == [] then [] else text(ts[0]) + ExpandWith(ts[1..], text)
  }

  /** Expanding two token runs one after the other is expanding each. */
  lemma {:induction false} ExpandWithAppend(a: seq<Token>, b: seq<Token>, text: Token -> string)
    ensures ExpandWith(a + b, text) == ExpandWith(a, text) + ExpandWith(b, text)
  {
    if a != [] {
      ExpandWithAppend(a[1..], b, text);
      assert (a + b)[0] == a[0];
      assert (a + b)[1..] == a[1..] + b;
    } else {
      assert a + b == b;
    }
  }

  /**
   * Literal text is copied verbatim and placeholders expand independently:
   * the expansion of two token runs is the concatenation of their expansions.
   */
  lemma ExpansionAppend(a: seq<Token>, b: seq<Token>, page: Value)
    ensures Expansion(a + b, page) == Expansion(a, page) + Expansion(b, page)
  {
    ExpandWithAppend(a, b, TextOf(page));
  }

  /** When substitution succeeds, its text is the expansion of the template. */
  lemma {:induction false} RenderSucceeds(ts: seq<Token>, page: Value)
    ensures Render(ts, page).Success? ==> Render(ts, page).value == Expansion(ts, page)
  {
    if ts != [] {
      RenderSucceeds(ts[1..], page);
    }
  }

  /** The template with its placeholders substituted, before normalisation. */
  function Substitute(t: string, page: Value): Result<string, InterpolationError> {
    Render(Tokenize(t), page)
  }

  /** A page path in normal form: one leading `/`, and no trailing `/` unless it is the root. */
  predicate IsNormalPath(p: string) {
    |p| >= 1 && p[0] == '/' && (p == "/" || (p[1] != '/' && p[|p| - 1] != '/'))
  }

  /** lib/transform.js:205 and lib/data-client.js:94: `'/' + _.trim(s, '/')`. */
  function NormaliseLib(s: string): string {
    "/" + Trim(s, Slash)
  }

  /** The lib normalisation always yields a normal path. */
  lemma NormaliseLibNormal(s: string)
    ensures IsNormalPath(NormaliseLib(s))
  {
    TrimSpec(s, Slash);
  }

  /**
   * index.js:157-161 and index.js:398-401: trailing `/` trimmed, then `/`
   * prepended when the result does not already start with one.
   */
  function NormaliseLegacy(s: string): string {
    var e := TrimEnd(s, Slash);
    if |e| > 0 && e[0] == '/' then e else "/" + e
  }

  /**
   * The older normalisation yields a path with a leading `/` and no
   * trailing `/`; it is the root exactly when nothing but slashes was given.
   */
  lemma NormaliseLegacyShape(s: string)
    ensures var r := NormaliseLegacy(s);
      |r| >= 1 && r[0] == '/'
      && (r == "/" || r[|r| - 1] != '/')
      && (r == "/" <==> forall i :: 0 <= i < |s| ==> s[i] == '/')
  {
    var e := TrimEnd(s, Slash);
    TrimEndSpec(s, Slash);
    var r := NormaliseLegacy(s);
    if e != [] {
      assert r[|r| - 1] == e[|e| - 1];
      assert r != "/";
      assert e[|e| - 1] == s[|e| - 1];
    }
  }

  function Normalise(ed: Edition, s: string): string {
    match ed
    case Lib => NormaliseLib(s)
    case Legacy => NormaliseLegacy(s)
  }

  /** Both normalisations give a path with one leading `/` and no trailing `/` unless it is the root. */
  lemma NormaliseShape(ed: Edition, s: string)
    ensures var r := Normalise(ed, s);
      |r| >= 1 && r[0] == '/' && (r == "/" || r[|r| - 1] != '/')
  {
    NormaliseLibNormal(s);
    NormaliseLegacyShape(s);
  }

  /** `interpolatePagePath(template, page)` of the given edition. */
  function Interpolate(ed: Edition, template: Value, page: Value): Result<string, InterpolationError> {
    match template
    case Str(t) =>
      (match Substitute(t, page)
       case Success(s) => Success(Normalise(ed, s))
       case Failure(e) => Failure(e))
    case _ => Failure(NotATemplate)
  }

  /**
   * A non-string template fails with `NotATemplate`; a string template fails
   * exactly when one of its placeholders names a missing or falsy field;
   * a success is the normalised expansion of the template.
   */
  lemma InterpolateOutcome(ed: Edition, template: Value, page: Value)
    ensures !template.Str? ==> Interpolate(ed, template, page) == Failure(NotATemplate)
    ensures template.Str? ==>
      (Interpolate(ed, template, page).Failure? <==> HasMissingField(Tokenize(template.s), page))
    ensures template.Str? && Interpolate(ed, template, page).Success? ==>
      Interpolate(ed, template, page).value == Normalise(ed, Expansion(Tokenize(template.s), page))
  {
    if template.Str? {
      RenderFails(Tokenize(template.s), page);
      RenderSucceeds(Tokenize(template.s), page);
    }
  }

  /**
   * A resolved path starts with `/` and does not end with one unless it is
   * the root; the lib copy gives a normal path.
   */
  lemma InterpolateShape(ed: Edition, template: Value, page: Value)
    ensures var r := Interpolate(ed, template, page);
      r.Success? ==> |r.value| >= 1 && r.value[0] == '/' && (r.value == "/" || r.value[|r.value| - 1] != '/')
    ensures var r := Interpolate(ed, template, page);
      ed == Lib && r.Success? ==> IsNormalPath(r.value)
  {
    if template.Str? && Substitute(template.s, page).Success? {
      NormaliseShape(ed, Substitute(template.s, page).value);
      NormaliseLibNormal(Substitute(template.s, page).value);
    }
  }

  /** A normal path is left as it is by the lib normalisation. */
  lemma NormalPathFixed(p: string)
    requires IsNormalPath(p)
    ensures NormaliseLib(p) == p
  {
    if p == "/" {
      assert TrimEnd(p, Slash) == TrimEnd([], Slash) == [];
      TrimStartKeeps([], Slash);
      return;
    }
    TrimEndKeeps(p, Slash);
    TrimStartDrops(p, Slash);
    TrimStartKeeps(p[1..], Slash);
    assert "/" + p[1..] == p;
  }

  /** A normal path is exactly a fixed point of the lib normalisation; so normalising twice is normalising once. */
  lemma NormaliseLibFixedPoints(s: string)
    ensures IsNormalPath(s) <==> NormaliseLib(s) == s
    ensures NormaliseLib(NormaliseLib(s)) == NormaliseLib(s)
  {
    NormaliseLibNormal(s);
    if IsNormalPath(s) {
      NormalPathFixed(s);
    }
    NormalPathFixed(NormaliseLib(s));
  }

  /** The two normalisations applied to a string that has no trailing `/` left. */
  lemma AgreeOnTrimmed(e: string)
    requires e == [] || e[|e| - 1] != '/'
    ensures ("/" + TrimStart(e, Slash) == if |e| > 0 && e[0] == '/' then e else "/" + e)
      <==> !(|e| >= 2 && e[0] == '/' && e[1] == '/')
  {
    if e == [] || e[0] != '/' {
      TrimStartKeeps(e, Slash);
    } else if e[1] != '/' {
      TrimStartDrops(e, Slash);
      TrimStartKeeps(e[1..], Slash);
      assert "/" + TrimStart(e, Slash) == "/" + e[1..] == e;
    } else {
      TrimStartDrops(e, Slash);
      TrimStartDrops(e[1..], Slash);
      assert |"/" + TrimStart(e, Slash)| < |e|;
    }
  }

  /**
   * The two normalisations agree unless the trailing-trimmed string starts
   * with `//`: the split copy then collapses the leading slashes and the
   * older copy keeps them.
   */
  lemma NormalisationsAgree(s: string)
    ensures var e := TrimEnd(s, Slash);
      NormaliseLib(s) == NormaliseLegacy(s) <==> !(|e| >= 2 && e[0] == '/' && e[1] == '/')
  {
    TrimEndSpec(s, Slash);
    AgreeOnTrimmed(TrimEnd(s, Slash));
  }

  /** An example where the copies differ: the older one keeps a double leading slash. */
  lemma LegacyKeepsDoubleSlash()
    ensures NormaliseLegacy("//a") == "//a"
    ensures NormaliseLib("//a") == "/a"
  {
    var s := "//a";
    TrimEndKeeps(s, Slash);
    TrimStartDrops(s, Slash);
    var s1 := s[1..];
    assert s1 == "/a";
    TrimStartDrops(s1, Slash);
    var s2 := s1[1..];
    assert s2 == "a";
    TrimStartKeeps(s2, Slash);
  }

  /**
   * A template `prefix{name}` where the prefix holds no `{`: when the field is
   * truthy the result is the prefix followed by the field text, else the
   * interpolation fails naming the field.
   */
  lemma SingleField(prefix: string, name: string, page: Value)
    requires '{' !in prefix && PlaceholderName(name)
    ensures Substitute(prefix + "{" + name + "}", page) ==
      if Truthy(Get(page, name)) then Success(prefix + FieldText(page, name))
      else Failure(MissingField(name))
  {
    TokenizeSingleField(prefix, name);
    if Truthy(Get(page, name)) {
      RenderSingleField(prefix, name, page);
    } else {
      RenderLitPrefix(prefix, [Hole(name)], page);
    }
  }

  /** The tokens of `prefix{name}` render to the prefix and the field text when the field is truthy. */
  lemma RenderSingleField(prefix: string, name: string, page: Value)
    requires Truthy(Get(page, name))
    ensures Render(LitTokens(prefix) + [Hole(name)], page) == Success(prefix + FieldText(page, name))
  {
    var ts := LitTokens(prefix) + [Hole(name)];
    assert Render(ts, page).Success? by {
      RenderFails(ts, page);
      forall i | 0 <= i < |ts| ensures !MissingAt(ts, page, i) {
        if i < |prefix| {
          assert ts[i] == Lit(prefix[i]);
        }
      }
    }
    RenderSucceeds(ts, page);
    assert Render(ts, page).value == Expansion(ts, page);
    ExpansionAppend(LitTokens(prefix), [Hole(name)], page);
    LitExpansion(prefix, page);
    assert [Hole(name)][1..] == [];
    assert Expansion([Hole(name)], page) == FieldText(page, name) + Expansion([], page);
    assert Expansion(ts, page) == prefix + FieldText(page, name);
  }

  /** A template `prefix{name}` with no `{` in the prefix scans as the prefix's characters and one placeholder. */
  lemma TokenizeSingleField(prefix: string, name: string)
    requires '{' !in prefix && PlaceholderName(name)
    ensures Tokenize(prefix + "{" + name + "}") == LitTokens(prefix) + [Hole(name)]
  {
    var t := prefix + "{" + name + "}";
    var tail := "{" + name + "}";
    assert t == prefix + tail;
    TokenizeLiteralPrefix(prefix, tail);
    assert CloseAt(tail, 2) == Some(|tail| - 1) by {
      assert tail[|tail| - 1] == '}';
      forall k | 2 <= k < |tail| - 1 ensures tail[k] != '}' {
        assert tail[k] == name[k - 1];
      }
    }
    assert tail[1..|tail| - 1] == name;
    assert tail[|tail|..] == [];
    assert Tokenize(tail) == [Hole(name)] + Tokenize([]);
  }

  /** The literal tokens for a string. */
  function LitTokens(s: string): (r: seq<Token>)
    ensures |r| == |s|
    ensures forall i :: 0 <= i < |s| ==> r[i] == Lit(s[i])
  {
    if s == [] then [] else [Lit(s[0])] + LitTokens(s[1..])
  }

  lemma {:induction false} TokenizeLiteralPrefix(prefix: string, rest: string)
    requires '{' !in prefix
    ensures Tokenize(prefix + rest) == LitTokens(prefix) + Tokenize(rest)
  {
    if prefix != [] {
      var t := prefix + rest;
      assert '{' !in prefix[1..] by {
        forall k | 0 <= k < |prefix[1..]| ensures prefix[1..][k] != '{' {
          assert prefix[1..][k] == prefix[k + 1];
        }
      }
      assert Tokenize(t) == [Lit(prefix[0])] + Tokenize(prefix[1..] + rest) by {
        assert prefix[0] in prefix;
        assert t[0] == prefix[0] && t[1..] == prefix[1..] + rest;
      }
      TokenizeLiteralPrefix(prefix[1..], rest);
      calc {
        Tokenize(t);
        [Lit(prefix[0])] + (LitTokens(prefix[1..]) + Tokenize(rest));
        ([Lit(prefix[0])] + LitTokens(prefix[1..])) + Tokenize(rest);
        LitTokens(prefix) + Tokenize(rest);
      }
    } else {
      assert prefix + rest == rest;
    }
  }

  lemma {:induction false} LitExpansion(s: string, page: Value)
    ensures Expansion(LitTokens(s), page) == s
  {
    if s != [] {
      LitExpansion(s[1..], page);
    }
  }

  lemma {:induction false} RenderLitPrefix(s: string, ts: seq<Token>, page: Value)
    requires Render(ts, page).Failure?
    ensures Render(LitTokens(s) + ts, page) == Render(ts, page)
  {
    if s != [] {
      RenderLitPrefix(s[1..], ts, page);
      assert (LitTokens(s) + ts)[0] == Lit(s[0]);
      assert (LitTokens(s) + ts)[1..] == LitTokens(s[1..]) + ts;
    } else {
      assert LitTokens(s) + ts == ts;
    }
  }

  /**
   * The default page template `/{slug}` gives the same path in both copies:
   * `/` followed by the slug's text, or failure when the slug is falsy.
   */
  lemma DefaultTemplate(ed: Edition, page: Value)
    ensures Interpolate(ed, Str("/{slug}"), page) ==
      if Truthy(Get(page, "slug")) then Success("/" + FieldText(page, "slug"))
      else Failure(MissingField("slug"))
  {
    var text := FieldText(page, "slug");
    assert Substitute("/{slug}", page) ==
      if Truthy(Get(page, "slug")) then Success("/" + text) else Failure(MissingField("slug"))
    by {
      assert "/{slug}" == "/" + "{" + "slug" + "}";
      SingleField("/", "slug", page);
    }
    if Truthy(Get(page, "slug")) {
      assert Normalise(ed, "/" + text) == "/" + text by {
        FieldTextUnslashed(page, "slug");
        SlashedBodyNormal(ed, text);
      }
    }
  }

  /** `/` followed by text that neither starts nor ends with `/` is left alone by both normalisations. */
  lemma SlashedBodyNormal(ed: Edition, body: string)
    requires body == [] || (body[0] != '/' && body[|body| - 1] != '/')
    ensures Normalise(ed, "/" + body) == "/" + body
  {
    var s := "/" + body;
    if body == [] {
      assert s == "/";
      assert TrimEnd(s, Slash) == TrimEnd([], Slash) == [];
      TrimStartKeeps([], Slash);
    } else {
      TrimEndKeeps(s, Slash);
      TrimStartDrops(s, Slash);
      assert s[1..] == body;
      TrimStartKeeps(body, Slash);
    }
  }
}
