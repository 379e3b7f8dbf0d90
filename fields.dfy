/** `ConfigField::parse`: one field of the brace form, recognised by a
    one-token lookahead over the seven keywords. A field is first read as
    syntax (`FieldSyntax`) and then resolved: `src` text is handed to the
    interface parser, every `paths` entry is read as a file. */
module Fields {
  import opened Foreign
  import opened Syntax

  /** The recognised field, interfaces already resolved. */
  datatype ConfigField =
    | Interfaces(ifaces: seq<Interface>)
    | Unchecked
    | MultiModule
    | ExportMacro(name: string)
    | TypesPath(path: string)
    | ReexportedCratePath(path: string)

  /** A field as written, before any interface is resolved. `trailing`
      records whether the `paths` list ends with a comma. */
  datatype FieldSyntax =
    | SrcSyntax(name: string, text: string)
    | PathsSyntax(paths: seq<string>, trailing: bool)
    | UncheckedSyntax
    | MultiModuleSyntax
    | AssignSyntax(key: AssignKey, value: string)

  /** The field a `key = "value"` assignment produces. */
  function AssignField(key: AssignKey, value: string): ConfigField {
    match key
    case ExportMacroKw => ExportMacro(value)
    case TypesPathKw => TypesPath(value)
    case ReexportedCratePathKw => ReexportedCratePath(value)
  }

  // ---------------------------------------------------------------------
  // Token-level helpers (the `syn` calls the source makes)
  // ---------------------------------------------------------------------

  /** `input.parse::<syn::LitStr>()`: a string literal and the tokens after it. */
  function ParseLit(toks: seq<Token>): (r: Result<(string, seq<Token>)>)
    ensures r.Ok? ==> |toks| > 0 && r.value.1 == toks[1..]
  {
    if toks != [] && toks[0].Str? then Ok((toks[0].s, toks[1..])) else Err(Unexpected)
  }

  /** Parsing one punctuation token `t`. */
  function Expect(toks: seq<Token>, t: Token): (r: Result<seq<Token>>)
    ensures r.Ok? ==> |toks| > 0 && r.value == toks[1..]
  {
    if toks != [] && toks[0] == t then Ok(toks[1..]) else Err(Unexpected)
  }

  /** `= "value"` after an assignment keyword. */
  function ParseAssignment(toks: seq<Token>): (r: Result<(string, seq<Token>)>)
    ensures r.Ok? ==> |toks| > 1 && r.value.1 == toks[2..]
  {
    var afterEq :- Expect(toks, Eq);
    ParseLit(afterEq)
  }

  /** An item parser makes progress: what it leaves is shorter than what it got. */
  ghost predicate Progress<T>(item: seq<Token> -> Result<(T, seq<Token>)>) {
    forall t :: item(t).Ok? ==> |item(t).value.1| < |t|
  }

  /** `Punctuated::parse_terminated`: items separated by commas until the
      group is exhausted, a trailing comma allowed, the first failing item
      aborting the list. */
  function Punctuated<T>(item: seq<Token> -> Result<(T, seq<Token>)>, toks: seq<Token>): (r: Result<seq<T>>)
    requires Progress(item)
    ensures r.Ok? ==> (r.value == [] <==> toks == [])
    ensures r.Ok? ==> |r.value| <= |toks|
    decreases |toks|
  {
    if toks == [] then Ok([])
    else
      var first :- item(toks);
      var rest := first.1;
      if rest == [] then Ok([first.0])
      else if !rest[0].Comma? then Err(Unexpected)
      else Prepend([first.0], Punctuated(item, rest[1..]))
  }

  /** Whether a `paths` list ends with a comma. */
  predicate TrailingComma(toks: seq<Token>) {
    |toks| > 0 && toks[|toks| - 1].Comma?
  }

  // ---------------------------------------------------------------------
  // Resolution of interface sources
  // ---------------------------------------------------------------------

  /** Reads every listed file in order; the first failure aborts. */
  function ResolveAll(env: Env, files: seq<string>): (r: Result<seq<Interface>>)
    ensures r.Ok? ==> |r.value| == |files|
    decreases |files|
  {
    if files == [] then Ok([])
    else
      match ResolveFile(env, files[0])
      case Failed(e) => Err(Resolve(e))
      case Parsed(i) => Prepend([i], ResolveAll(env, files[1..]))
  }

  /** What a written field means once its interface sources are read. */
  function ResolveSyntax(env: Env, f: FieldSyntax): (r: Result<ConfigField>)
    ensures r.Ok? ==> (r.value.Interfaces? <==> f.SrcSyntax? || f.PathsSyntax?)
    ensures f.SrcSyntax? ==> (r.Ok? <==> env.parseText(f.name, f.text).Parsed?)
    ensures f.SrcSyntax? && r.Ok? ==> r.value.ifaces == [env.parseText(f.name, f.text).iface]
    ensures f.PathsSyntax? && r.Ok? ==> |r.value.ifaces| == |f.paths|
    ensures !f.SrcSyntax? && !f.PathsSyntax? ==> r.Ok?
  {
    match f
    case SrcSyntax(name, text) =>
      (match env.parseText(name, text)
       case Parsed(i) => Ok(Interfaces([i]))
       case Failed(e) => Err(Resolve(e)))
    case PathsSyntax(paths, _) =>
      var ifaces :- ResolveAll(env, paths);
      Ok(Interfaces(ifaces))
    case UncheckedSyntax => Ok(Unchecked)
    case MultiModuleSyntax => Ok(MultiModule)
    case AssignSyntax(key, value) => Ok(AssignField(key, value))
  }

  // ---------------------------------------------------------------------
  // ConfigField::parse
  // ---------------------------------------------------------------------

  /** The field kind each leading keyword selects. */
  predicate Introduces(k: Keyword, f: FieldSyntax) {
    match k
    case SrcKw => f.SrcSyntax?
    case PathsKw => f.PathsSyntax?
    case UncheckedKw => f.UncheckedSyntax?
    case MultiModuleKw => f.MultiModuleSyntax?
    case _ => f.AssignSyntax? && f.key == k
  }

  /** The syntax of one field, chosen by its leading keyword. Any other
      leading token, or none, is a syntax error. */
  function ParseFieldSyntax(toks: seq<Token>): (r: Result<(FieldSyntax, seq<Token>)>)
    ensures r.Ok? ==> |r.value.1| < |toks| && r.value.1 == toks[|toks| - |r.value.1|..]
    ensures r.Ok? ==> toks[0].Kw? && Introduces(toks[0].k, r.value.0)
    ensures (toks == [] || !toks[0].Kw?) ==> r == Err(Unexpected)
  {
    if toks == [] || !toks[0].Kw? then Err(Unexpected)
    else
      var rest := toks[1..];
      match toks[0].k
      case SrcKw =>
        if rest == [] || !rest[0].Bracket? then Err(Unexpected)
        else
          var name :- ParseLit(rest[0].inner);
          if name.1 != [] then Err(Unexpected)
          else
            var afterColon :- Expect(rest[1..], Colon);
            var text :- ParseLit(afterColon);
            Ok((SrcSyntax(name.0, text.0), text.1))
      case PathsKw =>
        var afterColon :- Expect(rest, Colon);
        if afterColon == [] || !afterColon[0].Bracket? then Err(Unexpected)
        else
          var list := afterColon[0].inner;
          var paths :- Punctuated(ParseLit, list);
          Ok((PathsSyntax(paths, TrailingComma(list)), afterColon[1..]))
      case UncheckedKw => Ok((UncheckedSyntax, rest))
      case MultiModuleKw => Ok((MultiModuleSyntax, rest))
      case ExportMacroKw =>
        var v :- ParseAssignment(rest);
        Ok((AssignSyntax(ExportMacroKw, v.0), v.1))
      case TypesPathKw =>
        var v :- ParseAssignment(rest);
        Ok((AssignSyntax(TypesPathKw, v.0), v.1))
      case ReexportedCratePathKw =>
        var v :- ParseAssignment(rest);
        Ok((AssignSyntax(ReexportedCratePathKw, v.0), v.1))
  }

  /** `ConfigField::parse`: the field's syntax, then its interface sources read. */
  function ParseField(env: Env, toks: seq<Token>): (r: Result<(ConfigField, seq<Token>)>)
    ensures r.Ok? ==> |r.value.1| < |toks| && r.value.1 == toks[|toks| - |r.value.1|..]
    ensures (toks == [] || !toks[0].Kw?) ==> r == Err(Unexpected)
  {
    var syntax :- ParseFieldSyntax(toks);
    var field :- ResolveSyntax(env, syntax.0);
    Ok((field, syntax.1))
  }

  /** `ConfigField::parse` as an item parser for the comma-separated list. */
  function FieldItem(env: Env): (item: seq<Token> -> Result<(ConfigField, seq<Token>)>)
    ensures Progress(item)
  {
    t => ParseField(env, t)
  }

  /** The fields of a brace group, each resolved as soon as it is read. */
  function ParseFields(env: Env, toks: seq<Token>): (r: Result<seq<ConfigField>>)
    ensures r.Ok? ==> (r.value == [] <==> toks == [])
    ensures r.Ok? && toks != [] ==> toks[0].Kw?
  {
    assert toks != [] ==> FieldItem(env)(toks) == ParseField(env, toks);
    Punctuated(FieldItem(env), toks)
  }

  // ---------------------------------------------------------------------
  // Rendering: the token sequences the grammar accepts
  // ---------------------------------------------------------------------

  /** Joins the token parts with commas, with an optional trailing comma. */
  function Sep(parts: seq<seq<Token>>, trailing: bool): seq<Token>
    decreases |parts|
  {
    if parts == [] then []
    else if |parts| == 1 then parts[0] + (if trailing then [Comma] else [])
    else parts[0] + [Comma] + Sep(parts[1..], trailing)
  }

  /** Each path as a one-token part. */
  function Lits(paths: seq<string>): (r: seq<seq<Token>>)
    ensures |r| == |paths|
    ensures forall k :: 0 <= k < |paths| ==> r[k] == [Str(paths[k])]
    decreases |paths|
  {
    if paths == [] then [] else [[Str(paths[0])]] + Lits(paths[1..])
  }

  /** A list of paths with no comma after an empty list. */
  predicate WellFormed(f: FieldSyntax) {
    f.PathsSyntax? ==> (f.paths == [] ==> !f.trailing)
  }

  /** How a field is written. */
  function Render(f: FieldSyntax): (r: seq<Token>)
    ensures r != [] && r[0].Kw?
  {
    match f
    case SrcSyntax(name, text) => [Kw(SrcKw), Bracket([Str(name)]), Colon, Str(text)]
    case PathsSyntax(paths, trailing) => [Kw(PathsKw), Colon, Bracket(Sep(Lits(paths), trailing))]
    case UncheckedSyntax => [Kw(UncheckedKw)]
    case MultiModuleSyntax => [Kw(MultiModuleKw)]
    case AssignSyntax(key, value) => [Kw(key), Eq, Str(value)]
  }

  function Renders(fs: seq<FieldSyntax>): (r: seq<seq<Token>>)
    ensures |r| == |fs|
    ensures forall k :: 0 <= k < |fs| ==> r[k] == Render(fs[k])
    decreases |fs|
  {
    if fs == [] then [] else [Render(fs[0])] + Renders(fs[1..])
  }

  /** The written fields resolved one after the other; the first failure aborts. */
  function ResolveFields(env: Env, fs: seq<FieldSyntax>): (r: Result<seq<ConfigField>>)
    decreases |fs|
  {
    if fs == [] then Ok([])
    else
      var f :- ResolveSyntax(env, fs[0]);
      Prepend([f], ResolveFields(env, fs[1..]))
  }

  // ---------------------------------------------------------------------
  // Lemmas
  // ---------------------------------------------------------------------

  /** `ResolveAll` succeeds exactly when every listed file parses, and then
      yields one interface per file, in the listed order. */
  lemma {:induction false} ResolveAllSucceeds(env: Env, files: seq<string>)
    ensures ResolveAll(env, files).Ok? <==> forall k :: 0 <= k < |files| ==> ResolveFile(env, files[k]).Parsed?
    ensures ResolveAll(env, files).Ok? ==>
      forall k :: 0 <= k < |files| ==> ResolveFile(env, files[k]) == Parsed(ResolveAll(env, files).value[k])
    decreases |files|
  {
    if files != [] {
      ResolveAllSucceeds(env, files[1..]);
      assert forall k :: 1 <= k < |files| ==> files[k] == files[1..][k - 1];
    }
  }

  /** A failing `ResolveAll` reports the error of the first file that fails;
      every file before it parsed. */
  lemma {:induction false} ResolveAllFirstFailure(env: Env, files: seq<string>)
    requires ResolveAll(env, files).Err?
    ensures ResolveAll(env, files).error.Resolve?
    ensures exists i :: (0 <= i < |files| && ResolveFile(env, files[i]) == Failed(ResolveAll(env, files).error.cause)
      && forall k :: 0 <= k < i ==> ResolveFile(env, files[k]).Parsed?)
    decreases |files|
  {
    if ResolveFile(env, files[0]).Failed? {
      assert ResolveFile(env, files[0]) == Failed(ResolveAll(env, files).error.cause);
    } else {
      ResolveAllFirstFailure(env, files[1..]);
      var i :| 0 <= i < |files[1..]| && ResolveFile(env, files[1..][i]) == Failed(ResolveAll(env, files[1..]).error.cause)
        && forall k :: 0 <= k < i ==> ResolveFile(env, files[1..][k]).Parsed?;
      assert forall k :: 1 <= k < i + 1 ==> files[k] == files[1..][k - 1];
      assert ResolveFile(env, files[i + 1]) == Failed(ResolveAll(env, files).error.cause);
    }
  }

  /** A comma-separated list of string literals, with or without a trailing
      comma, reads back as exactly the listed strings. */
  lemma {:induction false} LitListRoundTrip(paths: seq<string>, trailing: bool)
    ensures Punctuated(ParseLit, Sep(Lits(paths), trailing)) == Ok(paths)
    decreases |paths|
  {
    var toks := Sep(Lits(paths), trailing);
    if |paths| == 1 {
      assert toks == [Str(paths[0])] + (if trailing then [Comma] else []);
      assert toks[1..] == (if trailing then [Comma] else []);
      assert [paths[0]] == paths;
      if trailing {
        assert toks[1..][1..] == [];
        assert Punctuated(ParseLit, toks[1..][1..]) == Ok([]);
        assert [paths[0]] + [] == paths;
      }
    } else if |paths| > 1 {
      assert Lits(paths)[1..] == Lits(paths[1..]);
      assert toks == [Str(paths[0]), Comma] + Sep(Lits(paths[1..]), trailing);
      LitListRoundTrip(paths[1..], trailing);
      assert toks[1..][1..] == Sep(Lits(paths[1..]), trailing);
      assert [paths[0]] + paths[1..] == paths;
    }
  }

  /** One step of reading a list of string literals. */
  lemma PunctuatedLitStep(toks: seq<Token>)
    requires toks != [] && Punctuated(ParseLit, toks).Ok?
    ensures toks[0].Str?
    ensures |toks| == 1 ==> Punctuated(ParseLit, toks).value == [toks[0].s]
    ensures |toks| > 1 ==>
              && toks[1].Comma?
              && Punctuated(ParseLit, toks[2..]).Ok?
              && Punctuated(ParseLit, toks).value == [toks[0].s] + Punctuated(ParseLit, toks[2..]).value
  {
    if |toks| > 1 {
      assert toks[1..][1..] == toks[2..];
    }
  }

  /** Conversely, any token list that reads as string literals is those
      literals joined by commas, a trailing comma present exactly when the
      tokens end in one. */
  lemma {:induction false} LitListExact(toks: seq<Token>)
    requires Punctuated(ParseLit, toks).Ok?
    ensures toks == Sep(Lits(Punctuated(ParseLit, toks).value), TrailingComma(toks))
    ensures Punctuated(ParseLit, toks).value == [] ==> !TrailingComma(toks)
    decreases |toks|
  {
    if toks != [] {
      PunctuatedLitStep(toks);
      if |toks| == 1 {
        assert toks == Sep(Lits([toks[0].s]), false);
      } else {
        LitListExact(toks[2..]);
        LitListCons(toks[0].s, toks[2..], Punctuated(ParseLit, toks[2..]).value);
        assert toks == [Str(toks[0].s), Comma] + toks[2..];
      }
    }
  }

  /** A literal and a comma in front of a list that is already known to be
      those literals joined by commas. */
  lemma LitListCons(s: string, more: seq<Token>, tail: seq<string>)
    requires more == Sep(Lits(tail), TrailingComma(more))
    requires tail == [] ==> !TrailingComma(more)
    ensures [Str(s), Comma] + more == Sep(Lits([s] + tail), TrailingComma([Str(s), Comma] + more))
  {
    var toks := [Str(s), Comma] + more;
    var paths := [s] + tail;
    if tail == [] {
      assert more == [];
      assert toks == Sep(Lits(paths), true);
    } else {
      assert paths[1..] == tail;
      assert Lits(paths)[1..] == Lits(tail);
      assert TrailingComma(toks) == TrailingComma(more);
    }
  }

  /** Every written field reads back as itself, whatever tokens follow it. */
  lemma FieldSyntaxRoundTrip(f: FieldSyntax, rest: seq<Token>)
    requires WellFormed(f)
    ensures ParseFieldSyntax(Render(f) + rest) == Ok((f, rest))
  {
    match f {
      case SrcSyntax(name, text) => SrcRoundTrip(name, text, rest);
      case PathsSyntax(paths, trailing) => PathsRoundTrip(paths, trailing, rest);
      case UncheckedSyntax =>
        assert (Render(f) + rest)[1..] == rest;
      case MultiModuleSyntax =>
        assert (Render(f) + rest)[1..] == rest;
      case AssignSyntax(key, value) => AssignRoundTrip(key, value, rest);
    }
  }

  lemma SrcRoundTrip(name: string, text: string, rest: seq<Token>)
    ensures ParseFieldSyntax(Render(SrcSyntax(name, text)) + rest) == Ok((SrcSyntax(name, text), rest))
  {
    var toks := Render(SrcSyntax(name, text)) + rest;
    assert toks[1..][1..] == [Colon, Str(text)] + rest;
    assert toks[1..][1..][1..] == [Str(text)] + rest;
    assert toks[1..][1..][1..][1..] == rest;
  }

  lemma PathsRoundTrip(paths: seq<string>, trailing: bool, rest: seq<Token>)
    requires paths == [] ==> !trailing
    ensures ParseFieldSyntax(Render(PathsSyntax(paths, trailing)) + rest) == Ok((PathsSyntax(paths, trailing), rest))
  {
    var toks := Render(PathsSyntax(paths, trailing)) + rest;
    LitListRoundTrip(paths, trailing);
    var list := Sep(Lits(paths), trailing);
    assert TrailingComma(list) == trailing by {
      if paths != [] { SepTrailing(Lits(paths), trailing); }
    }
    assert toks[1..][1..] == [Bracket(list)] + rest;
    assert toks[1..][1..][1..] == rest;
  }

  lemma AssignRoundTrip(key: AssignKey, value: string, rest: seq<Token>)
    ensures ParseFieldSyntax(Render(AssignSyntax(key, value)) + rest) == Ok((AssignSyntax(key, value), rest))
  {
    var toks := Render(AssignSyntax(key, value)) + rest;
    assert toks[1..][1..] == [Str(value)] + rest;
    assert toks[1..][1..][1..] == rest;
  }

  /** Joined parts that do not themselves end in a comma end in one exactly
      when a trailing comma was asked for. */
  lemma {:induction false} SepTrailing(parts: seq<seq<Token>>, trailing: bool)
    requires parts != []
    requires forall k :: 0 <= k < |parts| ==> parts[k] != [] && !parts[k][|parts[k]| - 1].Comma?
    ensures TrailingComma(Sep(parts, trailing)) == trailing
    decreases |parts|
  {
    if |parts| > 1 {
      SepTrailing(parts[1..], trailing);
      var tail := Sep(parts[1..], trailing);
      assert Sep(parts, trailing) == (parts[0] + [Comma]) + tail;
    }
  }

  /** Conversely, a field that reads successfully is the rendering of what
      was read, followed by the tokens left over. */
  lemma FieldSyntaxExact(toks: seq<Token>)
    requires ParseFieldSyntax(toks).Ok?
    ensures WellFormed(ParseFieldSyntax(toks).value.0)
    ensures toks == Render(ParseFieldSyntax(toks).value.0) + ParseFieldSyntax(toks).value.1
  {
    var f := ParseFieldSyntax(toks).value.0;
    var rest := ParseFieldSyntax(toks).value.1;
    match toks[0].k {
      case SrcKw =>
        assert toks[1].inner == [Str(f.name)];
        assert toks == [toks[0], toks[1], toks[2], toks[3]] + toks[4..];
      case PathsKw =>
        var list := toks[2].inner;
        LitListExact(list);
        assert toks == [toks[0], toks[1], toks[2]] + toks[3..];
      case UncheckedKw =>
        assert toks == [toks[0]] + toks[1..];
      case MultiModuleKw =>
        assert toks == [toks[0]] + toks[1..];
      case _ =>
        assert toks == [toks[0], toks[1], toks[2]] + toks[3..];
    }
  }

  /** `ConfigField::parse` applied to a written field yields that field's
      resolution, leaving the tokens after it. In particular `src` yields
      exactly one interface and `paths` one per listed file, in order. */
  lemma ParseFieldRendered(env: Env, f: FieldSyntax, rest: seq<Token>)
    requires WellFormed(f)
    ensures ParseField(env, Render(f) + rest) ==
      match ResolveSyntax(env, f)
      case Ok(field) => Ok((field, rest))
      case Err(e) => Err(e)
  {
    FieldSyntaxRoundTrip(f, rest);
  }

  /** A brace group holding written fields separated by commas, with or
      without a trailing comma, reads as those fields resolved in order. */
  lemma {:induction false} FieldListRoundTrip(env: Env, fs: seq<FieldSyntax>, trailing: bool)
    requires forall k :: 0 <= k < |fs| ==> WellFormed(fs[k])
    ensures ParseFields(env, Sep(Renders(fs), trailing)) == ResolveFields(env, fs)
    decreases |fs|
  {
    if |fs| == 1 {
      FieldListRoundTripLast(env, fs[0], trailing);
      assert fs == [fs[0]];
    } else if |fs| > 1 {
      var f, more := fs[0], fs[1..];
      assert fs == [f] + more;
      RendersCons(f, more);
      SepCons(Render(f), Renders(more), trailing);
      var tail := [Comma] + Sep(Renders(more), trailing);
      assert Sep(Renders(fs), trailing) == Render(f) + tail;
      ParseFieldRendered(env, f, tail);
      ParseFieldsStep(env, Render(f) + tail);
      if ResolveSyntax(env, f).Ok? {
        ResolveFieldsCons(env, f, more);
        FieldListRoundTrip(env, more, trailing);
        assert tail[1..] == Sep(Renders(more), trailing);
      }
    }
  }

  /** A single written field, with or without a trailing comma. */
  lemma FieldListRoundTripLast(env: Env, f: FieldSyntax, trailing: bool)
    requires WellFormed(f)
    ensures ParseFields(env, Sep(Renders([f]), trailing)) == ResolveFields(env, [f])
  {
    var tail: seq<Token> := if trailing then [Comma] else [];
    assert Renders([f]) == [Render(f)];
    assert Sep(Renders([f]), trailing) == Render(f) + tail;
    ParseFieldRendered(env, f, tail);
    ParseFieldsStep(env, Render(f) + tail);
    if ResolveSyntax(env, f).Ok? {
      ResolveFieldsCons(env, f, []);
      assert ResolveFields(env, []) == Ok([]);
      var field := ResolveSyntax(env, f).value;
      assert [field] + [] == [field];
      if trailing {
        assert tail[1..] == [];
        assert ParseFields(env, tail[1..]) == Ok([]);
      }
    }
  }

  /** Conversely, every brace content that reads is a list of written
      fields joined by commas, with or without a trailing comma, and what it
      reads as is those fields resolved in order. */
  lemma {:induction false} FieldListExact(env: Env, toks: seq<Token>) returns (fs: seq<FieldSyntax>, trailing: bool)
    requires ParseFields(env, toks).Ok?
    ensures forall k :: 0 <= k < |fs| ==> WellFormed(fs[k])
    ensures fs == [] ==> !trailing
    ensures toks == Sep(Renders(fs), trailing)
    ensures ResolveFields(env, fs) == ParseFields(env, toks)
    decreases |toks|
  {
    if toks == [] {
      fs, trailing := [], false;
      return;
    }
    FieldListHead(env, toks);
    var rest := ParseFieldSyntax(toks).value.1;
    if |rest| <= 1 {
      fs, trailing := FieldListLast(env, toks);
    } else {
      var f := ParseFieldSyntax(toks).value.0;
      var more, tr := FieldListExact(env, rest[1..]);
      fs, trailing := FieldListCons(f, rest, more, tr);
      ResolveFieldsCons(env, f, more);
    }
  }

  /** The last field of a brace content, with or without a trailing comma. */
  lemma FieldListLast(env: Env, toks: seq<Token>) returns (fs: seq<FieldSyntax>, trailing: bool)
    requires toks != [] && ParseFields(env, toks).Ok?
    requires ParseFieldSyntax(toks).Ok? && |ParseFieldSyntax(toks).value.1| <= 1
    ensures |fs| == 1 && WellFormed(fs[0])
    ensures toks == Sep(Renders(fs), trailing)
    ensures ResolveFields(env, fs) == ParseFields(env, toks)
  {
    FieldListHead(env, toks);
    var f := ParseFieldSyntax(toks).value.0;
    var rest := ParseFieldSyntax(toks).value.1;
    var field := ResolveSyntax(env, f).value;
    fs, trailing := [f], rest != [];
    ResolveFieldsCons(env, f, []);
    assert ResolveFields(env, []) == Ok([]);
    assert [field] + [] == [field];
    if rest != [] {
      assert rest == [Comma];
      assert ParseFields(env, rest[1..]) == Ok([]);
    }
  }

  /** A field, a comma, and a further list of written fields. */
  lemma FieldListCons(f: FieldSyntax, rest: seq<Token>, more: seq<FieldSyntax>, tr: bool)
    returns (fs: seq<FieldSyntax>, trailing: bool)
    requires WellFormed(f) && forall k :: 0 <= k < |more| ==> WellFormed(more[k])
    requires rest != [] && rest[0].Comma? && more != [] && rest[1..] == Sep(Renders(more), tr)
    ensures fs == [f] + more && trailing == tr
    ensures forall k :: 0 <= k < |fs| ==> WellFormed(fs[k])
    ensures Render(f) + rest == Sep(Renders(fs), trailing)
  {
    fs, trailing := [f] + more, tr;
    RendersCons(f, more);
    SepCons(Render(f), Renders(more), tr);
    assert rest == [Comma] + rest[1..];
  }

  /** The first field of a brace content that reads: it is written out in
      front of what follows, and what follows is empty or a comma and the
      remaining fields. */
  lemma FieldListHead(env: Env, toks: seq<Token>)
    requires toks != [] && ParseFields(env, toks).Ok?
    ensures ParseFieldSyntax(toks).Ok? && ResolveSyntax(env, ParseFieldSyntax(toks).value.0).Ok?
    ensures
      var f := ParseFieldSyntax(toks).value.0;
      var rest := ParseFieldSyntax(toks).value.1;
      var field := ResolveSyntax(env, f).value;
      && WellFormed(f)
      && toks == Render(f) + rest
      && (rest == [] ==> ParseFields(env, toks) == Ok([field]))
      && (rest != [] ==> rest[0].Comma? && ParseFields(env, rest[1..]).Ok?
                         && ParseFields(env, toks) == Prepend([field], ParseFields(env, rest[1..])))
  {
    ParseFieldsStep(env, toks);
    FieldSyntaxExact(toks);
  }

  lemma ResolveFieldsCons(env: Env, f: FieldSyntax, more: seq<FieldSyntax>)
    requires ResolveSyntax(env, f).Ok?
    ensures ResolveFields(env, [f] + more) == Prepend([ResolveSyntax(env, f).value], ResolveFields(env, more))
  {
    assert ([f] + more)[1..] == more;
  }

  lemma RendersCons(f: FieldSyntax, more: seq<FieldSyntax>)
    ensures Renders([f] + more) == [Render(f)] + Renders(more)
  {
    assert ([f] + more)[1..] == more;
  }

  lemma SepCons(part: seq<Token>, parts: seq<seq<Token>>, trailing: bool)
    requires parts != []
    ensures Sep([part] + parts, trailing) == part + [Comma] + Sep(parts, trailing)
  {
    assert ([part] + parts)[1..] == parts;
  }

  /** One step of reading the fields of a brace group: the first field,
      then either the end, or a comma and the remaining fields. */
  lemma ParseFieldsStep(env: Env, toks: seq<Token>)
    requires toks != []
    ensures ParseField(env, toks).Err? ==> ParseFields(env, toks) == Err(ParseField(env, toks).error)
    ensures ParseField(env, toks).Ok? && ParseField(env, toks).value.1 == [] ==>
              ParseFields(env, toks) == Ok([ParseField(env, toks).value.0])
    ensures ParseField(env, toks).Ok? && ParseField(env, toks).value.1 != [] ==>
              ParseFields(env, toks) ==
                if ParseField(env, toks).value.1[0].Comma?
                then Prepend([ParseField(env, toks).value.0], ParseFields(env, ParseField(env, toks).value.1[1..]))
                else Err(Unexpected)
  {
    assert FieldItem(env)(toks) == ParseField(env, toks);
  }

  /** A `src` field never reads a file: its result does not depend on the
      file parser. */
  lemma SrcReadsNoFile(env: Env, name: string, text: string, rest: seq<Token>, parseFile: string -> WitResult)
    ensures ParseField(env, Render(SrcSyntax(name, text)) + rest)
         == ParseField(env.(parseFile := parseFile), Render(SrcSyntax(name, text)) + rest)
    ensures ParseField(env, Render(SrcSyntax(name, text)) + rest).Ok? <==> env.parseText(name, text).Parsed?
  {
    FieldSyntaxRoundTrip(SrcSyntax(name, text), rest);
  }
}
