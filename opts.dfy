/** `Opts::parse`: the macro input is either one brace group of
    comma-separated fields, or a flat run of file-path literals interleaved
    with `key = "value"` assignments. One token of lookahead picks the form. */
module OptsParser {
  import opened Foreign
  import opened Syntax
  import opened Fields
  import opened Options

  /** The parsed macro input: generator options, resolved interfaces, and
      the files read to resolve them (for dependency tracking). */
  datatype ParsedOpts = ParsedOpts(opts: GenOpts, interfaces: seq<Interface>, files: seq<string>)

  // ---------------------------------------------------------------------
  // The brace form
  // ---------------------------------------------------------------------

  /** `{ field, field, ... }` followed by `after`: the fields folded into
      the options; no interfaces is an error; `files` stays empty. Tokens
      after the group are rejected once the options are built, as
      `parse_macro_input!` requires the whole input to be consumed. */
  function BraceForm(env: Env, content: seq<Token>, after: seq<Token>): (r: Result<ParsedOpts>)
    ensures r.Ok? ==> r.value.files == [] && r.value.interfaces != []
  {
    var fields :- ParseFields(env, content);
    var folded := Fold(fields);
    if |folded.interfaces| == 0 then Err(MissingInterfaces)
    else if after != [] then Err(Unexpected)
    else Ok(ParsedOpts(folded.opts, folded.interfaces, []))
  }

  // ---------------------------------------------------------------------
  // The flat form
  // ---------------------------------------------------------------------

  /** One item of the flat form: a file path, or an assignment. */
  datatype FlatItem = PathItem(path: string) | AssignItem(key: AssignKey, value: string)

  /** The items of the flat form, left to right. A token that is not one
      of the three assignment keywords must be a string literal. */
  function ScanFlat(toks: seq<Token>): (r: Result<seq<FlatItem>>)
    ensures r.Ok? ==> (r.value == [] <==> toks == [])
    ensures r.Ok? ==> |r.value| <= |toks|
    ensures r.Ok? && toks != [] ==> toks[0].Str? || (toks[0].Kw? && toks[0].k.IsAssignment())
    decreases |toks|
  {
    if toks == [] then Ok([])
    else if toks[0].Kw? && toks[0].k.IsAssignment() then
      var v :- ParseAssignment(toks[1..]);
      Prepend([AssignItem(toks[0].k, v.0)], ScanFlat(v.1))
    else
      var lit :- ParseLit(toks);
      Prepend([PathItem(lit.0)], ScanFlat(lit.1))
  }

  /** The file paths of the flat form, in the order written. */
  function FlatPaths(items: seq<FlatItem>): (r: seq<string>)
    ensures |r| <= |items|
    decreases |items|
  {
    if items == [] then []
    else
      var last := items[|items| - 1];
      FlatPaths(items[..|items| - 1]) + (if last.PathItem? then [last.path] else [])
  }

  /** The options after the flat form's assignments, applied in order. */
  function FlatOpts(items: seq<FlatItem>): (r: GenOpts)
    ensures !r.unchecked && !r.multiModule
    decreases |items|
  {
    if items == [] then Defaults
    else
      var last := items[|items| - 1];
      var before := FlatOpts(items[..|items| - 1]);
      if last.AssignItem? then Configure(before, AssignField(last.key, last.value)) else before
  }

  /** The flat form: every recorded path is read, in order, after the scan.
      Zero paths is accepted. */
  function FlatForm(env: Env, toks: seq<Token>): (r: Result<ParsedOpts>)
    ensures r.Ok? ==> |r.value.interfaces| == |r.value.files|
    ensures r.Ok? ==> !r.value.opts.unchecked && !r.value.opts.multiModule
    ensures r.Ok? ==> |r.value.files| <= |toks|
  {
    var items :- ScanFlat(toks);
    var ifaces :- ResolveAll(env, FlatPaths(items));
    Ok(ParsedOpts(FlatOpts(items), ifaces, FlatPaths(items)))
  }

  /** Whether the input opens with a brace group. */
  predicate OpensWithBrace(input: seq<Token>) {
    input != [] && input[0].Brace?
  }

  /** The whole macro input. */
  function OptsSpec(env: Env, input: seq<Token>): (r: Result<ParsedOpts>)
    ensures r.Ok? && OpensWithBrace(input) ==> r.value.files == [] && r.value.interfaces != []
    ensures r.Ok? && !OpensWithBrace(input) ==> |r.value.interfaces| == |r.value.files|
  {
    if OpensWithBrace(input) then BraceForm(env, input[0].inner, input[1..])
    else FlatForm(env, input)
  }

  // ---------------------------------------------------------------------
  // The imperative parser
  // ---------------------------------------------------------------------

  /** The flat form's `while !input.is_empty()` loop: assignments update the
      options, bare literals are pushed onto `files`. */
  method ScanFlatInput(toks: seq<Token>) returns (r: Result<(GenOpts, seq<string>)>)
    ensures ScanFlat(toks).Ok? ==> r == Ok((FlatOpts(ScanFlat(toks).value), FlatPaths(ScanFlat(toks).value)))
    ensures ScanFlat(toks).Err? ==> r == Err(ScanFlat(toks).error)
  {
    var opts := Defaults;
    var files: seq<string> := [];
    var rest := toks;
    ghost var done: seq<FlatItem> := [];
    PrependNil(ScanFlat(toks));
    while rest != []
      invariant ScanFlat(toks) == Prepend(done, ScanFlat(rest))
      invariant opts == FlatOpts(done) && files == FlatPaths(done)
      decreases |rest|
    {
      var item: FlatItem;
      if rest[0].Kw? && rest[0].k.IsAssignment() {
        var key: AssignKey := rest[0].k;
        var v := ParseAssignment(rest[1..]);
        if v.Err? {
          return Err(v.error);
        }
        opts := Configure(opts, AssignField(key, v.value.0));
        item := AssignItem(key, v.value.0);
        rest := v.value.1;
      } else {
        var lit := ParseLit(rest);
        if lit.Err? {
          return Err(lit.error);
        }
        files := files + [lit.value.0];
        item := PathItem(lit.value.0);
        rest := lit.value.1;
      }
      PrependPrepend(done, [item], ScanFlat(rest));
      assert (done + [item])[..|done|] == done;
      done := done + [item];
    }
    assert done + [] == done;
    r := Ok((opts, files));
  }

  /** The loop that reads every recorded path, in order, stopping at the first failure. */
  method ResolveFiles(env: Env, files: seq<string>) returns (r: Result<seq<Interface>>)
    ensures r == ResolveAll(env, files)
  {
    var ifaces: seq<Interface> := [];
    var i := 0;
    assert files[0..] == files;
    PrependNil(ResolveAll(env, files));
    while i < |files|
      invariant 0 <= i <= |files|
      invariant ResolveAll(env, files) == Prepend(ifaces, ResolveAll(env, files[i..]))
    {
      assert files[i..][1..] == files[i + 1..];
      var path := env.join(env.manifestDir, files[i]);
      match env.parseFile(path) {
        case Failed(e) =>
          return Err(Resolve(e));
        case Parsed(iface) =>
          PrependPrepend(ifaces, [iface], ResolveAll(env, files[i + 1..]));
          ifaces := ifaces + [iface];
      }
      i := i + 1;
    }
    assert ifaces + [] == ifaces;
    r := Ok(ifaces);
  }

  /** `Opts::parse`, followed by the check that no token is left over: the
      brace form when the input opens with a brace group, the flat form otherwise. */
  method ParseOpts(env: Env, input: seq<Token>) returns (r: Result<ParsedOpts>)
    ensures OpensWithBrace(input) ==> r == BraceForm(env, input[0].inner, input[1..])
    ensures !OpensWithBrace(input) ==> r == FlatForm(env, input)
  {
    if input != [] && input[0].Brace? {
      r := BraceForm(env, input[0].inner, input[1..]);
    } else {
      var scanned := ScanFlatInput(input);
      if scanned.Err? {
        return Err(scanned.error);
      }
      var (opts, files) := scanned.value;
      var ifaces := ResolveFiles(env, files);
      if ifaces.Err? {
        return Err(ifaces.error);
      }
      r := Ok(ParsedOpts(opts, ifaces.value, files));
    }
  }

  // ---------------------------------------------------------------------
  // Rendering the flat form
  // ---------------------------------------------------------------------

  function RenderItem(item: FlatItem): seq<Token> {
    match item
    case PathItem(path) => [Str(path)]
    case AssignItem(key, value) => [Kw(key), Eq, Str(value)]
  }

  /** How a run of flat items is written. */
  function RenderFlat(items: seq<FlatItem>): seq<Token>
    decreases |items|
  {
    if items == [] then [] else RenderItem(items[0]) + RenderFlat(items[1..])
  }

  // ---------------------------------------------------------------------
  // Lemmas: the flat form
  // ---------------------------------------------------------------------

  /** Every run of paths and assignments scans back as itself. */
  lemma {:induction false} FlatRoundTrip(items: seq<FlatItem>)
    ensures ScanFlat(RenderFlat(items)) == Ok(items)
    decreases |items|
  {
    if items != [] {
      FlatRoundTrip(items[1..]);
      ScanFlatStep(items[0], RenderFlat(items[1..]));
      assert [items[0]] + items[1..] == items;
    }
  }

  /** Scanning a written item reads it and goes on with what follows. */
  lemma ScanFlatStep(item: FlatItem, tail: seq<Token>)
    ensures ScanFlat(RenderItem(item) + tail) == Prepend([item], ScanFlat(tail))
  {
    var toks := RenderItem(item) + tail;
    match item {
      case PathItem(path) =>
        assert toks[0] == Str(path) && toks[1..] == tail;
        assert ParseLit(toks) == Ok((path, tail));
      case AssignItem(key, value) =>
        assert toks[0] == Kw(key) && toks[1..][2..] == tail;
        assert ParseAssignment(toks[1..]) == Ok((value, tail));
    }
  }

  /** Conversely, the flat form accepts only such runs: every token is a
      path literal or part of a `key = "value"` assignment. */
  lemma {:induction false} FlatScanExact(toks: seq<Token>)
    requires ScanFlat(toks).Ok?
    ensures RenderFlat(ScanFlat(toks).value) == toks
    decreases |toks|
  {
    if toks != [] {
      var items := ScanFlat(toks).value;
      if toks[0].Kw? && toks[0].k.IsAssignment() {
        var rest := toks[1..][2..];
        FlatScanExact(rest);
        assert items[1..] == ScanFlat(rest).value;
        assert toks == [toks[0], toks[1], toks[2]] + rest;
      } else {
        var rest := toks[1..];
        FlatScanExact(rest);
        assert items[1..] == ScanFlat(rest).value;
        assert toks == [toks[0]] + rest;
      }
    }
  }

  /** Each path item contributes its path, in order. */
  lemma {:induction false} FlatPathsAppend(a: seq<FlatItem>, b: seq<FlatItem>)
    ensures FlatPaths(a + b) == FlatPaths(a) + FlatPaths(b)
    decreases |b|
  {
    if b == [] {
      assert a + b == a;
    } else {
      var init := b[..|b| - 1];
      FlatPathsAppend(a, init);
      assert (a + b)[..|a + b| - 1] == a + init;
    }
  }

  /** The recorded files are exactly the bare literals of the input, left to right. */
  lemma FlatPathsAreLiterals(items: seq<FlatItem>)
    ensures FlatPaths(items) == if items == [] then [] else
      (if items[0].PathItem? then [items[0].path] else []) + FlatPaths(items[1..])
  {
    if items != [] {
      var head := [items[0]];
      assert items == head + items[1..];
      FlatPathsAppend(head, items[1..]);
      assert head[..0] == [];
    }
  }

  /** An input made of assignments only records no file. */
  lemma {:induction false} FlatAssignmentsRecordNoFile(items: seq<FlatItem>)
    requires forall k :: 0 <= k < |items| ==> items[k].AssignItem?
    ensures FlatPaths(items) == []
    decreases |items|
  {
    if items != [] {
      var init := items[..|items| - 1];
      assert forall k :: 0 <= k < |init| ==> init[k] == items[k];
      FlatAssignmentsRecordNoFile(init);
    }
  }

  /** In the flat form a later assignment overwrites an earlier one. */
  lemma {:induction false} FlatSettingLastWins(items: seq<FlatItem>, key: AssignKey, i: nat)
    requires i < |items| && items[i].AssignItem? && items[i].key == key
    requires forall j :: i < j < |items| ==> !(items[j].AssignItem? && items[j].key == key)
    ensures Setting(FlatOpts(items), key) == Some(items[i].value)
    decreases |items|
  {
    var init := items[..|items| - 1];
    var last := items[|items| - 1];
    if i < |items| - 1 {
      FlatSettingLastWins(init, key, i);
    }
    if last.AssignItem? {
      assert Setting(Configure(FlatOpts(init), AssignField(last.key, last.value)), key)
          == if last.key == key then Some(last.value) else Setting(FlatOpts(init), key);
    }
  }

  /** An option no flat assignment names stays unset. */
  lemma {:induction false} FlatSettingUnset(items: seq<FlatItem>, key: AssignKey)
    requires forall j :: 0 <= j < |items| ==> !(items[j].AssignItem? && items[j].key == key)
    ensures Setting(FlatOpts(items), key) == None
    decreases |items|
  {
    if items != [] {
      var init := items[..|items| - 1];
      var last := items[|items| - 1];
      FlatSettingUnset(init, key);
      if last.AssignItem? {
        assert Setting(Configure(FlatOpts(init), AssignField(last.key, last.value)), key) == None;
      }
    }
  }

  /** The flat form succeeds exactly when the tokens scan and every recorded
      path parses; it then yields one interface per recorded file, in order. */
  lemma FlatFormResolves(env: Env, toks: seq<Token>)
    ensures FlatForm(env, toks).Ok? <==>
      ScanFlat(toks).Ok? && forall k :: 0 <= k < |FlatPaths(ScanFlat(toks).value)| ==>
        ResolveFile(env, FlatPaths(ScanFlat(toks).value)[k]).Parsed?
    ensures FlatForm(env, toks).Ok? ==>
      var p := FlatForm(env, toks).value;
      && p.files == FlatPaths(ScanFlat(toks).value)
      && |p.interfaces| == |p.files|
      && forall k :: 0 <= k < |p.files| ==> ResolveFile(env, p.files[k]) == Parsed(p.interfaces[k])
  {
    if ScanFlat(toks).Ok? {
      var items := ScanFlat(toks).value;
      var files := FlatPaths(items);
      ResolveAllSucceeds(env, files);
      var resolved := ResolveAll(env, files);
      if resolved.Ok? {
        assert FlatForm(env, toks) == Ok(ParsedOpts(FlatOpts(items), resolved.value, files));
      } else {
        assert FlatForm(env, toks) == Err(resolved.error);
        ResolveAllFirstFailure(env, files);
        var i :| 0 <= i < |files| && ResolveFile(env, files[i]) == Failed(resolved.error.cause)
          && forall k :: 0 <= k < i ==> ResolveFile(env, files[k]).Parsed?;
        assert !ResolveFile(env, FlatPaths(ScanFlat(toks).value)[i]).Parsed?;
      }
    }
  }

  /** A flat input that names no file is accepted, with no interfaces. */
  lemma FlatNoPathsAccepted(env: Env, items: seq<FlatItem>)
    requires forall k :: 0 <= k < |items| ==> items[k].AssignItem?
    ensures OptsSpec(env, RenderFlat(items)) == Ok(ParsedOpts(FlatOpts(items), [], []))
  {
    var toks := RenderFlat(items);
    FlatRoundTrip(items);
    FlatAssignmentsRecordNoFile(items);
    if items != [] {
      assert toks == RenderItem(items[0]) + RenderFlat(items[1..]);
      assert toks[0] == Kw(items[0].key);
    }
    assert !OpensWithBrace(toks);
    assert ResolveAll(env, []) == Ok([]);
    assert FlatForm(env, toks) == Ok(ParsedOpts(FlatOpts(items), [], []));
  }

  // ---------------------------------------------------------------------
  // Lemmas: the brace form
  // ---------------------------------------------------------------------

  /** The outcome of a brace group whose fields have been read. */
  lemma BraceFormOfFields(env: Env, content: seq<Token>, cfs: seq<ConfigField>)
    requires ParseFields(env, content) == Ok(cfs)
    ensures Fold(cfs).interfaces == [] ==> OptsSpec(env, [Brace(content)]) == Err(MissingInterfaces)
    ensures Fold(cfs).interfaces != [] ==>
      OptsSpec(env, [Brace(content)]) == Ok(ParsedOpts(Fold(cfs).opts, Fold(cfs).interfaces, []))
  {
    assert [Brace(content)][1..] == [];
  }

  /** A field written without `src` or `paths` resolves, and never to interfaces. */
  lemma {:induction false} ResolveWithoutSources(env: Env, fs: seq<FieldSyntax>)
    requires forall k :: 0 <= k < |fs| ==> !fs[k].SrcSyntax? && !fs[k].PathsSyntax?
    ensures ResolveFields(env, fs).Ok?
    ensures |ResolveFields(env, fs).value| == |fs|
    ensures forall k :: 0 <= k < |fs| ==> !ResolveFields(env, fs).value[k].Interfaces?
    decreases |fs|
  {
    if fs != [] {
      ResolveWithoutSources(env, fs[1..]);
      var f := ResolveSyntax(env, fs[0]).value;
      var tail := ResolveFields(env, fs[1..]).value;
      assert ResolveFields(env, fs).value == [f] + tail;
      assert forall k :: 1 <= k < |fs| ==> ResolveFields(env, fs).value[k] == tail[k - 1];
    }
  }

  /** A brace group naming neither `src` nor `paths` is rejected with
      "must either specify `src` or `paths` keys". */
  lemma BraceWithoutSourcesFails(env: Env, fs: seq<FieldSyntax>, trailing: bool, after: seq<Token>)
    requires forall k :: 0 <= k < |fs| ==> !fs[k].SrcSyntax? && !fs[k].PathsSyntax?
    ensures OptsSpec(env, [Brace(Sep(Renders(fs), trailing))] + after) == Err(MissingInterfaces)
  {
    FieldListRoundTrip(env, fs, trailing);
    ResolveWithoutSources(env, fs);
    FoldInterfacesUnset(ResolveFields(env, fs).value);
    assert ([Brace(Sep(Renders(fs), trailing))] + after)[1..] == after;
  }

  /** An empty `paths` list leaves no interfaces, so `{ paths: [] }` is rejected. */
  lemma EmptyPathsRejected(env: Env, trailing: bool)
    ensures OptsSpec(env, [Brace(Sep([Render(PathsSyntax([], false))], trailing))]) == Err(MissingInterfaces)
  {
    var fs := [PathsSyntax([], false)];
    assert Renders(fs) == [Render(PathsSyntax([], false))];
    FieldListRoundTrip(env, fs, trailing);
    assert ResolveAll(env, []) == Ok([]);
    assert ResolveSyntax(env, fs[0]) == Ok(Interfaces([]));
    assert ResolveFields(env, fs[1..]) == Ok([]);
    assert [Interfaces([])] + [] == [Interfaces([])];
    assert ResolveFields(env, fs) == Ok([Interfaces([])]);
    assert Fold([Interfaces([])]).interfaces == [];
  }

  /** In a brace group, a later `src` or `paths` replaces the interfaces of
      an earlier one rather than adding to them. */
  lemma BraceLastSourceWins(env: Env, fs: seq<FieldSyntax>, trailing: bool, i: nat)
    requires forall k :: 0 <= k < |fs| ==> WellFormed(fs[k])
    requires ResolveFields(env, fs).Ok?
    requires i < |fs| && (fs[i].SrcSyntax? || fs[i].PathsSyntax?)
    requires forall j :: i < j < |fs| ==> !fs[j].SrcSyntax? && !fs[j].PathsSyntax?
    requires ResolveSyntax(env, fs[i]).Ok? && ResolveSyntax(env, fs[i]).value.ifaces != []
    ensures OptsSpec(env, [Brace(Sep(Renders(fs), trailing))]).Ok?
    ensures OptsSpec(env, [Brace(Sep(Renders(fs), trailing))]).value.interfaces
         == ResolveSyntax(env, fs[i]).value.ifaces
  {
    FieldListRoundTrip(env, fs, trailing);
    var cfs := ResolveFields(env, fs).value;
    ResolveFieldsPointwise(env, fs);
    assert cfs[i] == ResolveSyntax(env, fs[i]).value;
    forall j | i < j < |cfs|
      ensures !cfs[j].Interfaces?
    {
      assert ResolveSyntax(env, fs[j]) == Ok(cfs[j]);
    }
    FoldInterfacesLastWins(cfs, i);
    BraceFormOfFields(env, Sep(Renders(fs), trailing), cfs);
  }

  /** Resolving written fields resolves each one on its own, in place. */
  lemma {:induction false} ResolveFieldsPointwise(env: Env, fs: seq<FieldSyntax>)
    requires ResolveFields(env, fs).Ok?
    ensures |ResolveFields(env, fs).value| == |fs|
    ensures forall k :: 0 <= k < |fs| ==> ResolveSyntax(env, fs[k]) == Ok(ResolveFields(env, fs).value[k])
    decreases |fs|
  {
    if fs != [] {
      ResolveFieldsPointwise(env, fs[1..]);
      var tail := ResolveFields(env, fs[1..]).value;
      assert ResolveFields(env, fs).value == [ResolveSyntax(env, fs[0]).value] + tail;
      assert forall k :: 1 <= k < |fs| ==> fs[k] == fs[1..][k - 1];
    }
  }

  /** `{ paths: ["a.wit", "b.wit"] }` with both files parsing to `a` and `b`
      yields exactly `[a, b]`, default options, and no recorded files. */
  lemma BracePathsExample(env: Env, a: Interface, b: Interface)
    requires ResolveFile(env, "a.wit") == Parsed(a) && ResolveFile(env, "b.wit") == Parsed(b)
    ensures OptsSpec(env, [Brace([Kw(PathsKw), Colon, Bracket([Str("a.wit"), Comma, Str("b.wit")])])])
         == Ok(ParsedOpts(Defaults, [a, b], []))
  {
    var f := PathsSyntax(["a.wit", "b.wit"], false);
    assert Sep(Lits(f.paths), false) == [Str("a.wit"), Comma, Str("b.wit")];
    assert Sep(Renders([f]), false) == Render(f);
    FieldListRoundTrip(env, [f], false);
    assert ["b.wit"][1..] == [];
    assert [b] + [] == [b];
    assert ResolveAll(env, ["b.wit"]) == Ok([b]);
    assert f.paths[1..] == ["b.wit"];
    assert [a] + [b] == [a, b];
    assert ResolveAll(env, f.paths) == Ok([a, b]);
    assert ResolveFields(env, [f]) == Ok([Interfaces([a, b])]);
    assert Fold([Interfaces([a, b])]) == Folded(Defaults, [a, b]) by {
      assert [Interfaces([a, b])][..0] == [];
    }
    BraceFormOfFields(env, Render(f), [Interfaces([a, b])]);
    assert Render(f) == [Kw(PathsKw), Colon, Bracket([Str("a.wit"), Comma, Str("b.wit")])];
  }
}
