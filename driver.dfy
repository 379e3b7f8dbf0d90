/** `run`, the body of the `import!` and `export!` macros: parse the input,
    place the interfaces by direction, generate the bindings, and append
    one `include_str!` dependency line per file read. */
module Driver {
  import opened Foreign
  import opened Syntax
  import opened Options
  import opened OptsParser

  /** Whether the interfaces are imported by the guest or exported by it. */
  datatype Direction = Import | Export

  /** The generator's `(imports, exports)` arguments: all interfaces in the
      slot the direction names, none in the other. */
  function Split(dir: Direction, ifaces: seq<Interface>): (r: (seq<Interface>, seq<Interface>))
    ensures r.0 + r.1 == ifaces
    ensures r.0 == [] || r.1 == []
    ensures dir == Import ==> r.1 == []
    ensures dir == Export ==> r.0 == []
  {
    match dir
    case Import => (ifaces, [])
    case Export => ([], ifaces)
  }

  const MarkerHead := "const _: &str = include_str!(r#\""
  const MarkerTail := "\"#);\n"

  /** The dependency line for one file: an unused constant holding the
      file's contents, so that rustc rebuilds when the file changes. */
  function Marker(env: Env, file: string): string {
    MarkerHead + FullPath(env, file) + MarkerTail
  }

  /** The dependency lines for the files, in order. */
  function Markers(env: Env, files: seq<string>): string
    decreases |files|
  {
    if files == [] then "" else Marker(env, files[0]) + Markers(env, files[1..])
  }

  /** The loop appending one dependency line per file read. */
  method AppendMarkers(env: Env, contents: string, files: seq<string>) returns (out: string)
    ensures out == contents + Markers(env, files)
  {
    out := contents;
    for i := 0 to |files|
      invariant out == contents + Markers(env, files[..i])
    {
      assert files[..i + 1] == files[..i] + [files[i]];
      MarkersAppend(env, files[..i], [files[i]]);
      assert Markers(env, [files[i]]) == Marker(env, files[i]) + "";
      out := out + Marker(env, files[i]);
    }
    assert files[..|files|] == files;
  }

  /** The macro's output: the generated bindings followed by the dependency lines. */
  function Expand(env: Env, dir: Direction, input: seq<Token>,
                  generate: (GenOpts, seq<Interface>, seq<Interface>) -> string): (r: Result<string>)
    ensures r.Ok? <==> OptsSpec(env, input).Ok?
    ensures r.Err? ==> r.error == OptsSpec(env, input).error
  {
    var parsed :- OptsSpec(env, input);
    var (imports, exports) := Split(dir, parsed.interfaces);
    Ok(generate(parsed.opts, imports, exports) + Markers(env, parsed.files))
  }

  /** `run`: `generate` stands for building the generator from the options,
      `generate_all`, and reading its single output file as text. */
  method Run(env: Env, dir: Direction, input: seq<Token>,
             generate: (GenOpts, seq<Interface>, seq<Interface>) -> string) returns (r: Result<string>)
    ensures r == Expand(env, dir, input, generate)
  {
    var parsed := ParseOpts(env, input);
    if parsed.Err? {
      return Err(parsed.error);
    }
    var (imports, exports) := Split(dir, parsed.value.interfaces);
    var contents := generate(parsed.value.opts, imports, exports);
    contents := AppendMarkers(env, contents, parsed.value.files);
    r := Ok(contents);
  }

  // ---------------------------------------------------------------------
  // Lemmas
  // ---------------------------------------------------------------------

  /** The dependency lines of two lists are those of each, one after the other. */
  lemma {:induction false} MarkersAppend(env: Env, a: seq<string>, b: seq<string>)
    ensures Markers(env, a + b) == Markers(env, a) + Markers(env, b)
    decreases |a|
  {
    if a == [] {
      assert a + b == b;
    } else {
      MarkersAppend(env, a[1..], b);
      assert (a + b)[1..] == a[1..] + b;
    }
  }

  /** The number of line breaks in a text. */
  function CountNewlines(s: string): nat
    decreases |s|
  {
    if s == "" then 0 else (if s[0] == '\n' then 1 else 0) + CountNewlines(s[1..])
  }

  lemma {:induction false} CountNewlinesAppend(s: string, t: string)
    ensures CountNewlines(s + t) == CountNewlines(s) + CountNewlines(t)
    decreases |s|
  {
    if s == "" {
      assert s + t == t;
    } else {
      CountNewlinesAppend(s[1..], t);
      assert (s + t)[0] == s[0];
      assert (s + t)[1..] == s[1..] + t;
    }
  }

  lemma {:induction false} NoNewlines(s: string)
    requires '\n' !in s
    ensures CountNewlines(s) == 0
    decreases |s|
  {
    if s != "" {
      NoNewlines(s[1..]);
    }
  }

  lemma MarkerHeadHasNoNewline()
    ensures CountNewlines(MarkerHead) == 0
  {
    NoNewlines(MarkerHead);
  }

  lemma MarkerTailHasOneNewline()
    ensures CountNewlines(MarkerTail) == 1
  {
    var body := "\"#);";
    assert MarkerTail == body + "\n";
    NoNewlines(body);
    CountNewlinesAppend(body, "\n");
  }

  /** Every dependency line, whatever the path, ends in a line break. */
  lemma MarkerEndsLine(env: Env, file: string)
    ensures Marker(env, file)[|Marker(env, file)| - 1] == '\n'
  {
    var m := Marker(env, file);
    assert m == (MarkerHead + FullPath(env, file)) + MarkerTail;
    assert m[|m| - 1] == MarkerTail[|MarkerTail| - 1];
  }

  /** A dependency line holds exactly one line break when the file's path
      has none in it. */
  lemma MarkerIsOneLine(env: Env, file: string)
    requires '\n' !in FullPath(env, file)
    ensures CountNewlines(Marker(env, file)) == 1
  {
    var path := FullPath(env, file);
    MarkerHeadHasNoNewline();
    MarkerTailHasOneNewline();
    NoNewlines(path);
    CountNewlinesAppend(MarkerHead, path);
    CountNewlinesAppend(MarkerHead + path, MarkerTail);
    assert Marker(env, file) == (MarkerHead + path) + MarkerTail;
  }

  /** The dependency lines hold one line per file. */
  lemma {:induction false} MarkersLines(env: Env, files: seq<string>)
    requires forall k :: 0 <= k < |files| ==> '\n' !in FullPath(env, files[k])
    ensures CountNewlines(Markers(env, files)) == |files|
    decreases |files|
  {
    if files != [] {
      MarkerIsOneLine(env, files[0]);
      MarkersLines(env, files[1..]);
      CountNewlinesAppend(Marker(env, files[0]), Markers(env, files[1..]));
    }
  }

  /** With `import!` the generator gets the interfaces as imports and no
      exports; with `export!` the reverse. Everything else is the same. */
  lemma ExpandDirection(env: Env, input: seq<Token>, generate: (GenOpts, seq<Interface>, seq<Interface>) -> string)
    ensures Expand(env, Import, input, generate).Ok? <==> OptsSpec(env, input).Ok?
    ensures Expand(env, Export, input, generate).Ok? <==> OptsSpec(env, input).Ok?
    ensures OptsSpec(env, input).Ok? ==>
      var p := OptsSpec(env, input).value;
      && Expand(env, Import, input, generate) == Ok(generate(p.opts, p.interfaces, []) + Markers(env, p.files))
      && Expand(env, Export, input, generate) == Ok(generate(p.opts, [], p.interfaces) + Markers(env, p.files))
  {
    if OptsSpec(env, input).Ok? {
      var p := OptsSpec(env, input).value;
      var (i1, e1) := Split(Import, p.interfaces);
      var (i2, e2) := Split(Export, p.interfaces);
      assert i1 == p.interfaces && e1 == [];
      assert i2 == [] && e2 == p.interfaces;
    }
  }

  /** A brace-form input, whatever its `paths`, adds no dependency line:
      the output is the generated text alone. */
  lemma ExpandBraceNoMarkers(env: Env, dir: Direction, input: seq<Token>,
                             generate: (GenOpts, seq<Interface>, seq<Interface>) -> string)
    requires OpensWithBrace(input) && Expand(env, dir, input, generate).Ok?
    ensures
      var p := OptsSpec(env, input).value;
      var (imports, exports) := Split(dir, p.interfaces);
      Expand(env, dir, input, generate).value == generate(p.opts, imports, exports)
  {
    var p := OptsSpec(env, input).value;
    assert p.files == [];
    assert generate(p.opts, Split(dir, p.interfaces).0, Split(dir, p.interfaces).1) + "" ==
           generate(p.opts, Split(dir, p.interfaces).0, Split(dir, p.interfaces).1);
  }

  /** A flat-form input adds exactly one dependency line per interface read:
      the output is the generated text followed by as many lines as there
      are recorded files, and there are as many files as interfaces. The
      count needs the recorded files' paths to hold no line break. */
  lemma ExpandFlatMarkers(env: Env, dir: Direction, input: seq<Token>,
                          generate: (GenOpts, seq<Interface>, seq<Interface>) -> string)
    requires !OpensWithBrace(input) && Expand(env, dir, input, generate).Ok?
    requires forall k :: 0 <= k < |OptsSpec(env, input).value.files| ==>
      '\n' !in FullPath(env, OptsSpec(env, input).value.files[k])
    ensures
      var p := OptsSpec(env, input).value;
      var (imports, exports) := Split(dir, p.interfaces);
      var generated := generate(p.opts, imports, exports);
      && Expand(env, dir, input, generate).value == generated + Markers(env, p.files)
      && |p.files| == |p.interfaces|
      && CountNewlines(Expand(env, dir, input, generate).value) == CountNewlines(generated) + |p.interfaces|
  {
    var p := OptsSpec(env, input).value;
    FlatFormResolves(env, input);
    MarkersLines(env, p.files);
    var (imports, exports) := Split(dir, p.interfaces);
    CountNewlinesAppend(generate(p.opts, imports, exports), Markers(env, p.files));
  }

  /** `import!({ paths: ["a.wit", "b.wit"] })` with both files parsing
      generates bindings that import `[a, b]` and appends no dependency line. */
  lemma ExpandPathsExample(env: Env, a: Interface, b: Interface,
                           generate: (GenOpts, seq<Interface>, seq<Interface>) -> string)
    requires ResolveFile(env, "a.wit") == Parsed(a) && ResolveFile(env, "b.wit") == Parsed(b)
    ensures Expand(env, Import, [Brace([Kw(PathsKw), Colon, Bracket([Str("a.wit"), Comma, Str("b.wit")])])], generate)
         == Ok(generate(Defaults, [a, b], []))
  {
    BracePathsExample(env, a, b);
    assert generate(Defaults, [a, b], []) + "" == generate(Defaults, [a, b], []);
  }
}
