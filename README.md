# Configuration parser of the `import!` / `export!` macros

This project models the front end of the Rust guest bindings macros in
`crates/guest-rust-macro/src/lib.rs`. The macro input is read as one of two forms:

- the **brace form** `{ src["name"]: "...", paths: ["a.wit", ...], unchecked,
  multi_module, export_macro = "...", types_path = "...", reexported_crate_path = "..." }`,
  a comma-separated list of configuration fields with an optional trailing comma;
- the **flat form**, a run of file-path string literals interleaved with
  `export_macro = "..."`, `types_path = "..."` and `reexported_crate_path = "..."`.

One token of lookahead chooses the form. The brace form's fields are folded
into the generator options. Scalar options are last-write-wins, the two flags
are only ever switched on, and an interface field replaces the interfaces so
far. In the flat form, every recorded path is read with the interface parser,
in order. `run` then passes the interfaces to the generator as imports or as
exports, depending on the macro. It appends one `include_str!` dependency line
for each recorded file.

Files and modules:

- `syntax.dfy`: `Foreign`, the collaborators (interface parser, path join,
  manifest directory) as one `Env` value; `Syntax`, the token model
  (`Kw`, `Eq`, `Colon`, `Comma`, `Str`, `Brace`, `Bracket`, `Other`), errors and results.
- `fields.dfy`: `Fields`, `ConfigField::parse` as functions. Each field is read
  as syntax (`ParseFieldSyntax`) and then resolved (`ResolveSyntax`). The module
  also has the comma-separated list (`Punctuated`, syn's `parse_terminated`) and
  the renderings that the round-trip lemmas use.
- `options.dfy`: `Options`, the generator options and the left fold over the fields.
- `opts.dfy`: `OptsParser`, `Opts::parse`. The brace form is a function. The
  flat-form loop and the path-resolution loop are methods, each proved against
  a specification function.
- `driver.dfy`: `Driver`, `run`. It places the interfaces by direction and
  appends the dependency lines in a loop.

Three behaviours of the code that a reader might not expect:

- In the brace form, a `paths:` list records no file, so it produces no
  dependency line (`ExpandPathsExample`, `ExpandBraceNoMarkers`).
- A later `src`/`paths` field replaces the interfaces of an earlier one
  (`BraceLastSourceWins`).
- A flat input naming no file is accepted with no interfaces (`FlatNoPathsAccepted`).

## Model

| member | source | states |
|---|---|---|
| `Fields.Punctuated` | crates/guest-rust-macro/src/lib.rs:69 | syn's `parse_terminated`: items separated by commas, a trailing comma allowed, the first failing item or a missing comma aborting; a list that reads is empty exactly when its tokens are, and has at most one item per token (contents: `LitListRoundTrip`, `LitListExact`, `FieldListRoundTrip`, `FieldListExact`) |
| `Fields.ParseFields` | crates/guest-rust-macro/src/lib.rs:69 | the fields of a brace group; a content that reads is empty exactly when it holds no field, and otherwise opens with a keyword (contents: `FieldListRoundTrip`, `FieldListExact`) |
| `Fields.ResolveSyntax` | crates/guest-rust-macro/src/lib.rs:140-165 | only `src` and `paths` become interfaces; `src` succeeds exactly when its text parses and yields that one interface; `paths` yields one interface per listed file; the other fields always resolve |
| `Fields.ParseFieldSyntax` | crates/guest-rust-macro/src/lib.rs:137-191 | a field parses only when it opens with one of the seven keywords, and the field kind is the one that keyword selects; any other leading token (or none) is a syntax error; a successful parse consumes a proper prefix |
| `Fields.ParseField` | crates/guest-rust-macro/src/lib.rs:137-191 | `ConfigField::parse` consumes a proper prefix of its input and fails on a leading token that is not a keyword |
| `Fields.ResolveAll` | crates/guest-rust-macro/src/lib.rs:157-164 | reading a list of files succeeds with exactly one interface per file |
| `Fields.ResolveAllSucceeds` | crates/guest-rust-macro/src/lib.rs:157-164 | the list resolves exactly when every file parses, and the k-th interface is the k-th file's |
| `Fields.ResolveAllFirstFailure` | crates/guest-rust-macro/src/lib.rs:159-163 | a failure reports the error of the first failing file, every earlier file having parsed |
| `Fields.LitListRoundTrip` | crates/guest-rust-macro/src/lib.rs:153-156 | a bracketed list of string literals, with or without a trailing comma, reads back as exactly those strings in order |
| `Fields.LitListExact` | crates/guest-rust-macro/src/lib.rs:155-156 | conversely, a list that reads is those literals joined by commas, with a trailing comma exactly when present, and none after an empty list |
| `Fields.FieldSyntaxRoundTrip` | crates/guest-rust-macro/src/lib.rs:137-191 | every written field (`src[..]: ..`, `paths: [..]`, `unchecked`, `multi_module`, `key = ".."`) reads back as itself whatever follows it |
| `Fields.FieldSyntaxExact` | crates/guest-rust-macro/src/lib.rs:137-191 | conversely, every field that reads is the rendering of what was read followed by the unread tokens |
| `Fields.ParseFieldRendered` | crates/guest-rust-macro/src/lib.rs:140-165 | `src` yields exactly one interface (from the text parser) and `paths` one per listed file in order; a failing resolution fails the field |
| `Fields.FieldListRoundTrip` | crates/guest-rust-macro/src/lib.rs:69 | a brace group of comma-separated fields, trailing comma or not, reads as those fields resolved in order, the first failure aborting |
| `Fields.FieldListExact` | crates/guest-rust-macro/src/lib.rs:69 | conversely, every brace content that reads is some list of written fields joined by commas, with or without a trailing comma, and reads as those fields resolved in order |
| `Fields.SrcReadsNoFile` | crates/guest-rust-macro/src/lib.rs:140-149 | a `src` field does not depend on the file parser and succeeds exactly when its text parses |
| `Options.Step` | crates/guest-rust-macro/src/lib.rs:71-79 | one iteration of the loop over the fields: an interface field replaces the interfaces, any other field updates the options through `Configure` (properties: `FoldSettingLastWins`, `FoldFlags`, `FoldInterfacesLastWins`) |
| `Options.Fold` | crates/guest-rust-macro/src/lib.rs:70-81 | the loop over all fields from the default options and no interfaces (properties: the `Fold*` lemmas below) |
| `Options.Configure` | crates/guest-rust-macro/src/lib.rs:71-78 | one field overwrites the option it names or switches its flag on, and leaves every other option as it was |
| `Options.FoldSettingLastWins` | crates/guest-rust-macro/src/lib.rs:74-78 | `export_macro`, `types_path` and `reexported_crate_path` hold the value of the last field that sets them |
| `Options.FoldSettingUnset` | crates/guest-rust-macro/src/lib.rs:62-78 | an option no field sets keeps its default (unset) |
| `Options.FoldFlags` | crates/guest-rust-macro/src/lib.rs:72-73 | `unchecked` / `multi_module` are on exactly when some field names them |
| `Options.FoldInterfacesLastWins` | crates/guest-rust-macro/src/lib.rs:79 | the interfaces are those of the last `src`/`paths` field, not an accumulation |
| `Options.FoldInterfacesUnset` | crates/guest-rust-macro/src/lib.rs:68-79 | with no `src`/`paths` field the fold has no interfaces |
| `Options.FoldRepeat` | crates/guest-rust-macro/src/lib.rs:70-81 | repeating any field straight away does not change the result |
| `Options.FoldFlagAnywhere` | crates/guest-rust-macro/src/lib.rs:72-73 | a flag field can be moved to the end of the list without changing the result |
| `Options.FoldFlagIdempotent` | crates/guest-rust-macro/src/lib.rs:72-73 | a flag given twice anywhere in the list is the same as given once |
| `OptsParser.BraceForm` | crates/guest-rust-macro/src/lib.rs:65-88 | a successful brace form has at least one interface and records no file |
| `OptsParser.ScanFlat` | crates/guest-rust-macro/src/lib.rs:90-110 | the flat form's items left to right; a run that reads is empty exactly when the input is, has at most one item per token, and opens with a literal or an assignment keyword (contents: `FlatRoundTrip`, `FlatScanExact`) |
| `OptsParser.FlatPaths` | crates/guest-rust-macro/src/lib.rs:106-108 | the files the flat form records, at most one per item (contents: `FlatPathsAreLiterals`, `FlatAssignmentsRecordNoFile`) |
| `OptsParser.FlatForm` | crates/guest-rust-macro/src/lib.rs:89-119 | a successful flat form has one interface per recorded file, neither flag on, and no more files than tokens (iff: `FlatFormResolves`) |
| `OptsParser.OptsSpec` | crates/guest-rust-macro/src/lib.rs:60-126 | the whole input: a successful brace form has interfaces and no files, a successful flat form one interface per file |
| `OptsParser.FlatOpts` | crates/guest-rust-macro/src/lib.rs:91-105 | the flat form never switches on `unchecked` or `multi_module` |
| `OptsParser.ScanFlatInput` | crates/guest-rust-macro/src/lib.rs:90-110 | the flat-form loop returns the options of the scanned assignments and the scanned paths, or the scanner's error |
| `OptsParser.ResolveFiles` | crates/guest-rust-macro/src/lib.rs:111-118 | the resolution loop returns what resolving the list in order gives, stopping at the first failure |
| `OptsParser.ParseOpts` | crates/guest-rust-macro/src/lib.rs:60-126 | the input is parsed as the brace form exactly when it opens with a brace group, and as the flat form otherwise |
| `OptsParser.FlatRoundTrip` | crates/guest-rust-macro/src/lib.rs:90-110 | every run of path literals and `key = "value"` assignments scans back as itself |
| `OptsParser.FlatScanExact` | crates/guest-rust-macro/src/lib.rs:106-108 | conversely, the flat form accepts only such runs: any other token is an error |
| `OptsParser.FlatPathsAreLiterals` | crates/guest-rust-macro/src/lib.rs:106-108 | the recorded files are the bare literals, left to right: the first item contributes its path exactly when it is a literal, followed by the files of the rest |
| `OptsParser.FlatAssignmentsRecordNoFile` | crates/guest-rust-macro/src/lib.rs:91-105 | an input made of assignments only records no file |
| `OptsParser.FlatSettingLastWins` | crates/guest-rust-macro/src/lib.rs:91-105 | in the flat form a later assignment overwrites an earlier one |
| `OptsParser.FlatSettingUnset` | crates/guest-rust-macro/src/lib.rs:91-105 | an option no flat assignment names stays unset |
| `OptsParser.FlatFormResolves` | crates/guest-rust-macro/src/lib.rs:111-118 | the flat form succeeds exactly when it scans and every recorded path parses; then there is one interface per recorded file, in order |
| `OptsParser.FlatNoPathsAccepted` | crates/guest-rust-macro/src/lib.rs:89-119 | a flat input naming no file (including the empty input) is accepted, with no interfaces and no files |
| `OptsParser.BraceFormOfFields` | crates/guest-rust-macro/src/lib.rs:82-88 | once the fields are read, an empty interface list is the "must either specify `src` or `paths` keys" error, and otherwise the folded options and interfaces are returned with no files |
| `OptsParser.BraceWithoutSourcesFails` | crates/guest-rust-macro/src/lib.rs:82-87 | a brace group with neither `src` nor `paths` fails with the missing-interfaces error |
| `OptsParser.EmptyPathsRejected` | crates/guest-rust-macro/src/lib.rs:82-87 | `{ paths: [] }` fails with the missing-interfaces error |
| `OptsParser.BraceLastSourceWins` | crates/guest-rust-macro/src/lib.rs:79 | with several `src`/`paths` fields the result's interfaces are those of the last one |
| `OptsParser.BracePathsExample` | crates/guest-rust-macro/src/lib.rs:65-88 | `{ paths: ["a.wit", "b.wit"] }` yields `[a, b]`, default options, no recorded file |
| `Driver.Split` | crates/guest-rust-macro/src/lib.rs:23-26 | `Import` puts every interface in the imports, `Export` in the exports; the two never are both non-empty and together are the interfaces |
| `Driver.Marker` | crates/guest-rust-macro/src/lib.rs:35-38 | the `include_str!` statement for one file, naming the file joined onto the manifest directory (properties: `MarkerEndsLine`, `MarkerIsOneLine`) |
| `Driver.Markers` | crates/guest-rust-macro/src/lib.rs:34-39 | the statements for the files, in order (properties: `MarkersAppend`, `MarkersLines`) |
| `Driver.Expand` | crates/guest-rust-macro/src/lib.rs:19-42 | the macro's output succeeds exactly when the input parses, and a failure is the parse error |
| `Driver.AppendMarkers` | crates/guest-rust-macro/src/lib.rs:34-39 | the loop appends the dependency lines of the files, in order, to the generated text |
| `Driver.Run` | crates/guest-rust-macro/src/lib.rs:19-42 | `run` returns the generated text followed by the dependency lines, or the parse error |
| `Driver.MarkersAppend` | crates/guest-rust-macro/src/lib.rs:34-39 | the dependency lines of two file lists are those of each, one after the other |
| `Driver.MarkerEndsLine` | crates/guest-rust-macro/src/lib.rs:36 | every `include_str!` dependency statement, whatever the path, ends in a line break |
| `Driver.MarkerIsOneLine` | crates/guest-rust-macro/src/lib.rs:35-38 | a dependency statement whose path has no line break holds exactly one line break |
| `Driver.MarkersLines` | crates/guest-rust-macro/src/lib.rs:34-39 | when no recorded file's joined path holds a line break, the dependency text has exactly one line break per recorded file |
| `Driver.ExpandDirection` | crates/guest-rust-macro/src/lib.rs:23-27 | `import!` and `export!` fail alike, and differ only in passing the interfaces as imports or as exports |
| `Driver.ExpandBraceNoMarkers` | crates/guest-rust-macro/src/lib.rs:34-39 | for a brace-form input the output is the generated text alone, with no dependency line |
| `Driver.ExpandFlatMarkers` | crates/guest-rust-macro/src/lib.rs:111-118 | for a flat-form input the output is the generated text followed by the dependency statements, with one recorded file per interface read; when no recorded file's path holds a line break, the output has exactly one more line per interface |
| `Driver.ExpandPathsExample` | crates/guest-rust-macro/src/lib.rs:19-42 | `import!({ paths: ["a.wit", "b.wit"] })` generates bindings importing `[a, b]` and appends nothing |

## Left out

- The `proc_macro` / `syn` / `proc_macro2` plumbing: conversion to and from `TokenStream` (lib.rs:20, 41) and spans. The input is a sequence of abstract tokens. Only the seven keywords, `=`, `:`, `,`, string literals, and brace and bracket groups are told apart; every other token is `Other`.
- Error messages: every syntax error is one `Unexpected` value. Only the missing-interfaces error and the interface parser's errors are kept apart.
- `Fields.ParseFieldSyntax`: a token left inside the brackets of `src[...]` is a syntax error at once. syn records such a token and reports it only when the whole parse ends. The input fails either way, but the reported error can differ.
- `Interface::parse` and `Interface::parse_file`, the WIT parser, are the functions `parseText` and `parseFile` of `Env`. Their results are taken as given.
- `CARGO_MANIFEST_DIR` is `Env.manifestDir`, and `PathBuf::join` followed by `display` is `Env.join`. A missing variable panics in the source; the model does not cover that.
- The code generator (`Opts::build`, `generate_all`, `Files`), taking the single output file and decoding it as UTF-8 (lib.rs:21-29) are the parameter `generate`. Its failures (no file, non-UTF-8 output) are not modelled.
- `Driver.MarkersLines`, `Driver.ExpandFlatMarkers`: the line count is stated only when no recorded file's joined path contains a line break. A path with one would add lines, because neither the source nor the model escapes paths.
