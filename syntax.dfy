/** The collaborators the macro reaches but does not implement: the WIT
    interface parser and the host's path handling. They are handed to the
    parser as one environment value, so that every result below is a
    function of the tokens and of these collaborators. */
module Foreign {

  /** A parsed interface description; the configuration parser only passes it on. */
  type Interface

  /** An error reported by the interface parser (unreadable file, bad WIT text). */
  type WitError

  datatype WitResult = Parsed(iface: Interface) | Failed(cause: WitError)

  /** `manifestDir` is the value of `CARGO_MANIFEST_DIR`; `join` is
      `PathBuf::join` followed by `display`; `parseText` is
      `Interface::parse(name, text)` and `parseFile` is `Interface::parse_file(path)`. */
  datatype Env = Env(
    manifestDir: string,
    join: (string, string) -> string,
    parseText: (string, string) -> WitResult,
    parseFile: string -> WitResult)

  /** The path a listed file is read from: the file joined onto the manifest directory. */
  function FullPath(env: Env, file: string): string {
    env.join(env.manifestDir, file)
  }

  /** What the interface parser makes of one listed file. */
  function ResolveFile(env: Env, file: string): WitResult {
    env.parseFile(FullPath(env, file))
  }
}

/** The token vocabulary of the macro input and the parser's error and result types. */
module Syntax {
  import opened Foreign

  /** The seven custom keywords the macro recognises. */
  datatype Keyword =
    | SrcKw | PathsKw | UncheckedKw | MultiModuleKw
    | ExportMacroKw | TypesPathKw | ReexportedCratePathKw
  {
    /** The three keywords written `keyword = "string"`. */
    predicate IsAssignment() {
      ExportMacroKw? || TypesPathKw? || ReexportedCratePathKw?
    }
  }

  type AssignKey = k: Keyword | k.IsAssignment() witness ExportMacroKw

  /** A token tree as the macro sees it: keywords, the punctuation `=`, `:`
      and `,`, string literals, `{...}` and `[...]` groups, and anything else. */
  datatype Token =
    | Kw(k: Keyword)
    | Eq
    | Colon
    | Comma
    | Str(s: string)
    | Brace(inner: seq<Token>)
    | Bracket(inner: seq<Token>)
    | Other

  /** `Unexpected` is any syntax error, `Resolve` wraps an interface-parser
      error, `MissingInterfaces` is "must either specify `src` or `paths` keys". */
  datatype Error = Unexpected | Resolve(cause: WitError) | MissingInterfaces

  datatype Option<T> = None | Some(value: T)

  datatype Result<T> = Ok(value: T) | Err(error: Error) {
    predicate IsFailure() {
      Err?
    }

    function PropagateFailure<U>(): Result<U>
      requires Err?
    {
      Err(error)
    }

    function Extract(): T
      requires Ok?
    {
      value
    }
  }

  /** Puts `xs` in front of a successful list result; an error passes through. */
  function Prepend<T>(xs: seq<T>, r: Result<seq<T>>): Result<seq<T>> {
    match r
    case Ok(ys) => Ok(xs + ys)
    case Err(e) => Err(e)
  }

  lemma PrependNil<T>(r: Result<seq<T>>)
    ensures Prepend([], r) == r
  {
    if r.Ok? {
      assert [] + r.value == r.value;
    }
  }

  lemma PrependPrepend<T>(xs: seq<T>, ys: seq<T>, r: Result<seq<T>>)
    ensures Prepend(xs, Prepend(ys, r)) == Prepend(xs + ys, r)
  {
    if r.Ok? {
      assert xs + (ys + r.value) == (xs + ys) + r.value;
    }
  }
}
