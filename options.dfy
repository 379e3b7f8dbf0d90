/** The fold of the brace form's fields into the generator options and the
    interface list: scalar options are last-write-wins, the two flags are
    only ever switched on, and an interface field replaces the list. */
module Options {
  import opened Foreign
  import opened Syntax
  import opened Fields

  /** The options handed to the Rust code generator. */
  datatype GenOpts = GenOpts(
    unchecked: bool,
    multiModule: bool,
    exportMacro: Option<string>,
    typesPath: Option<string>,
    reexportedCratePath: Option<string>)

  /** `Opts::default()`: both flags off, nothing set. */
  const Defaults := GenOpts(false, false, None, None, None)

  /** The option an assignment key sets. */
  function Setting(o: GenOpts, key: AssignKey): Option<string> {
    match key
    case ExportMacroKw => o.exportMacro
    case TypesPathKw => o.typesPath
    case ReexportedCratePathKw => o.reexportedCratePath
  }

  /** The value a field assigns to the option `key`, if it assigns that one. */
  function SettingOf(f: ConfigField, key: AssignKey): Option<string> {
    match f
    case ExportMacro(v) => if key == ExportMacroKw then Some(v) else None
    case TypesPath(v) => if key == TypesPathKw then Some(v) else None
    case ReexportedCratePath(v) => if key == ReexportedCratePathKw then Some(v) else None
    case _ => None
  }

  /** The effect of one field on the options: the option it names is
      overwritten or switched on, and every other option is left alone. */
  function Configure(o: GenOpts, f: ConfigField): (r: GenOpts)
    ensures forall key: AssignKey {:trigger Setting(r, key)} ::
      Setting(r, key) == if SettingOf(f, key).Some? then SettingOf(f, key) else Setting(o, key)
    ensures r.unchecked == (o.unchecked || f.Unchecked?)
    ensures r.multiModule == (o.multiModule || f.MultiModule?)
  {
    match f
    case Interfaces(_) => o
    case Unchecked => o.(unchecked := true)
    case MultiModule => o.(multiModule := true)
    case ExportMacro(name) => o.(exportMacro := Some(name))
    case TypesPath(path) => o.(typesPath := Some(path))
    case ReexportedCratePath(path) => o.(reexportedCratePath := Some(path))
  }

  /** The state of the fold: the options and the interfaces so far. */
  datatype Folded = Folded(opts: GenOpts, interfaces: seq<Interface>)

  /** One iteration of the loop over the fields. */
  function Step(acc: Folded, f: ConfigField): Folded {
    match f
    case Interfaces(v) => acc.(interfaces := v)
    case _ => acc.(opts := Configure(acc.opts, f))
  }

  /** The fields folded left to right, starting from the defaults and no interfaces. */
  function Fold(fs: seq<ConfigField>): Folded
    decreases |fs|
  {
    if fs == [] then Folded(Defaults, []) else Step(Fold(fs[..|fs| - 1]), fs[|fs| - 1])
  }

  lemma FoldSnoc(fs: seq<ConfigField>, f: ConfigField)
    ensures Fold(fs + [f]) == Step(Fold(fs), f)
  {
    assert (fs + [f])[..|fs|] == fs;
  }

  /** A scalar option ends up holding the value of the last field that sets it. */
  lemma {:induction false} FoldSettingLastWins(fs: seq<ConfigField>, key: AssignKey, i: nat)
    requires i < |fs| && SettingOf(fs[i], key).Some?
    requires forall j :: i < j < |fs| ==> SettingOf(fs[j], key).None?
    ensures Setting(Fold(fs).opts, key) == SettingOf(fs[i], key)
    decreases |fs|
  {
    var init := fs[..|fs| - 1];
    var last := fs[|fs| - 1];
    if i < |fs| - 1 {
      FoldSettingLastWins(init, key, i);
    }
    if !last.Interfaces? {
      assert Setting(Configure(Fold(init).opts, last), key) == SettingOf(fs[i], key);
    }
  }

  /** A scalar option no field sets stays unset. */
  lemma {:induction false} FoldSettingUnset(fs: seq<ConfigField>, key: AssignKey)
    requires forall j :: 0 <= j < |fs| ==> SettingOf(fs[j], key).None?
    ensures Setting(Fold(fs).opts, key) == None
    decreases |fs|
  {
    if fs != [] {
      var init := fs[..|fs| - 1];
      FoldSettingUnset(init, key);
      if !fs[|fs| - 1].Interfaces? {
        assert Setting(Configure(Fold(init).opts, fs[|fs| - 1]), key) == None;
      }
    }
  }

  /** Each flag is on exactly when some field switches it on. */
  lemma {:induction false} FoldFlags(fs: seq<ConfigField>)
    ensures Fold(fs).opts.unchecked <==> exists i :: 0 <= i < |fs| && fs[i].Unchecked?
    ensures Fold(fs).opts.multiModule <==> exists i :: 0 <= i < |fs| && fs[i].MultiModule?
    decreases |fs|
  {
    if fs != [] {
      var init := fs[..|fs| - 1];
      FoldFlags(init);
      assert forall i :: 0 <= i < |init| ==> init[i] == fs[i];
    }
  }

  /** The interfaces are those of the last interface field, not an accumulation. */
  lemma {:induction false} FoldInterfacesLastWins(fs: seq<ConfigField>, i: nat)
    requires i < |fs| && fs[i].Interfaces?
    requires forall j :: i < j < |fs| ==> !fs[j].Interfaces?
    ensures Fold(fs).interfaces == fs[i].ifaces
    decreases |fs|
  {
    if i < |fs| - 1 {
      FoldInterfacesLastWins(fs[..|fs| - 1], i);
    }
  }

  /** Without an interface field there are no interfaces. */
  lemma {:induction false} FoldInterfacesUnset(fs: seq<ConfigField>)
    requires forall j :: 0 <= j < |fs| ==> !fs[j].Interfaces?
    ensures Fold(fs).interfaces == []
    decreases |fs|
  {
    if fs != [] {
      FoldInterfacesUnset(fs[..|fs| - 1]);
    }
  }

  /** Repeating any field straight away changes nothing. */
  lemma FoldRepeat(fs: seq<ConfigField>, f: ConfigField)
    ensures Fold(fs + [f, f]) == Fold(fs + [f])
  {
    assert fs + [f, f] == (fs + [f]) + [f];
    FoldSnoc(fs + [f], f);
    FoldSnoc(fs, f);
  }

  /** A flag field may be moved to the end of the list without changing the result. */
  lemma {:induction false} FoldFlagAnywhere(p: seq<ConfigField>, q: seq<ConfigField>, f: ConfigField)
    requires f.Unchecked? || f.MultiModule?
    ensures Fold(p + [f] + q) == Step(Fold(p + q), f)
    decreases |q|
  {
    if q == [] {
      assert p + [f] + q == p + [f];
      assert p + q == p;
      FoldSnoc(p, f);
    } else {
      var init := q[..|q| - 1];
      var last := q[|q| - 1];
      FoldFlagAnywhere(p, init, f);
      assert p + [f] + q == (p + [f] + init) + [last];
      assert p + q == (p + init) + [last];
      FoldSnoc(p + [f] + init, last);
      FoldSnoc(p + init, last);
    }
  }

  /** A flag given twice, anywhere in the list, is the same as given once. */
  lemma FoldFlagIdempotent(a: seq<ConfigField>, b: seq<ConfigField>, c: seq<ConfigField>, f: ConfigField)
    requires f.Unchecked? || f.MultiModule?
    ensures Fold(a + [f] + b + [f] + c) == Fold(a + [f] + b + c)
  {
    assert a + [f] + b + [f] + c == (a + [f] + b) + [f] + c;
    FoldFlagAnywhere(a + [f] + b, c, f);
    assert (a + [f] + b) + c == a + [f] + (b + c);
    FoldFlagAnywhere(a, b + c, f);
    assert a + [f] + b + c == a + [f] + (b + c);
    assert a + (b + c) == a + b + c;
  }
}
