/** What `expand_module` decides for one cell (hierarchy.cc:153-206): an
    `$abstract` template is derived, an internal `$` type is a leaf, a
    missing type is looked up in the library directories, and a cell with
    parameters whose module is not a black box is replaced by an instance
    of the derived module. */
module Resolve {
  import opened Wrappers
  import opened CStrings
  import opened Rtlil

  /** The file hierarchy.cc:167-183 loads from one library directory, with the
      front end to read it: `<dir>/<name>.v` if it exists, else `<dir>/<name>.il`. */
  function DirHit(dir: string, t: Id, env: Env): Option<(string, string)>
  {
    var v := dir + "/" + env.unescape(t) + ".v";
    var il := dir + "/" + env.unescape(t) + ".il";
    if env.fileExists(v) then Some((v, "verilog"))
    else if env.fileExists(il) then Some((il, "ilang"))
    else None
  }

  /** The file the library search of hierarchy.cc:167-184 loads for cell type `t`. */
  function LibraryFile(libdirs: seq<string>, t: Id, env: Env): Option<(string, string)>
  {
    if libdirs == [] then None
    else if DirHit(libdirs[0], t, env).Some? then DirHit(libdirs[0], t, env)
    else LibraryFile(libdirs[1..], t, env)
  }

  /** The search loads from the first directory holding a file for `t`, and
      loads nothing exactly when no directory holds one. */
  lemma {:induction false} LibraryFileFirst(libdirs: seq<string>, t: Id, env: Env)
    ensures LibraryFile(libdirs, t, env).None? <==> forall i :: 0 <= i < |libdirs| ==> DirHit(libdirs[i], t, env).None?
    ensures LibraryFile(libdirs, t, env).Some? ==>
      exists i :: 0 <= i < |libdirs| && DirHit(libdirs[i], t, env) == LibraryFile(libdirs, t, env)
        && forall j :: 0 <= j < i ==> DirHit(libdirs[j], t, env).None?
    decreases |libdirs|
  {
    if libdirs != [] && DirHit(libdirs[0], t, env).None? {
      var rest := libdirs[1..];
      LibraryFileFirst(rest, t, env);
      assert forall i :: 1 <= i < |libdirs| ==> libdirs[i] == rest[i - 1];
      if LibraryFile(rest, t, env).Some? {
        var i :| 0 <= i < |rest| && DirHit(rest[i], t, env) == LibraryFile(rest, t, env)
          && forall j :: 0 <= j < i ==> DirHit(rest[j], t, env).None?;
        assert DirHit(libdirs[i + 1], t, env) == LibraryFile(libdirs, t, env);
      } else {
        forall i | 0 <= i < |libdirs|
          ensures DirHit(libdirs[i], t, env).None?
        {
          if i > 0 {
            assert libdirs[i] == rest[i - 1];
          }
        }
      }
    }
  }

  /** The file probed and loaded exists, and it is one of the two names of its directory. */
  lemma LibraryFileExists(libdirs: seq<string>, t: Id, env: Env)
    requires LibraryFile(libdirs, t, env).Some?
    ensures env.fileExists(LibraryFile(libdirs, t, env).value.0)
    ensures exists i :: (0 <= i < |libdirs| &&
      LibraryFile(libdirs, t, env).value.0 in {libdirs[i] + "/" + env.unescape(t) + ".v", libdirs[i] + "/" + env.unescape(t) + ".il"})
  {
    LibraryFileFirst(libdirs, t, env);
  }

  /** The loop over `libdirs` at hierarchy.cc:167-184. */
  method FindLibraryFile(libdirs: seq<string>, t: Id, env: Env) returns (r: Option<(string, string)>)
    ensures r == LibraryFile(libdirs, t, env)
  {
    var i := 0;
    while i < |libdirs|
      invariant 0 <= i <= |libdirs|
      invariant LibraryFile(libdirs, t, env) == LibraryFile(libdirs[i..], t, env)
    {
      assert libdirs[i..][1..] == libdirs[i + 1..];
      var filename := libdirs[i] + "/" + env.unescape(t) + ".v";
      if env.fileExists(filename) {
        return Some((filename, "verilog"));
      }
      filename := libdirs[i] + "/" + env.unescape(t) + ".il";
      if env.fileExists(filename) {
        return Some((filename, "ilang"));
      }
      i := i + 1;
    }
    return None;
  }

  /** The design after one cell was resolved, the cell as it now is, and
      whether anything changed (`did_something`). */
  datatype Resolved = Resolved(mods: map<Id, Module>, cell: Cell, did: bool)

  /** `derive` of `template` with the cell's parameters (hierarchy.cc:158-160, 203-205):
      the derived module is registered and the cell instantiates it, without parameters. */
  function Derived(mods: map<Id, Module>, template: Id, c: Cell, env: Env): Result<Resolved, Error>
  {
    match env.derive(template, c.parameters)
    case None => Err(DeriveFailed(template))
    case Some(d) => Ok(Resolved(AddModules(mods, map[d.0 := d.1]), c.(ctype := d.0, parameters := map[]), true))
  }

  /** hierarchy.cc:196-205, for a cell whose type is a module of the design. */
  function Parametrised(mods: map<Id, Module>, c: Cell, did: bool, env: Env): Result<Resolved, Error>
    requires c.ctype in mods
  {
    if |c.parameters| == 0 || IsBlackbox(mods[c.ctype]) then Ok(Resolved(mods, c, did))
    else Derived(mods, c.ctype, c, env)
  }

  /** The body of the first loop of `expand_module` (hierarchy.cc:153-206) for
      cell `cellName` of module `inModule`, once any array prefix is gone. */
  function ResolveCell(mods: map<Id, Module>, inModule: Id, cellName: Id, c: Cell, flagCheck: bool,
                       libdirs: seq<string>, env: Env): (r: Result<Resolved, Error>)
    ensures r.Ok? ==> mods.Keys <= r.value.mods.Keys && forall n :: n in mods ==> r.value.mods[n] == mods[n]
  {
    if c.ctype in mods then Parametrised(mods, c, false, env)
    else if ABSTRACT_PREFIX + c.ctype in mods then Derived(mods, ABSTRACT_PREFIX + c.ctype, c, env)
    else if StartsWithDollar(c.ctype) then Ok(Resolved(mods, c, false))
    else match LibraryFile(libdirs, c.ctype, env)
      case None =>
        if flagCheck then Err(ModuleNotInDesign(c.ctype, inModule, cellName)) else Ok(Resolved(mods, c, false))
      case Some(file) =>
        match env.frontend(file.0, file.1)
        case None => Err(FrontendFailed(file.0))
        case Some(added) =>
          var loaded := AddModules(mods, added);
          if c.ctype !in loaded then Err(LibraryMissingModule(file.0, c.ctype))
          else Parametrised(loaded, c, true, env)
  }

  /** A derived cell instantiates a module of the design and has no parameters. */
  lemma DerivedCell(mods: map<Id, Module>, template: Id, c: Cell, env: Env)
    requires Derived(mods, template, c, env).Ok?
    ensures var s := Derived(mods, template, c, env).value;
      && s.did && s.cell == c.(ctype := env.derive(template, c.parameters).value.0, parameters := map[])
      && s.cell.ctype in s.mods && s.mods.Keys == mods.Keys + {s.cell.ctype}
      && forall n :: n in mods ==> s.mods[n] == mods[n]
  {
  }

  /** Resolving again what `Parametrised` left behind does nothing. */
  lemma ParametrisedSettles(mods: map<Id, Module>, inModule: Id, cellName: Id, c: Cell, did: bool, flagCheck: bool,
                            libdirs: seq<string>, env: Env)
    requires c.ctype in mods && Parametrised(mods, c, did, env).Ok?
    ensures var s := Parametrised(mods, c, did, env).value;
      ResolveCell(s.mods, inModule, cellName, s.cell, flagCheck, libdirs, env) == Ok(Resolved(s.mods, s.cell, false))
  {
    if !(|c.parameters| == 0 || IsBlackbox(mods[c.ctype])) {
      DerivedCell(mods, c.ctype, c, env);
    }
  }

  /** After `Parametrised` the cell's type is a module of the design and the cell
      has no parameters unless that module is a black box. */
  lemma ParametrisedConcrete(mods: map<Id, Module>, c: Cell, did: bool, env: Env)
    requires c.ctype in mods && Parametrised(mods, c, did, env).Ok?
    ensures var s := Parametrised(mods, c, did, env).value;
      s.cell.ctype in s.mods && (s.cell.parameters == map[] || IsBlackbox(s.mods[s.cell.ctype]))
  {
    if !(|c.parameters| == 0 || IsBlackbox(mods[c.ctype])) {
      DerivedCell(mods, c.ctype, c, env);
    } else if |c.parameters| == 0 {
      assert c.parameters == map[];
    }
  }

  /** An `$abstract` template of a missing type wins over everything else:
      the cell instantiates what `derive` makes of it and loses its parameters. */
  lemma AbstractFirst(mods: map<Id, Module>, inModule: Id, cellName: Id, c: Cell, flagCheck: bool,
                      libdirs: seq<string>, env: Env)
    requires c.ctype !in mods && ABSTRACT_PREFIX + c.ctype in mods
    ensures var r := ResolveCell(mods, inModule, cellName, c, flagCheck, libdirs, env);
      var d := env.derive(ABSTRACT_PREFIX + c.ctype, c.parameters);
      && (r.Ok? <==> d.Some?)
      && (r.Ok? ==> r.value.did && r.value.cell == c.(ctype := d.value.0, parameters := map[])
                    && r.value.cell.ctype in r.value.mods)
      && (r.Err? ==> r.error == DeriveFailed(ABSTRACT_PREFIX + c.ctype))
  {
  }

  /** A missing internal `$` type without a template is a leaf: nothing changes,
      whatever the library directories and `-check`. */
  lemma PrimitiveLeaf(mods: map<Id, Module>, inModule: Id, cellName: Id, c: Cell, flagCheck: bool,
                      libdirs: seq<string>, env: Env)
    requires c.ctype !in mods && ABSTRACT_PREFIX + c.ctype !in mods && StartsWithDollar(c.ctype)
    ensures ResolveCell(mods, inModule, cellName, c, flagCheck, libdirs, env) == Ok(Resolved(mods, c, false))
  {
  }

  /** A cell with parameters whose module is not a black box is replaced by an
      instance of the derived module, with its parameters cleared. */
  lemma ParametersDerived(mods: map<Id, Module>, inModule: Id, cellName: Id, c: Cell, flagCheck: bool,
                          libdirs: seq<string>, env: Env)
    requires c.ctype in mods && c.parameters != map[] && !IsBlackbox(mods[c.ctype])
    ensures var r := ResolveCell(mods, inModule, cellName, c, flagCheck, libdirs, env);
      var d := env.derive(c.ctype, c.parameters);
      && (r.Ok? <==> d.Some?)
      && (r.Ok? ==> r.value.did && r.value.cell == c.(ctype := d.value.0, parameters := map[])
                    && r.value.cell.ctype in r.value.mods)
      && (r.Err? ==> r.error == DeriveFailed(c.ctype))
  {
    assert |c.parameters| != 0;
  }

  /** A missing type that the library search does not find is an error under
      `-check` and is left alone otherwise; a file that does not declare the
      type is an error. */
  lemma MissingModule(mods: map<Id, Module>, inModule: Id, cellName: Id, c: Cell, flagCheck: bool,
                      libdirs: seq<string>, env: Env)
    requires c.ctype !in mods && ABSTRACT_PREFIX + c.ctype !in mods && !StartsWithDollar(c.ctype)
    ensures var r := ResolveCell(mods, inModule, cellName, c, flagCheck, libdirs, env);
      var file := LibraryFile(libdirs, c.ctype, env);
      && (file.None? && flagCheck ==> r == Err(ModuleNotInDesign(c.ctype, inModule, cellName)))
      && (file.None? && !flagCheck ==> r == Ok(Resolved(mods, c, false)))
      && (file.Some? && env.frontend(file.value.0, file.value.1).Some?
          && c.ctype !in env.frontend(file.value.0, file.value.1).value
          ==> r == Err(LibraryMissingModule(file.value.0, c.ctype)))
      && (file.Some? && r.Ok? ==> r.value.did && c.ctype in r.value.mods)
  {
    var file := LibraryFile(libdirs, c.ctype, env);
    if file.Some? {
      var f := env.frontend(file.value.0, file.value.1);
      if f.Some? {
        var loaded := AddModules(mods, f.value);
        if c.ctype in loaded {
          var r := Parametrised(loaded, c, true, env);
          if r.Ok? && !(|c.parameters| == 0 || IsBlackbox(loaded[c.ctype])) {
            DerivedCell(loaded, c.ctype, c, env);
          }
        }
      }
    }
  }

  /** What a resolved cell looks like: its type is a module of the design and
      it has no parameters unless that module is a black box; or its type is
      not a module, `-check` is off or the type is internal, and nothing changed. */
  lemma ResolvedConcrete(mods: map<Id, Module>, inModule: Id, cellName: Id, c: Cell, flagCheck: bool,
                         libdirs: seq<string>, env: Env)
    requires ResolveCell(mods, inModule, cellName, c, flagCheck, libdirs, env).Ok?
    ensures var s := ResolveCell(mods, inModule, cellName, c, flagCheck, libdirs, env).value;
      && (s.cell.ctype in s.mods ==> s.cell.parameters == map[] || IsBlackbox(s.mods[s.cell.ctype]))
      && (s.cell.ctype !in s.mods ==> (!flagCheck || StartsWithDollar(c.ctype)) && s == Resolved(mods, c, false))
  {
    if c.ctype in mods {
      ParametrisedConcrete(mods, c, false, env);
    } else if ABSTRACT_PREFIX + c.ctype in mods {
      DerivedCell(mods, ABSTRACT_PREFIX + c.ctype, c, env);
    } else if !StartsWithDollar(c.ctype) && LibraryFile(libdirs, c.ctype, env).Some? {
      var file := LibraryFile(libdirs, c.ctype, env).value;
      var loaded := AddModules(mods, env.frontend(file.0, file.1).value);
      ParametrisedConcrete(loaded, c, true, env);
    }
  }

  /** When nothing was done, the design and the cell are as they were. */
  lemma ResolveIdle(mods: map<Id, Module>, inModule: Id, cellName: Id, c: Cell, flagCheck: bool,
                    libdirs: seq<string>, env: Env)
    requires ResolveCell(mods, inModule, cellName, c, flagCheck, libdirs, env).Ok?
    requires !ResolveCell(mods, inModule, cellName, c, flagCheck, libdirs, env).value.did
    ensures ResolveCell(mods, inModule, cellName, c, flagCheck, libdirs, env).value == Resolved(mods, c, false)
  {
  }

  /** Resolving a resolved cell again, in the design it left behind, does nothing. */
  lemma ResolveSettles(mods: map<Id, Module>, inModule: Id, cellName: Id, c: Cell, flagCheck: bool,
                       libdirs: seq<string>, env: Env)
    requires ResolveCell(mods, inModule, cellName, c, flagCheck, libdirs, env).Ok?
    ensures var s := ResolveCell(mods, inModule, cellName, c, flagCheck, libdirs, env).value;
      ResolveCell(s.mods, inModule, cellName, s.cell, flagCheck, libdirs, env) == Ok(Resolved(s.mods, s.cell, false))
  {
    if c.ctype in mods {
      ParametrisedSettles(mods, inModule, cellName, c, false, flagCheck, libdirs, env);
    } else if ABSTRACT_PREFIX + c.ctype in mods {
      DerivedCell(mods, ABSTRACT_PREFIX + c.ctype, c, env);
    } else if !StartsWithDollar(c.ctype) && LibraryFile(libdirs, c.ctype, env).Some? {
      var file := LibraryFile(libdirs, c.ctype, env).value;
      var loaded := AddModules(mods, env.frontend(file.0, file.1).value);
      ParametrisedSettles(loaded, inModule, cellName, c, true, flagCheck, libdirs, env);
    }
  }

  /** The body of the first loop of `expand_module` (hierarchy.cc:155-205),
      with the library search as a loop. */
  method ResolveOne(mods: map<Id, Module>, inModule: Id, cellName: Id, c: Cell, flagCheck: bool,
                    libdirs: seq<string>, env: Env) returns (r: Result<Resolved, Error>)
    ensures r == ResolveCell(mods, inModule, cellName, c, flagCheck, libdirs, env)
  {
    var ctype := c.ctype;
    var cur := mods;
    var did := false;
    if ctype !in cur {
      if ABSTRACT_PREFIX + ctype in cur {
        return Derived(cur, ABSTRACT_PREFIX + ctype, c, env);
      }
      if StartsWithDollar(ctype) {
        return Ok(Resolved(cur, c, false));
      }
      var file := FindLibraryFile(libdirs, ctype, env);
      if file.None? {
        if flagCheck {
          return Err(ModuleNotInDesign(ctype, inModule, cellName));
        }
        return Ok(Resolved(cur, c, false));
      }
      var added := env.frontend(file.value.0, file.value.1);
      if added.None? {
        return Err(FrontendFailed(file.value.0));
      }
      cur := AddModules(cur, added.value);
      if ctype !in cur {
        return Err(LibraryMissingModule(file.value.0, ctype));
      }
      did := true;
    }
    if |c.parameters| == 0 || IsBlackbox(cur[ctype]) {
      return Ok(Resolved(cur, c, did));
    }
    match env.derive(ctype, c.parameters)
    case None =>
      return Err(DeriveFailed(ctype));
    case Some(d) =>
      return Ok(Resolved(AddModules(cur, map[d.0 := d.1]), c.(ctype := d.0, parameters := map[]), true));
  }
}
