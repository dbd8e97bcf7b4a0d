/** The hierarchy pass on a design (hierarchy.cc:244-282, 340-525): the
    design is an object whose module map the pass updates in place. */
module Hierarchy {
  import opened Wrappers
  import opened CStrings
  import opened Rtlil
  import opened PortDecls
  import opened Generate
  import opened Stubs
  import opened Expand
  import opened Reach
  import opened Remap

  /** The modules carrying the `\top` attribute. */
  function TopMarked(mods: map<Id, Module>): set<Id>
  {
    set n | n in mods && TOP in mods[n].attributes
  }

  /** hierarchy.cc:436-439: without `-top`, the top module is the last module
      in name order with the `\top` attribute, if any has it. */
  function TopOf(mods: map<Id, Module>): (r: Option<Id>)
    ensures r.None? <==> forall n :: n in mods ==> TOP !in mods[n].attributes
    ensures r.Some? ==> r.value in mods && TOP in mods[r.value].attributes
    ensures r.Some? ==> forall n :: n in mods && TOP in mods[n].attributes && n != r.value ==> Less(n, r.value)
  {
    var s := TopMarked(mods);
    assert forall n :: n in mods && TOP in mods[n].attributes ==> n in s;
    if s == {} then None
    else Some(Greatest(s))
  }

  /** A module with `\top` set or erased (hierarchy.cc:469-472). */
  function Marked(m: Module, isTop: bool): Module
  {
    m.(attributes := if isTop then m.attributes + {TOP} else m.attributes - {TOP})
  }

  /** The module map after hierarchy.cc:467-473. */
  function Retopped(mods: map<Id, Module>, top: Id): map<Id, Module>
  {
    map n | n in mods :: Marked(mods[n], n == top)
  }

  /** Afterwards exactly `top` carries `\top`; nothing else changes. */
  lemma RetoppedOnlyTop(mods: map<Id, Module>, top: Id)
    ensures Retopped(mods, top).Keys == mods.Keys
    ensures forall n :: n in mods ==> (TOP in Retopped(mods, top)[n].attributes <==> n == top)
    ensures forall n :: n in mods ==>
      (Retopped(mods, top)[n].cells == mods[n].cells && Retopped(mods, top)[n].wires == mods[n].wires
       && Retopped(mods, top)[n].attributes - {TOP} == mods[n].attributes - {TOP})
  {
  }

  /** `used` for one call of the worker that must still finish: every module of
      `used` outside `grey` has all the modules it instantiates in `used`. */
  ghost predicate Finished(mods: map<Id, Module>, used: set<Id>, grey: set<Id>)
  {
    forall m :: m in used - grey ==> m in mods && Children(mods, m) <= used
  }

  lemma FewerLeft(keys: set<Id>, used: set<Id>, r: set<Id>, name: Id)
    requires used <= r && name in r && name !in used && name in keys
    ensures |keys - r| < |keys - used|
  {
    var d := (keys - used) - (keys - r);
    assert keys - used == (keys - r) + d;
    assert (keys - r) * d == {};
    assert name in d;
  }

  /** A module instantiated by `name` through cell `c` adds what it reaches to what `name` reaches. */
  lemma ReachStep(mods: map<Id, Module>, name: Id, c: Id, used: set<Id>, r: set<Id>, r': set<Id>)
    requires name in mods && c in mods[name].cells && mods[name].cells[c].ctype in mods
    requires used <= r <= r'
    requires forall m :: m in r - used ==> Reaches(mods, name, m)
    requires forall m :: m in r' - r ==> Reaches(mods, mods[name].cells[c].ctype, m)
    ensures forall m :: m in r' - used ==> Reaches(mods, name, m)
  {
    forall m | m in r' - r
      ensures Reaches(mods, name, m)
    {
      ReachesThrough(mods, name, mods[name].cells[c].ctype, m);
    }
  }

  /** The modules the first `i` cells of `name` instantiate are marked. */
  predicate Covered(mods: map<Id, Module>, name: Id, cells: seq<Id>, i: nat, r: set<Id>)
    requires name in mods && i <= |cells|
  {
    forall j :: 0 <= j < i && cells[j] in mods[name].cells && mods[name].cells[cells[j]].ctype in mods ==>
      mods[name].cells[cells[j]].ctype in r
  }

  lemma CoveredStep(mods: map<Id, Module>, name: Id, cells: seq<Id>, i: nat, r: set<Id>, r': set<Id>)
    requires name in mods && i < |cells| && cells[i] in mods[name].cells
    requires Covered(mods, name, cells, i, r) && r <= r'
    requires mods[name].cells[cells[i]].ctype in mods ==> mods[name].cells[cells[i]].ctype in r'
    ensures Covered(mods, name, cells, i + 1, r')
  {
  }

  /** Every module a cell of `name` instantiates was marked. */
  lemma ChildrenCovered(mods: map<Id, Module>, name: Id, cells: seq<Id>, r: set<Id>)
    requires name in mods && forall x :: x in mods[name].cells ==> x in cells
    requires Covered(mods, name, cells, |cells|, r)
    ensures Children(mods, name) <= r
  {
    forall t | t in Children(mods, name)
      ensures t in r
    {
      var c :| c in mods[name].cells && mods[name].cells[c].ctype in mods && mods[name].cells[c].ctype == t;
      var j :| 0 <= j < |cells| && cells[j] == c;
    }
  }

  lemma FinishedStep(mods: map<Id, Module>, used: set<Id>, grey: set<Id>, name: Id)
    requires name in mods && Finished(mods, used, grey + {name}) && Children(mods, name) <= used
    ensures Finished(mods, used, grey)
  {
  }

  class Design {
    /** `design->modules`. */
    var modules: map<Id, Module>

    constructor (mods: map<Id, Module>)
      ensures modules == mods
    {
      modules := mods;
    }

    /** `hierarchy_worker` (hierarchy.cc:244-258): a module already in `used`
        is not entered again; otherwise it is marked, and so, depth first, is
        every module its cells instantiate. `grey` holds the modules whose
        calls are still running. */
    method Worker(used: set<Id>, name: Id, ghost grey: set<Id>) returns (r: set<Id>)
      requires name in modules && used <= modules.Keys && grey <= used
      requires Finished(modules, used, grey)
      ensures used <= r <= modules.Keys && name in r
      ensures name in used ==> r == used
      ensures Finished(modules, r, grey)
      ensures forall m :: m in r - used ==> Reaches(modules, name, m)
      decreases |modules.Keys - used|
    {
      if name in used {
        return used;
      }
      r := used + {name};
      ReachesSelf(modules, name);
      var cells := Ascending(modules[name].cells.Keys);
      var i := 0;
      while i < |cells|
        invariant 0 <= i <= |cells|
        invariant used + {name} <= r <= modules.Keys
        invariant Finished(modules, r, grey + {name})
        invariant forall m :: m in r - used ==> Reaches(modules, name, m)
        invariant Covered(modules, name, cells, i, r)
      {
        var t := modules[name].cells[cells[i]].ctype;
        if t in modules {
          FewerLeft(modules.Keys, used, r, name);
          var r' := Worker(r, t, grey + {name});
          ReachStep(modules, name, cells[i], used, r, r');
          CoveredStep(modules, name, cells, i, r, r');
          r := r';
        } else {
          CoveredStep(modules, name, cells, i, r, r);
        }
        i := i + 1;
      }
      ChildrenCovered(modules, name, cells, r);
      FinishedStep(modules, r, grey, name);
    }

    /** `hierarchy` (hierarchy.cc:260-282): every module not used from `top`
        is deleted unless it is protected. */
    method Hierarchy(top: Id, purgeLib: bool, firstPass: bool)
      requires top in modules
      modifies this
      ensures modules == Pruned(old(modules), Reachable(old(modules), top), purgeLib, firstPass)
    {
      var used := Worker({}, top, {});
      UsedIsReachable(modules, used, top);
      var delModules := Unused(used);
      ghost var snapshot := modules;
      DeleteUnused(delModules, used, purgeLib, firstPass);
      PrunedIs(snapshot, used, purgeLib, firstPass, modules);
    }

    /** `del_modules` (hierarchy.cc:265-268): the modules not in `used`. */
    method Unused(used: set<Id>) returns (delModules: seq<Id>)
      ensures forall n :: n in delModules <==> n in modules && n !in used
    {
      var names := Ascending(modules.Keys);
      delModules := [];
      var i := 0;
      while i < |names|
        invariant 0 <= i <= |names|
        invariant forall n :: n in delModules ==> n in modules && n !in used
        invariant forall j :: 0 <= j < i && names[j] !in used ==> names[j] in delModules
      {
        if names[i] !in used {
          delModules := delModules + [names[i]];
        }
        i := i + 1;
      }
    }

    /** The deletion loop of hierarchy.cc:270-279. */
    method DeleteUnused(delModules: seq<Id>, used: set<Id>, purgeLib: bool, firstPass: bool)
      requires forall n :: n in delModules <==> n in modules && n !in used
      modifies this
      ensures forall n :: n in modules ==> n in old(modules) && modules[n] == old(modules)[n]
      ensures forall n :: n in old(modules) ==>
        (n in modules <==> n in used || Protected(n, old(modules)[n], purgeLib, firstPass))
    {
      var snapshot := modules;
      ghost var visited: set<Id> := {};
      var j := 0;
      while j < |delModules|
        invariant 0 <= j <= |delModules|
        invariant forall x :: x in visited <==> exists k :: 0 <= k < j && delModules[k] == x
        invariant forall n :: n in modules ==> n in snapshot && modules[n] == snapshot[n]
        invariant forall n :: n in snapshot ==>
          (n in modules <==> n in used || Protected(n, snapshot[n], purgeLib, firstPass) || n !in visited)
      {
        var name := delModules[j];
        if !(firstPass && HasPrefix(name, ABSTRACT_PREFIX)) && !(!purgeLib && IsBlackbox(snapshot[name])) {
          modules := modules - {name};
        }
        visited := visited + {name};
        j := j + 1;
      }
      assert forall n :: n in snapshot && n !in used ==> n in visited by {
        forall n | n in snapshot && n !in used
          ensures n in visited
        {
          var k :| 0 <= k < |delModules| && delModules[k] == n;
        }
      }
    }

    /** `expand_module` (hierarchy.cc:134-242) on module `name`: its cells are
        resolved, then its array cells sliced; the result is `did_something`.
        After an error the model keeps the old design; the source has by then
        changed some cells, but the pass stops there. */
    method ExpandModule(name: Id, flagCheck: bool, libdirs: seq<string>, env: Env) returns (r: Result<bool, Error>)
      requires name in modules
      modifies this
      ensures var x := Expand.Expand(old(modules), name, flagCheck, libdirs, env);
        && (r.Ok? <==> x.Ok?)
        && (r.Ok? ==> modules == x.value.0 && r.value == x.value.1)
        && (r.Err? ==> r.error == x.error && modules == old(modules))
    {
      var x := ExpandOne(modules, name, flagCheck, libdirs, env);
      if x.Err? {
        return Err(x.error);
      }
      modules := x.value.0;
      r := Ok(x.value.1);
    }

    /** One sweep of hierarchy.cc:447-457: every module the design has when the
        sweep starts is expanded, in name order, unless it has vanished. */
    method Sweep(flagCheck: bool, libdirs: seq<string>, env: Env) returns (r: Result<bool, Error>)
      modifies this
      ensures var x := SweepOnce(old(modules), flagCheck, libdirs, env);
        && (r.Ok? <==> x.Ok?)
        && (r.Ok? ==> modules == x.value.0 && r.value == x.value.1)
        && (r.Err? ==> r.error == x.error)
    {
      ghost var mods0 := modules;
      var modnames := Ascending(modules.Keys);
      var did := false;
      var i := 0;
      while i < |modnames|
        invariant 0 <= i <= |modnames|
        invariant SweepModules(mods0, modnames, flagCheck, libdirs, env, false)
          == SweepModules(modules, modnames[i..], flagCheck, libdirs, env, did)
      {
        ghost var before := modules;
        SweepUnfold(before, modnames, i, flagCheck, libdirs, env, did);
        if modnames[i] in modules {
          var x := ExpandModule(modnames[i], flagCheck, libdirs, env);
          if x.Err? {
            assert SweepModules(before, modnames[i..], flagCheck, libdirs, env, did) == Err(x.error);
            return Err(x.error);
          }
          did := did || x.value;
        }
        i := i + 1;
      }
      assert modnames[i..] == [];
      r := Ok(did);
    }

    /** The loop of hierarchy.cc:444-460: sweeps while one did something, at
        most `fuel` of them; the result is `did_something_once`. */
    method Sweeps(flagCheck: bool, libdirs: seq<string>, env: Env, fuel: nat) returns (r: Result<bool, Error>)
      modifies this
      ensures var x := FixedPoint(old(modules), flagCheck, libdirs, env, fuel, false);
        && (r.Ok? <==> x.Ok?)
        && (r.Ok? ==> modules == x.value.0 && r.value == x.value.1)
        && (r.Err? ==> r.error == x.error)
    {
      ghost var mods0 := modules;
      var didSomething := true;
      var once := false;
      var left: nat := fuel;
      while didSomething
        invariant didSomething ==>
          FixedPoint(mods0, flagCheck, libdirs, env, fuel, false) == FixedPoint(modules, flagCheck, libdirs, env, left, once)
        invariant !didSomething ==> FixedPoint(mods0, flagCheck, libdirs, env, fuel, false) == Ok((modules, once))
        decreases left, didSomething
      {
        if left == 0 {
          return Err(SweepLimit);
        }
        ghost var before := modules;
        var x := Sweep(flagCheck, libdirs, env);
        FixedPointStep(before, flagCheck, libdirs, env, left, once, SweepOnce(before, flagCheck, libdirs, env));
        if x.Err? {
          return Err(x.error);
        }
        didSomething := x.value;
        if didSomething {
          once := true;
        }
        left := Pred(left);
      }
      r := Ok(once);
    }

    /** hierarchy.cc:436-439. */
    method FindTop() returns (top: Option<Id>)
      ensures top == TopOf(modules)
    {
      var names := Ascending(modules.Keys);
      ghost var at: nat := 0;
      top := None;
      var i := 0;
      while i < |names|
        invariant 0 <= i <= |names|
        invariant top.None? ==> forall j :: 0 <= j < i ==> TOP !in modules[names[j]].attributes
        invariant top.Some? ==> (at < i && top.value == names[at] && TOP in modules[names[at]].attributes
          && forall j :: at < j < i ==> TOP !in modules[names[j]].attributes)
      {
        if TOP in modules[names[i]].attributes {
          top, at := Some(names[i]), i;
        }
        i := i + 1;
      }
      AscendingSorted(modules.Keys);
      TopIsLast(modules, names, top, at);
    }

    /** hierarchy.cc:467-473: `\top` on the top module and on no other. */
    method SetTop(top: Id)
      modifies this
      ensures modules == Retopped(old(modules), top)
    {
      var mods := modules;
      ghost var mods0 := modules;
      var names := Ascending(mods.Keys);
      ghost var done: set<Id> := {};
      var i := 0;
      while i < |names|
        invariant 0 <= i <= |names|
        invariant forall k :: 0 <= k < i ==> names[k] in done
        invariant mods == PartlyRetopped(mods0, done, top)
      {
        var n := names[i];
        RetopStep(mods0, done, top, n, mods);
        SeenStep(names, done, i);
        mods := mods[n := Marked(mods[n], n == top)];
        done := done + {n};
        i := i + 1;
      }
      RetoppedAll(mods0, names, done, top);
      modules := mods;
    }

    /** `generate` (hierarchy.cc:36-132): a black box for every cell type the
        patterns select, in name order, stopping at the first type whose ports
        cannot be laid out. */
    method Generate(patterns: seq<string>, decls: seq<PortDecl>, env: Env) returns (r: Result<(), Error>)
      modifies this
      ensures GenerateResult(old(modules), modules, r, patterns, decls, env)
    {
      var mods0 := modules;
      var found := FindCellTypes(mods0, patterns, env);
      var types := Ascending(found);
      AscendingSorted(found);
      FoundAbsent(mods0, patterns, env, found, types);
      ghost var at;
      modules, r, at := GenerateLoop(mods0, types, decls, env);
      GenerateConcludes(mods0, patterns, env, found, types, modules, r, at, decls);
    }

    /** `HierarchyPass::execute` after its options have been read
        (hierarchy.cc:434-521): `topArg` is the module `-top` named, which
        option scanning has checked is in the design. */
    method Run(topArg: Option<Id>, flagCheck: bool, purgeLib: bool, keepPositionals: bool,
               libdirs: seq<string>, env: Env, fuel: nat) returns (r: Result<(), Error>)
      requires topArg.Some? ==> topArg.value in modules
      modifies this
      ensures var x := Pass(old(modules), topArg, flagCheck, purgeLib, keepPositionals, libdirs, env, fuel);
        && (r.Ok? <==> x.Ok?)
        && (r.Ok? ==> modules == x.value)
        && (r.Err? ==> r.error == x.error)
    {
      ghost var mods0 := modules;
      var top := topArg;
      if top.None? {
        top := FindTop();
      }
      assert top == ChosenTop(mods0, topArg);
      if top.Some? {
        Hierarchy(top.value, purgeLib, true);
      }
      assert modules == FirstPass(mods0, top, purgeLib);
      var once := Sweeps(flagCheck, libdirs, env, fuel);
      if once.Err? {
        return Err(once.error);
      }
      TopSurvives(mods0, topArg, flagCheck, purgeLib, libdirs, env, fuel);
      if top.Some? && once.value {
        Hierarchy(top.value, purgeLib, false);
      }
      if top.Some? {
        SetTop(top.value);
      }
      if !keepPositionals {
        RemapPositionals();
      }
      r := Ok(());
    }

    /** `hierarchy -generate` (hierarchy.cc:360-393, 429-432): the arguments
        after `-generate` are split into port declarations and cell-type
        patterns, and `generate` runs on them. */
    method GenerateMode(args: seq<string>, env: Env) returns (r: Result<(), Error>)
      modifies this
      ensures GenerateResult(old(modules), modules, r, CellTypePatterns(args, env.unescape), Declarations(args), env)
    {
      var cells, ports := ParseGenerateArgs(args, env.unescape);
      r := Generate(cells, ports, env);
    }

    /** hierarchy.cc:475-521: the positional connections of every cell whose
        type is a module of the design are renamed to that module's ports. */
    method RemapPositionals()
      modifies this
      ensures modules == RemappedDesign(old(modules))
    {
      var mods0 := modules;
      var work, posMods := PositionalWork(mods0);
      var posMap := PositionMaps(mods0, posMods);
      var mods := mods0;
      ghost var done: set<(Id, Id)> := {};
      RemapWorkNone(mods0);
      var i := 0;
      while i < |work|
        invariant 0 <= i <= |work|
        invariant forall k :: 0 <= k < i ==> work[k] in done
        invariant mods == PartlyRemapped(mods0, done)
      {
        var (n, c) := work[i];
        var cell := mods0[n].cells[c];
        var conns := RemapConnections(cell.connections, posMap[cell.ctype]);
        RemapWorkStep(mods0, done, n, c, mods, cell.(connections := conns));
        SeenStep(work, done, i);
        mods := mods[n := mods[n].(cells := mods[n].cells[c := cell.(connections := conns)])];
        done := done + {(n, c)};
        i := i + 1;
      }
      forall n, c | Positional(mods0, n, c)
        ensures (n, c) in done
      {
        var k :| 0 <= k < |work| && work[k] == (n, c);
      }
      RemapWorkDone(mods0, done);
      modules := mods;
    }
  }

  /** The loop of hierarchy.cc:51-131 over `types`, in order. The modules it
      creates have no cells, so the instances of each type are those of the
      design as it was; `at` is the type whose ports could not be laid out. */
  method GenerateLoop(mods0: map<Id, Module>, types: seq<Id>, decls: seq<PortDecl>, env: Env)
      returns (mods: map<Id, Module>, r: Result<(), Error>, ghost at: nat)
    requires forall a, b :: 0 <= a < b < |types| ==> Less(types[a], types[b])
    requires forall k :: 0 <= k < |types| ==> types[k] !in mods0
    ensures forall n :: n in mods0 ==> n in mods && mods[n] == mods0[n]
    ensures forall n :: n in mods && n !in mods0 ==>
      n in types && GenerateOutcome(Ok(mods[n]), Instances(mods0, n), decls, env)
    ensures r.Ok? ==> forall k :: 0 <= k < |types| ==> types[k] in mods
    ensures r.Err? ==> (at < |types| && types[at] !in mods
      && GenerateFails(r.error, ObservedNames(Instances(mods0, types[at])), decls, env)
      && forall k :: 0 <= k < at ==> types[k] in mods)
  {
    mods := mods0;
    var i := 0;
    while i < |types|
      invariant 0 <= i <= |types|
      invariant forall n :: n in mods0 ==> n in mods && mods[n] == mods0[n]
      invariant forall n :: n in mods && n !in mods0 ==>
        n in types && GenerateOutcome(Ok(mods[n]), Instances(mods0, n), decls, env)
      invariant forall k :: 0 <= k < i ==> types[k] in mods
      invariant forall k :: i <= k < |types| ==> types[k] !in mods
    {
      var t := types[i];
      var m := GenerateModule(Instances(mods0, t), decls, env);
      if m.Err? {
        return mods, Err(m.error), i;
      }
      forall k | i < k < |types|
        ensures types[k] != t
      {
        AscendingOrder(types, i, k);
      }
      mods := mods[t := m.value];
      i := i + 1;
    }
    r, at := Ok(()), 0;
  }

  /** A cell type the patterns select and the design instantiates. */
  predicate Selected(t: Id, mods: map<Id, Module>, patterns: seq<string>, env: Env)
  {
    Wanted(t, mods, patterns, env) && Instances(mods, t) != {}
  }

  /** What `generate` promises, from the modules `mods0` to `mods`: the old
      modules are kept; each new one is the black box hierarchy.cc:51-131
      builds for a selected type; on success every selected type has one; on
      an error, some selected type fails for the reason reported, has no
      module, and every selected type before it in name order has one. */
  ghost predicate GenerateResult(mods0: map<Id, Module>, mods: map<Id, Module>, r: Result<(), Error>,
                                 patterns: seq<string>, decls: seq<PortDecl>, env: Env)
  {
    && (forall n :: n in mods0 ==> n in mods && mods[n] == mods0[n])
    && (forall n :: n in mods && n !in mods0 ==>
          Selected(n, mods0, patterns, env) && GenerateOutcome(Ok(mods[n]), Instances(mods0, n), decls, env))
    && (r.Ok? ==> forall t :: Selected(t, mods0, patterns, env) ==> t in mods)
    && (r.Err? ==> exists t :: (Selected(t, mods0, patterns, env) && t !in mods
          && GenerateFails(r.error, ObservedNames(Instances(mods0, t)), decls, env)
          && forall u :: Selected(u, mods0, patterns, env) && Less(u, t) ==> u in mods))
  }

  lemma FoundAbsent(mods0: map<Id, Module>, patterns: seq<string>, env: Env, found: set<Id>, types: seq<Id>)
    requires forall t :: t in found <==> Wanted(t, mods0, patterns, env) && Instances(mods0, t) != {}
    requires forall x :: x in types <==> x in found
    ensures forall k :: 0 <= k < |types| ==> types[k] !in mods0
  {
    forall k | 0 <= k < |types|
      ensures types[k] !in mods0
    {
      assert types[k] in found;
    }
  }

  lemma GenerateConcludes(mods0: map<Id, Module>, patterns: seq<string>, env: Env, found: set<Id>, types: seq<Id>,
                          mods: map<Id, Module>, r: Result<(), Error>, at: nat, decls: seq<PortDecl>)
    requires forall t :: t in found <==> Wanted(t, mods0, patterns, env) && Instances(mods0, t) != {}
    requires forall x :: x in types <==> x in found
    requires forall a, b :: 0 <= a < b < |types| ==> Less(types[a], types[b])
    requires forall n :: n in mods0 ==> n in mods && mods[n] == mods0[n]
    requires forall n :: n in mods && n !in mods0 ==>
      n in types && GenerateOutcome(Ok(mods[n]), Instances(mods0, n), decls, env)
    requires r.Ok? ==> forall k :: 0 <= k < |types| ==> types[k] in mods
    requires r.Err? ==> (at < |types| && types[at] !in mods
      && GenerateFails(r.error, ObservedNames(Instances(mods0, types[at])), decls, env)
      && forall k :: 0 <= k < at ==> types[k] in mods)
    ensures GenerateResult(mods0, mods, r, patterns, decls, env)
  {
    forall n | n in mods && n !in mods0
      ensures Selected(n, mods0, patterns, env)
    {
      assert n in found;
    }
    if r.Ok? {
      forall t | Selected(t, mods0, patterns, env)
        ensures t in mods
      {
        assert t in found;
        var j :| 0 <= j < |types| && types[j] == t;
      }
    } else {
      var t := types[at];
      FirstFailure(types, found, at, mods);
      assert Selected(t, mods0, patterns, env) by {
        assert t in found;
      }
      forall u | Selected(u, mods0, patterns, env) && Less(u, t)
        ensures u in mods
      {
        assert u in found;
      }
      assert Selected(t, mods0, patterns, env) && t !in mods
        && GenerateFails(r.error, ObservedNames(Instances(mods0, t)), decls, env)
        && forall u :: Selected(u, mods0, patterns, env) && Less(u, t) ==> u in mods;
    }
  }

  /** The types before the one that failed were all generated. */
  lemma FirstFailure(types: seq<Id>, found: set<Id>, at: nat, mods: map<Id, Module>)
    requires forall x :: x in types <==> x in found
    requires forall a, b :: 0 <= a < b < |types| ==> Less(types[a], types[b])
    requires at < |types| && forall k :: 0 <= k < at ==> types[k] in mods
    ensures forall u :: u in found && Less(u, types[at]) ==> u in mods
  {
    forall u | u in found && Less(u, types[at])
      ensures u in mods
    {
      var j :| 0 <= j < |types| && types[j] == u;
      AscendingOrder(types, j, at);
    }
  }

  /** hierarchy.cc:441-442: the first `hierarchy` call, when there is a top module. */
  ghost function FirstPass(mods: map<Id, Module>, top: Option<Id>, purgeLib: bool): map<Id, Module>
  {
    if top.Some? then Pruned(mods, Reachable(mods, top.value), purgeLib, true) else mods
  }

  /** hierarchy.cc:462-465: the second `hierarchy` call, when a sweep did something. */
  ghost function SecondPass(mods: map<Id, Module>, top: Option<Id>, once: bool, purgeLib: bool): map<Id, Module>
  {
    if top.Some? && once then Pruned(mods, Reachable(mods, top.value), purgeLib, false) else mods
  }

  /** hierarchy.cc:467-521: the top attribute, then the positional remap. */
  function LastSteps(mods: map<Id, Module>, top: Option<Id>, keepPositionals: bool): map<Id, Module>
  {
    var m := if top.Some? then Retopped(mods, top.value) else mods;
    if keepPositionals then m else RemappedDesign(m)
  }

  /** The top module: the one `-top` names, otherwise the last one with `\top`. */
  function ChosenTop(mods: map<Id, Module>, topArg: Option<Id>): Option<Id>
  {
    if topArg.Some? then topArg else TopOf(mods)
  }

  /** The pass after its options have been read (hierarchy.cc:434-521), when
      not in `-generate` mode. */
  ghost function Pass(mods: map<Id, Module>, topArg: Option<Id>, flagCheck: bool, purgeLib: bool,
                      keepPositionals: bool, libdirs: seq<string>, env: Env, fuel: nat): Result<map<Id, Module>, Error>
  {
    var top := ChosenTop(mods, topArg);
    match FixedPoint(FirstPass(mods, top, purgeLib), flagCheck, libdirs, env, fuel, false)
    case Err(e) => Err(e)
    case Ok(x) => Ok(LastSteps(SecondPass(x.0, top, x.1, purgeLib), top, keepPositionals))
  }

  /** The chosen top module survives both `hierarchy` calls and the sweeps. */
  lemma TopSurvives(mods: map<Id, Module>, topArg: Option<Id>, flagCheck: bool, purgeLib: bool,
                    libdirs: seq<string>, env: Env, fuel: nat)
    requires topArg.Some? ==> topArg.value in mods
    requires FixedPoint(FirstPass(mods, ChosenTop(mods, topArg), purgeLib), flagCheck, libdirs, env, fuel, false).Ok?
    ensures var top := ChosenTop(mods, topArg);
      var x := FixedPoint(FirstPass(mods, top, purgeLib), flagCheck, libdirs, env, fuel, false).value;
      top.Some? ==> top.value in x.0 && top.value in SecondPass(x.0, top, x.1, purgeLib)
  {
    var top := ChosenTop(mods, topArg);
    if top.Some? {
      var t := top.value;
      PruneKeepsTop(mods, t, purgeLib, true);
      var m1 := FirstPass(mods, top, purgeLib);
      FixedPointGrows(m1, flagCheck, libdirs, env, fuel, false);
      var x := FixedPoint(m1, flagCheck, libdirs, env, fuel, false).value;
      PruneKeepsTop(x.0, t, purgeLib, false);
    }
  }

  /** With a top module, exactly it carries `\top` once the pass is done;
      without one, no attribute changes are made by the pass's last steps. */
  lemma PassMarksTop(mods: map<Id, Module>, topArg: Option<Id>, flagCheck: bool, purgeLib: bool,
                     keepPositionals: bool, libdirs: seq<string>, env: Env, fuel: nat)
    requires topArg.Some? ==> topArg.value in mods
    requires Pass(mods, topArg, flagCheck, purgeLib, keepPositionals, libdirs, env, fuel).Ok?
    ensures var r := Pass(mods, topArg, flagCheck, purgeLib, keepPositionals, libdirs, env, fuel).value;
      var top := ChosenTop(mods, topArg);
      top.Some? ==> top.value in r && forall n :: n in r ==> (TOP in r[n].attributes <==> n == top.value)
  {
    var top := ChosenTop(mods, topArg);
    if top.Some? {
      TopSurvives(mods, topArg, flagCheck, purgeLib, libdirs, env, fuel);
      var x := FixedPoint(FirstPass(mods, top, purgeLib), flagCheck, libdirs, env, fuel, false).value;
      var m3 := SecondPass(x.0, top, x.1, purgeLib);
      RetoppedOnlyTop(m3, top.value);
      RemappedDesignKeeps(Retopped(m3, top.value));
    }
  }

  /** `Retopped` on the modules of `done`, the rest as they were. */
  function PartlyRetopped(mods: map<Id, Module>, done: set<Id>, top: Id): map<Id, Module>
  {
    map n | n in mods :: if n in done then Marked(mods[n], n == top) else mods[n]
  }

  lemma RetopStep(mods: map<Id, Module>, done: set<Id>, top: Id, n: Id, p: map<Id, Module>)
    requires n in mods && p == PartlyRetopped(mods, done, top)
    ensures n in p
    ensures PartlyRetopped(mods, done + {n}, top) == p[n := Marked(p[n], n == top)]
  {
    var m := mods[n];
    assert Marked(Marked(m, n == top), n == top) == Marked(m, n == top) by {
      if n == top {
        assert m.attributes + {TOP} + {TOP} == m.attributes + {TOP};
      } else {
        assert m.attributes - {TOP} - {TOP} == m.attributes - {TOP};
      }
    }
  }

  lemma RetoppedAll(mods: map<Id, Module>, names: seq<Id>, done: set<Id>, top: Id)
    requires forall x :: x in names <==> x in mods
    requires forall k :: 0 <= k < |names| ==> names[k] in done
    ensures PartlyRetopped(mods, done, top) == Retopped(mods, top)
  {
    forall n | n in mods
      ensures n in done
    {
      var k :| 0 <= k < |names| && names[k] == n;
    }
  }

  /** The deletion loop's outcome is `Pruned`. */
  lemma PrunedIs(mods: map<Id, Module>, used: set<Id>, purgeLib: bool, firstPass: bool, r: map<Id, Module>)
    requires forall n :: n in r ==> n in mods && r[n] == mods[n]
    requires forall n :: n in mods ==> (n in r <==> n in used || Protected(n, mods[n], purgeLib, firstPass))
    ensures r == Pruned(mods, used, purgeLib, firstPass)
  {
  }

  /** The last module in name order with `\top` is the one `TopOf` picks. */
  lemma TopIsLast(mods: map<Id, Module>, names: seq<Id>, top: Option<Id>, at: nat)
    requires forall x :: x in names <==> x in mods
    requires forall a, b :: 0 <= a < b < |names| ==> Less(names[a], names[b])
    requires top.None? ==> forall j :: 0 <= j < |names| ==> TOP !in mods[names[j]].attributes
    requires top.Some? ==> (at < |names| && top.value == names[at] && TOP in mods[names[at]].attributes
      && forall j :: at < j < |names| ==> TOP !in mods[names[j]].attributes)
    ensures top == TopOf(mods)
  {
    if top.Some? {
      var s := TopMarked(mods);
      forall x | x in s && x != names[at]
        ensures Less(x, names[at])
      {
        var j :| 0 <= j < |names| && names[j] == x;
        AscendingOrder(names, j, at);
      }
      assert IsGreatest(names[at], s);
      ExtremesUnique(s);
    } else {
      forall n | n in mods
        ensures TOP !in mods[n].attributes
      {
        var j :| 0 <= j < |names| && names[j] == n;
      }
    }
  }
}
