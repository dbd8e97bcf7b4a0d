/** `expand_module` for one module (hierarchy.cc:134-242) and one sweep of
    the fixed-point loop over the design (hierarchy.cc:444-460), as
    functions of the design they start from. */
module Expand {
  import opened Wrappers
  import opened CStrings
  import opened Rtlil
  import opened ArrayCells
  import opened Resolve

  /** The design with cell `cn` of module `name` replaced by `c`. */
  function WithCell(mods: map<Id, Module>, name: Id, cn: Id, c: Cell): map<Id, Module>
    requires name in mods
  {
    mods[name := mods[name].(cells := mods[name].cells[cn := c])]
  }

  /** hierarchy.cc:144-151: an array cell's type loses its `$array:<idx>:<num>:` prefix. */
  function Stripped(c: Cell): Cell
  {
    if IsArrayType(c.ctype) then c.(ctype := ParseArrayType(c.ctype).base) else c
  }

  /** `array_cells`: the array cells of a module, with what their types record. */
  function ArrayCellsOf(m: Module): map<Id, ArrayType>
  {
    map cn | cn in m.cells && IsArrayType(m.cells[cn].ctype) :: ParseArrayType(m.cells[cn].ctype)
  }

  /** `b` is `a` with modules added, and with cells of module `name` changed
      but none added or removed. */
  predicate Extends(a: map<Id, Module>, b: map<Id, Module>, name: Id)
  {
    && name in a && name in b && a.Keys <= b.Keys
    && (forall n :: n in a && n != name ==> b[n] == a[n])
    && b[name].cells.Keys == a[name].cells.Keys
    && b[name].wires == a[name].wires && b[name].attributes == a[name].attributes
  }

  /** The first loop of `expand_module` (hierarchy.cc:140-207) over the cells
      in `order`; `did` is `did_something` so far. */
  function ResolveCells(mods: map<Id, Module>, name: Id, order: seq<Id>, flagCheck: bool, libdirs: seq<string>,
                        env: Env, did: bool): Result<(map<Id, Module>, bool), Error>
    requires name in mods && forall j :: 0 <= j < |order| ==> order[j] in mods[name].cells
    decreases |order|
  {
    if order == [] then Ok((mods, did))
    else
      var cn := order[0];
      match ResolveCell(mods, name, cn, Stripped(mods[name].cells[cn]), flagCheck, libdirs, env)
      case Err(e) => Err(e)
      case Ok(s) =>
        ResolveCells(WithCell(s.mods, name, cn, s.cell), name, order[1..], flagCheck, libdirs, env, did || s.did)
  }

  /** The first loop only adds modules and changes the cells it visits. */
  lemma {:induction false} ResolveCellsExtends(mods: map<Id, Module>, name: Id, order: seq<Id>, flagCheck: bool,
                                               libdirs: seq<string>, env: Env, did: bool)
    requires name in mods && forall j :: 0 <= j < |order| ==> order[j] in mods[name].cells
    requires ResolveCells(mods, name, order, flagCheck, libdirs, env, did).Ok?
    ensures var r := ResolveCells(mods, name, order, flagCheck, libdirs, env, did).value.0;
      && Extends(mods, r, name)
      && (forall cn :: cn in mods[name].cells && cn !in order ==> r[name].cells[cn] == mods[name].cells[cn])
      && (did ==> ResolveCells(mods, name, order, flagCheck, libdirs, env, did).value.1)
    decreases |order|
  {
    if order != [] {
      var cn := order[0];
      var s := ResolveCell(mods, name, cn, Stripped(mods[name].cells[cn]), flagCheck, libdirs, env).value;
      var next := WithCell(s.mods, name, cn, s.cell);
      ResolveCellsExtends(next, name, order[1..], flagCheck, libdirs, env, did || s.did);
      forall x | x in order[1..]
        ensures x in order
      {
      }
    }
  }

  /** Nothing was done and no cell was an array cell: the design is as it was. */
  lemma {:induction false} ResolveCellsIdle(mods: map<Id, Module>, name: Id, order: seq<Id>, flagCheck: bool,
                                            libdirs: seq<string>, env: Env, did: bool)
    requires name in mods && forall j :: 0 <= j < |order| ==> order[j] in mods[name].cells
    requires forall j :: 0 <= j < |order| ==> !IsArrayType(mods[name].cells[order[j]].ctype)
    requires ResolveCells(mods, name, order, flagCheck, libdirs, env, did).Ok?
    requires !ResolveCells(mods, name, order, flagCheck, libdirs, env, did).value.1
    ensures ResolveCells(mods, name, order, flagCheck, libdirs, env, did).value.0 == mods
    decreases |order|
  {
    if order != [] {
      var cn := order[0];
      var c := mods[name].cells[cn];
      assert Stripped(c) == c;
      var s := ResolveCell(mods, name, cn, c, flagCheck, libdirs, env).value;
      ResolveCellsExtends(WithCell(s.mods, name, cn, s.cell), name, order[1..], flagCheck, libdirs, env, did || s.did);
      ResolveIdle(mods, name, cn, c, flagCheck, libdirs, env);
      assert mods[name].cells[cn := c] == mods[name].cells;
      assert WithCell(mods, name, cn, c) == mods;
      ResolveCellsIdle(mods, name, order[1..], flagCheck, libdirs, env, did);
    }
  }

  /** A cell type is known when it names a module of the design or is internal. */
  predicate Known(mods: map<Id, Module>, c: Cell)
  {
    c.ctype in mods || StartsWithDollar(c.ctype)
  }

  /** Under `-check` every cell the first loop visits ends with a known type. */
  lemma {:induction false} ResolveCellsKnown(mods: map<Id, Module>, name: Id, order: seq<Id>,
                                             libdirs: seq<string>, env: Env, did: bool)
    requires name in mods && forall j :: 0 <= j < |order| ==> order[j] in mods[name].cells
    requires forall i, j :: 0 <= i < j < |order| ==> order[i] != order[j]
    requires ResolveCells(mods, name, order, true, libdirs, env, did).Ok?
    ensures var r := ResolveCells(mods, name, order, true, libdirs, env, did).value.0;
      forall j :: 0 <= j < |order| ==> name in r && order[j] in r[name].cells && Known(r, r[name].cells[order[j]])
    decreases |order|
  {
    if order != [] {
      var cn := order[0];
      var c := Stripped(mods[name].cells[cn]);
      ResolvedConcrete(mods, name, cn, c, true, libdirs, env);
      var s := ResolveCell(mods, name, cn, c, true, libdirs, env).value;
      var next := WithCell(s.mods, name, cn, s.cell);
      ResolveCellsKnown(next, name, order[1..], libdirs, env, did || s.did);
      ResolveCellsExtends(next, name, order[1..], true, libdirs, env, did || s.did);
      var r := ResolveCells(mods, name, order, true, libdirs, env, did).value.0;
      assert cn !in order[1..] by {
        forall j | 0 <= j < |order[1..]|
          ensures order[1..][j] != cn
        {
          assert order[1..][j] == order[j + 1];
        }
      }
      assert r[name].cells[cn] == s.cell;
      forall j | 0 <= j < |order|
        ensures name in r && order[j] in r[name].cells && Known(r, r[name].cells[order[j]])
      {
        if j > 0 {
          assert order[j] == order[1..][j - 1];
        }
      }
    }
  }

  /** The second loop of `expand_module` (hierarchy.cc:209-239) over the array
      cells in `order`. */
  function SliceCells(mods: map<Id, Module>, name: Id, order: seq<Id>, arrays: map<Id, ArrayType>)
    : Result<map<Id, Module>, Error>
    requires name in mods && forall j :: 0 <= j < |order| ==> order[j] in mods[name].cells && order[j] in arrays
    decreases |order|
  {
    if order == [] then Ok(mods)
    else
      var cn := order[0];
      var c := mods[name].cells[cn];
      if c.ctype !in mods then Err(ArrayUnknownType(name, cn, c.ctype))
      else match Sliced(name, cn, c, mods[c.ctype], arrays[cn])
        case Err(e) => Err(e)
        case Ok(c') => SliceCells(WithCell(mods, name, cn, c'), name, order[1..], arrays)
  }

  /** Slicing adds no module and changes only connections of cells of `name`. */
  lemma {:induction false} SliceCellsExtends(mods: map<Id, Module>, name: Id, order: seq<Id>, arrays: map<Id, ArrayType>)
    requires name in mods && forall j :: 0 <= j < |order| ==> order[j] in mods[name].cells && order[j] in arrays
    requires SliceCells(mods, name, order, arrays).Ok?
    ensures var r := SliceCells(mods, name, order, arrays).value;
      && Extends(mods, r, name) && r.Keys == mods.Keys
      && forall cn :: cn in mods[name].cells ==>
           r[name].cells[cn] == mods[name].cells[cn].(connections := r[name].cells[cn].connections)
    decreases |order|
  {
    if order != [] {
      var cn := order[0];
      var c := mods[name].cells[cn];
      var c' := Sliced(name, cn, c, mods[c.ctype], arrays[cn]).value;
      SliceCellsExtends(WithCell(mods, name, cn, c'), name, order[1..], arrays);
    }
  }

  /** The second loop of `expand_module`, over the array cells in key order. */
  function SliceArrays(mods: map<Id, Module>, name: Id, arrays: map<Id, ArrayType>): Result<map<Id, Module>, Error>
    requires name in mods && arrays.Keys <= mods[name].cells.Keys
  {
    SliceCells(mods, name, Ascending(arrays.Keys), arrays)
  }

  /** `expand_module`: the design it leaves and its `did_something`. */
  function Expand(mods: map<Id, Module>, name: Id, flagCheck: bool, libdirs: seq<string>, env: Env)
    : Result<(map<Id, Module>, bool), Error>
    requires name in mods
  {
    var cells := Ascending(mods[name].cells.Keys);
    match ResolveCells(mods, name, cells, flagCheck, libdirs, env, false)
    case Err(e) => Err(e)
    case Ok(x) =>
      ResolveCellsExtends(mods, name, cells, flagCheck, libdirs, env, false);
      match SliceArrays(x.0, name, ArrayCellsOf(mods[name]))
      case Err(e) => Err(e)
      case Ok(m) => Ok((m, x.1))
  }

  lemma SliceArraysExtends(mods: map<Id, Module>, name: Id, arrays: map<Id, ArrayType>)
    requires name in mods && arrays.Keys <= mods[name].cells.Keys
    requires SliceArrays(mods, name, arrays).Ok?
    ensures var r := SliceArrays(mods, name, arrays).value;
      && Extends(mods, r, name) && r.Keys == mods.Keys
      && forall cn :: cn in mods[name].cells ==>
           r[name].cells[cn] == mods[name].cells[cn].(connections := r[name].cells[cn].connections)
  {
    SliceCellsExtends(mods, name, Ascending(arrays.Keys), arrays);
  }

  lemma ExtendsTransitive(a: map<Id, Module>, b: map<Id, Module>, c: map<Id, Module>, name: Id)
    requires Extends(a, b, name) && Extends(b, c, name)
    ensures Extends(a, c, name)
  {
  }

  /** `expand_module` adds modules, changes cells of the expanded module only,
      and adds or removes none. */
  lemma ExpandExtends(mods: map<Id, Module>, name: Id, flagCheck: bool, libdirs: seq<string>, env: Env)
    requires name in mods && Expand(mods, name, flagCheck, libdirs, env).Ok?
    ensures Extends(mods, Expand(mods, name, flagCheck, libdirs, env).value.0, name)
  {
    var cells := Ascending(mods[name].cells.Keys);
    ResolveCellsExtends(mods, name, cells, flagCheck, libdirs, env, false);
    var x := ResolveCells(mods, name, cells, flagCheck, libdirs, env, false).value;
    SliceArraysExtends(x.0, name, ArrayCellsOf(mods[name]));
    ExtendsTransitive(mods, x.0, SliceArrays(x.0, name, ArrayCellsOf(mods[name])).value, name);
  }

  /** Without array cells, a module for which nothing was done is left as it was. */
  lemma ExpandIdle(mods: map<Id, Module>, name: Id, flagCheck: bool, libdirs: seq<string>, env: Env)
    requires name in mods && ArrayCellsOf(mods[name]) == map[]
    requires Expand(mods, name, flagCheck, libdirs, env).Ok? && !Expand(mods, name, flagCheck, libdirs, env).value.1
    ensures Expand(mods, name, flagCheck, libdirs, env).value.0 == mods
  {
    var cells := Ascending(mods[name].cells.Keys);
    forall j | 0 <= j < |cells|
      ensures !IsArrayType(mods[name].cells[cells[j]].ctype)
    {
      assert cells[j] !in ArrayCellsOf(mods[name]);
    }
    ResolveCellsIdle(mods, name, cells, flagCheck, libdirs, env, false);
  }

  /** With `-check`, after `expand_module` every cell of the module has a type
      that names a module of the design or is internal. */
  lemma ExpandKnown(mods: map<Id, Module>, name: Id, libdirs: seq<string>, env: Env)
    requires name in mods && Expand(mods, name, true, libdirs, env).Ok?
    ensures var r := Expand(mods, name, true, libdirs, env).value.0;
      name in r && forall cn :: cn in r[name].cells ==> Known(r, r[name].cells[cn])
  {
    var cells := Ascending(mods[name].cells.Keys);
    AscendingSorted(mods[name].cells.Keys);
    AscendingDistinct(cells);
    ResolveCellsExtends(mods, name, cells, true, libdirs, env, false);
    ResolveCellsKnown(mods, name, cells, libdirs, env, false);
    var x := ResolveCells(mods, name, cells, true, libdirs, env, false).value;
    SliceArraysExtends(x.0, name, ArrayCellsOf(mods[name]));
    var r := SliceArrays(x.0, name, ArrayCellsOf(mods[name])).value;
    KnownAfterSlicing(x.0, r, name, cells);
  }

  lemma KnownAfterSlicing(x: map<Id, Module>, r: map<Id, Module>, name: Id, cells: seq<Id>)
    requires Extends(x, r, name) && r.Keys == x.Keys
    requires forall cn :: cn in x[name].cells ==> r[name].cells[cn] == x[name].cells[cn].(connections := r[name].cells[cn].connections)
    requires forall cn :: cn in x[name].cells <==> cn in cells
    requires forall j :: 0 <= j < |cells| ==> name in x && cells[j] in x[name].cells && Known(x, x[name].cells[cells[j]])
    ensures forall cn :: cn in r[name].cells ==> Known(r, r[name].cells[cn])
  {
    forall cn | cn in r[name].cells
      ensures Known(r, r[name].cells[cn])
    {
      var j :| 0 <= j < |cells| && cells[j] == cn;
      assert Known(x, x[name].cells[cells[j]]);
    }
  }

  /** One sweep over the snapshot `names` (hierarchy.cc:448-457): modules that
      have vanished are skipped. */
  function SweepModules(mods: map<Id, Module>, names: seq<Id>, flagCheck: bool, libdirs: seq<string>,
                        env: Env, did: bool): Result<(map<Id, Module>, bool), Error>
    decreases |names|
  {
    if names == [] then Ok((mods, did))
    else if names[0] !in mods then SweepModules(mods, names[1..], flagCheck, libdirs, env, did)
    else match Expand(mods, names[0], flagCheck, libdirs, env)
      case Err(e) => Err(e)
      case Ok(x) => SweepModules(x.0, names[1..], flagCheck, libdirs, env, did || x.1)
  }

  /** A sweep removes no module. */
  lemma {:induction false} SweepGrows(mods: map<Id, Module>, names: seq<Id>, flagCheck: bool, libdirs: seq<string>,
                                      env: Env, did: bool)
    requires SweepModules(mods, names, flagCheck, libdirs, env, did).Ok?
    ensures mods.Keys <= SweepModules(mods, names, flagCheck, libdirs, env, did).value.0.Keys
    decreases |names|
  {
    if names != [] {
      if names[0] !in mods {
        SweepGrows(mods, names[1..], flagCheck, libdirs, env, did);
      } else {
        ExpandExtends(mods, names[0], flagCheck, libdirs, env);
        var x := Expand(mods, names[0], flagCheck, libdirs, env).value;
        SweepGrows(x.0, names[1..], flagCheck, libdirs, env, did || x.1);
      }
    }
  }

  /** What the first loop has put in `array_cells` once it has seen the cells
      in `seen`, `all` being what it holds at the end. */
  ghost predicate ArraysSoFar(all: map<Id, ArrayType>, seen: set<Id>, arrays: map<Id, ArrayType>)
  {
    && (forall cn :: cn in arrays <==> cn in seen && cn in all)
    && (forall cn :: cn in arrays ==> cn in all && arrays[cn] == all[cn])
  }

  lemma ArraysSoFarStep(all: map<Id, ArrayType>, seen: set<Id>, arrays: map<Id, ArrayType>, cn: Id, a: Option<ArrayType>)
    requires ArraysSoFar(all, seen, arrays)
    requires a.Some? <==> cn in all
    requires a.Some? ==> a.value == all[cn]
    ensures ArraysSoFar(all, seen + {cn}, if a.Some? then arrays[cn := a.value] else arrays)
  {
  }

  /** Cell `cn` of `m` is in `array_cells` exactly when its type is an array type. */
  lemma ArrayCellsOfAt(m: Module, cn: Id)
    requires cn in m.cells
    ensures cn in ArrayCellsOf(m) <==> IsArrayType(m.cells[cn].ctype)
    ensures cn in ArrayCellsOf(m) ==> ArrayCellsOf(m)[cn] == ParseArrayType(m.cells[cn].ctype)
  {
  }

  lemma ArraysAll(all: map<Id, ArrayType>, cells: seq<Id>, seen: set<Id>, arrays: map<Id, ArrayType>)
    requires ArraysSoFar(all, seen, arrays)
    requires forall cn :: cn in all ==> cn in cells
    requires forall j :: 0 <= j < |cells| ==> cells[j] in seen
    ensures arrays == all
  {
    forall cn | cn in all
      ensures cn in seen
    {
      var j :| 0 <= j < |cells| && cells[j] == cn;
    }
  }

  /** After cell `cells[i]` is resolved the later cells are as they were. */
  lemma LaterCellsKept(mods0: map<Id, Module>, mods: map<Id, Module>, s: Resolved, name: Id, cells: seq<Id>, i: nat)
    requires name in mods0 && name in mods && i < |cells|
    requires forall a, b :: 0 <= a < b < |cells| ==> cells[a] != cells[b]
    requires forall j :: i <= j < |cells| ==>
      cells[j] in mods[name].cells && cells[j] in mods0[name].cells && mods[name].cells[cells[j]] == mods0[name].cells[cells[j]]
    requires name in s.mods && s.mods[name] == mods[name]
    ensures var next := WithCell(s.mods, name, cells[i], s.cell);
      name in next && forall j :: i + 1 <= j < |cells| ==>
        cells[j] in next[name].cells && cells[j] in mods0[name].cells && next[name].cells[cells[j]] == mods0[name].cells[cells[j]]
  {
  }

  /** The first loop of `expand_module` (hierarchy.cc:140-207), collecting
      `array_cells` on the way. */
  method ResolveAll(mods0: map<Id, Module>, name: Id, flagCheck: bool, libdirs: seq<string>, env: Env)
    returns (r: Result<(map<Id, Module>, bool), Error>, arrays: map<Id, ArrayType>)
    requires name in mods0
    ensures r == ResolveCells(mods0, name, Ascending(mods0[name].cells.Keys), flagCheck, libdirs, env, false)
    ensures r.Ok? ==> arrays == ArrayCellsOf(mods0[name])
  {
    var cells := Ascending(mods0[name].cells.Keys);
    AscendingSorted(mods0[name].cells.Keys);
    AscendingDistinct(cells);
    r, arrays := ResolveLoop(mods0, name, cells, flagCheck, libdirs, env);
  }

  method ResolveLoop(mods0: map<Id, Module>, name: Id, cells: seq<Id>, flagCheck: bool, libdirs: seq<string>, env: Env)
    returns (r: Result<(map<Id, Module>, bool), Error>, arrays: map<Id, ArrayType>)
    requires name in mods0 && forall cn :: cn in cells <==> cn in mods0[name].cells
    requires forall a, b :: 0 <= a < b < |cells| ==> cells[a] != cells[b]
    ensures r == ResolveCells(mods0, name, cells, flagCheck, libdirs, env, false)
    ensures r.Ok? ==> arrays == ArrayCellsOf(mods0[name])
  {
    var mods := mods0;
    var did := false;
    arrays := map[];
    ghost var seen: set<Id> := {};
    ghost var goal := ResolveCells(mods0, name, cells, flagCheck, libdirs, env, false);
    var i := 0;
    assert cells[0..] == cells;
    while i < |cells|
      invariant 0 <= i <= |cells|
      invariant name in mods
      invariant forall j :: i <= j < |cells| ==>
        cells[j] in mods[name].cells && cells[j] in mods0[name].cells && mods[name].cells[cells[j]] == mods0[name].cells[cells[j]]
      invariant goal == ResolveCells(mods, name, cells[i..], flagCheck, libdirs, env, did)
      invariant forall j :: 0 <= j < i ==> cells[j] in seen
      invariant ArraysSoFar(ArrayCellsOf(mods0[name]), seen, arrays)
    {
      var cn := cells[i];
      var s, a := ResolveStep(mods, name, cn, flagCheck, libdirs, env);
      var next := i + 1;
      ResolveCellsUnfold(mods, name, cells, i, next, flagCheck, libdirs, env, did, s);
      ArrayCellsOfAt(mods0[name], cn);
      ArraysSoFarStep(ArrayCellsOf(mods0[name]), seen, arrays, cn, a);
      SeenStep(cells, seen, i);
      if a.Some? {
        arrays := arrays[cn := a.value];
      }
      if s.Err? {
        return Err(s.error), arrays;
      }
      LaterCellsKept(mods0, mods, s.value, name, cells, i);
      mods := WithCell(s.value.mods, name, cn, s.value.cell);
      did := did || s.value.did;
      seen := seen + {cn};
      i := next;
    }
    ArraysAll(ArrayCellsOf(mods0[name]), cells, seen, arrays);
    r := Ok((mods, did));
  }

  /** One pass of the first loop's body (hierarchy.cc:142-205): the array
      prefix is parsed and dropped, then the cell is resolved. */
  method ResolveStep(mods: map<Id, Module>, name: Id, cn: Id, flagCheck: bool, libdirs: seq<string>, env: Env)
    returns (s: Result<Resolved, Error>, a: Option<ArrayType>)
    requires name in mods && cn in mods[name].cells
    ensures s == ResolveCell(mods, name, cn, Stripped(mods[name].cells[cn]), flagCheck, libdirs, env)
    ensures a.Some? <==> IsArrayType(mods[name].cells[cn].ctype)
    ensures a.Some? ==> a.value == ParseArrayType(mods[name].cells[cn].ctype)
  {
    var c := mods[name].cells[cn];
    a := None;
    if IsArrayType(c.ctype) {
      a := Some(ParseArrayType(c.ctype));
      c := c.(ctype := a.value.base);
    }
    s := ResolveOne(mods, name, cn, c, flagCheck, libdirs, env);
  }

  /** One step of `ResolveCells`, at position `i` of `cells`. */
  lemma ResolveCellsUnfold(mods: map<Id, Module>, name: Id, cells: seq<Id>, i: nat, next: nat, flagCheck: bool,
                           libdirs: seq<string>, env: Env, did: bool, s: Result<Resolved, Error>)
    requires name in mods && i < |cells| && next == i + 1
    requires forall j :: i <= j < |cells| ==> cells[j] in mods[name].cells
    requires s == ResolveCell(mods, name, cells[i], Stripped(mods[name].cells[cells[i]]), flagCheck, libdirs, env)
    ensures s.Err? ==> ResolveCells(mods, name, cells[i..], flagCheck, libdirs, env, did) == Err(s.error)
    ensures s.Ok? ==> (ResolveCells(mods, name, cells[i..], flagCheck, libdirs, env, did)
      == ResolveCells(WithCell(s.value.mods, name, cells[i], s.value.cell), name, cells[next..],
                      flagCheck, libdirs, env, did || s.value.did))
  {
    assert cells[i..][1..] == cells[next..];
  }

  /** The second loop of `expand_module` (hierarchy.cc:209-239). */
  method SliceAll(mods: map<Id, Module>, name: Id, arrays: map<Id, ArrayType>) returns (r: Result<map<Id, Module>, Error>)
    requires name in mods && arrays.Keys <= mods[name].cells.Keys
    ensures r == SliceArrays(mods, name, arrays)
  {
    var order := Ascending(arrays.Keys);
    var cur := mods;
    var k := 0;
    while k < |order|
      invariant 0 <= k <= |order|
      invariant name in cur && cur[name].cells.Keys == mods[name].cells.Keys
      invariant SliceCells(mods, name, order, arrays) == SliceCells(cur, name, order[k..], arrays)
    {
      assert order[k..][1..] == order[k + 1..];
      var cn := order[k];
      var c := cur[name].cells[cn];
      if c.ctype !in cur {
        return Err(ArrayUnknownType(name, cn, c.ctype));
      }
      var c' := SliceCell(name, cn, c, cur[c.ctype], arrays[cn]);
      SliceCellIsSliced(name, cn, c, cur[c.ctype], arrays[cn], c');
      if c'.Err? {
        return Err(c'.error);
      }
      cur := WithCell(cur, name, cn, c'.value);
      k := k + 1;
    }
    r := Ok(cur);
  }

  /** One sweep of hierarchy.cc:447-457 over the names the design has when it starts. */
  function SweepOnce(mods: map<Id, Module>, flagCheck: bool, libdirs: seq<string>, env: Env)
    : Result<(map<Id, Module>, bool), Error>
  {
    SweepModules(mods, Ascending(mods.Keys), flagCheck, libdirs, env, false)
  }

  /** One sweep fewer left. */
  function Pred(n: nat): nat
    requires n > 0
  {
    n - 1
  }

  /** The loop of hierarchy.cc:444-460: sweeps until one does nothing, at most
      `fuel` of them; `once` is `did_something_once`. */
  function FixedPoint(mods: map<Id, Module>, flagCheck: bool, libdirs: seq<string>, env: Env, fuel: nat, once: bool)
    : Result<(map<Id, Module>, bool), Error>
    decreases fuel
  {
    if fuel == 0 then Err(SweepLimit)
    else match SweepOnce(mods, flagCheck, libdirs, env)
      case Err(e) => Err(e)
      case Ok(x) => if x.1 then FixedPoint(x.0, flagCheck, libdirs, env, Pred(fuel), true) else Ok((x.0, once))
  }

  /** The sweeps remove no module. */
  lemma {:induction false} FixedPointGrows(mods: map<Id, Module>, flagCheck: bool, libdirs: seq<string>, env: Env,
                                           fuel: nat, once: bool)
    requires FixedPoint(mods, flagCheck, libdirs, env, fuel, once).Ok?
    ensures mods.Keys <= FixedPoint(mods, flagCheck, libdirs, env, fuel, once).value.0.Keys
    decreases fuel
  {
    var x := SweepOnce(mods, flagCheck, libdirs, env);
    SweepGrows(mods, Ascending(mods.Keys), flagCheck, libdirs, env, false);
    if x.value.1 {
      FixedPointGrows(x.value.0, flagCheck, libdirs, env, Pred(fuel), true);
    }
  }

  /** One step of `SweepModules`, at position `i` of `names`. */
  lemma SweepUnfold(mods: map<Id, Module>, names: seq<Id>, i: nat, flagCheck: bool, libdirs: seq<string>,
                    env: Env, did: bool)
    requires i < |names|
    ensures names[i] !in mods ==>
      SweepModules(mods, names[i..], flagCheck, libdirs, env, did)
      == SweepModules(mods, names[i + 1..], flagCheck, libdirs, env, did)
    ensures names[i] in mods ==> var x := Expand(mods, names[i], flagCheck, libdirs, env);
      && (x.Err? ==> SweepModules(mods, names[i..], flagCheck, libdirs, env, did) == Err(x.error))
      && (x.Ok? ==> SweepModules(mods, names[i..], flagCheck, libdirs, env, did)
                    == SweepModules(x.value.0, names[i + 1..], flagCheck, libdirs, env, did || x.value.1))
  {
    assert names[i..][1..] == names[i + 1..];
  }

  /** `expand_module` on a design value. */
  method ExpandOne(mods: map<Id, Module>, name: Id, flagCheck: bool, libdirs: seq<string>, env: Env)
    returns (r: Result<(map<Id, Module>, bool), Error>)
    requires name in mods
    ensures r == Expand(mods, name, flagCheck, libdirs, env)
  {
    var x, arrays := ResolveAll(mods, name, flagCheck, libdirs, env);
    if x.Err? {
      return Err(x.error);
    }
    ResolveCellsExtends(mods, name, Ascending(mods[name].cells.Keys), flagCheck, libdirs, env, false);
    var m := SliceAll(x.value.0, name, arrays);
    if m.Err? {
      return Err(m.error);
    }
    r := Ok((m.value, x.value.1));
  }

  /** One sweep of `FixedPoint`. */
  lemma FixedPointStep(mods: map<Id, Module>, flagCheck: bool, libdirs: seq<string>, env: Env, left: nat, once: bool,
                       x: Result<(map<Id, Module>, bool), Error>)
    requires left > 0 && x == SweepOnce(mods, flagCheck, libdirs, env)
    ensures x.Err? ==> FixedPoint(mods, flagCheck, libdirs, env, left, once) == Err(x.error)
    ensures x.Ok? && x.value.1 ==>
      FixedPoint(mods, flagCheck, libdirs, env, left, once) == FixedPoint(x.value.0, flagCheck, libdirs, env, Pred(left), true)
    ensures x.Ok? && !x.value.1 ==> FixedPoint(mods, flagCheck, libdirs, env, left, once) == Ok((x.value.0, once))
  {
  }
}
