/** Mapping positional arguments (hierarchy.cc:475-521): a connection
    `$<n>` of a cell whose type is a module of the design is renamed to the
    port of that module at position `n`, when it has one. */
module Remap {
  import opened Wrappers
  import opened CStrings
  import opened Rtlil

  /** hierarchy.cc:487, 508: `$` and then a decimal digit (reading the NUL of a short name). */
  predicate IsPositionalKey(k: Id)
  {
    At(k, 0) == '$' && IsDigit(At(k, 1))
  }

  /** The position a positional key names: `atoi` of what follows the `$`. */
  function KeyPosition(k: Id): int
    requires IsPositionalKey(k)
  {
    Atoi(k[1..])
  }

  /** The port wires of a module at position `id`. */
  function WiresAt(wires: map<Id, Wire>, id: int): set<Id>
  {
    set n | n in wires && wires[n].portId == id
  }

  /** The port positions a module has. */
  function Positions(wires: map<Id, Wire>): set<int>
  {
    set n | n in wires && wires[n].portId > 0 :: wires[n].portId
  }

  /** The port at position `id`: of several wires there, the one whose
      assignment to `pos_map` comes last in iteration order. */
  function PortAt(wires: map<Id, Wire>, id: int): (n: Id)
    requires id in Positions(wires)
    ensures n in wires && wires[n].portId == id
  {
    var w :| w in wires && wires[w].portId > 0 && wires[w].portId == id;
    assert w in WiresAt(wires, id);
    Greatest(WiresAt(wires, id))
  }

  /** `pos_map` for one module (hierarchy.cc:494-499). */
  function PortPositions(wires: map<Id, Wire>): map<int, Id>
  {
    map id | id in Positions(wires) :: PortAt(wires, id)
  }

  /** Every position in the map is that of a port wire of the module, and
      every port wire's position is in it. */
  lemma PortPositionsSound(wires: map<Id, Wire>)
    ensures forall id :: id in PortPositions(wires) ==>
      id > 0 && PortPositions(wires)[id] in wires && wires[PortPositions(wires)[id]].portId == id
    ensures forall n :: n in wires && wires[n].portId > 0 ==> wires[n].portId in PortPositions(wires)
  {
    forall n | n in wires && wires[n].portId > 0
      ensures wires[n].portId in Positions(wires)
    {
    }
  }

  /** The key a connection ends up under (hierarchy.cc:507-518). */
  function NewKey(k: Id, positions: map<int, Id>): Id
  {
    if IsPositionalKey(k) && KeyPosition(k) in positions then positions[KeyPosition(k)] else k
  }

  /** `NewKey` as the renaming the loop applies. */
  function Renaming(positions: map<int, Id>): Id -> Id
  {
    k => NewKey(k, positions)
  }

  /** The keys some connection is renamed to. */
  function NewKeys(conns: map<Id, SigSpec>, rename: Id -> Id): set<Id>
  {
    set k | k in conns :: rename(k)
  }

  /** The connections renamed to `n`. */
  function Sources(conns: map<Id, SigSpec>, rename: Id -> Id, n: Id): set<Id>
  {
    set k | k in conns && rename(k) == n
  }

  /** Of the connections renamed to `n`, the one written last in key order. */
  function LastSource(conns: map<Id, SigSpec>, rename: Id -> Id, n: Id): (k: Id)
    requires n in NewKeys(conns, rename)
    ensures k in conns && rename(k) == n
  {
    var k0 :| k0 in conns && rename(k0) == n;
    assert k0 in Sources(conns, rename, n);
    Greatest(Sources(conns, rename, n))
  }

  /** A map built by writing each connection under its new key, in key order. */
  function Renamed(conns: map<Id, SigSpec>, rename: Id -> Id): map<Id, SigSpec>
  {
    map n | n in NewKeys(conns, rename) :: conns[LastSource(conns, rename, n)]
  }

  /** `new_connections` once every connection has been written into it. */
  function Remapped(conns: map<Id, SigSpec>, positions: map<int, Id>): map<Id, SigSpec>
  {
    Renamed(conns, Renaming(positions))
  }

  /** Keys that are not positional keep their name; so does a positional key
      whose position no port has; the others take the name of that port. */
  lemma KeptKeys(k: Id, positions: map<int, Id>)
    ensures !IsPositionalKey(k) ==> Renaming(positions)(k) == k
    ensures IsPositionalKey(k) && KeyPosition(k) !in positions ==> Renaming(positions)(k) == k
    ensures IsPositionalKey(k) && KeyPosition(k) in positions ==> Renaming(positions)(k) == positions[KeyPosition(k)]
  {
  }

  /** Renaming only moves signals: every new connection carries the signal
      of an old connection that was renamed to it, and every old connection's
      new key is connected. */
  lemma RemapKeepsSignals(conns: map<Id, SigSpec>, positions: map<int, Id>)
    ensures forall k :: k in conns ==> NewKey(k, positions) in Remapped(conns, positions)
    ensures forall n :: n in Remapped(conns, positions) ==>
      exists k :: k in conns && NewKey(k, positions) == n && Remapped(conns, positions)[n] == conns[k]
  {
    var rename := Renaming(positions);
    forall k | k in conns
      ensures NewKey(k, positions) in Remapped(conns, positions)
    {
      assert rename(k) in NewKeys(conns, rename);
    }
    forall n | n in Remapped(conns, positions)
      ensures exists k :: k in conns && NewKey(k, positions) == n && Remapped(conns, positions)[n] == conns[k]
    {
      var k := LastSource(conns, rename, n);
      assert rename(k) == NewKey(k, positions);
    }
  }

  /** When no two connections are renamed to the same key, every signal keeps
      its connection, under its new key. */
  lemma RemapInjective(conns: map<Id, SigSpec>, positions: map<int, Id>)
    requires forall a, b :: a in conns && b in conns && a != b ==> NewKey(a, positions) != NewKey(b, positions)
    ensures forall k :: k in conns ==>
      NewKey(k, positions) in Remapped(conns, positions) && Remapped(conns, positions)[NewKey(k, positions)] == conns[k]
  {
    var rename := Renaming(positions);
    forall k | k in conns
      ensures NewKey(k, positions) in Remapped(conns, positions)
      ensures Remapped(conns, positions)[NewKey(k, positions)] == conns[k]
    {
      var n := rename(k);
      assert n in NewKeys(conns, rename);
      var last := LastSource(conns, rename, n);
      assert rename(last) == NewKey(last, positions);
      assert last == k;
    }
  }

  /** A cell without positional connections is left as it is. */
  lemma RemapNoPositionals(conns: map<Id, SigSpec>, positions: map<int, Id>)
    requires forall k :: k in conns ==> !IsPositionalKey(k)
    ensures Remapped(conns, positions) == conns
  {
    var rename := Renaming(positions);
    RemapInjective(conns, positions);
    assert NewKeys(conns, rename) == conns.Keys by {
      forall n | n in NewKeys(conns, rename)
        ensures n in conns
      {
        var k :| k in conns && rename(k) == n;
      }
    }
  }

  /** The loop at hierarchy.cc:494-499 for one module, over its wires in `order`:
      `src[id]` is the position in `order` of the wire `pm[id]` came from. */
  method PositionsLoop(wires: map<Id, Wire>, order: seq<Id>) returns (pm: map<int, Id>, ghost src: map<int, nat>)
    requires forall j :: 0 <= j < |order| ==> order[j] in wires
    ensures src.Keys == pm.Keys
    ensures forall id :: id in pm ==> id > 0
    ensures forall j :: 0 <= j < |order| && wires[order[j]].portId > 0 ==> wires[order[j]].portId in pm
    ensures forall id :: id in pm ==> (src[id] < |order| && pm[id] == order[src[id]] && wires[pm[id]].portId == id
      && forall j :: src[id] < j < |order| ==> wires[order[j]].portId != id)
  {
    pm, src := map[], map[];
    var i := 0;
    while i < |order|
      invariant 0 <= i <= |order|
      invariant src.Keys == pm.Keys
      invariant forall id :: id in pm ==> id > 0
      invariant forall j :: 0 <= j < i && wires[order[j]].portId > 0 ==> wires[order[j]].portId in pm
      invariant forall id :: id in pm ==> (src[id] < i && pm[id] == order[src[id]] && wires[pm[id]].portId == id
        && forall j :: src[id] < j < i ==> wires[order[j]].portId != id)
    {
      var w := wires[order[i]];
      if w.portId > 0 {
        pm, src := pm[w.portId := order[i]], src[w.portId := i];
      }
      i := i + 1;
    }
  }

  /** The last wire of `order` at a position is the greatest name there. */
  lemma LastIsGreatest(wires: map<Id, Wire>, order: seq<Id>, id: int, s: nat)
    requires forall x :: x in order <==> x in wires
    requires forall a, b :: 0 <= a < b < |order| ==> Less(order[a], order[b])
    requires s < |order| && wires[order[s]].portId == id
    requires forall j :: s < j < |order| ==> wires[order[j]].portId != id
    ensures IsGreatest(order[s], WiresAt(wires, id))
  {
    forall x | x in WiresAt(wires, id) && x != order[s]
      ensures Less(x, order[s])
    {
      var j :| 0 <= j < |order| && order[j] == x;
      AscendingOrder(order, j, s);
    }
  }

  /** The port positions of a module, as hierarchy.cc:494-499 records them. */
  method BuildPortPositions(wires: map<Id, Wire>) returns (pm: map<int, Id>)
    ensures pm == PortPositions(wires)
  {
    var order := Ascending(wires.Keys);
    AscendingSorted(wires.Keys);
    ghost var src;
    pm, src := PositionsLoop(wires, order);
    PositionsAgree(wires, order, pm, src);
  }

  lemma PositionsAgree(wires: map<Id, Wire>, order: seq<Id>, pm: map<int, Id>, src: map<int, nat>)
    requires forall x :: x in order <==> x in wires
    requires forall a, b :: 0 <= a < b < |order| ==> Less(order[a], order[b])
    requires src.Keys == pm.Keys
    requires forall id :: id in pm ==> id > 0
    requires forall j :: 0 <= j < |order| && wires[order[j]].portId > 0 ==> wires[order[j]].portId in pm
    requires forall id :: id in pm ==> (src[id] < |order| && pm[id] == order[src[id]] && wires[pm[id]].portId == id
      && forall j :: src[id] < j < |order| ==> wires[order[j]].portId != id)
    ensures pm == PortPositions(wires)
  {
    PositionKeys(wires, order, pm);
    forall id | id in pm
      ensures pm[id] == PortAt(wires, id)
    {
      PortAtIs(wires, order, id, src[id]);
    }
    PositionsEqual(wires, pm);
  }

  lemma PositionsEqual(wires: map<Id, Wire>, pm: map<int, Id>)
    requires pm.Keys == Positions(wires)
    requires forall id :: id in pm ==> pm[id] == PortAt(wires, id)
    ensures pm == PortPositions(wires)
  {
  }

  lemma PositionKeys(wires: map<Id, Wire>, order: seq<Id>, pm: map<int, Id>)
    requires forall x :: x in order <==> x in wires
    requires forall j :: 0 <= j < |order| && wires[order[j]].portId > 0 ==> wires[order[j]].portId in pm
    requires forall id :: id in pm ==> id > 0 && pm[id] in wires && wires[pm[id]].portId == id
    ensures pm.Keys == Positions(wires)
  {
    forall id | id in pm
      ensures id in Positions(wires)
    {
      assert pm[id] in wires;
    }
    forall id | id in Positions(wires)
      ensures id in pm
    {
      var w :| w in wires && wires[w].portId > 0 && wires[w].portId == id;
      var j :| 0 <= j < |order| && order[j] == w;
    }
  }

  /** The wire the loop recorded last for position `id` is `PortAt`'s. */
  lemma PortAtIs(wires: map<Id, Wire>, order: seq<Id>, id: int, s: nat)
    requires forall x :: x in order <==> x in wires
    requires forall a, b :: 0 <= a < b < |order| ==> Less(order[a], order[b])
    requires id > 0 && s < |order| && wires[order[s]].portId == id
    requires forall j :: s < j < |order| ==> wires[order[j]].portId != id
    ensures id in Positions(wires) && PortAt(wires, id) == order[s]
  {
    LastIsGreatest(wires, order, id, s);
    ExtremesUnique(WiresAt(wires, id));
  }

  /** The loop at hierarchy.cc:506-518 over the connections in `order`:
      `src[n]` is the position in `order` of the connection `r[n]` came from. */
  method RemapLoop(conns: map<Id, SigSpec>, rename: Id -> Id, order: seq<Id>)
      returns (r: map<Id, SigSpec>, ghost src: map<Id, nat>)
    requires forall j :: 0 <= j < |order| ==> order[j] in conns
    ensures src.Keys == r.Keys
    ensures forall j :: 0 <= j < |order| ==> rename(order[j]) in r
    ensures forall n :: n in r ==> (src[n] < |order| && rename(order[src[n]]) == n && r[n] == conns[order[src[n]]]
      && forall j :: src[n] < j < |order| ==> rename(order[j]) != n)
  {
    r, src := map[], map[];
    var i := 0;
    while i < |order|
      invariant 0 <= i <= |order|
      invariant src.Keys == r.Keys
      invariant forall j :: 0 <= j < i ==> rename(order[j]) in r
      invariant forall n :: n in r ==> (src[n] < i && rename(order[src[n]]) == n && r[n] == conns[order[src[n]]]
        && forall j :: src[n] < j < i ==> rename(order[j]) != n)
    {
      var k := order[i];
      var n := rename(k);
      r, src := r[n := conns[k]], src[n := i];
      i := i + 1;
    }
  }

  /** The last connection of `order` renamed to `n` is the greatest key renamed to it. */
  lemma LastSourceAt(conns: map<Id, SigSpec>, rename: Id -> Id, order: seq<Id>, n: Id, s: nat)
    requires forall x :: x in order <==> x in conns
    requires forall a, b :: 0 <= a < b < |order| ==> Less(order[a], order[b])
    requires s < |order| && rename(order[s]) == n
    requires forall j :: s < j < |order| ==> rename(order[j]) != n
    ensures n in NewKeys(conns, rename) && LastSource(conns, rename, n) == order[s]
  {
    forall x | x in Sources(conns, rename, n) && x != order[s]
      ensures Less(x, order[s])
    {
      var j :| 0 <= j < |order| && order[j] == x;
      AscendingOrder(order, j, s);
    }
    assert IsGreatest(order[s], Sources(conns, rename, n));
    ExtremesUnique(Sources(conns, rename, n));
  }

  /** The connections of one cell after hierarchy.cc:506-519. */
  method RemapConnections(conns: map<Id, SigSpec>, positions: map<int, Id>) returns (r: map<Id, SigSpec>)
    ensures r == Remapped(conns, positions)
  {
    var order := Ascending(conns.Keys);
    AscendingSorted(conns.Keys);
    ghost var src;
    r, src := RemapLoop(conns, Renaming(positions), order);
    RemapAgrees(conns, Renaming(positions), order, r, src);
  }

  lemma RemapAgrees(conns: map<Id, SigSpec>, rename: Id -> Id, order: seq<Id>, r: map<Id, SigSpec>, src: map<Id, nat>)
    requires forall x :: x in order <==> x in conns
    requires forall a, b :: 0 <= a < b < |order| ==> Less(order[a], order[b])
    requires src.Keys == r.Keys
    requires forall j :: 0 <= j < |order| ==> rename(order[j]) in r
    requires forall n :: n in r ==> (src[n] < |order| && rename(order[src[n]]) == n && r[n] == conns[order[src[n]]]
      && forall j :: src[n] < j < |order| ==> rename(order[j]) != n)
    ensures r == Renamed(conns, rename)
  {
    RemapKeys(conns, rename, order, r, src);
    forall n | n in r
      ensures r[n] == conns[LastSource(conns, rename, n)]
    {
      LastSourceAt(conns, rename, order, n, src[n]);
    }
    RenamedEqual(conns, rename, r);
  }

  lemma RenamedEqual(conns: map<Id, SigSpec>, rename: Id -> Id, r: map<Id, SigSpec>)
    requires r.Keys == NewKeys(conns, rename)
    requires forall n :: n in r ==> r[n] == conns[LastSource(conns, rename, n)]
    ensures r == Renamed(conns, rename)
  {
  }

  lemma RemapKeys(conns: map<Id, SigSpec>, rename: Id -> Id, order: seq<Id>, r: map<Id, SigSpec>, src: map<Id, nat>)
    requires forall x :: x in order <==> x in conns
    requires src.Keys == r.Keys
    requires forall j :: 0 <= j < |order| ==> rename(order[j]) in r
    requires forall n :: n in r ==> src[n] < |order| && rename(order[src[n]]) == n
    ensures r.Keys == NewKeys(conns, rename)
  {
    forall n | n in r
      ensures n in NewKeys(conns, rename)
    {
      assert order[src[n]] in conns;
    }
    forall n | n in NewKeys(conns, rename)
      ensures n in r
    {
      var k :| k in conns && rename(k) == n;
      var j :| 0 <= j < |order| && order[j] == k;
    }
  }

  /** hierarchy.cc:486-491: some connection of the cell is named like a positional argument. */
  predicate HasPositional(c: Cell)
  {
    exists k :: k in c.connections && IsPositionalKey(k)
  }

  /** Cell `c` of module `n` is in `pos_work` (hierarchy.cc:481-492). */
  predicate Positional(mods: map<Id, Module>, n: Id, c: Id)
  {
    n in mods && c in mods[n].cells && mods[n].cells[c].ctype in mods && HasPositional(mods[n].cells[c])
  }

  /** A cell once hierarchy.cc:475-521 has run: a cell of a module type with a
      positional connection has its connections renamed by the port positions
      of that module; every other cell is left alone. */
  function RemapCell(mods: map<Id, Module>, c: Cell): Cell
  {
    if c.ctype in mods && HasPositional(c) then
      c.(connections := Remapped(c.connections, PortPositions(mods[c.ctype].wires)))
    else c
  }

  function RemapModule(mods: map<Id, Module>, m: Module): Module
  {
    m.(cells := map c | c in m.cells :: RemapCell(mods, m.cells[c]))
  }

  /** The module map after hierarchy.cc:475-521. The port positions are read
      from the design before any cell changes, as `pos_map` is built first. */
  function RemappedDesign(mods: map<Id, Module>): map<Id, Module>
  {
    map n | n in mods :: RemapModule(mods, mods[n])
  }

  /** Every cell whose type is a module of the design has its connections
      renamed, whether or not it has a positional one; a cell of any other type
      keeps them; the type and the parameters of a cell never change. */
  lemma RemapCellUniform(mods: map<Id, Module>, c: Cell)
    ensures RemapCell(mods, c).ctype == c.ctype && RemapCell(mods, c).parameters == c.parameters
    ensures c.ctype in mods ==>
      RemapCell(mods, c).connections == Remapped(c.connections, PortPositions(mods[c.ctype].wires))
    ensures c.ctype !in mods ==> RemapCell(mods, c) == c
  {
    if c.ctype in mods && !HasPositional(c) {
      RemapNoPositionals(c.connections, PortPositions(mods[c.ctype].wires));
    }
  }

  /** The remap touches only connections: the same modules with the same
      wires and attributes, the same cells with the same types and parameters,
      and the connections of each cell renamed by the positions of its type. */
  lemma RemappedDesignKeeps(mods: map<Id, Module>)
    ensures RemappedDesign(mods).Keys == mods.Keys
    ensures forall n :: n in mods ==>
      RemappedDesign(mods)[n].wires == mods[n].wires && RemappedDesign(mods)[n].attributes == mods[n].attributes
      && RemappedDesign(mods)[n].cells.Keys == mods[n].cells.Keys
    ensures forall n, c :: n in mods && c in mods[n].cells ==>
      RemappedDesign(mods)[n].cells[c] == RemapCell(mods, mods[n].cells[c])
      && RemapCell(mods, mods[n].cells[c]).ctype == mods[n].cells[c].ctype
      && RemapCell(mods, mods[n].cells[c]).parameters == mods[n].cells[c].parameters
      && (mods[n].cells[c].ctype in mods ==>
            RemapCell(mods, mods[n].cells[c]).connections
              == Remapped(mods[n].cells[c].connections, PortPositions(mods[mods[n].cells[c].ctype].wires)))
      && (mods[n].cells[c].ctype !in mods ==> RemapCell(mods, mods[n].cells[c]) == mods[n].cells[c])
  {
    forall n, c | n in mods && c in mods[n].cells
      ensures RemapCell(mods, mods[n].cells[c]).ctype == mods[n].cells[c].ctype
      ensures RemapCell(mods, mods[n].cells[c]).parameters == mods[n].cells[c].parameters
      ensures mods[n].cells[c].ctype in mods ==>
        (RemapCell(mods, mods[n].cells[c]).connections
           == Remapped(mods[n].cells[c].connections, PortPositions(mods[mods[n].cells[c].ctype].wires)))
      ensures mods[n].cells[c].ctype !in mods ==> RemapCell(mods, mods[n].cells[c]) == mods[n].cells[c]
    {
      RemapCellUniform(mods, mods[n].cells[c]);
    }
  }

  /** After the renaming no connection is left under a positional key whose
      position is a port of the module: each key is either an old key that was
      not renamed, or the name of the port it was renamed to. */
  lemma RemapLeavesUnmapped(conns: map<Id, SigSpec>, positions: map<int, Id>)
    ensures forall n :: n in Remapped(conns, positions) ==>
      (n in conns && !(IsPositionalKey(n) && KeyPosition(n) in positions)) || n in positions.Values
  {
    RemapKeepsSignals(conns, positions);
    forall n | n in Remapped(conns, positions)
      ensures (n in conns && !(IsPositionalKey(n) && KeyPosition(n) in positions)) || n in positions.Values
    {
      var k :| k in conns && NewKey(k, positions) == n && Remapped(conns, positions)[n] == conns[k];
      if IsPositionalKey(k) && KeyPosition(k) in positions {
        assert n == positions[KeyPosition(k)];
      }
    }
  }

  /** The cells of module `n`, only those of `done` remapped. */
  function PartlyRemappedCells(mods: map<Id, Module>, done: set<(Id, Id)>, n: Id): map<Id, Cell>
    requires n in mods
  {
    map c | c in mods[n].cells :: if (n, c) in done then RemapCell(mods, mods[n].cells[c]) else mods[n].cells[c]
  }

  /** `RemappedDesign` with only the cells of `done` remapped. */
  function PartlyRemapped(mods: map<Id, Module>, done: set<(Id, Id)>): map<Id, Module>
  {
    map n | n in mods :: mods[n].(cells := PartlyRemappedCells(mods, done, n))
  }

  lemma RemapWorkNone(mods: map<Id, Module>)
    ensures PartlyRemapped(mods, {}) == mods
  {
    forall n | n in mods
      ensures PartlyRemapped(mods, {})[n] == mods[n]
    {
      assert PartlyRemappedCells(mods, {}, n) == mods[n].cells;
    }
  }

  lemma CellsStep(mods: map<Id, Module>, done: set<(Id, Id)>, n: Id, c: Id, m: Id, cell: Cell)
    requires n in mods && m in mods && c in mods[n].cells
    requires cell == RemapCell(mods, mods[n].cells[c])
    ensures m == n ==> PartlyRemappedCells(mods, done + {(n, c)}, m) == PartlyRemappedCells(mods, done, n)[c := cell]
    ensures m != n ==> PartlyRemappedCells(mods, done + {(n, c)}, m) == PartlyRemappedCells(mods, done, m)
  {
  }

  lemma RemapWorkStep(mods: map<Id, Module>, done: set<(Id, Id)>, n: Id, c: Id, p: map<Id, Module>, cell: Cell)
    requires n in mods && c in mods[n].cells && p == PartlyRemapped(mods, done)
    requires cell == RemapCell(mods, mods[n].cells[c])
    ensures n in p && c in p[n].cells
    ensures PartlyRemapped(mods, done + {(n, c)}) == p[n := p[n].(cells := p[n].cells[c := cell])]
  {
    var q := PartlyRemapped(mods, done + {(n, c)});
    var p' := p[n := p[n].(cells := p[n].cells[c := cell])];
    forall m | m in mods
      ensures q[m] == p'[m]
    {
      CellsStep(mods, done, n, c, m, cell);
    }
  }

  /** Once `done` holds every cell of `pos_work`, the design is remapped. */
  lemma RemapWorkDone(mods: map<Id, Module>, done: set<(Id, Id)>)
    requires forall n, c :: Positional(mods, n, c) ==> (n, c) in done
    ensures PartlyRemapped(mods, done) == RemappedDesign(mods)
  {
    forall n | n in mods
      ensures PartlyRemapped(mods, done)[n] == RemappedDesign(mods)[n]
    {
      assert PartlyRemapped(mods, done)[n].cells == RemappedDesign(mods)[n].cells by {
        forall c | c in mods[n].cells
          ensures PartlyRemapped(mods, done)[n].cells[c] == RemapCell(mods, mods[n].cells[c])
        {
          if (n, c) !in done {
            assert !Positional(mods, n, c);
          }
        }
      }
    }
  }

  /** The inner loop of hierarchy.cc:486-491, stopping at the first positional key. */
  method ScanPositional(conns: map<Id, SigSpec>) returns (b: bool)
    ensures b <==> exists k :: k in conns && IsPositionalKey(k)
  {
    var keys := Ascending(conns.Keys);
    b := false;
    var i := 0;
    while i < |keys| && !b
      invariant 0 <= i <= |keys|
      invariant !b ==> forall j :: 0 <= j < i ==> !IsPositionalKey(keys[j])
      invariant b ==> exists k :: k in conns && IsPositionalKey(k)
    {
      if IsPositionalKey(keys[i]) {
        b := true;
      }
      i := i + 1;
    }
    if !b {
      forall k | k in conns
        ensures !IsPositionalKey(k)
      {
        var j :| 0 <= j < |keys| && keys[j] == k;
      }
    }
  }

  lemma WorkStep(mods: map<Id, Module>, n: Id, cells: seq<Id>, i: nat, work: seq<(Id, Id)>, work': seq<(Id, Id)>)
    requires i < |cells|
    requires forall j :: 0 <= j < i && Positional(mods, n, cells[j]) ==> (n, cells[j]) in work
    requires forall p :: p in work ==> p in work'
    requires Positional(mods, n, cells[i]) ==> (n, cells[i]) in work'
    ensures forall j :: 0 <= j < i + 1 && Positional(mods, n, cells[j]) ==> (n, cells[j]) in work'
  {
  }

  /** The cells of module `n` that go into `pos_work`, and their types. */
  method CellWork(mods: map<Id, Module>, n: Id) returns (work: seq<(Id, Id)>, types: set<Id>)
    requires n in mods
    ensures forall c :: Positional(mods, n, c) ==> (n, c) in work
    ensures forall p :: p in work ==> p.0 == n && Positional(mods, n, p.1) && mods[n].cells[p.1].ctype in types
    ensures types <= mods.Keys
  {
    var cells := Ascending(mods[n].cells.Keys);
    work, types := [], {};
    var i := 0;
    while i < |cells|
      invariant 0 <= i <= |cells|
      invariant forall j :: 0 <= j < i && Positional(mods, n, cells[j]) ==> (n, cells[j]) in work
      invariant forall p :: p in work ==> p.0 == n && Positional(mods, n, p.1) && mods[n].cells[p.1].ctype in types
      invariant types <= mods.Keys
    {
      var cell := mods[n].cells[cells[i]];
      var b := false;
      if cell.ctype in mods {
        b := ScanPositional(cell.connections);
      }
      var work' := if b then work + [(n, cells[i])] else work;
      WorkStep(mods, n, cells, i, work, work');
      work := work';
      if b {
        types := types + {cell.ctype};
      }
      i := i + 1;
    }
    forall c | Positional(mods, n, c)
      ensures (n, c) in work
    {
      var j :| 0 <= j < |cells| && cells[j] == c;
    }
  }

  /** `pos_work` and `pos_mods` (hierarchy.cc:481-492). */
  method PositionalWork(mods: map<Id, Module>) returns (work: seq<(Id, Id)>, posMods: set<Id>)
    ensures forall n, c :: Positional(mods, n, c) ==> (n, c) in work
    ensures forall p :: p in work ==> Positional(mods, p.0, p.1) && mods[p.0].cells[p.1].ctype in posMods
    ensures posMods <= mods.Keys
  {
    var names := Ascending(mods.Keys);
    work, posMods := [], {};
    var i := 0;
    while i < |names|
      invariant 0 <= i <= |names|
      invariant forall j, c :: 0 <= j < i && Positional(mods, names[j], c) ==> (names[j], c) in work
      invariant forall p :: p in work ==> Positional(mods, p.0, p.1) && mods[p.0].cells[p.1].ctype in posMods
      invariant posMods <= mods.Keys
    {
      var added, types := CellWork(mods, names[i]);
      work, posMods := work + added, posMods + types;
      i := i + 1;
    }
    forall n, c | Positional(mods, n, c)
      ensures (n, c) in work
    {
      var j :| 0 <= j < |names| && names[j] == n;
    }
  }

  lemma KeysStep<V>(xs: seq<Id>, m: map<Id, V>, i: nat, v: V)
    requires i < |xs| && forall j :: 0 <= j < i ==> xs[j] in m
    ensures forall j :: 0 <= j < i + 1 ==> xs[j] in m[xs[i] := v]
  {
  }

  /** `pos_map` (hierarchy.cc:494-499), one map of port positions per module of `pos_mods`. */
  method PositionMaps(mods: map<Id, Module>, posMods: set<Id>) returns (pm: map<Id, map<int, Id>>)
    requires posMods <= mods.Keys
    ensures pm.Keys == posMods
    ensures forall t :: t in pm ==> pm[t] == PortPositions(mods[t].wires)
  {
    var names := Ascending(posMods);
    pm := map[];
    var i := 0;
    while i < |names|
      invariant 0 <= i <= |names|
      invariant forall j :: 0 <= j < i ==> names[j] in pm
      invariant forall t :: t in pm ==> t in posMods && pm[t] == PortPositions(mods[t].wires)
    {
      var positions := BuildPortPositions(mods[names[i]].wires);
      KeysStep(names, pm, i, positions);
      pm := pm[names[i] := positions];
      i := i + 1;
    }
    forall t | t in posMods
      ensures t in pm
    {
      var j :| 0 <= j < |names| && names[j] == t;
    }
  }
}
