/** The module `hierarchy -generate` creates for one cell type
    (hierarchy.cc:51-131): the ports inferred from the instances and the
    declarations, made into the wires of an empty black-box module. */
module Stubs {
  import opened Wrappers
  import opened CStrings
  import opened Rtlil
  import opened PortDecls
  import opened Generate
  import opened Wildcards

  /** The ports of the stub: the names connected on the instances that are not
      internal ones, and the names of the positional declarations (hierarchy.cc:61-72). */
  ghost function PortNames(observed: set<Id>, decls: seq<PortDecl>): set<Id>
  {
    observed + PositionalNames(decls, |decls|)
  }

  /** Each positional declaration sits in the slot of its position. */
  ghost predicate PositionalSlots(ports: seq<PortDecl>, decls: seq<PortDecl>)
  {
    forall k :: 0 <= k < |decls| && decls[k].index > 0 ==>
      1 <= decls[k].index <= |ports| && ports[decls[k].index - 1] == decls[k]
  }

  /** What the positional declarations leave for the wildcard phase. */
  lemma ClaimFacts(cl0: Claim, decls: seq<PortDecl>, observed: set<Id>, widths: map<Id, nat>)
    requires ClaimOf(cl0, decls, observed, widths)
    ensures FreeInRange(cl0) && |cl0.free| <= |cl0.pending|
    ensures |cl0.ports| == |PortNames(observed, decls)|
    ensures cl0.free == Range(|cl0.ports|) - PositionalIndices(decls, |decls|)
    ensures cl0.pending == PortNames(observed, decls) - PositionalNames(decls, |decls|)
    ensures PositionalSlots(cl0.ports, decls)
    ensures |cl0.free| == |cl0.pending| <==> DistinctPositionalNames(decls, |decls|)
    ensures WidthGrowInv(cl0.widths, decls, |decls|, widths)
    ensures WidthFloorInv(cl0.widths, decls, |decls|, widths)
    ensures WidthPlainInv(cl0.widths, decls, |decls|, widths)
    ensures cl0.widths == ClaimWidths(widths, decls, |decls|)
  {
  }

  /** The port in slot `i` has position `i`; a slot the wildcard phase did not fill
      holds the positional declaration `k` that claimed it. */
  lemma SlotFacts(cl: Claim, cl0: Claim, decls: seq<PortDecl>, observed: set<Id>, env: Env, i: int)
      returns (k: nat)
    requires FreeInRange(cl0) && |cl.ports| == |cl0.ports| == |PortNames(observed, decls)|
    requires cl0.free == Range(|cl0.ports|) - PositionalIndices(decls, |decls|)
    requires cl0.pending == PortNames(observed, decls) - PositionalNames(decls, |decls|)
    requires PositionalSlots(cl0.ports, decls)
    requires SlotsFilled(cl.ports, cl0, decls, env)
    requires forall i :: 1 <= i <= |cl.ports| && i !in cl0.free ==> cl.ports[i - 1] == cl0.ports[i - 1]
    requires 1 <= i <= |cl.ports|
    ensures cl.ports[i - 1].index == i
    ensures cl.ports[i - 1].portname in PortNames(observed, decls)
    ensures i in cl0.free <==> cl.ports[i - 1].portname !in PositionalNames(decls, |decls|)
    ensures i !in cl0.free ==> k < |decls| && decls[k].index == i && cl.ports[i - 1] == decls[k]
  {
    if i in cl0.free {
      k := 0;
      FreeSlot(cl.ports, cl0, decls, env, i);
    } else {
      assert i in PositionalIndices(decls, |decls|);
      k := PositionalIndexFrom(decls, |decls|, i);
      PositionalNameIn(decls, |decls|, k);
      assert cl0.ports[decls[k].index - 1] == decls[k];
      assert cl.ports[i - 1] == cl0.ports[i - 1];
    }
  }

  /** A free slot holds a pending name at its own position. */
  lemma FreeSlot(ports: seq<PortDecl>, cl0: Claim, decls: seq<PortDecl>, env: Env, i: int)
    requires FreeInRange(cl0) && |ports| == |cl0.ports|
    requires SlotsFilled(ports, cl0, decls, env)
    requires i in cl0.free
    ensures 1 <= i <= |ports| && ports[i - 1].portname in cl0.pending && ports[i - 1].index == i
  {
    var p := ports[i - 1].portname;
    assert p in cl0.pending && ports[i - 1] == WildcardPort(decls, p, i, env);
  }

  /** The precondition shared by the lemmas about the final `ports` vector: the state
      the positional declarations left (`cl0`) and what the wildcard phase did to it. */
  ghost predicate Assigned(cl: Claim, cl0: Claim, decls: seq<PortDecl>, observed: set<Id>, env: Env)
  {
    && FreeInRange(cl0) && |cl.ports| == |cl0.ports| == |PortNames(observed, decls)|
    && cl0.free == Range(|cl0.ports|) - PositionalIndices(decls, |decls|)
    && cl0.pending == PortNames(observed, decls) - PositionalNames(decls, |decls|)
    && PositionalSlots(cl0.ports, decls)
    && SlotsFilled(cl.ports, cl0, decls, env)
    && (forall i :: 1 <= i <= |cl.ports| && i !in cl0.free ==> cl.ports[i - 1] == cl0.ports[i - 1])
  }

  ghost predicate DistinctNames(ports: seq<PortDecl>)
  {
    forall a, b :: 0 <= a < b < |ports| ==> ports[a].portname != ports[b].portname
  }

  function NamesOf(ports: seq<PortDecl>): set<Id>
  {
    set d | d in ports :: d.portname
  }

  lemma LessDistinct(a: string, b: string)
    requires Less(a, b)
    ensures a != b
  {
    LessIrreflexive(a);
  }

  /** Two slots hold different names. */
  lemma SlotsDiffer(cl: Claim, cl0: Claim, decls: seq<PortDecl>, observed: set<Id>, env: Env, a: nat, b: nat)
    requires Assigned(cl, cl0, decls, observed, env)
    requires NamesAscend(cl.ports, cl0)
    requires DistinctPositionalNames(decls, |decls|)
    requires a < b < |cl.ports|
    ensures cl.ports[a].portname != cl.ports[b].portname
  {
    var k := SlotFacts(cl, cl0, decls, observed, env, a + 1);
    var k' := SlotFacts(cl, cl0, decls, observed, env, b + 1);
    if a + 1 in cl0.free && b + 1 in cl0.free {
      LessDistinct(cl.ports[a].portname, cl.ports[b].portname);
    } else if a + 1 !in cl0.free && b + 1 !in cl0.free {
      if k < k' {
        assert decls[k].portname != decls[k'].portname;
      } else {
        assert decls[k'].portname != decls[k].portname;
      }
    }
  }

  /** No name lands in two slots. */
  lemma NamesDistinct(cl: Claim, cl0: Claim, decls: seq<PortDecl>, observed: set<Id>, env: Env)
    requires Assigned(cl, cl0, decls, observed, env)
    requires NamesAscend(cl.ports, cl0)
    requires DistinctPositionalNames(decls, |decls|)
    ensures DistinctNames(cl.ports)
  {
    forall a, b | 0 <= a < b < |cl.ports|
      ensures cl.ports[a].portname != cl.ports[b].portname
    {
      SlotsDiffer(cl, cl0, decls, observed, env, a, b);
    }
  }

  /** A slot holds a port name. */
  lemma SlotNamed(cl: Claim, cl0: Claim, decls: seq<PortDecl>, observed: set<Id>, env: Env, p: Id)
    requires Assigned(cl, cl0, decls, observed, env)
    requires p in NamesOf(cl.ports)
    ensures p in PortNames(observed, decls)
  {
    var d :| d in cl.ports && d.portname == p;
    var a :| 0 <= a < |cl.ports| && cl.ports[a] == d;
    var k := SlotFacts(cl, cl0, decls, observed, env, a + 1);
  }

  /** A positional name has the slot of its position. */
  lemma PositionalSlotted(cl: Claim, cl0: Claim, decls: seq<PortDecl>, observed: set<Id>, env: Env, p: Id)
    requires Assigned(cl, cl0, decls, observed, env)
    requires p in PositionalNames(decls, |decls|)
    ensures p in NamesOf(cl.ports)
  {
    var k := PositionalNameFrom(decls, |decls|, p);
    PositionalIndexIn(decls, |decls|, k);
    var i := decls[k].index;
    assert i !in cl0.free;
    assert cl.ports[i - 1] == decls[k];
    assert cl.ports[i - 1] in cl.ports;
  }

  /** A name left to the wildcard phase has the slot it was placed in. */
  lemma PendingSlotted(ports: seq<PortDecl>, cl0: Claim, p: Id)
    requires FreeInRange(cl0) && |ports| == |cl0.ports|
    requires NamesPlaced(ports, cl0)
    requires p in cl0.pending
    ensures p in NamesOf(ports)
  {
    var i :| i in cl0.free && ports[i - 1].portname == p;
    assert ports[i - 1] in ports;
  }

  /** A port name has a slot. */
  lemma NameSlotted(cl: Claim, cl0: Claim, decls: seq<PortDecl>, observed: set<Id>, env: Env, p: Id)
    requires Assigned(cl, cl0, decls, observed, env)
    requires NamesPlaced(cl.ports, cl0)
    requires p in PortNames(observed, decls)
    ensures p in NamesOf(cl.ports)
  {
    if p in PositionalNames(decls, |decls|) {
      PositionalSlotted(cl, cl0, decls, observed, env, p);
    } else {
      PendingSlotted(cl.ports, cl0, p);
    }
  }

  /** Every port name lands in some slot, and only port names do. */
  lemma NamesCovered(cl: Claim, cl0: Claim, decls: seq<PortDecl>, observed: set<Id>, env: Env)
    requires Assigned(cl, cl0, decls, observed, env)
    requires NamesPlaced(cl.ports, cl0)
    ensures NamesOf(cl.ports) == PortNames(observed, decls)
  {
    forall p | p in NamesOf(cl.ports)
      ensures p in PortNames(observed, decls)
    {
      SlotNamed(cl, cl0, decls, observed, env, p);
    }
    forall p | p in PortNames(observed, decls)
      ensures p in NamesOf(cl.ports)
    {
      NameSlotted(cl, cl0, decls, observed, env, p);
    }
  }

  /** The wire hierarchy.cc:121-124 adds for one entry of the `ports` vector. */
  function PortWire(d: PortDecl, widths: map<Id, nat>): Wire
  {
    Wire(Width(widths, d.portname), d.index, d.input, d.output)
  }

  lemma NamesOfPrefix(ports: seq<PortDecl>, a: nat)
    requires a < |ports|
    ensures NamesOf(ports[..a + 1]) == NamesOf(ports[..a]) + {ports[a].portname}
  {
    assert ports[..a + 1] == ports[..a] + [ports[a]];
  }

  /** hierarchy.cc:115-125: an empty black box with one wire per entry of `ports`,
      as wide as `portwidths.at` says. `addWire` refuses a name the module already
      has, and `at` one the map does not hold; both are demanded of the caller. */
  method BuildStub(ports: seq<PortDecl>, widths: map<Id, nat>) returns (m: Module)
    requires DistinctNames(ports)
    requires forall a :: 0 <= a < |ports| ==> ports[a].portname in widths
    ensures m.cells == map[] && m.attributes == {BLACKBOX}
    ensures m.wires.Keys == NamesOf(ports)
    ensures forall a :: 0 <= a < |ports| ==> m.wires[ports[a].portname] == PortWire(ports[a], widths)
  {
    var wires: map<Id, Wire> := map[];
    var a := 0;
    while a < |ports|
      invariant 0 <= a <= |ports|
      invariant wires.Keys == NamesOf(ports[..a])
      invariant forall b :: 0 <= b < a ==> ports[b].portname in wires && wires[ports[b].portname] == PortWire(ports[b], widths)
    {
      NamesOfPrefix(ports, a);
      var d := ports[a];
      wires := wires[d.portname := Wire(widths[d.portname], d.index, d.input, d.output)];
      a := a + 1;
    }
    assert ports[..a] == ports;
    m := Module(map[], wires, {BLACKBOX});
  }

  /** The port ids are the positions 1..n, no two wires sharing one. */
  ghost predicate PortIdsArePositions(wires: map<Id, Wire>, n: nat)
  {
    && (forall p :: p in wires ==> 1 <= wires[p].portId <= n)
    && (forall p, q :: p in wires && q in wires && p != q ==> wires[p].portId != wires[q].portId)
  }

  /** A positional declaration's wire has its position and directions; its width is
      that of its name once every positional declaration has, in order, widened its
      own name; so it is at least one bit wide, at least as wide as its own name and
      its `$<index>` connection, and, when positional names are plain, exactly the
      widest of these. */
  ghost predicate PositionalWires(wires: map<Id, Wire>, decls: seq<PortDecl>, widths: map<Id, nat>)
  {
    forall k :: 0 <= k < |decls| && decls[k].index > 0 ==>
      && decls[k].portname in wires
      && wires[decls[k].portname].portId == decls[k].index
      && wires[decls[k].portname].portInput == decls[k].input
      && wires[decls[k].portname].portOutput == decls[k].output
      && wires[decls[k].portname].width == Width(ClaimWidths(widths, decls, |decls|), decls[k].portname)
      && wires[decls[k].portname].width >= Max(Width(widths, decls[k].portname), 1)
      && wires[decls[k].portname].width >= Width(widths, PositionKey(decls[k].index))
      && (PlainPositionalNames(decls) ==>
            wires[decls[k].portname].width
            == Max(Max(Width(widths, decls[k].portname), 1), Width(widths, PositionKey(decls[k].index))))
  }

  /** A name no positional declaration took has the directions of its first
      wildcard declaration and is as wide as what is connected to it, at least one bit. */
  ghost predicate WildcardWire(wires: map<Id, Wire>, p: Id, decls: seq<PortDecl>, env: Env, widths: map<Id, nat>)
  {
    && p in wires
    && FirstWildcard(decls, p, env).Some?
    && wires[p].portInput == decls[FirstWildcard(decls, p, env).value].input
    && wires[p].portOutput == decls[FirstWildcard(decls, p, env).value].output
    && wires[p].width == Max(Width(widths, p), 1)
  }

  /** The names no positional declaration took have wildcard wires and take their
      positions in name order. */
  ghost predicate WildcardWires(wires: map<Id, Wire>, wild: set<Id>, decls: seq<PortDecl>, env: Env, widths: map<Id, nat>)
  {
    && (forall p :: p in wild ==> WildcardWire(wires, p, decls, env, widths))
    && (forall p, q :: p in wild && q in wild && Less(p, q) ==> wires[p].portId < wires[q].portId)
  }

  /** The module hierarchy.cc:115-125 creates, given the names `observed` on the
      instances, the widths seen there and the declarations. */
  ghost predicate StubOf(m: Module, observed: set<Id>, widths: map<Id, nat>, decls: seq<PortDecl>, env: Env)
  {
    && m.cells == map[] && m.attributes == {BLACKBOX}
    && m.wires.Keys == PortNames(observed, decls)
    && PortIdsArePositions(m.wires, |PortNames(observed, decls)|)
    && PositionalWires(m.wires, decls, widths)
    && WildcardWires(m.wires, PortNames(observed, decls) - PositionalNames(decls, |decls|), decls, env, widths)
  }

  /** What `BuildStub` made of the final `ports` vector. */
  ghost predicate Built(m: Module, ports: seq<PortDecl>, widths: map<Id, nat>)
  {
    && m.cells == map[] && m.attributes == {BLACKBOX}
    && m.wires.Keys == NamesOf(ports)
    && forall a :: 0 <= a < |ports| ==> m.wires[ports[a].portname] == PortWire(ports[a], widths)
  }

  lemma SlotOfName(ports: seq<PortDecl>, p: Id) returns (a: nat)
    requires p in NamesOf(ports)
    ensures a < |ports| && ports[a].portname == p
  {
    var d :| d in ports && d.portname == p;
    a :| 0 <= a < |ports| && ports[a] == d;
  }

  /** Every slot holds the port of its own position. */
  ghost predicate SlotIds(ports: seq<PortDecl>)
  {
    forall a :: 0 <= a < |ports| ==> ports[a].index == a + 1
  }

  lemma SlotIdsHold(cl: Claim, cl0: Claim, decls: seq<PortDecl>, observed: set<Id>, env: Env)
    requires Assigned(cl, cl0, decls, observed, env)
    ensures SlotIds(cl.ports)
  {
    forall a | 0 <= a < |cl.ports|
      ensures cl.ports[a].index == a + 1
    {
      var k := SlotFacts(cl, cl0, decls, observed, env, a + 1);
    }
  }

  /** The wire named `p` has the position of its slot. */
  lemma WireId(m: Module, ports: seq<PortDecl>, w: map<Id, nat>, cl0: Claim, decls: seq<PortDecl>, p: Id)
      returns (a: nat)
    requires SlotIds(ports) && SlotKinds(ports, cl0, decls)
    requires Built(m, ports, w)
    requires p in m.wires
    ensures a < |ports| && ports[a].portname == p && m.wires[p].portId == a + 1
    ensures a + 1 in cl0.free <==> p !in PositionalNames(decls, |decls|)
  {
    a := SlotOfName(ports, p);
    assert ports[(a + 1) - 1] == ports[a];
    assert m.wires[p] == PortWire(ports[a], w);
  }

  lemma StubIds(m: Module, cl: Claim, cl0: Claim, decls: seq<PortDecl>, observed: set<Id>, env: Env)
    requires Assigned(cl, cl0, decls, observed, env)
    requires Built(m, cl.ports, cl.widths)
    ensures PortIdsArePositions(m.wires, |PortNames(observed, decls)|)
  {
    SlotIdsHold(cl, cl0, decls, observed, env);
    SlotKindsHold(cl, cl0, decls, observed, env);
    var n := |PortNames(observed, decls)|;
    assert |cl.ports| == n;
    forall p | p in m.wires
      ensures 1 <= m.wires[p].portId <= n
    {
      var a := WireId(m, cl.ports, cl.widths, cl0, decls, p);
    }
    forall p, q | p in m.wires && q in m.wires && p != q
      ensures m.wires[p].portId != m.wires[q].portId
    {
      var a := WireId(m, cl.ports, cl.widths, cl0, decls, p);
      var b := WireId(m, cl.ports, cl.widths, cl0, decls, q);
    }
  }

  /** The wire of positional declaration `k`. */
  lemma PositionalWire(m: Module, cl: Claim, cl0: Claim, decls: seq<PortDecl>, observed: set<Id>, env: Env,
                       widths: map<Id, nat>, k: nat)
    requires Assigned(cl, cl0, decls, observed, env)
    requires Built(m, cl.ports, cl.widths)
    requires Widened(cl.widths, cl0.widths, cl0.pending)
    requires WidthGrowInv(cl0.widths, decls, |decls|, widths)
    requires WidthFloorInv(cl0.widths, decls, |decls|, widths)
    requires WidthPlainInv(cl0.widths, decls, |decls|, widths)
    requires cl0.widths == ClaimWidths(widths, decls, |decls|)
    requires k < |decls| && decls[k].index > 0
    ensures decls[k].portname in m.wires
    ensures m.wires[decls[k].portname].portId == decls[k].index
    ensures m.wires[decls[k].portname].portInput == decls[k].input
    ensures m.wires[decls[k].portname].portOutput == decls[k].output
    ensures m.wires[decls[k].portname].width == Width(ClaimWidths(widths, decls, |decls|), decls[k].portname)
    ensures m.wires[decls[k].portname].width >= Max(Width(widths, decls[k].portname), 1)
    ensures m.wires[decls[k].portname].width >= Width(widths, PositionKey(decls[k].index))
    ensures PlainPositionalNames(decls) ==>
      m.wires[decls[k].portname].width
      == Max(Max(Width(widths, decls[k].portname), 1), Width(widths, PositionKey(decls[k].index)))
  {
    var i := decls[k].index;
    PositionalIndexIn(decls, |decls|, k);
    PositionalNameIn(decls, |decls|, k);
    assert i !in cl0.free;
    assert cl.ports[i - 1] == decls[k];
    assert cl.ports[i - 1] in cl.ports;
    assert m.wires[decls[k].portname] == PortWire(decls[k], cl.widths);
    assert Width(cl.widths, decls[k].portname) == Width(cl0.widths, decls[k].portname);
  }

  lemma StubPositional(m: Module, cl: Claim, cl0: Claim, decls: seq<PortDecl>, observed: set<Id>, env: Env,
                       widths: map<Id, nat>)
    requires Assigned(cl, cl0, decls, observed, env)
    requires Built(m, cl.ports, cl.widths)
    requires Widened(cl.widths, cl0.widths, cl0.pending)
    requires WidthGrowInv(cl0.widths, decls, |decls|, widths)
    requires WidthFloorInv(cl0.widths, decls, |decls|, widths)
    requires WidthPlainInv(cl0.widths, decls, |decls|, widths)
    requires cl0.widths == ClaimWidths(widths, decls, |decls|)
    ensures PositionalWires(m.wires, decls, widths)
  {
    forall k | 0 <= k < |decls| && decls[k].index > 0 {
      PositionalWire(m, cl, cl0, decls, observed, env, widths, k);
    }
  }

  /** A slot was filled by the wildcard phase exactly when its name is not positional. */
  ghost predicate SlotKinds(ports: seq<PortDecl>, cl0: Claim, decls: seq<PortDecl>)
  {
    forall i :: 1 <= i <= |ports| ==> (i in cl0.free <==> ports[i - 1].portname !in PositionalNames(decls, |decls|))
  }

  lemma SlotKindsHold(cl: Claim, cl0: Claim, decls: seq<PortDecl>, observed: set<Id>, env: Env)
    requires Assigned(cl, cl0, decls, observed, env)
    ensures SlotKinds(cl.ports, cl0, decls)
  {
    forall i | 1 <= i <= |cl.ports|
      ensures i in cl0.free <==> cl.ports[i - 1].portname !in PositionalNames(decls, |decls|)
    {
      var k := SlotFacts(cl, cl0, decls, observed, env, i);
    }
  }

  /** The wire in a slot the wildcard phase filled. */
  lemma SlotWire(m: Module, cl: Claim, cl0: Claim, decls: seq<PortDecl>, env: Env, widths: map<Id, nat>, a: nat)
    requires FreeInRange(cl0) && |cl.ports| == |cl0.ports|
    requires SlotsFilled(cl.ports, cl0, decls, env)
    requires Built(m, cl.ports, cl.widths)
    requires Widened(cl.widths, cl0.widths, cl0.pending)
    requires forall p :: p !in PositionalNames(decls, |decls|) ==> Width(cl0.widths, p) == Width(widths, p)
    requires a + 1 in cl0.free && cl.ports[a].portname !in PositionalNames(decls, |decls|)
    ensures WildcardWire(m.wires, cl.ports[a].portname, decls, env, widths)
  {
    var d := cl.ports[a];
    var p := d.portname;
    assert cl.ports[(a + 1) - 1] == d;
    assert p in cl0.pending && FirstWildcard(decls, p, env).Some? && d == WildcardPort(decls, p, a + 1, env);
    assert d in cl.ports;
    assert p in m.wires;
    assert m.wires[p] == PortWire(d, cl.widths);
    assert Width(cl.widths, p) == Max(Width(cl0.widths, p), 1);
  }

  /** The wire of a name left to the wildcard phase. */
  lemma WildcardNameWire(m: Module, cl: Claim, cl0: Claim, decls: seq<PortDecl>, env: Env,
                         widths: map<Id, nat>, p: Id)
    requires FreeInRange(cl0) && |cl.ports| == |cl0.ports|
    requires SlotsFilled(cl.ports, cl0, decls, env) && SlotKinds(cl.ports, cl0, decls)
    requires Built(m, cl.ports, cl.widths)
    requires Widened(cl.widths, cl0.widths, cl0.pending)
    requires forall p :: p !in PositionalNames(decls, |decls|) ==> Width(cl0.widths, p) == Width(widths, p)
    requires p in NamesOf(cl.ports) && p !in PositionalNames(decls, |decls|)
    ensures WildcardWire(m.wires, p, decls, env, widths)
  {
    var a := SlotOfName(cl.ports, p);
    assert cl.ports[(a + 1) - 1] == cl.ports[a];
    assert a + 1 in cl0.free;
    SlotWire(m, cl, cl0, decls, env, widths, a);
  }

  lemma StubWildcardDirections(m: Module, cl: Claim, cl0: Claim, decls: seq<PortDecl>, env: Env,
                               widths: map<Id, nat>, wild: set<Id>)
    requires FreeInRange(cl0) && |cl.ports| == |cl0.ports|
    requires SlotsFilled(cl.ports, cl0, decls, env) && SlotKinds(cl.ports, cl0, decls)
    requires Built(m, cl.ports, cl.widths)
    requires Widened(cl.widths, cl0.widths, cl0.pending)
    requires forall p :: p !in PositionalNames(decls, |decls|) ==> Width(cl0.widths, p) == Width(widths, p)
    requires wild <= NamesOf(cl.ports) && wild !! PositionalNames(decls, |decls|)
    ensures forall p :: p in wild ==> WildcardWire(m.wires, p, decls, env, widths)
  {
    forall p | p in wild {
      WildcardNameWire(m, cl, cl0, decls, env, widths, p);
    }
  }

  /** Names left to the wildcard phase take their positions in name order. */
  lemma WildcardOrder(m: Module, ports: seq<PortDecl>, w: map<Id, nat>, cl0: Claim, decls: seq<PortDecl>, p: Id, q: Id)
    requires SlotIds(ports) && SlotKinds(ports, cl0, decls)
    requires Built(m, ports, w)
    requires FreeInRange(cl0) && |ports| == |cl0.ports| && NamesAscend(ports, cl0)
    requires p in m.wires && q in m.wires
    requires p !in PositionalNames(decls, |decls|) && q !in PositionalNames(decls, |decls|)
    requires Less(p, q)
    ensures m.wires[p].portId < m.wires[q].portId
  {
    var a := WireId(m, ports, w, cl0, decls, p);
    var b := WireId(m, ports, w, cl0, decls, q);
    SlotOrder(ports, cl0, a, b, p, q);
  }

  /** Free slots hold their names in ascending order, so the order of two
      names is the order of their slots. */
  lemma SlotOrder(ports: seq<PortDecl>, cl0: Claim, a: nat, b: nat, p: Id, q: Id)
    requires FreeInRange(cl0) && |ports| == |cl0.ports| && NamesAscend(ports, cl0)
    requires a < |ports| && b < |ports| && a + 1 in cl0.free && b + 1 in cl0.free
    requires ports[a].portname == p && ports[b].portname == q && Less(p, q)
    ensures a < b
  {
    LessDistinct(p, q);
    if b < a {
      assert Less(ports[(b + 1) - 1].portname, ports[(a + 1) - 1].portname);
      LessAsymmetric(p, q);
    }
  }

  lemma StubWildcardOrder(m: Module, cl: Claim, cl0: Claim, decls: seq<PortDecl>, observed: set<Id>, env: Env, wild: set<Id>)
    requires Assigned(cl, cl0, decls, observed, env)
    requires Built(m, cl.ports, cl.widths)
    requires NamesAscend(cl.ports, cl0)
    requires wild <= m.wires.Keys && wild !! PositionalNames(decls, |decls|)
    ensures forall p, q :: p in wild && q in wild && Less(p, q) ==> m.wires[p].portId < m.wires[q].portId
  {
    SlotIdsHold(cl, cl0, decls, observed, env);
    SlotKindsHold(cl, cl0, decls, observed, env);
    forall p, q | p in wild && q in wild && Less(p, q) {
      WildcardOrder(m, cl.ports, cl.widths, cl0, decls, p, q);
    }
  }

  /** The widths observed on the instances are determined by them. */
  lemma MaxWidthsUnique(insts: set<Cell>, w1: map<Id, nat>, w2: map<Id, nat>)
    requires IsMaxWidths(insts, w1) && IsMaxWidths(insts, w2)
    ensures forall p :: Width(w1, p) == Width(w2, p)
  {
    forall p
      ensures Width(w1, p) == Width(w2, p)
    {
      if Width(w1, p) > 0 {
        var c :| c in insts && p in c.connections && |c.connections[p]| == Width(w1, p);
      }
      if Width(w2, p) > 0 {
        var c :| c in insts && p in c.connections && |c.connections[p]| == Width(w2, p);
      }
    }
  }

  lemma StubOfWidths(m: Module, observed: set<Id>, w1: map<Id, nat>, w2: map<Id, nat>, decls: seq<PortDecl>, env: Env)
    requires StubOf(m, observed, w1, decls, env)
    requires forall p :: Width(w1, p) == Width(w2, p)
    ensures StubOf(m, observed, w2, decls, env)
  {
    ClaimWidthsAgree(w1, w2, decls, |decls|);
    var wild := PortNames(observed, decls) - PositionalNames(decls, |decls|);
    assert forall p :: p in wild ==> WildcardWire(m.wires, p, decls, env, w2) by {
      forall p | p in wild
        ensures WildcardWire(m.wires, p, decls, env, w2)
      {
        assert WildcardWire(m.wires, p, decls, env, w1);
      }
    }
  }

  /** When `hierarchy -generate` creates a module for a cell type: every position
      is at most the number of ports and is claimed once, no two positional
      declarations share a name, and every other port name matches a wildcard
      declaration. */
  ghost predicate GenerateSucceeds(observed: set<Id>, decls: seq<PortDecl>, env: Env)
  {
    && PositionsValid(decls, |decls|, |PortNames(observed, decls)|)
    && DistinctPositionalNames(decls, |decls|)
    && AllMatched(PortNames(observed, decls) - PositionalNames(decls, |decls|), decls, env)
  }

  /** The error `hierarchy -generate` reports for a cell type: the one the first
      failing positional declaration raises, or, when every position is valid, the
      one the first failing name of the wildcard phase raises, given the indices no
      positional declaration claimed. */
  ghost predicate GenerateFails(e: Error, observed: set<Id>, decls: seq<PortDecl>, env: Env)
  {
    var n := |PortNames(observed, decls)|;
    var wild := PortNames(observed, decls) - PositionalNames(decls, |decls|);
    if !PositionsValid(decls, |decls|, n) then exists j :: 0 <= j < |decls| && FailedAt(decls, j, n, e)
    else FirstWildFailure(e, wild, |Range(n) - PositionalIndices(decls, |decls|)|, decls, env)
  }

  /** What hierarchy.cc:51-131 promises for the instances `insts` of one cell type. */
  ghost predicate GenerateOutcome(r: Result<Module, Error>, insts: set<Cell>, decls: seq<PortDecl>, env: Env)
  {
    && (r.Ok? <==> GenerateSucceeds(ObservedNames(insts), decls, env))
    && (r.Ok? ==> forall widths :: IsMaxWidths(insts, widths) ==> StubOf(r.value, ObservedNames(insts), widths, decls, env))
    && (r.Err? ==> GenerateFails(r.error, ObservedNames(insts), decls, env))
  }

  lemma ClaimFailure(r: Result<Claim, Error>, insts: set<Cell>, decls: seq<PortDecl>, observed: set<Id>,
                     widths: map<Id, nat>, env: Env)
    requires observed == ObservedNames(insts)
    requires ClaimOutcome(r, decls, observed, widths) && r.Err?
    ensures GenerateOutcome(Err(r.error), insts, decls, env)
  {
  }

  lemma WildFailure(r: Result<Claim, Error>, cl0: Claim, insts: set<Cell>, decls: seq<PortDecl>, observed: set<Id>, env: Env)
    requires observed == ObservedNames(insts)
    requires FreeInRange(cl0) && |cl0.free| <= |cl0.pending|
    requires cl0.pending == PortNames(observed, decls) - PositionalNames(decls, |decls|)
    requires |cl0.free| == |cl0.pending| <==> DistinctPositionalNames(decls, |decls|)
    requires PositionsValid(decls, |decls|, |PortNames(observed, decls)|)
    requires cl0.free == Range(|PortNames(observed, decls)|) - PositionalIndices(decls, |decls|)
    requires WildOutcome(r, cl0, decls, env) && r.Err?
    ensures GenerateOutcome(Err(r.error), insts, decls, env)
  {
    assert !GenerateSucceeds(observed, decls, env);
    assert GenerateFails(r.error, observed, decls, env);
  }

  /** Every slot's name is at least one bit wide, so `portwidths.at` finds it. */
  lemma SlotWidth(cl: Claim, cl0: Claim, decls: seq<PortDecl>, observed: set<Id>, env: Env,
                  widths: map<Id, nat>, a: nat)
    requires Assigned(cl, cl0, decls, observed, env)
    requires Widened(cl.widths, cl0.widths, cl0.pending)
    requires WidthFloorInv(cl0.widths, decls, |decls|, widths)
    requires a < |cl.ports|
    ensures cl.ports[a].portname in cl.widths
  {
    var k := SlotFacts(cl, cl0, decls, observed, env, a + 1);
    assert Width(cl.widths, cl.ports[a].portname) >= 1;
  }

  /** The positional and wildcard facts `StubOf` needs, from what both phases left. */
  ghost predicate PhasesDone(cl: Claim, cl0: Claim, decls: seq<PortDecl>, observed: set<Id>, widths: map<Id, nat>, env: Env)
  {
    && Assigned(cl, cl0, decls, observed, env)
    && NamesAscend(cl.ports, cl0) && NamesPlaced(cl.ports, cl0)
    && Widened(cl.widths, cl0.widths, cl0.pending)
    && WidthGrowInv(cl0.widths, decls, |decls|, widths)
    && WidthFloorInv(cl0.widths, decls, |decls|, widths)
    && WidthPlainInv(cl0.widths, decls, |decls|, widths)
    && cl0.widths == ClaimWidths(widths, decls, |decls|)
    && DistinctPositionalNames(decls, |decls|)
  }

  /** The `ports` vector can be made into wires. */
  lemma StubReady(cl: Claim, cl0: Claim, decls: seq<PortDecl>, observed: set<Id>, widths: map<Id, nat>, env: Env)
    requires PhasesDone(cl, cl0, decls, observed, widths, env)
    ensures DistinctNames(cl.ports)
    ensures forall a :: 0 <= a < |cl.ports| ==> cl.ports[a].portname in cl.widths
  {
    NamesDistinct(cl, cl0, decls, observed, env);
    forall a | 0 <= a < |cl.ports|
      ensures cl.ports[a].portname in cl.widths
    {
      SlotWidth(cl, cl0, decls, observed, env, widths, a);
    }
  }

  lemma StubBuilt(m: Module, cl: Claim, cl0: Claim, decls: seq<PortDecl>, observed: set<Id>, widths: map<Id, nat>, env: Env)
    requires PhasesDone(cl, cl0, decls, observed, widths, env)
    requires Built(m, cl.ports, cl.widths)
    ensures StubOf(m, observed, widths, decls, env)
  {
    var wild := PortNames(observed, decls) - PositionalNames(decls, |decls|);
    NamesCovered(cl, cl0, decls, observed, env);
    StubIds(m, cl, cl0, decls, observed, env);
    StubPositional(m, cl, cl0, decls, observed, env, widths);
    SlotKindsHold(cl, cl0, decls, observed, env);
    StubWildcardDirections(m, cl, cl0, decls, env, widths, wild);
    StubWildcardOrder(m, cl, cl0, decls, observed, env, wild);
  }

  lemma StubSuccess(m: Module, insts: set<Cell>, decls: seq<PortDecl>, observed: set<Id>, widths: map<Id, nat>, env: Env)
    requires observed == ObservedNames(insts) && IsMaxWidths(insts, widths)
    requires GenerateSucceeds(observed, decls, env)
    requires StubOf(m, observed, widths, decls, env)
    ensures GenerateOutcome(Ok(m), insts, decls, env)
  {
    forall w | IsMaxWidths(insts, w)
      ensures StubOf(m, observed, w, decls, env)
    {
      MaxWidthsUnique(insts, widths, w);
      StubOfWidths(m, observed, widths, w, decls, env);
    }
  }

  /** hierarchy.cc:115-125, once both phases succeeded. */
  method FromWildcards(cl: Claim, ghost cl0: Claim, ghost insts: set<Cell>, decls: seq<PortDecl>,
                       ghost observed: set<Id>, ghost widths: map<Id, nat>, env: Env) returns (m: Module)
    requires observed == ObservedNames(insts) && IsMaxWidths(insts, widths)
    requires GenerateSucceeds(observed, decls, env)
    requires PhasesDone(cl, cl0, decls, observed, widths, env)
    ensures GenerateOutcome(Ok(m), insts, decls, env)
  {
    StubReady(cl, cl0, decls, observed, widths, env);
    m := BuildStub(cl.ports, cl.widths);
    StubBuilt(m, cl, cl0, decls, observed, widths, env);
    StubSuccess(m, insts, decls, observed, widths, env);
  }

  /** What `ClaimFacts` and a successful wildcard phase give `PhasesDone`. */
  lemma PhasesFacts(cl: Claim, cl0: Claim, decls: seq<PortDecl>, observed: set<Id>, widths: map<Id, nat>, env: Env)
    requires FreeInRange(cl0) && |cl0.free| <= |cl0.pending|
    requires |cl0.ports| == |PortNames(observed, decls)|
    requires cl0.free == Range(|cl0.ports|) - PositionalIndices(decls, |decls|)
    requires cl0.pending == PortNames(observed, decls) - PositionalNames(decls, |decls|)
    requires PositionalSlots(cl0.ports, decls)
    requires |cl0.free| == |cl0.pending| <==> DistinctPositionalNames(decls, |decls|)
    requires WidthGrowInv(cl0.widths, decls, |decls|, widths)
    requires WidthFloorInv(cl0.widths, decls, |decls|, widths)
    requires WidthPlainInv(cl0.widths, decls, |decls|, widths)
    requires cl0.widths == ClaimWidths(widths, decls, |decls|)
    requires WildOutcome(Ok(cl), cl0, decls, env)
    ensures PhasesDone(cl, cl0, decls, observed, widths, env)
    ensures AllMatched(cl0.pending, decls, env)
  {
  }

  /** hierarchy.cc:94-125, once the positional declarations are placed. */
  method FromClaim(cl0: Claim, ghost insts: set<Cell>, decls: seq<PortDecl>, ghost observed: set<Id>,
                   ghost widths: map<Id, nat>, env: Env) returns (r: Result<Module, Error>)
    requires observed == ObservedNames(insts) && IsMaxWidths(insts, widths)
    requires PositionsValid(decls, |decls|, |PortNames(observed, decls)|)
    requires ClaimOf(cl0, decls, observed, widths)
    ensures GenerateOutcome(r, insts, decls, env)
  {
    ClaimFacts(cl0, decls, observed, widths);
    var wild := AssignWildcards(cl0, decls, env);
    if wild.Err? {
      WildFailure(wild, cl0, insts, decls, observed, env);
      r := Err(wild.error);
    } else {
      PhasesFacts(wild.value, cl0, decls, observed, widths, env);
      var m := FromWildcards(wild.value, cl0, insts, decls, observed, widths, env);
      r := Ok(m);
    }
  }

  /** The module `hierarchy -generate` creates for a cell type with instances
      `insts` (hierarchy.cc:51-131). */
  method GenerateModule(insts: set<Cell>, decls: seq<PortDecl>, env: Env) returns (r: Result<Module, Error>)
    ensures GenerateOutcome(r, insts, decls, env)
  {
    var observed, widths := ObservePorts(insts);
    var claim := ClaimPositional(decls, observed, widths);
    if claim.Err? {
      ClaimFailure(claim, insts, decls, observed, widths, env);
      r := Err(claim.error);
    } else {
      r := FromClaim(claim.value, insts, decls, observed, widths, env);
    }
  }
}
