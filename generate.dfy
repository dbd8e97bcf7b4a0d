/** `hierarchy -generate` (hierarchy.cc:36-132): black-box modules for cell
    types the design uses but does not define, with ports inferred from how
    the cells are connected and directions taken from the declarations. */
module Generate {
  import opened Wrappers
  import opened CStrings
  import opened Rtlil
  import opened PortDecls

  /** Every cell of the design, as a value. */
  function AllCells(mods: map<Id, Module>): set<Cell>
  {
    set m, c | m in mods && c in mods[m].cells :: mods[m].cells[c]
  }

  /** The cells of type `t` (hierarchy.cc:58-60). */
  function Instances(mods: map<Id, Module>, t: Id): set<Cell>
  {
    set c | c in AllCells(mods) && c.ctype == t
  }

  predicate MatchesSome(patterns: seq<string>, name: string, env: Env)
  {
    exists i :: 0 <= i < |patterns| && env.fnmatch(patterns[i], name)
  }

  /** hierarchy.cc:44-48: a type that is not internal, not a module of the
      design, and whose unescaped name matches one of the patterns. */
  predicate Wanted(t: Id, mods: map<Id, Module>, patterns: seq<string>, env: Env)
  {
    !StartsWithDollar(t) && t !in mods && MatchesSome(patterns, env.unescape(t), env)
  }

  /** The types of some cells. */
  function Types(cells: set<Cell>): set<Id>
  {
    set c | c in cells :: c.ctype
  }

  lemma TypesAdd(cells: set<Cell>, c: Cell)
    ensures Types(cells + {c}) == Types(cells) + {c.ctype}
  {
  }

  /** A type is used exactly when it has an instance. */
  lemma UsedTypes(mods: map<Id, Module>, t: Id)
    ensures t in Types(AllCells(mods)) <==> Instances(mods, t) != {}
  {
    if t in Types(AllCells(mods)) {
      var c :| c in AllCells(mods) && c.ctype == t;
      assert c in Instances(mods, t);
    }
  }

  /** The cell types to generate modules for (hierarchy.cc:38-49). */
  method FindCellTypes(mods: map<Id, Module>, patterns: seq<string>, env: Env) returns (found: set<Id>)
    ensures forall t :: t in found <==> Wanted(t, mods, patterns, env) && Instances(mods, t) != {}
  {
    found := {};
    var all := AllCells(mods);
    var todo := all;
    ghost var done: set<Cell> := {};
    while todo != {}
      invariant todo + done == all
      invariant forall t :: t in found <==> t in Types(done) && Wanted(t, mods, patterns, env)
      decreases |todo|
    {
      var c :| c in todo;
      var wanted := !StartsWithDollar(c.ctype) && c.ctype !in mods && MatchesSome(patterns, env.unescape(c.ctype), env);
      FoundStep(mods, patterns, env, found, done, c, wanted);
      if wanted {
        found := found + {c.ctype};
      }
      todo, done := todo - {c}, done + {c};
    }
    WantedUsed(mods, patterns, env, found, done);
  }

  lemma FoundStep(mods: map<Id, Module>, patterns: seq<string>, env: Env, found: set<Id>, done: set<Cell>,
                  c: Cell, wanted: bool)
    requires forall t :: t in found <==> t in Types(done) && Wanted(t, mods, patterns, env)
    requires wanted == Wanted(c.ctype, mods, patterns, env)
    ensures forall t :: t in (if wanted then found + {c.ctype} else found) <==>
      t in Types(done + {c}) && Wanted(t, mods, patterns, env)
  {
    TypesAdd(done, c);
  }

  lemma WantedUsed(mods: map<Id, Module>, patterns: seq<string>, env: Env, found: set<Id>, done: set<Cell>)
    requires done == AllCells(mods)
    requires forall t :: t in found <==> t in Types(done) && Wanted(t, mods, patterns, env)
    ensures forall t :: t in found <==> Wanted(t, mods, patterns, env) && Instances(mods, t) != {}
  {
    forall t ensures t in found <==> Wanted(t, mods, patterns, env) && Instances(mods, t) != {} {
      UsedTypes(mods, t);
    }
  }

  /** `portwidths[p]`: the largest width recorded so far, 0 when none. */
  function Width(widths: map<Id, nat>, p: Id): nat
  {
    if p in widths then widths[p] else 0
  }

  function Max(a: nat, b: nat): nat
  {
    if a < b then b else a
  }

  /** `widths` holds, for every connection name, the largest width any of `insts` connects to it. */
  ghost predicate IsMaxWidths(insts: set<Cell>, widths: map<Id, nat>)
  {
    && (forall c, p :: c in insts && p in c.connections ==> |c.connections[p]| <= Width(widths, p))
    && (forall p :: Width(widths, p) > 0 ==>
          exists c :: c in insts && p in c.connections && |c.connections[p]| == Width(widths, p))
  }

  /** The connection names that are not internal (`$`-prefixed) ones. */
  ghost function ObservedNames(insts: set<Cell>): set<Id>
  {
    set c, p | c in insts && p in c.connections && !StartsWithDollar(p) :: p
  }

  /** The port names and widths one cell contributes (hierarchy.cc:61-65). */
  method ObserveCell(c: Cell, names: set<Id>, widths: map<Id, nat>) returns (names': set<Id>, widths': map<Id, nat>)
    ensures names' == names + (set p | p in c.connections && !StartsWithDollar(p))
    ensures forall p :: p in c.connections ==> Width(widths', p) == Max(Width(widths, p), |c.connections[p]|)
    ensures forall p :: p !in c.connections ==> Width(widths', p) == Width(widths, p)
  {
    names', widths' := names, widths;
    var todo := c.connections.Keys;
    while todo != {}
      invariant todo <= c.connections.Keys
      invariant names' == names + (set p | p in c.connections.Keys - todo && !StartsWithDollar(p))
      invariant forall p :: p in c.connections.Keys - todo ==> Width(widths', p) == Max(Width(widths, p), |c.connections[p]|)
      invariant forall p :: p !in c.connections.Keys - todo ==> Width(widths', p) == Width(widths, p)
      decreases |todo|
    {
      var p :| p in todo;
      if !StartsWithDollar(p) {
        names' := names' + {p};
      }
      widths' := widths'[p := Max(Width(widths', p), |c.connections[p]|)];
      todo := todo - {p};
    }
  }

  /** The port names and maximum widths over all instances (hierarchy.cc:53-68). */
  method ObservePorts(insts: set<Cell>) returns (names: set<Id>, widths: map<Id, nat>)
    ensures names == ObservedNames(insts)
    ensures IsMaxWidths(insts, widths)
  {
    names, widths := {}, map[];
    var todo := insts;
    ghost var done: set<Cell> := {};
    while todo != {}
      invariant todo + done == insts && todo !! done
      invariant names == ObservedNames(done)
      invariant IsMaxWidths(done, widths)
      decreases |todo|
    {
      var c :| c in todo;
      ghost var before := widths;
      names, widths := ObserveCell(c, names, widths);
      ObservedNamesAdd(done, c);
      MaxWidthsAdd(done, c, before, widths);
      todo, done := todo - {c}, done + {c};
    }
  }

  lemma ObservedNamesAdd(done: set<Cell>, c: Cell)
    ensures ObservedNames(done + {c}) == ObservedNames(done) + (set p | p in c.connections && !StartsWithDollar(p))
  {
  }

  /** Folding one more cell into the maximum widths. */
  lemma MaxWidthsAdd(done: set<Cell>, c: Cell, before: map<Id, nat>, widths: map<Id, nat>)
    requires IsMaxWidths(done, before)
    requires forall p :: p in c.connections ==> Width(widths, p) == Max(Width(before, p), |c.connections[p]|)
    requires forall p :: p !in c.connections ==> Width(widths, p) == Width(before, p)
    ensures IsMaxWidths(done + {c}, widths)
  {
    forall p | Width(widths, p) > 0
      ensures exists c' :: c' in done + {c} && p in c'.connections && |c'.connections[p]| == Width(widths, p)
    {
      if p in c.connections && Width(widths, p) == |c.connections[p]| {
      } else {
        assert Width(widths, p) == Width(before, p);
      }
    }
  }

  /** An unfilled slot of the `ports` vector (a value-initialised `generate_port_decl_t`). */
  const UNASSIGNED: PortDecl := PortDecl(false, false, "", 0)

  /** The indices 1..n. */
  function Range(n: nat): (r: set<int>)
    ensures forall i :: i in r <==> 1 <= i <= n
    ensures |r| == n
  {
    if n == 0 then {} else Range(n - 1) + {n}
  }

  /** `stringf("$%d", index)`: the connection name of a positional argument. */
  function PositionKey(index: int): Id
    requires index >= 0
  {
    "$" + Decimal(index)
  }

  /** The names of the positional declarations among the first `upto`. */
  ghost function PositionalNames(decls: seq<PortDecl>, upto: nat): set<Id>
    requires upto <= |decls|
  {
    if upto == 0 then {}
    else PositionalNames(decls, upto - 1) + (if decls[upto - 1].index > 0 then {decls[upto - 1].portname} else {})
  }

  /** The indices of the positional declarations among the first `upto`. */
  ghost function PositionalIndices(decls: seq<PortDecl>, upto: nat): set<int>
    requires upto <= |decls|
  {
    if upto == 0 then {}
    else PositionalIndices(decls, upto - 1) + (if decls[upto - 1].index > 0 then {decls[upto - 1].index} else {})
  }

  lemma {:induction false} PositionalNameIn(decls: seq<PortDecl>, upto: nat, k: nat)
    requires k < upto <= |decls| && decls[k].index > 0
    ensures decls[k].portname in PositionalNames(decls, upto)
  {
    if k < upto - 1 {
      PositionalNameIn(decls, upto - 1, k);
    }
  }

  lemma {:induction false} PositionalNameFrom(decls: seq<PortDecl>, upto: nat, x: Id) returns (k: nat)
    requires upto <= |decls| && x in PositionalNames(decls, upto)
    ensures k < upto && decls[k].index > 0 && decls[k].portname == x
  {
    if decls[upto - 1].index > 0 && decls[upto - 1].portname == x {
      k := upto - 1;
    } else {
      k := PositionalNameFrom(decls, upto - 1, x);
    }
  }

  lemma {:induction false} PositionalIndexFrom(decls: seq<PortDecl>, upto: nat, i: int) returns (k: nat)
    requires upto <= |decls| && i in PositionalIndices(decls, upto)
    ensures k < upto && decls[k].index > 0 && decls[k].index == i
  {
    if decls[upto - 1].index > 0 && decls[upto - 1].index == i {
      k := upto - 1;
    } else {
      k := PositionalIndexFrom(decls, upto - 1, i);
    }
  }

  lemma {:induction false} PositionalIndexIn(decls: seq<PortDecl>, upto: nat, k: nat)
    requires k < upto <= |decls| && decls[k].index > 0
    ensures decls[k].index in PositionalIndices(decls, upto)
  {
    if k < upto - 1 {
      PositionalIndexIn(decls, upto - 1, k);
    }
  }

  /** Among the first `upto` declarations, positions are at most `n` and no two share one. */
  ghost predicate PositionsValid(decls: seq<PortDecl>, upto: nat, n: nat)
    requires upto <= |decls|
  {
    && (forall j :: 0 <= j < upto && decls[j].index > 0 ==> decls[j].index <= n)
    && (forall j, k :: 0 <= j < k < upto && decls[j].index > 0 && decls[k].index > 0 ==> decls[j].index != decls[k].index)
  }

  ghost predicate DistinctPositionalNames(decls: seq<PortDecl>, upto: nat)
    requires upto <= |decls|
  {
    forall j, k :: 0 <= j < k < upto && decls[j].index > 0 && decls[k].index > 0 ==> decls[j].portname != decls[k].portname
  }

  /** Positional names are distinct and none looks like a positional connection name. */
  ghost predicate PlainPositionalNames(decls: seq<PortDecl>)
  {
    && DistinctPositionalNames(decls, |decls|)
    && forall j :: 0 <= j < |decls| && decls[j].index > 0 ==> !StartsWithDollar(decls[j].portname)
  }

  /** The range and conflict checks of hierarchy.cc:85-88 as the source means them. */
  function IndexCheck(free: set<int>, index: int, count: nat): (r: Option<Error>)
    ensures r == None <==> index <= count && index in free
    ensures r == Some(PortIndexExceeds(index, count)) <==> index > count
    ensures r == Some(PortIndexConflict(index)) <==> index <= count && index !in free
  {
    if index > count then Some(PortIndexExceeds(index, count))
    else if index !in free then Some(PortIndexConflict(index))
    else None
  }

  /** The same checks as written: the first compares `indices.count(index)`, which is
      0 or 1, with the number of ports instead of comparing `index` itself. */
  function IndexCheckAsWritten(free: set<int>, index: int, count: nat): Option<Error>
  {
    if (if index in free then 1 else 0) > count then Some(PortIndexExceeds(index, count))
    else if index !in free then Some(PortIndexConflict(index))
    else None
  }

  /** As written the range error can never be reported: there is at least one port
      whenever a positional declaration is checked. */
  lemma AsWrittenNeverReportsRange(free: set<int>, index: int, count: nat)
    requires count >= 1
    requires forall i :: i in free ==> 1 <= i <= count
    ensures IndexCheckAsWritten(free, index, count) != Some(PortIndexExceeds(index, count))
    ensures IndexCheckAsWritten(free, index, count) == None <==> IndexCheck(free, index, count) == None
  {
  }

  /** `i@5:A` with no observed ports: one port, index 5 is reported as a conflict. */
  lemma AsWrittenMisreportsRange()
    ensures IndexCheckAsWritten({1}, 5, 1) == Some(PortIndexConflict(5))
    ensures IndexCheck({1}, 5, 1) == Some(PortIndexExceeds(5, 1))
  {
  }


  /** What is left after the positional declarations: the filled `ports` vector,
      the free indices, the names still to place, and the widths. */
  datatype Claim = Claim(ports: seq<PortDecl>, free: set<int>, pending: set<Id>, widths: map<Id, nat>)

  /** hierarchy.cc:79-80: a positional port is at least one bit wide and at least
      as wide as what is connected to its `$<index>` name. */
  function ClaimWidth(w: map<Id, nat>, d: PortDecl): map<Id, nat>
    requires d.index > 0
  {
    var w1 := w[d.portname := Max(Width(w, d.portname), 1)];
    w1[d.portname := Max(Width(w1, d.portname), Width(w1, PositionKey(d.index)))]
  }

  /** The widths once the positional declarations among the first `upto` have, in
      order, widened their names (hierarchy.cc:79-80). */
  function ClaimWidths(widths: map<Id, nat>, decls: seq<PortDecl>, upto: nat): map<Id, nat>
    requires upto <= |decls|
  {
    if upto == 0 then widths
    else if decls[upto - 1].index > 0 then ClaimWidth(ClaimWidths(widths, decls, upto - 1), decls[upto - 1])
    else ClaimWidths(widths, decls, upto - 1)
  }

  /** `i@1:$2 i@2:B` on instances whose `$1` connection is 3 bits wide: the first
      declaration widens the name `$2`, which is the connection of the second, so
      `B` is 3 bits wide though nothing of that width is connected to `B` or `$2`. */
  lemma ChainedWidth()
    ensures var decls := [PortDecl(true, false, "$2", 1), PortDecl(true, false, "B", 2)];
      && Width(ClaimWidths(map["$1" := 3], decls, 2), "B") == 3
      && Max(Max(Width(map["$1" := 3], "B"), 1), Width(map["$1" := 3], "$2")) == 1
  {
    var decls := [PortDecl(true, false, "$2", 1), PortDecl(true, false, "B", 2)];
    assert PositionKey(1) == "$1" && PositionKey(2) == "$2";
    assert Width(ClaimWidths(map["$1" := 3], decls, 1), "$2") == 3;
  }

  /** Only the widths matter, not whether a name of width 0 is a key. */
  lemma {:induction false} ClaimWidthsAgree(w1: map<Id, nat>, w2: map<Id, nat>, decls: seq<PortDecl>, upto: nat)
    requires upto <= |decls|
    requires forall p :: Width(w1, p) == Width(w2, p)
    ensures forall p :: Width(ClaimWidths(w1, decls, upto), p) == Width(ClaimWidths(w2, decls, upto), p)
  {
    if upto > 0 {
      ClaimWidthsAgree(w1, w2, decls, upto - 1);
      if decls[upto - 1].index > 0 {
        ClaimWidthAgrees(ClaimWidths(w1, decls, upto - 1), ClaimWidths(w2, decls, upto - 1), decls[upto - 1]);
      }
    }
  }

  lemma ClaimWidthAgrees(w1: map<Id, nat>, w2: map<Id, nat>, d: PortDecl)
    requires d.index > 0
    requires forall p :: Width(w1, p) == Width(w2, p)
    ensures forall p :: Width(ClaimWidth(w1, d), p) == Width(ClaimWidth(w2, d), p)
  {
    var v1 := w1[d.portname := Max(Width(w1, d.portname), 1)];
    var v2 := w2[d.portname := Max(Width(w2, d.portname), 1)];
    var x := Max(Width(w1, d.portname), 1);
    UpdateAgrees(w1, w2, d.portname, x, v1, v2);
    var y := Max(Width(v1, d.portname), Width(v1, PositionKey(d.index)));
    UpdateAgrees(v1, v2, d.portname, y, v1[d.portname := y], v2[d.portname := y]);
  }

  lemma UpdateAgrees(w1: map<Id, nat>, w2: map<Id, nat>, n: Id, x: nat, u1: map<Id, nat>, u2: map<Id, nat>)
    requires forall p :: Width(w1, p) == Width(w2, p)
    requires u1 == w1[n := x] && u2 == w2[n := x]
    ensures forall p :: Width(u1, p) == Width(u2, p)
  {
    forall p
      ensures Width(u1, p) == Width(u2, p)
    {
      if p != n {
        assert Width(u1, p) == Width(w1, p);
        assert Width(u2, p) == Width(w2, p);
      }
    }
  }

  /** The state after one declaration (hierarchy.cc:78-91): a positional one
      claims its index and its slot, and its name is no longer pending. */
  function ClaimNext(cl: Claim, d: PortDecl): Claim
    requires d.index > 0 ==> 1 <= d.index <= |cl.ports|
  {
    if d.index <= 0 then cl
    else Claim(cl.ports[d.index - 1 := d], cl.free - {d.index}, cl.pending - {d.portname}, ClaimWidth(cl.widths, d))
  }

  /** The index bookkeeping after the first `j` declarations. */
  ghost predicate SlotsInv(ports: seq<PortDecl>, free: set<int>, decls: seq<PortDecl>, j: nat, n: nat)
    requires j <= |decls|
  {
    && PositionsValid(decls, j, n)
    && free == Range(n) - PositionalIndices(decls, j)
    && |ports| == n
    && (forall k :: 0 <= k < j && decls[k].index > 0 ==>
          1 <= decls[k].index <= n && ports[decls[k].index - 1] == decls[k])
    && (forall i :: i in free ==> ports[i - 1] == UNASSIGNED)
  }

  /** The name bookkeeping after the first `j` declarations. */
  ghost predicate NamesInv(free: set<int>, pending: set<Id>, decls: seq<PortDecl>, j: nat, all: set<Id>)
    requires j <= |decls|
  {
    && PositionalNames(decls, |decls|) <= all
    && pending == all - PositionalNames(decls, j)
    && |free| <= |pending|
    && (|free| == |pending| <==> DistinctPositionalNames(decls, j))
  }

  /** Widths only grow, and only those of positional names. */
  ghost predicate WidthGrowInv(w: map<Id, nat>, decls: seq<PortDecl>, j: nat, widths: map<Id, nat>)
    requires j <= |decls|
  {
    && (forall p :: Width(widths, p) <= Width(w, p))
    && (forall p :: p !in PositionalNames(decls, j) ==> Width(w, p) == Width(widths, p))
  }

  /** A positional port is at least one bit and at least its `$<index>` connection wide. */
  ghost predicate WidthFloorInv(w: map<Id, nat>, decls: seq<PortDecl>, j: nat, widths: map<Id, nat>)
    requires j <= |decls|
  {
    forall k :: 0 <= k < j && decls[k].index > 0 ==>
      Width(w, decls[k].portname) >= 1
      && Width(w, decls[k].portname) >= Width(widths, PositionKey(decls[k].index))
  }

  /** When positional names are plain, the width is exactly the larger of the two. */
  ghost predicate WidthPlainInv(w: map<Id, nat>, decls: seq<PortDecl>, j: nat, widths: map<Id, nat>)
    requires j <= |decls|
  {
    PlainPositionalNames(decls) ==> forall k :: 0 <= k < j && decls[k].index > 0 ==>
      Width(w, decls[k].portname)
      == Max(Max(Width(widths, decls[k].portname), 1), Width(widths, PositionKey(decls[k].index)))
  }

  ghost predicate ClaimInv(cl: Claim, decls: seq<PortDecl>, j: nat, all: set<Id>, widths: map<Id, nat>)
    requires j <= |decls|
  {
    && SlotsInv(cl.ports, cl.free, decls, j, |all|)
    && NamesInv(cl.free, cl.pending, decls, j, all)
    && WidthGrowInv(cl.widths, decls, j, widths)
    && WidthFloorInv(cl.widths, decls, j, widths)
    && WidthPlainInv(cl.widths, decls, j, widths)
    && cl.widths == ClaimWidths(widths, decls, j)
  }

  /** The state hierarchy.cc:70-92 leaves behind. */
  ghost predicate ClaimOf(cl: Claim, decls: seq<PortDecl>, observed: set<Id>, widths: map<Id, nat>)
  {
    ClaimInv(cl, decls, |decls|, observed + PositionalNames(decls, |decls|), widths)
  }

  /** A declaration that is not positional adds nothing to the prefix sets. */
  lemma PrefixSkip(decls: seq<PortDecl>, j: nat)
    requires j < |decls| && decls[j].index <= 0
    ensures PositionalNames(decls, j + 1) == PositionalNames(decls, j)
    ensures PositionalIndices(decls, j + 1) == PositionalIndices(decls, j)
  {
  }

  /** A positional declaration adds its name and its index. */
  lemma PrefixTake(decls: seq<PortDecl>, j: nat)
    requires j < |decls| && decls[j].index > 0
    ensures PositionalNames(decls, j + 1) == PositionalNames(decls, j) + {decls[j].portname}
    ensures PositionalIndices(decls, j + 1) == PositionalIndices(decls, j) + {decls[j].index}
  {
  }

  lemma ClaimWidthFacts(w: map<Id, nat>, d: PortDecl)
    requires d.index > 0
    ensures forall p :: p != d.portname ==> Width(ClaimWidth(w, d), p) == Width(w, p)
    ensures Width(ClaimWidth(w, d), d.portname) >= 1
    ensures Width(ClaimWidth(w, d), d.portname) >= Width(w, d.portname)
    ensures Width(ClaimWidth(w, d), d.portname) >= Width(w, PositionKey(d.index))
    ensures PositionKey(d.index) != d.portname ==>
      Width(ClaimWidth(w, d), d.portname) == Max(Max(Width(w, d.portname), 1), Width(w, PositionKey(d.index)))
  {
  }

  lemma WidthGrowStep(w: map<Id, nat>, decls: seq<PortDecl>, j: nat, widths: map<Id, nat>)
    requires j < |decls| && decls[j].index > 0
    requires WidthGrowInv(w, decls, j, widths)
    ensures WidthGrowInv(ClaimWidth(w, decls[j]), decls, j + 1, widths)
  {
    ClaimWidthFacts(w, decls[j]);
    PrefixTake(decls, j);
  }

  lemma WidthFloorStep(w: map<Id, nat>, decls: seq<PortDecl>, j: nat, widths: map<Id, nat>)
    requires j < |decls| && decls[j].index > 0
    requires WidthGrowInv(w, decls, j, widths) && WidthFloorInv(w, decls, j, widths)
    ensures WidthFloorInv(ClaimWidth(w, decls[j]), decls, j + 1, widths)
  {
    ClaimWidthFacts(w, decls[j]);
  }

  lemma WidthPlainStep(w: map<Id, nat>, decls: seq<PortDecl>, j: nat, widths: map<Id, nat>)
    requires j < |decls| && decls[j].index > 0
    requires WidthGrowInv(w, decls, j, widths) && WidthPlainInv(w, decls, j, widths)
    ensures WidthPlainInv(ClaimWidth(w, decls[j]), decls, j + 1, widths)
  {
    if PlainPositionalNames(decls) {
      var d := decls[j];
      ClaimWidthFacts(w, d);
      PrefixTake(decls, j);
      assert PositionKey(d.index)[0] == '$';
      if PositionKey(d.index) in PositionalNames(decls, j + 1) {
        var k := PositionalNameFrom(decls, j + 1, PositionKey(d.index));
        assert false;
      }
      if d.portname in PositionalNames(decls, j) {
        var k := PositionalNameFrom(decls, j, d.portname);
        assert false;
      }
      forall k | 0 <= k < j && decls[k].index > 0
        ensures Width(ClaimWidth(w, d), decls[k].portname) == Width(w, decls[k].portname)
      {
        assert decls[k].portname != decls[j].portname;
      }
    }
  }

  lemma SlotsStep(ports: seq<PortDecl>, free: set<int>, decls: seq<PortDecl>, j: nat, n: nat)
    requires j < |decls| && decls[j].index > 0
    requires SlotsInv(ports, free, decls, j, n)
    requires decls[j].index <= n && decls[j].index in free
    ensures SlotsInv(ports[decls[j].index - 1 := decls[j]], free - {decls[j].index}, decls, j + 1, n)
  {
    var d := decls[j];
    var i := d.index;
    PrefixTake(decls, j);
    forall k | 0 <= k < j && decls[k].index > 0
      ensures decls[k].index != i
    {
      PositionalIndexIn(decls, j, k);
    }
    ValidStep(decls, j, n);
    PlacedStep(ports, decls, j, n);
    FreeStep(ports, free, d);
    SlotsIntro(ports[i - 1 := d], free - {i}, decls, j + 1, n);
  }

  /** The claimed slot now holds its declaration; earlier claims are untouched. */
  lemma PlacedStep(ports: seq<PortDecl>, decls: seq<PortDecl>, j: nat, n: nat)
    requires j < |decls| && 1 <= decls[j].index <= n == |ports|
    requires forall k :: 0 <= k < j && decls[k].index > 0 ==>
      1 <= decls[k].index <= n && ports[decls[k].index - 1] == decls[k]
    requires forall k :: 0 <= k < j && decls[k].index > 0 ==> decls[k].index != decls[j].index
    ensures forall k :: 0 <= k < j + 1 && decls[k].index > 0 ==>
      1 <= decls[k].index <= n && ports[decls[j].index - 1 := decls[j]][decls[k].index - 1] == decls[k]
  {
    var i := decls[j].index;
    forall k | 0 <= k < j + 1 && decls[k].index > 0
      ensures 1 <= decls[k].index <= n && ports[i - 1 := decls[j]][decls[k].index - 1] == decls[k]
    {
      if k < j {
        assert decls[k].index - 1 != i - 1;
      }
    }
  }

  /** The other free slots stay unassigned. */
  lemma FreeStep(ports: seq<PortDecl>, free: set<int>, d: PortDecl)
    requires 1 <= d.index <= |ports|
    requires forall i :: i in free ==> 1 <= i <= |ports| && ports[i - 1] == UNASSIGNED
    ensures forall i :: i in free - {d.index} ==> ports[d.index - 1 := d][i - 1] == UNASSIGNED
  {
    forall x | x in free - {d.index}
      ensures ports[d.index - 1 := d][x - 1] == UNASSIGNED
    {
      assert x - 1 != d.index - 1;
    }
  }

  lemma SlotsIntro(ports: seq<PortDecl>, free: set<int>, decls: seq<PortDecl>, j: nat, n: nat)
    requires j <= |decls| && PositionsValid(decls, j, n)
    requires free == Range(n) - PositionalIndices(decls, j) && |ports| == n
    requires forall k :: 0 <= k < j && decls[k].index > 0 ==>
      1 <= decls[k].index <= n && ports[decls[k].index - 1] == decls[k]
    requires forall i :: i in free ==> ports[i - 1] == UNASSIGNED
    ensures SlotsInv(ports, free, decls, j, n)
  {
  }

  lemma ValidStep(decls: seq<PortDecl>, j: nat, n: nat)
    requires j < |decls| && decls[j].index > 0 && decls[j].index <= n
    requires PositionsValid(decls, j, n)
    requires forall k :: 0 <= k < j && decls[k].index > 0 ==> decls[k].index != decls[j].index
    ensures PositionsValid(decls, j + 1, n)
  {
  }

  /** An index that is in range but no longer free was claimed by an earlier declaration. */
  lemma ConflictWitness(ports: seq<PortDecl>, free: set<int>, decls: seq<PortDecl>, j: nat, n: nat) returns (k: nat)
    requires j < |decls| && decls[j].index > 0
    requires SlotsInv(ports, free, decls, j, n)
    requires decls[j].index <= n && decls[j].index !in free
    ensures k < j && decls[k].index > 0 && decls[k].index == decls[j].index
  {
    k := PositionalIndexFrom(decls, j, decls[j].index);
  }

  lemma DistinctExtend(decls: seq<PortDecl>, j: nat)
    requires j < |decls| && decls[j].index > 0
    ensures DistinctPositionalNames(decls, j + 1)
      <==> DistinctPositionalNames(decls, j) && decls[j].portname !in PositionalNames(decls, j)
  {
    if decls[j].portname in PositionalNames(decls, j) {
      var k := PositionalNameFrom(decls, j, decls[j].portname);
      assert decls[k].portname == decls[j].portname;
    } else {
      forall k | 0 <= k < j && decls[k].index > 0
        ensures decls[k].portname != decls[j].portname
      {
        PositionalNameIn(decls, j, k);
      }
    }
  }

  lemma NamesStep(free: set<int>, pending: set<Id>, decls: seq<PortDecl>, j: nat, all: set<Id>)
    requires j < |decls| && decls[j].index > 0
    requires NamesInv(free, pending, decls, j, all)
    requires decls[j].index in free
    ensures NamesInv(free - {decls[j].index}, pending - {decls[j].portname}, decls, j + 1, all)
  {
    var d := decls[j];
    PrefixTake(decls, j);
    DistinctExtend(decls, j);
    PositionalNameIn(decls, |decls|, j);
    assert d.portname in pending <==> d.portname !in PositionalNames(decls, j);
  }

  lemma SkipStep(cl: Claim, decls: seq<PortDecl>, j: nat, all: set<Id>, widths: map<Id, nat>)
    requires j < |decls| && decls[j].index <= 0
    requires ClaimInv(cl, decls, j, all, widths)
    ensures ClaimInv(ClaimNext(cl, decls[j]), decls, j + 1, all, widths)
  {
    PrefixSkip(decls, j);
    SkipSlots(cl.ports, cl.free, decls, j, |all|);
    SkipNames(cl.free, cl.pending, decls, j, all);
    SkipWidths(cl.widths, decls, j, widths);
  }

  lemma SkipSlots(ports: seq<PortDecl>, free: set<int>, decls: seq<PortDecl>, j: nat, n: nat)
    requires j < |decls| && decls[j].index <= 0
    requires SlotsInv(ports, free, decls, j, n)
    ensures SlotsInv(ports, free, decls, j + 1, n)
  {
    PrefixSkip(decls, j);
  }

  lemma SkipNames(free: set<int>, pending: set<Id>, decls: seq<PortDecl>, j: nat, all: set<Id>)
    requires j < |decls| && decls[j].index <= 0
    requires NamesInv(free, pending, decls, j, all)
    ensures NamesInv(free, pending, decls, j + 1, all)
  {
    PrefixSkip(decls, j);
  }

  lemma SkipWidths(w: map<Id, nat>, decls: seq<PortDecl>, j: nat, widths: map<Id, nat>)
    requires j < |decls| && decls[j].index <= 0
    requires WidthGrowInv(w, decls, j, widths) && WidthFloorInv(w, decls, j, widths) && WidthPlainInv(w, decls, j, widths)
    ensures WidthGrowInv(w, decls, j + 1, widths) && WidthFloorInv(w, decls, j + 1, widths) && WidthPlainInv(w, decls, j + 1, widths)
  {
    PrefixSkip(decls, j);
  }

  lemma TakeStep(cl: Claim, decls: seq<PortDecl>, j: nat, all: set<Id>, widths: map<Id, nat>)
    requires j < |decls| && decls[j].index > 0
    requires ClaimInv(cl, decls, j, all, widths)
    requires decls[j].index <= |all| && decls[j].index in cl.free
    ensures ClaimInv(ClaimNext(cl, decls[j]), decls, j + 1, all, widths)
  {
    SlotsStep(cl.ports, cl.free, decls, j, |all|);
    NamesStep(cl.free, cl.pending, decls, j, all);
    WidthGrowStep(cl.widths, decls, j, widths);
    WidthFloorStep(cl.widths, decls, j, widths);
    WidthPlainStep(cl.widths, decls, j, widths);
  }

  /** The error declaration `j` raises when every earlier one passed: its index
      exceeds the `n` ports, or an earlier declaration already claimed it. */
  ghost predicate FailedAt(decls: seq<PortDecl>, j: nat, n: nat, e: Error)
    requires j < |decls|
  {
    && PositionsValid(decls, j, n)
    && (e.PortIndexExceeds? ==> e.count == n && decls[j].index > 0 && decls[j].index == e.index > e.count)
    && (!e.PortIndexExceeds? ==>
          e.PortIndexConflict?
          && exists k :: 0 <= k < j && decls[k].index > 0 && decls[k].index == decls[j].index == e.index)
  }

  /** What one declaration does to the invariant, on each of its paths. */
  lemma StepFacts(cl: Claim, decls: seq<PortDecl>, j: nat, all: set<Id>, widths: map<Id, nat>)
    requires j < |decls|
    requires ClaimInv(cl, decls, j, all, widths)
    ensures |cl.ports| == |all|
    ensures decls[j].index <= 0 || (decls[j].index <= |all| && decls[j].index in cl.free) ==>
      ClaimInv(ClaimNext(cl, decls[j]), decls, j + 1, all, widths)
    ensures decls[j].index > 0 && decls[j].index <= |all| && decls[j].index !in cl.free ==>
      exists k :: 0 <= k < j && decls[k].index > 0 && decls[k].index == decls[j].index
  {
    if decls[j].index <= 0 {
      SkipStep(cl, decls, j, all, widths);
    } else if decls[j].index <= |all| && decls[j].index in cl.free {
      TakeStep(cl, decls, j, all, widths);
    } else if decls[j].index <= |all| {
      var k := ConflictWitness(cl.ports, cl.free, decls, j, |all|);
    }
  }

  /** The next declaration. */
  function Succ(j: nat): nat
  {
    j + 1
  }

  lemma ClaimInvNext(cl: Claim, decls: seq<PortDecl>, j: nat, all: set<Id>, widths: map<Id, nat>)
    requires j < |decls| && ClaimInv(cl, decls, j + 1, all, widths)
    ensures ClaimInv(cl, decls, Succ(j), all, widths)
  {
  }

  /** One declaration of the loop at hierarchy.cc:77-92. */
  method ClaimStep(cl: Claim, decls: seq<PortDecl>, j: nat, ghost all: set<Id>, ghost widths: map<Id, nat>)
      returns (r: Result<Claim, Error>)
    requires j < |decls|
    requires ClaimInv(cl, decls, j, all, widths)
    ensures r.Ok? ==> ClaimInv(r.value, decls, Succ(j), all, widths)
    ensures r.Err? ==> FailedAt(decls, j, |all|, r.error)
  {
    StepFacts(cl, decls, j, all, widths);
    if decls[j].index <= 0 || (decls[j].index <= |all| && decls[j].index in cl.free) {
      ClaimInvNext(ClaimNext(cl, decls[j]), decls, j, all, widths);
    }
    var d := decls[j];
    var check := if d.index <= 0 then None else IndexCheck(cl.free, d.index, |cl.ports|);
    r := if check.Some? then Err(check.value) else Ok(ClaimNext(cl, d));
  }

  lemma ClaimInit(cl: Claim, decls: seq<PortDecl>, all: set<Id>, widths: map<Id, nat>)
    requires PositionalNames(decls, |decls|) <= all
    requires cl == Claim(seq(|all|, _ => UNASSIGNED), Range(|all|), all, widths)
    ensures ClaimInv(cl, decls, 0, all, widths)
  {
    SlotsInit(cl.ports, cl.free, decls, |all|);
    NamesInit(cl.free, all, decls);
  }

  lemma SlotsInit(ports: seq<PortDecl>, free: set<int>, decls: seq<PortDecl>, n: nat)
    requires ports == seq(n, _ => UNASSIGNED) && free == Range(n)
    ensures SlotsInv(ports, free, decls, 0, n)
  {
    assert PositionalIndices(decls, 0) == {};
  }

  lemma NamesInit(free: set<int>, all: set<Id>, decls: seq<PortDecl>)
    requires PositionalNames(decls, |decls|) <= all
    requires free == Range(|all|)
    ensures NamesInv(free, all, decls, 0, all)
  {
    assert PositionalNames(decls, 0) == {};
  }

  /** An error at declaration `j` shows the positions are not valid. */
  lemma InvalidAt(decls: seq<PortDecl>, j: nat, n: nat, e: Error)
    requires j < |decls|
    requires e.PortIndexExceeds? ==> decls[j].index > 0 && decls[j].index > n
    requires !e.PortIndexExceeds? ==>
      exists k :: 0 <= k < j && decls[k].index > 0 && decls[k].index == decls[j].index
    ensures !PositionsValid(decls, |decls|, n)
  {
    if !e.PortIndexExceeds? {
      var k :| 0 <= k < j && decls[k].index > 0 && decls[k].index == decls[j].index;
    }
  }

  /** What hierarchy.cc:70-92 promises: it succeeds exactly when every position is
      at most the number of ports and no two declarations share one; the claim it
      leaves is `ClaimOf`; otherwise the error is the one `FailedAt` gives for the
      first declaration that does not pass, every earlier one having passed. */
  ghost predicate ClaimOutcome(r: Result<Claim, Error>, decls: seq<PortDecl>, observed: set<Id>, widths: map<Id, nat>)
  {
    var n := |observed + PositionalNames(decls, |decls|)|;
    && (r.Ok? <==> PositionsValid(decls, |decls|, n))
    && (r.Ok? ==> ClaimOf(r.value, decls, observed, widths))
    && (r.Err? ==> exists j :: 0 <= j < |decls| && FailedAt(decls, j, n, r.error))
  }

  /** At most one declaration fails with every earlier one passing, and the error
      it raises is determined by it. */
  lemma FailedAtUnique(decls: seq<PortDecl>, j: nat, k: nat, n: nat, e: Error, e': Error)
    requires j < |decls| && k < |decls|
    requires FailedAt(decls, j, n, e) && FailedAt(decls, k, n, e')
    ensures j == k && e == e'
  {
  }

  lemma ClaimConclude(r: Result<Claim, Error>, decls: seq<PortDecl>, observed: set<Id>, all: set<Id>,
                      widths: map<Id, nat>, j: nat)
    requires all == observed + PositionalNames(decls, |decls|)
    requires r.Ok? ==> ClaimInv(r.value, decls, |decls|, all, widths)
    requires r.Err? ==> j < |decls| && FailedAt(decls, j, |all|, r.error)
    ensures ClaimOutcome(r, decls, observed, widths)
  {
    if r.Err? {
      InvalidAt(decls, j, |all|, r.error);
    }
  }

  /** The port names: those observed and those of the positional declarations (hierarchy.cc:70-72). */
  method CollectPortNames(observed: set<Id>, decls: seq<PortDecl>) returns (all: set<Id>)
    ensures all == observed + PositionalNames(decls, |decls|)
    ensures PositionalNames(decls, |decls|) <= all
  {
    all := observed;
    var j := 0;
    while j < |decls|
      invariant 0 <= j <= |decls|
      invariant all == observed + PositionalNames(decls, j)
    {
      if decls[j].index > 0 {
        PrefixTake(decls, j);
        all := all + {decls[j].portname};
      } else {
        PrefixSkip(decls, j);
      }
      j := j + 1;
    }
  }

  /** The claim before the first positional declaration (hierarchy.cc:74-78):
      every index in {1..n} is free, every slot is empty, every name is pending. */
  method InitialClaim(decls: seq<PortDecl>, all: set<Id>, widths: map<Id, nat>) returns (cl: Claim)
    requires PositionalNames(decls, |decls|) <= all
    ensures ClaimInv(cl, decls, 0, all, widths)
  {
    var free := InitialIndices(|all|);
    cl := Claim(seq(|all|, _ => UNASSIGNED), free, all, widths);
    ClaimInit(cl, decls, all, widths);
  }

  /** The index set {1..n} (hierarchy.cc:74-76). */
  method InitialIndices(n: nat) returns (free: set<int>)
    ensures free == Range(n)
  {
    free := {};
    var i := 0;
    while i < n
      invariant 0 <= i <= n
      invariant free == Range(i)
    {
      free := free + {i + 1};
      i := i + 1;
    }
  }

  /** The positional declarations (hierarchy.cc:70-92): each name joins the port
      names, each claims its index from {1..n}, where no index may be claimed twice
      or lie outside that set, and each takes at least width 1 and the width seen
      on its `$<index>` connection. */
  method ClaimPositional(decls: seq<PortDecl>, observed: set<Id>, widths: map<Id, nat>) returns (r: Result<Claim, Error>)
    ensures ClaimOutcome(r, decls, observed, widths)
  {
    var all := CollectPortNames(observed, decls);
    var cl := InitialClaim(decls, all, widths);
    var j;
    r, j := ClaimAll(cl, decls, all, widths);
    ClaimConclude(r, decls, observed, all, widths, j);
  }

  /** The loop of hierarchy.cc:77-92, stopping at the first error. */
  method ClaimAll(cl0: Claim, decls: seq<PortDecl>, ghost all: set<Id>, ghost widths: map<Id, nat>)
      returns (r: Result<Claim, Error>, j: nat)
    requires ClaimInv(cl0, decls, 0, all, widths)
    ensures r.Ok? ==> ClaimInv(r.value, decls, |decls|, all, widths)
    ensures r.Err? ==> j < |decls| && FailedAt(decls, j, |all|, r.error)
  {
    var cl := cl0;
    j := 0;
    while j < |decls|
      invariant 0 <= j <= |decls|
      invariant ClaimInv(cl, decls, j, all, widths)
    {
      var step := ClaimStep(cl, decls, j, all, widths);
      if step.Err? {
        return step, j;
      }
      cl, j := step.value, Succ(j);
    }
    r := Ok(cl);
  }
}
