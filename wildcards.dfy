/** The second half of the port assignment of `hierarchy -generate`
    (hierarchy.cc:94-113): every port name no positional declaration took is,
    in name order, given to the first wildcard declaration that matches it and
    placed at the lowest index still free. */
module Wildcards {
  import opened Wrappers
  import opened CStrings
  import opened Rtlil
  import opened PortDecls
  import opened Generate

  /** hierarchy.cc:97: a declaration without a position whose pattern matches the unescaped name. */
  predicate IsWildcardFor(d: PortDecl, name: Id, env: Env)
  {
    d.index == 0 && env.fnmatch(d.portname, env.unescape(name))
  }

  /** The first declaration at or after `from` that is a wildcard for `name`. */
  function FirstWildcardFrom(decls: seq<PortDecl>, name: Id, env: Env, from: nat): (r: Option<nat>)
    requires from <= |decls|
    decreases |decls| - from
    ensures r.Some? ==>
      from <= r.value < |decls| && IsWildcardFor(decls[r.value], name, env)
      && forall k :: from <= k < r.value ==> !IsWildcardFor(decls[k], name, env)
    ensures r.None? ==> forall k :: from <= k < |decls| ==> !IsWildcardFor(decls[k], name, env)
  {
    if from == |decls| then None
    else if IsWildcardFor(decls[from], name, env) then Some(from)
    else FirstWildcardFrom(decls, name, env, from + 1)
  }

  function FirstWildcard(decls: seq<PortDecl>, name: Id, env: Env): Option<nat>
  {
    FirstWildcardFrom(decls, name, env, 0)
  }

  /** The port a wildcard declaration makes of `name` at position `i`: the
      declaration's directions, with the name and position filled in. */
  function WildcardPort(decls: seq<PortDecl>, name: Id, i: int, env: Env): PortDecl
    requires FirstWildcard(decls, name, env).Some?
  {
    decls[FirstWildcard(decls, name, env).value].(portname := name, index := i)
  }

  /** The search over the declarations at hierarchy.cc:96-105. */
  method FindWildcard(decls: seq<PortDecl>, name: Id, env: Env) returns (r: Option<nat>)
    ensures r.Some? ==>
      r.value < |decls| && IsWildcardFor(decls[r.value], name, env)
      && forall k :: 0 <= k < r.value ==> !IsWildcardFor(decls[k], name, env)
    ensures r.None? ==> forall k :: 0 <= k < |decls| ==> !IsWildcardFor(decls[k], name, env)
    ensures r == FirstWildcard(decls, name, env)
  {
    r := None;
    var k := 0;
    while k < |decls| && r.None?
      invariant 0 <= k <= |decls|
      invariant forall i :: 0 <= i < k ==> !IsWildcardFor(decls[i], name, env)
      invariant r.Some? ==> r.value < |decls| && IsWildcardFor(decls[r.value], name, env) && r.value == k
      decreases |decls| - k, if r.None? then 1 else 0
    {
      if IsWildcardFor(decls[k], name, env) {
        r := Some(k);
      } else {
        k := k + 1;
      }
    }
  }

  predicate IsLeastIndex(i: int, s: set<int>)
  {
    i in s && forall x :: x in s ==> i <= x
  }

  /** `*indices.begin()` designates something when the set is not empty. */
  lemma {:induction false} LeastIndexExists(s: set<int>)
    requires s != {}
    ensures exists i :: IsLeastIndex(i, s)
    decreases |s|
  {
    assert exists z :: z in s by {
      if forall z :: z !in s {
        assert false;
      }
    }
    var z :| z in s;
    if s == {z} {
      assert IsLeastIndex(z, s);
    } else {
      var rest := s - {z};
      LeastIndexExists(rest);
      var m :| IsLeastIndex(m, rest);
      if z < m {
        forall x | x in s
          ensures z <= x
        {
          if x != z {
            assert x in rest;
          }
        }
        assert IsLeastIndex(z, s);
      } else {
        forall x | x in s
          ensures m <= x
        {
          if x != z {
            assert x in rest;
          }
        }
        assert IsLeastIndex(m, s);
      }
    }
  }

  /** Every free index names a slot of the `ports` vector. */
  predicate FreeInRange(cl: Claim)
  {
    forall i :: i in cl.free ==> 1 <= i <= |cl.ports|
  }

  /** hierarchy.cc:98-103: the matched name takes slot `i`, which is no longer free,
      and its width is at least 1. */
  function WildNext(cl: Claim, d: PortDecl, p: Id, i: int): Claim
    requires 1 <= i <= |cl.ports|
  {
    Claim(cl.ports[i - 1 := d.(portname := p, index := i)], cl.free - {i}, cl.pending - {p},
          cl.widths[p := Max(Width(cl.widths, p), 1)])
  }

  /** The names placed so far, in order, each below every name still pending, at
      ascending slots, each below every slot still free. */
  ghost predicate OrderInv(names: seq<Id>, slots: seq<int>, pending: set<Id>, free: set<int>)
  {
    && |names| == |slots|
    && (forall a, b :: 0 <= a < b < |names| ==> Less(names[a], names[b]))
    && (forall a, b :: 0 <= a < b < |slots| ==> slots[a] < slots[b])
    && (forall a, q :: 0 <= a < |names| && q in pending ==> Less(names[a], q))
    && (forall a, i :: 0 <= a < |slots| && i in free ==> slots[a] < i)
  }

  /** The names placed are exactly those no longer pending, the slots taken exactly
      those no longer free. */
  ghost predicate SetsInv(names: seq<Id>, slots: seq<int>, pending0: set<Id>, free0: set<int>,
                          pending: set<Id>, free: set<int>)
  {
    && pending <= pending0 && free <= free0
    && |pending| + |names| == |pending0| && |free| + |slots| == |free0|
    && (forall a :: 0 <= a < |names| ==> names[a] in pending0 && names[a] !in pending)
    && (forall a :: 0 <= a < |slots| ==> slots[a] in free0 && slots[a] !in free)
    && (forall p :: p in pending0 && p !in pending ==> p in names)
    && (forall i :: i in free0 && i !in free ==> i in slots)
  }

  /** Each placed name sits in its slot as its first wildcard made it; every other
      slot is as the positional declarations left it. */
  ghost predicate PortsInv(ports: seq<PortDecl>, ports0: seq<PortDecl>, names: seq<Id>, slots: seq<int>,
                           free0: set<int>, free: set<int>, decls: seq<PortDecl>, env: Env)
  {
    && |ports| == |ports0|
    && PortsPlaced(ports, names, slots, decls, env)
    && (forall i :: 1 <= i <= |ports| && (i !in free0 || i in free) ==> ports[i - 1] == ports0[i - 1])
  }

  /** Each placed name sits in its slot as its first wildcard made it. */
  ghost predicate PortsPlaced(ports: seq<PortDecl>, names: seq<Id>, slots: seq<int>, decls: seq<PortDecl>, env: Env)
  {
    forall a :: 0 <= a < |names| && a < |slots| ==>
      FirstWildcard(decls, names[a], env).Some? && 1 <= slots[a] <= |ports|
      && ports[slots[a] - 1] == WildcardPort(decls, names[a], slots[a], env)
  }

  /** A placed name is at least one bit wide; no other width changes. */
  ghost predicate WidthsInv(w: map<Id, nat>, w0: map<Id, nat>, pending0: set<Id>, pending: set<Id>)
  {
    forall p :: Width(w, p) == if p in pending0 && p !in pending then Max(Width(w0, p), 1) else Width(w0, p)
  }

  ghost predicate WildInv(cl: Claim, cl0: Claim, names: seq<Id>, slots: seq<int>, decls: seq<PortDecl>, env: Env)
  {
    && OrderInv(names, slots, cl.pending, cl.free)
    && SetsInv(names, slots, cl0.pending, cl0.free, cl.pending, cl.free)
    && PortsInv(cl.ports, cl0.ports, names, slots, cl0.free, cl.free, decls, env)
    && WidthsInv(cl.widths, cl0.widths, cl0.pending, cl.pending)
  }

  lemma WildInit(cl0: Claim, decls: seq<PortDecl>, env: Env)
    ensures WildInv(cl0, cl0, [], [], decls, env)
  {
  }

  lemma OrderStep(names: seq<Id>, slots: seq<int>, pending: set<Id>, free: set<int>, p: Id, i: int)
    requires OrderInv(names, slots, pending, free)
    requires IsLeast(p, pending) && IsLeastIndex(i, free)
    ensures OrderInv(names + [p], slots + [i], pending - {p}, free - {i})
  {
  }

  lemma SetsStep(names: seq<Id>, slots: seq<int>, pending0: set<Id>, free0: set<int>,
                 pending: set<Id>, free: set<int>, p: Id, i: int)
    requires SetsInv(names, slots, pending0, free0, pending, free)
    requires p in pending && i in free
    ensures SetsInv(names + [p], slots + [i], pending0, free0, pending - {p}, free - {i})
  {
  }

  lemma PortsStep(ports: seq<PortDecl>, ports0: seq<PortDecl>, names: seq<Id>, slots: seq<int>,
                  free0: set<int>, free: set<int>, decls: seq<PortDecl>, env: Env, p: Id, i: int)
    requires PortsInv(ports, ports0, names, slots, free0, free, decls, env)
    requires |names| == |slots| && forall a :: 0 <= a < |slots| ==> slots[a] !in free
    requires i in free && free <= free0 && 1 <= i <= |ports|
    requires FirstWildcard(decls, p, env).Some?
    ensures PortsInv(ports[i - 1 := WildcardPort(decls, p, i, env)], ports0, names + [p], slots + [i],
                     free0, free - {i}, decls, env)
  {
  }

  lemma WidthsStep(w: map<Id, nat>, w0: map<Id, nat>, pending0: set<Id>, pending: set<Id>, p: Id)
    requires WidthsInv(w, w0, pending0, pending)
    requires p in pending && pending <= pending0
    ensures WidthsInv(w[p := Max(Width(w, p), 1)], w0, pending0, pending - {p})
  {
  }

  /** Placing the least pending name at the least free index keeps the invariant. */
  lemma TakeWildcard(cl: Claim, cl0: Claim, names: seq<Id>, slots: seq<int>, decls: seq<PortDecl>, env: Env,
                     m: nat, p: Id, i: int)
    requires FreeInRange(cl0)
    requires WildInv(cl, cl0, names, slots, decls, env)
    requires IsLeast(p, cl.pending) && IsLeastIndex(i, cl.free)
    requires FirstWildcard(decls, p, env) == Some(m)
    ensures 1 <= i <= |cl.ports|
    ensures WildInv(WildNext(cl, decls[m], p, i), cl0, names + [p], slots + [i], decls, env)
  {
    OrderStep(names, slots, cl.pending, cl.free, p, i);
    SetsStep(names, slots, cl0.pending, cl0.free, cl.pending, cl.free, p, i);
    PortsStep(cl.ports, cl0.ports, names, slots, cl0.free, cl.free, decls, env, p, i);
    WidthsStep(cl.widths, cl0.widths, cl0.pending, cl.pending, p);
  }

  /** The error a round raises: the least pending name matches no wildcard, or it
      matches one and no index is left. */
  ghost predicate WildFailed(e: Error, cl: Claim, cl0: Claim, decls: seq<PortDecl>, env: Env)
  {
    && (e.PortUnmatched? || e.PortIndicesExhausted?)
    && IsLeast(e.port, cl.pending)
    && (e.PortUnmatched? <==> FirstWildcard(decls, e.port, env).None?)
    && (e.PortIndicesExhausted? ==> cl.free == {})
  }

  /** One round of the loop at hierarchy.cc:94-111. */
  method WildStep(cl: Claim, decls: seq<PortDecl>, env: Env, ghost cl0: Claim, ghost names: seq<Id>, ghost slots: seq<int>)
      returns (r: Result<Claim, Error>, ghost names': seq<Id>, ghost slots': seq<int>)
    requires FreeInRange(cl0)
    requires cl.pending != {}
    requires WildInv(cl, cl0, names, slots, decls, env)
    ensures r.Ok? ==> WildInv(r.value, cl0, names', slots', decls, env) && |r.value.pending| < |cl.pending|
    ensures r.Err? ==> WildFailed(r.error, cl, cl0, decls, env)
  {
    LeastExists(cl.pending);
    var p :| IsLeast(p, cl.pending);
    var m := FindWildcard(decls, p, env);
    names', slots' := names, slots;
    if m.None? {
      r := Err(PortUnmatched(p));
    } else if cl.free == {} {
      r := Err(PortIndicesExhausted(p));
    } else {
      LeastIndexExists(cl.free);
      var i :| IsLeastIndex(i, cl.free);
      TakeWildcard(cl, cl0, names, slots, decls, env, m.value, p, i);
      r := Ok(WildNext(cl, decls[m.value], p, i));
      names', slots' := names + [p], slots + [i];
    }
  }

  /** The loop at hierarchy.cc:94-111, stopping at the first error; `last` is the
      state the failing round started from. */
  method WildAll(cl0: Claim, decls: seq<PortDecl>, env: Env)
      returns (r: Result<Claim, Error>, ghost last: Claim, ghost names: seq<Id>, ghost slots: seq<int>)
    requires FreeInRange(cl0)
    ensures WildInv(last, cl0, names, slots, decls, env)
    ensures r.Ok? ==> r.value == last && last.pending == {}
    ensures r.Err? ==> WildFailed(r.error, last, cl0, decls, env)
    ensures r.Ok? ==> r.value.pending == {}
    ensures r.Err? ==> r.error.port in cl0.pending
  {
    var cl := cl0;
    var failure: Option<Error> := None;
    names, slots := [], [];
    WildInit(cl0, decls, env);
    while cl.pending != {} && failure.None?
      invariant WildInv(cl, cl0, names, slots, decls, env)
      invariant failure.Some? ==> WildFailed(failure.value, cl, cl0, decls, env)
      decreases |cl.pending|, if failure.None? then 1 else 0
    {
      var step, names', slots' := WildStep(cl, decls, env, cl0, names, slots);
      if step.Err? {
        failure := Some(step.error);
      } else {
        cl, names, slots := step.value, names', slots';
      }
    }
    last := cl;
    r := if failure.Some? then Err(failure.value) else Ok(cl);
  }

  /** The state hierarchy.cc:94-113 leaves behind when every name found a place:
      no index is left (the assertion at hierarchy.cc:113), every free slot holds a
      pending name as its first wildcard declaration makes it, names ascend with
      the slots, every pending name is placed, the other slots are untouched and
      every placed name is at least one bit wide. */
  ghost predicate WildcardsOf(cl: Claim, cl0: Claim, decls: seq<PortDecl>, env: Env)
    requires FreeInRange(cl0)
  {
    && cl.free == {} && cl.pending == {}
    && |cl.ports| == |cl0.ports|
    && SlotsFilled(cl.ports, cl0, decls, env)
    && NamesAscend(cl.ports, cl0)
    && NamesPlaced(cl.ports, cl0)
    && (forall i :: 1 <= i <= |cl.ports| && i !in cl0.free ==> cl.ports[i - 1] == cl0.ports[i - 1])
    && Widened(cl.widths, cl0.widths, cl0.pending)
  }

  /** Each name of `placed` is at least one bit wide; no other width changes. */
  ghost predicate Widened(w: map<Id, nat>, w0: map<Id, nat>, placed: set<Id>)
  {
    forall p :: Width(w, p) == if p in placed then Max(Width(w0, p), 1) else Width(w0, p)
  }

  /** Every free slot holds a pending name as its first wildcard declaration makes it. */
  ghost predicate SlotsFilled(ports: seq<PortDecl>, cl0: Claim, decls: seq<PortDecl>, env: Env)
    requires FreeInRange(cl0) && |ports| == |cl0.ports|
  {
    forall i :: i in cl0.free ==>
      var p := ports[i - 1].portname;
      p in cl0.pending && FirstWildcard(decls, p, env).Some? && ports[i - 1] == WildcardPort(decls, p, i, env)
  }

  /** Names ascend with the free slots they fill. */
  ghost predicate NamesAscend(ports: seq<PortDecl>, cl0: Claim)
    requires FreeInRange(cl0) && |ports| == |cl0.ports|
  {
    forall i, i' :: i in cl0.free && i' in cl0.free && i < i' ==> Less(ports[i - 1].portname, ports[i' - 1].portname)
  }

  /** Every pending name fills a free slot. */
  ghost predicate NamesPlaced(ports: seq<PortDecl>, cl0: Claim)
    requires FreeInRange(cl0) && |ports| == |cl0.ports|
  {
    forall p :: p in cl0.pending ==> exists i :: i in cl0.free && ports[i - 1].portname == p
  }

  /** Every pending name has a wildcard declaration. */
  ghost predicate AllMatched(pending: set<Id>, decls: seq<PortDecl>, env: Env)
  {
    forall p :: p in pending ==> FirstWildcard(decls, p, env).Some?
  }

  /** The pending names that come before `p` in name order. */
  ghost function Below(p: Id, pending: set<Id>): set<Id>
  {
    set q | q in pending && Less(q, p)
  }

  /** The error the loop at hierarchy.cc:94-111 stops with, given the names
      `pending` and `free` free indices: the name is the first one whose round fails,
      so every pending name before it matched a wildcard and took an index; it
      matches no wildcard, or it matches one when the names before it have taken
      every free index. */
  ghost predicate FirstWildFailure(e: Error, pending: set<Id>, free: nat, decls: seq<PortDecl>, env: Env)
  {
    && (e.PortUnmatched? || e.PortIndicesExhausted?)
    && e.port in pending
    && AllMatched(Below(e.port, pending), decls, env)
    && |Below(e.port, pending)| <= free
    && (e.PortUnmatched? <==> FirstWildcard(decls, e.port, env).None?)
    && (e.PortIndicesExhausted? ==> |Below(e.port, pending)| == free)
  }

  /** What hierarchy.cc:94-113 promises: it succeeds exactly when every pending name
      matches a wildcard declaration and there are as many free indices as names;
      it then leaves `WildcardsOf`; otherwise it stops with `FirstWildFailure`. */
  ghost predicate WildOutcome(r: Result<Claim, Error>, cl0: Claim, decls: seq<PortDecl>, env: Env)
    requires FreeInRange(cl0)
  {
    && (r.Ok? <==> AllMatched(cl0.pending, decls, env) && |cl0.pending| <= |cl0.free|)
    && (r.Ok? ==> WildcardsOf(r.value, cl0, decls, env))
    && (r.Err? ==> FirstWildFailure(r.error, cl0.pending, |cl0.free|, decls, env))
  }

  /** At most one name fails first, and the error it raises is determined by it. */
  lemma FirstWildFailureUnique(e: Error, e': Error, pending: set<Id>, free: nat, decls: seq<PortDecl>, env: Env)
    requires FirstWildFailure(e, pending, free, decls, env)
    requires FirstWildFailure(e', pending, free, decls, env)
    ensures e == e'
  {
    var p, p' := e.port, e'.port;
    LessTotal(p, p');
    if Less(p, p') {
      assert p in Below(p', pending);
      BelowGrows(p, p', pending);
      assert false;
    } else if Less(p', p) {
      assert p' in Below(p, pending);
      BelowGrows(p', p, pending);
      assert false;
    }
  }

  /** A later name has more names before it. */
  lemma BelowGrows(p: Id, p': Id, pending: set<Id>)
    requires p in pending && Less(p, p')
    ensures Below(p, pending) < Below(p', pending)
    ensures |Below(p, pending)| < |Below(p', pending)|
  {
    forall q | q in Below(p, pending)
      ensures q in Below(p', pending)
    {
      LessTransitive(q, p, p');
    }
    LessIrreflexive(p);
    var b, b' := Below(p, pending), Below(p', pending);
    assert p in b' - b;
    assert b' == b + (b' - b);
  }

  /** The names of a list in ascending order are as many as its length. */
  lemma {:induction false} AscendingCard(names: seq<Id>)
    requires forall a, b :: 0 <= a < b < |names| ==> Less(names[a], names[b])
    ensures |(set q | q in names)| == |names|
    decreases |names|
  {
    if |names| > 0 {
      var init, last := names[..|names| - 1], names[|names| - 1];
      AscendingCard(init);
      forall a | 0 <= a < |init|
        ensures init[a] != last
      {
        assert Less(names[a], names[|names| - 1]);
        LessIrreflexive(last);
      }
      assert names == init + [last];
      assert (set q | q in names) == (set q | q in init) + {last};
    }
  }

  /** Before the least pending name come exactly the names placed so far. */
  lemma BelowPlaced(names: seq<Id>, slots: seq<int>, pending0: set<Id>, free0: set<int>,
                    pending: set<Id>, free: set<int>, p: Id)
    requires OrderInv(names, slots, pending, free)
    requires SetsInv(names, slots, pending0, free0, pending, free)
    requires IsLeast(p, pending)
    ensures Below(p, pending0) == set q | q in names
  {
    forall q | q in pending0 && Less(q, p)
      ensures q in names
    {
      LessAsymmetric(q, p);
      LessIrreflexive(p);
    }
  }

  lemma WildError(e: Error, cl: Claim, cl0: Claim, names: seq<Id>, slots: seq<int>, decls: seq<PortDecl>, env: Env)
    requires FreeInRange(cl0)
    requires WildInv(cl, cl0, names, slots, decls, env)
    requires WildFailed(e, cl, cl0, decls, env)
    ensures WildOutcome(Err(e), cl0, decls, env)
  {
    BelowPlaced(names, slots, cl0.pending, cl0.free, cl.pending, cl.free, e.port);
    AscendingCard(names);
    forall q | q in Below(e.port, cl0.pending)
      ensures FirstWildcard(decls, q, env).Some?
    {
      var a :| 0 <= a < |names| && names[a] == q;
      assert FirstWildcard(decls, names[a], env).Some?;
    }
  }

  /** A slot taken during the loop holds the name placed there. */
  lemma SlotOf(cl: Claim, names: seq<Id>, slots: seq<int>, decls: seq<PortDecl>, env: Env, i: int)
      returns (a: nat)
    requires |names| == |slots|
    requires PortsPlaced(cl.ports, names, slots, decls, env)
    requires i in slots
    ensures a < |slots| == |names| && slots[a] == i && 1 <= i <= |cl.ports|
    ensures cl.ports[i - 1] == WildcardPort(decls, names[a], i, env)
    ensures FirstWildcard(decls, names[a], env).Some?
  {
    a :| 0 <= a < |slots| && slots[a] == i;
    assert cl.ports[slots[a] - 1] == WildcardPort(decls, names[a], slots[a], env);
  }

  lemma WildPlaced(cl: Claim, cl0: Claim, names: seq<Id>, slots: seq<int>, decls: seq<PortDecl>, env: Env)
    requires FreeInRange(cl0)
    requires WildInv(cl, cl0, names, slots, decls, env)
    requires cl.free == {}
    ensures SlotsFilled(cl.ports, cl0, decls, env)
  {
    forall i | i in cl0.free
      ensures cl.ports[i - 1].portname in cl0.pending
      ensures FirstWildcard(decls, cl.ports[i - 1].portname, env).Some?
      ensures cl.ports[i - 1] == WildcardPort(decls, cl.ports[i - 1].portname, i, env)
    {
      var a := SlotOf(cl, names, slots, decls, env, i);
    }
  }

  lemma AscendingIndex(slots: seq<int>, a: nat, b: nat)
    requires forall x, y :: 0 <= x < y < |slots| ==> slots[x] < slots[y]
    requires a < |slots| && b < |slots| && slots[a] < slots[b]
    ensures a < b
  {
  }

  /** Each placed name is the name of the port in its slot. */
  ghost predicate SlotNames(ports: seq<PortDecl>, names: seq<Id>, slots: seq<int>)
  {
    && |names| == |slots|
    && forall a :: 0 <= a < |slots| ==> 1 <= slots[a] <= |ports| && ports[slots[a] - 1].portname == names[a]
  }

  /** Names placed in ascending order into ascending slots ascend with the slots. */
  lemma AscendFrom(ports: seq<PortDecl>, cl0: Claim, names: seq<Id>, slots: seq<int>)
    requires FreeInRange(cl0) && |ports| == |cl0.ports|
    requires forall i :: i in cl0.free ==> i in slots
    requires SlotNames(ports, names, slots)
    requires forall a, b :: 0 <= a < b < |names| ==> Less(names[a], names[b])
    requires forall a, b :: 0 <= a < b < |slots| ==> slots[a] < slots[b]
    ensures NamesAscend(ports, cl0)
  {
    forall i, i' | i in cl0.free && i' in cl0.free && i < i'
      ensures Less(ports[i - 1].portname, ports[i' - 1].portname)
    {
      var a :| 0 <= a < |slots| && slots[a] == i;
      var b :| 0 <= b < |slots| && slots[b] == i';
      AscendingIndex(slots, a, b);
      assert ports[slots[a] - 1].portname == names[a] && ports[slots[b] - 1].portname == names[b];
    }
  }

  lemma WildAscending(cl: Claim, cl0: Claim, names: seq<Id>, slots: seq<int>, decls: seq<PortDecl>, env: Env)
    requires FreeInRange(cl0)
    requires WildInv(cl, cl0, names, slots, decls, env)
    requires cl.free == {}
    ensures NamesAscend(cl.ports, cl0)
  {
    forall a | 0 <= a < |slots|
      ensures 1 <= slots[a] <= |cl.ports| && cl.ports[slots[a] - 1].portname == names[a]
    {
      assert cl.ports[slots[a] - 1] == WildcardPort(decls, names[a], slots[a], env);
    }
    AscendFrom(cl.ports, cl0, names, slots);
  }

  lemma WildOnto(cl: Claim, cl0: Claim, names: seq<Id>, slots: seq<int>, decls: seq<PortDecl>, env: Env)
    requires FreeInRange(cl0)
    requires WildInv(cl, cl0, names, slots, decls, env)
    requires cl.pending == {}
    ensures NamesPlaced(cl.ports, cl0)
    ensures AllMatched(cl0.pending, decls, env)
  {
    forall p | p in cl0.pending
      ensures exists i :: i in cl0.free && cl.ports[i - 1].portname == p
      ensures FirstWildcard(decls, p, env).Some?
    {
      assert p in names;
      var a :| 0 <= a < |names| && names[a] == p;
      assert slots[a] in cl0.free && cl.ports[slots[a] - 1].portname == p;
    }
  }

  lemma WildSuccess(cl: Claim, cl0: Claim, names: seq<Id>, slots: seq<int>, decls: seq<PortDecl>, env: Env)
    requires FreeInRange(cl0) && |cl0.free| <= |cl0.pending|
    requires WildInv(cl, cl0, names, slots, decls, env)
    requires cl.pending == {}
    ensures WildOutcome(Ok(cl), cl0, decls, env)
  {
    assert cl.free == {} by {
      assert |cl.free| == 0;
    }
    WildPlaced(cl, cl0, names, slots, decls, env);
    WildAscending(cl, cl0, names, slots, decls, env);
    WildOnto(cl, cl0, names, slots, decls, env);
  }

  /** The names no positional declaration took (hierarchy.cc:94-113). */
  method AssignWildcards(cl0: Claim, decls: seq<PortDecl>, env: Env) returns (r: Result<Claim, Error>)
    requires FreeInRange(cl0) && |cl0.free| <= |cl0.pending|
    ensures WildOutcome(r, cl0, decls, env)
  {
    ghost var last, names, slots;
    r, last, names, slots := WildAll(cl0, decls, env);
    if r.Ok? {
      WildSuccess(last, cl0, names, slots, decls, env);
    } else {
      WildError(r.error, last, cl0, names, slots, decls, env);
    }
  }
}
