/** The module hierarchy below a top module (hierarchy.cc:244-282): which
    modules a module instantiates, which are reachable from the top, and
    which unused modules `hierarchy` keeps. */
module Reach {
  import opened CStrings
  import opened Rtlil

  /** The modules of the design that the cells of `m` instantiate (hierarchy.cc:254-257). */
  function Children(mods: map<Id, Module>, m: Id): set<Id>
    requires m in mods
  {
    set c | c in mods[m].cells && mods[m].cells[c].ctype in mods :: mods[m].cells[c].ctype
  }

  /** Position `i` of `p` is instantiated by the module before it. */
  predicate LinkAt(mods: map<Id, Module>, p: seq<Id>, i: nat)
  {
    1 <= i < |p| && p[i - 1] in mods && p[i] in Children(mods, p[i - 1])
  }

  /** A chain of modules, each instantiating the next. */
  ghost predicate IsPath(mods: map<Id, Module>, p: seq<Id>)
  {
    && |p| > 0
    && (forall i :: 0 <= i < |p| ==> p[i] in mods)
    && (forall i :: 1 <= i < |p| ==> LinkAt(mods, p, i))
  }

  ghost predicate Reaches(mods: map<Id, Module>, a: Id, b: Id)
  {
    exists p :: IsPath(mods, p) && p[0] == a && p[|p| - 1] == b
  }

  /** The modules used from `top`: those some chain of instances leads to. */
  ghost function Reachable(mods: map<Id, Module>, top: Id): set<Id>
  {
    set b | b in mods && Reaches(mods, top, b)
  }

  /** No module of `used` instantiates a module outside it. */
  ghost predicate Closed(mods: map<Id, Module>, used: set<Id>)
  {
    used <= mods.Keys && forall m :: m in used ==> Children(mods, m) <= used
  }

  lemma ReachesSelf(mods: map<Id, Module>, a: Id)
    requires a in mods
    ensures Reaches(mods, a, a)
  {
    assert IsPath(mods, [a]);
  }

  /** A chain that starts with an instance of `c` in `a` continues whatever chain starts at `c`. */
  lemma ReachesThrough(mods: map<Id, Module>, a: Id, c: Id, b: Id)
    requires a in mods && c in Children(mods, a)
    requires Reaches(mods, c, b)
    ensures Reaches(mods, a, b)
  {
    var p :| IsPath(mods, p) && p[0] == c && p[|p| - 1] == b;
    var q := [a] + p;
    forall i | 1 <= i < |q|
      ensures LinkAt(mods, q, i)
    {
      if i > 1 {
        assert LinkAt(mods, p, i - 1);
        assert q[i - 1] == p[i - 2] && q[i] == p[i - 1];
      }
    }
    assert IsPath(mods, q);
  }

  /** A chain that starts inside a closed set never leaves it. */
  lemma {:induction false} PathStaysInside(mods: map<Id, Module>, used: set<Id>, p: seq<Id>)
    requires Closed(mods, used) && IsPath(mods, p) && p[0] in used
    ensures p[|p| - 1] in used
    decreases |p|
  {
    if |p| > 1 {
      var init := p[..|p| - 1];
      assert IsPath(mods, init) by {
        forall i | 1 <= i < |init|
          ensures LinkAt(mods, init, i)
        {
          assert LinkAt(mods, p, i);
          assert init[i - 1] == p[i - 1] && init[i] == p[i];
        }
      }
      PathStaysInside(mods, used, init);
      assert LinkAt(mods, p, |p| - 1);
    }
  }

  /** Every closed set holding `top` holds all it reaches. */
  lemma ClosedHoldsReachable(mods: map<Id, Module>, used: set<Id>, top: Id)
    requires Closed(mods, used) && top in used
    ensures Reachable(mods, top) <= used
  {
    forall b | b in Reachable(mods, top)
      ensures b in used
    {
      var p :| IsPath(mods, p) && p[0] == top && p[|p| - 1] == b;
      PathStaysInside(mods, used, p);
    }
  }

  /** What `top` reaches is closed. */
  lemma ReachableClosed(mods: map<Id, Module>, top: Id)
    requires top in mods
    ensures top in Reachable(mods, top)
    ensures Closed(mods, Reachable(mods, top))
  {
    ReachesSelf(mods, top);
    forall m, c | m in Reachable(mods, top) && c in Children(mods, m)
      ensures c in Reachable(mods, top)
    {
      var p :| IsPath(mods, p) && p[0] == top && p[|p| - 1] == m;
      var q := p + [c];
      forall i | 1 <= i < |q|
        ensures LinkAt(mods, q, i)
      {
        if i < |p| {
          assert LinkAt(mods, p, i);
          assert q[i - 1] == p[i - 1] && q[i] == p[i];
        }
      }
      assert IsPath(mods, q);
    }
  }

  /** The used set is the least closed set holding the top module: any closed
      set holding `top` whose members `top` all reaches is exactly it. */
  lemma UsedIsReachable(mods: map<Id, Module>, used: set<Id>, top: Id)
    requires Closed(mods, used) && top in used
    requires forall m :: m in used ==> Reaches(mods, top, m)
    ensures used == Reachable(mods, top)
  {
    ClosedHoldsReachable(mods, used, top);
  }

  /** hierarchy.cc:272-275: the unused modules `hierarchy` keeps. */
  predicate Protected(name: Id, m: Module, purgeLib: bool, firstPass: bool)
  {
    (firstPass && HasPrefix(name, ABSTRACT_PREFIX)) || (!purgeLib && IsBlackbox(m))
  }

  /** The design after the deletions of hierarchy.cc:266-279. */
  function Pruned(mods: map<Id, Module>, used: set<Id>, purgeLib: bool, firstPass: bool): map<Id, Module>
  {
    map n | n in mods && (n in used || Protected(n, mods[n], purgeLib, firstPass)) :: mods[n]
  }

  /** A chain through the pruned design is one through the original. */
  lemma {:induction false} PrunedPath(mods: map<Id, Module>, used: set<Id>, purgeLib: bool, firstPass: bool, p: seq<Id>)
    requires IsPath(Pruned(mods, used, purgeLib, firstPass), p)
    ensures IsPath(mods, p)
  {
    var pr := Pruned(mods, used, purgeLib, firstPass);
    forall i | 1 <= i < |p|
      ensures LinkAt(mods, p, i)
    {
      assert LinkAt(pr, p, i);
      var c :| c in pr[p[i - 1]].cells && pr[p[i - 1]].cells[c].ctype in pr && pr[p[i - 1]].cells[c].ctype == p[i];
    }
  }

  /** A chain through used modules survives pruning. */
  lemma {:induction false} UsedPathKept(mods: map<Id, Module>, used: set<Id>, purgeLib: bool, firstPass: bool, p: seq<Id>)
    requires IsPath(mods, p) && forall i :: 0 <= i < |p| ==> p[i] in used
    ensures IsPath(Pruned(mods, used, purgeLib, firstPass), p)
  {
    var pr := Pruned(mods, used, purgeLib, firstPass);
    forall i | 1 <= i < |p|
      ensures LinkAt(pr, p, i)
    {
      assert LinkAt(mods, p, i);
      var c :| c in mods[p[i - 1]].cells && mods[p[i - 1]].cells[c].ctype in mods && mods[p[i - 1]].cells[c].ctype == p[i];
      assert c in pr[p[i - 1]].cells;
    }
  }

  /** Every module on a chain from `top` is one `top` reaches. */
  lemma PathReachable(mods: map<Id, Module>, top: Id, p: seq<Id>, i: nat)
    requires IsPath(mods, p) && p[0] == top && i < |p|
    ensures p[i] in Reachable(mods, top)
  {
    var q := p[..i + 1];
    forall k | 1 <= k < |q|
      ensures LinkAt(mods, q, k)
    {
      assert LinkAt(mods, p, k);
      assert q[k - 1] == p[k - 1] && q[k] == p[k];
    }
    assert IsPath(mods, q);
  }

  /** Pruning with the used set of `top` leaves what `top` reaches unchanged. */
  lemma PruneKeepsReachable(mods: map<Id, Module>, top: Id, purgeLib: bool, firstPass: bool)
    requires top in mods
    ensures var used := Reachable(mods, top);
      Reachable(Pruned(mods, used, purgeLib, firstPass), top) == used
  {
    var used := Reachable(mods, top);
    var pr := Pruned(mods, used, purgeLib, firstPass);
    forall b | b in Reachable(pr, top)
      ensures b in used
    {
      var p :| IsPath(pr, p) && p[0] == top && p[|p| - 1] == b;
      PrunedPath(mods, used, purgeLib, firstPass, p);
    }
    forall b | b in used
      ensures b in Reachable(pr, top)
    {
      var p :| IsPath(mods, p) && p[0] == top && p[|p| - 1] == b;
      forall i | 0 <= i < |p|
        ensures p[i] in used
      {
        PathReachable(mods, top, p, i);
      }
      UsedPathKept(mods, used, purgeLib, firstPass, p);
    }
  }

  /** A second `hierarchy` with the same flags deletes nothing more. */
  lemma PruneIdempotent(mods: map<Id, Module>, top: Id, purgeLib: bool, firstPass: bool)
    requires top in mods
    ensures var pr := Pruned(mods, Reachable(mods, top), purgeLib, firstPass);
      Pruned(pr, Reachable(pr, top), purgeLib, firstPass) == pr
  {
    PruneKeepsReachable(mods, top, purgeLib, firstPass);
  }

  /** The top module is never deleted. */
  lemma PruneKeepsTop(mods: map<Id, Module>, top: Id, purgeLib: bool, firstPass: bool)
    requires top in mods
    ensures top in Pruned(mods, Reachable(mods, top), purgeLib, firstPass)
  {
    ReachableClosed(mods, top);
  }
}
