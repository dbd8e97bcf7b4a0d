/** Array cells (hierarchy.cc:144-151, 209-239): a cell of type
    `$array:<idx>:<num>:<type>` is element `idx` of an array of `num`
    instances of `<type>`; each of its connections is either one element wide
    or the whole array, and is then cut down to element `idx`. */
module ArrayCells {
  import opened Wrappers
  import opened CStrings
  import opened Rtlil

  const ARRAY_PREFIX: string := "$array:"

  /** What hierarchy.cc:145-150 reads from an array cell's type. */
  datatype ArrayType = ArrayType(idx: int, num: int, base: Id)

  /** hierarchy.cc:144: `cell->type.substr(0, 7) == "$array:"`. */
  predicate IsArrayType(t: Id)
  {
    HasPrefix(t, ARRAY_PREFIX)
  }

  /** The first `:` of an array type is the one after `$array`. */
  lemma FirstColon(t: Id)
    requires IsArrayType(t)
    ensures Find(t, ':', 0) == 6
  {
    assert t[..7] == ARRAY_PREFIX;
    forall k | 0 <= k < 6
      ensures t[k] != ':'
    {
      assert t[k] == ARRAY_PREFIX[k];
    }
    assert t[6] == ':';
  }

  /** hierarchy.cc:145-150, with `find_first_of` giving -1 for npos, negative
      `substr` lengths meaning "to the end", and `atoi` reading the longest
      number at the start of what it is given. */
  function ParseArrayType(t: Id): ArrayType
    requires IsArrayType(t)
  {
    FirstColon(t);
    var posIdx := Find(t, ':', 0);
    var posNum := Find(t, ':', posIdx + 1);
    var posType := Find(t, ':', posNum + 1);
    ArrayFields(t, posIdx, posNum, posType)
  }

  /** The fields between the colons at `posIdx`, `posNum` and `posType`. */
  function ArrayFields(t: Id, posIdx: int, posNum: int, posType: int): ArrayType
    requires -1 <= posIdx < |t| && -1 <= posNum < |t| && -1 <= posType < |t|
  {
    ArrayType(Atoi(Substr(t, posIdx + 1, posNum)), Atoi(Substr(t, posNum + 1, posType)), t[posType + 1..])
  }

  /** The type the front ends write for element `idx` of an array of `num`. */
  function RenderArrayType(idx: nat, num: nat, base: Id): Id
  {
    ARRAY_PREFIX + Decimal(idx) + ":" + Decimal(num) + ":" + base
  }

  /** `Find` lands on `k` when `k` holds the first `c` after `from`. */
  lemma FindAt(s: string, c: char, from: nat, k: nat)
    requires from <= k < |s| && s[k] == c
    requires forall i :: from <= i < k ==> s[i] != c
    ensures Find(s, c, from) == k
  {
  }

  /** `atoi` of a `substr` that starts with the digits of `n` and then a `:`. */
  lemma AtoiField(t: Id, pos: nat, end: nat, len: int, n: nat)
    requires n <= INT_MAX
    requires end == pos + |Decimal(n)| && end < |t| && t[pos..end] == Decimal(n) && t[end] == ':'
    requires len < 0 || len > |Decimal(n)|
    ensures Atoi(Substr(t, pos, len)) == n
  {
    var d := Decimal(n);
    var s := Substr(t, pos, len);
    assert |s| > |d|;
    assert s[..|d|] == d && s[|d|] == ':' by {
      assert s == t[pos..][..|s|];
    }
    assert s == d + s[|d|..];
    AtoiDecimal(n, s[|d|..]);
  }

  /** After the digits `d` at `pos` the next `:` is the one that follows them. */
  lemma ColonAfterDigits(t: string, pos: nat, end: nat, d: string)
    requires AllDigits(d) && end == pos + |d| && end < |t| && t[pos..end] == d && t[end] == ':'
    ensures Find(t, ':', pos) == end
  {
    forall i | pos <= i < end
      ensures t[i] != ':'
    {
      assert t[i] == d[i - pos];
    }
    FindAt(t, ':', pos, end);
  }

  lemma SliceOfPrefix(x: string, y: string, i: nat, j: nat)
    requires i <= j <= |x|
    ensures (x + y)[i..j] == x[i..j]
  {
  }

  /** Where the fields of a rendered array type lie. */
  lemma RenderedLayout(idx: nat, num: nat, base: Id)
    ensures var t, a := RenderArrayType(idx, num, base), 7 + |Decimal(idx)|;
      var b := a + 1 + |Decimal(num)|;
      && b < |t| && t[..7] == ARRAY_PREFIX
      && t[7..a] == Decimal(idx) && t[a] == ':'
      && t[a + 1..b] == Decimal(num) && t[b] == ':'
      && t[b + 1..] == base
  {
    var di, dn := Decimal(idx), Decimal(num);
    var a := 7 + |di|;
    var b := a + 1 + |dn|;
    var u := ARRAY_PREFIX + di;
    var v := u + ":";
    var w := v + dn;
    var x := w + ":";
    var t := x + base;
    assert t == RenderArrayType(idx, num, base);
    assert |u| == a && |v| == a + 1 && |w| == b && |x| == b + 1;
    assert t[b + 1..] == base && t[b] == ':' by {
      SliceOfPrefix(x, base, b + 1, b + 1);
      assert t[b] == x[b];
    }
    assert t[a + 1..b] == dn && t[a] == ':' by {
      SliceOfPrefix(x, base, a + 1, b);
      SliceOfPrefix(w, ":", a + 1, b);
      assert t[a] == w[a] == v[a];
    }
    assert t[7..a] == di by {
      SliceOfPrefix(x, base, 7, a);
      SliceOfPrefix(w, ":", 7, a);
      SliceOfPrefix(v, dn, 7, a);
      SliceOfPrefix(u, ":", 7, a);
    }
    assert t[..7] == ARRAY_PREFIX by {
      SliceOfPrefix(x, base, 0, 7);
      SliceOfPrefix(w, ":", 0, 7);
      SliceOfPrefix(v, dn, 0, 7);
      SliceOfPrefix(u, ":", 0, 7);
      assert u[0..7] == ARRAY_PREFIX;
      assert t[..7] == t[0..7];
    }
  }

  /** Parsing undoes rendering: the index, the count and the base type
      (which may itself contain `:`) come back unchanged. */
  lemma ParseRendered(idx: nat, num: nat, base: Id)
    requires idx <= INT_MAX && num <= INT_MAX
    ensures IsArrayType(RenderArrayType(idx, num, base))
    ensures ParseArrayType(RenderArrayType(idx, num, base)) == ArrayType(idx, num, base)
  {
    RenderedLayout(idx, num, base);
    var a := 7 + |Decimal(idx)|;
    ParseLaidOut(RenderArrayType(idx, num, base), idx, num, base, a, a + 1 + |Decimal(num)|);
  }

  /** Parsing any type laid out as `$array:<idx>:<num>:<base>`, with the
      second and third colon at `a` and `b`. */
  lemma ParseLaidOut(t: Id, idx: nat, num: nat, base: Id, a: nat, b: nat)
    requires idx <= INT_MAX && num <= INT_MAX
    requires a == 7 + |Decimal(idx)| && b == a + 1 + |Decimal(num)|
    requires b < |t| && t[..7] == ARRAY_PREFIX
    requires t[7..a] == Decimal(idx) && t[a] == ':'
    requires t[a + 1..b] == Decimal(num) && t[b] == ':'
    requires t[b + 1..] == base
    ensures IsArrayType(t)
    ensures ParseArrayType(t) == ArrayType(idx, num, base)
  {
    FirstColon(t);
    ColonAfterDigits(t, 7, a, Decimal(idx));
    ColonAfterDigits(t, a + 1, b, Decimal(num));
    ParseAt(t, a, b);
    AtoiField(t, 7, a, a, idx);
    AtoiField(t, a + 1, b, b, num);
    FieldsAre(t, a, b, idx, num, base);
  }

  /** The fields `ParseArrayType` reads once the colons are at 6, `a` and `b`. */
  lemma ParseAt(t: Id, a: int, b: int)
    requires IsArrayType(t) && Find(t, ':', 0) == 6 && Find(t, ':', 7) == a && Find(t, ':', a + 1) == b
    requires 0 <= b < |t|
    ensures ParseArrayType(t) == ArrayFields(t, 6, a, b)
  {
  }

  lemma FieldsAre(t: Id, a: int, b: int, idx: int, num: int, base: Id)
    requires 7 <= a < b < |t|
    requires Atoi(Substr(t, 7, a)) == idx && Atoi(Substr(t, a + 1, b)) == num && t[b + 1..] == base
    ensures ArrayFields(t, 6, a, b) == ArrayType(idx, num, base)
  {
  }

  /** The first wire (in name order) of `wires` whose `port_id` is `id`. */
  function FirstWithPortId(wires: map<Id, Wire>, id: int): (r: Option<Id>)
    ensures r.Some? ==> r.value in wires && wires[r.value].portId == id
    ensures r.Some? ==> forall n :: n in wires && wires[n].portId == id && n != r.value ==> Less(r.value, n)
    ensures r.None? <==> forall n :: n in wires ==> wires[n].portId != id
  {
    var s := set n | n in wires && wires[n].portId == id;
    if s == {} then
      assert forall n :: n in wires && wires[n].portId == id ==> n in s;
      None
    else
      var m := Least(s);
      assert m in s;
      Some(m)
  }

  /** The wire loop of hierarchy.cc:226-230: the first wire in iteration order
      with port position `id`. */
  method FindPortWire(wires: map<Id, Wire>, id: int) returns (r: Option<Id>)
    ensures r == FirstWithPortId(wires, id)
  {
    var order := Ascending(wires.Keys);
    AscendingSorted(wires.Keys);
    var i := 0;
    r := None;
    while i < |order|
      invariant 0 <= i <= |order|
      invariant forall j :: 0 <= j < i ==> wires[order[j]].portId != id
    {
      if wires[order[i]].portId == id {
        r := Some(order[i]);
        ghost var s := set n | n in wires && wires[n].portId == id;
        forall n | n in s && n != order[i]
          ensures Less(order[i], n)
        {
          var j :| 0 <= j < |order| && order[j] == n;
          AscendingOrder(order, i, j);
          AscendingOrder(order, j, i);
        }
        assert IsLeast(order[i], s);
        var f := FirstWithPortId(wires, id);
        assert IsLeast(f.value, s);
        ExtremesUnique(s);
        return;
      }
      i := i + 1;
    }
    assert forall n :: n in wires ==> wires[n].portId != id by {
      forall n | n in wires
        ensures wires[n].portId != id
      {
        var j :| 0 <= j < |order| && order[j] == n;
      }
    }
  }

  /** hierarchy.cc:223-231: a `$`-prefixed connection names the port at the
      position `atoi` reads after the `$`, when there is one. */
  function PortFor(wires: map<Id, Wire>, key: Id): Id
  {
    if HasPrefix(key, "$") then
      match FirstWithPortId(wires, Atoi(key[1..]))
      case Some(n) => n
      case None => key
    else key
  }

  /** One connection of an array cell to module `target` (hierarchy.cc:221-238).
      The sizes are `int`s in the source; here they are unbounded. */
  function SlicePort(inModule: Id, cell: Id, key: Id, sig: SigSpec, target: Module, a: ArrayType): Result<SigSpec, Error>
  {
    var port := PortFor(target.wires, key);
    if port !in target.wires then Err(ArrayUnknownPort(inModule, cell, key))
    else
      var w := target.wires[port].width;
      if |sig| == w then Ok(sig)
      else if |sig| != w * a.num then Err(ArraySizeMismatch(inModule, cell, key))
      else if w * a.idx < 0 || w * a.idx + w > |sig| then Err(ArraySliceOutOfRange(inModule, cell, key))
      else Ok(sig[w * a.idx..w * a.idx + w])
  }

  lemma MulMonotone(w: nat, a: int, b: int)
    requires a <= b
    ensures w * a <= w * b
    ensures w >= 1 && a < b ==> w * a + w <= w * b
  {
    var d: nat := b - a;
    assert w * b == w * a + w * d by {
      assert b == a + d;
      Distribute(w, a, d);
    }
    if w >= 1 && d >= 1 {
      var e: nat := d - 1;
      assert w * d == w * e + w by {
        Distribute(w, e, 1);
      }
    }
  }

  lemma Distribute(w: int, x: int, y: int)
    ensures w * (x + y) == w * x + w * y
  {
  }

  lemma NonlinearBounds(w: nat, idx: int, num: int)
    requires w >= 1
    ensures w * idx >= 0 <==> idx >= 0
    ensures w * idx + w <= w * num <==> idx < num
  {
    if idx < 0 {
      MulMonotone(w, idx, 0);
    } else {
      MulMonotone(w, 0, idx);
    }
    if idx < num {
      MulMonotone(w, idx, num);
    } else {
      MulMonotone(w, num, idx);
    }
  }

  /** The slicing rule: a connection one element wide is kept, one as wide
      as the whole array gives element `idx`, and anything else, or an
      index outside the array, is an error. */
  lemma SliceRule(inModule: Id, cell: Id, key: Id, sig: SigSpec, target: Module, a: ArrayType)
    requires PortFor(target.wires, key) in target.wires
    ensures var w := target.wires[PortFor(target.wires, key)].width;
      var r := SlicePort(inModule, cell, key, sig, target, a);
      && (r.Ok? <==> |sig| == w || (|sig| == w * a.num && 0 <= a.idx < a.num))
      && (r.Ok? ==> |r.value| == w)
      && (|sig| == w ==> r == Ok(sig))
      && (r.Ok? && |sig| != w ==> r.value == sig[w * a.idx..][..w])
  {
    var w := target.wires[PortFor(target.wires, key)].width;
    if |sig| != w && |sig| == w * a.num {
      assert w >= 1;
      NonlinearBounds(w, a.idx, a.num);
    }
  }

  /** The bits of the instances of an array, element 0 first. */
  function Flatten(elements: seq<SigSpec>): SigSpec
  {
    if elements == [] then [] else Flatten(elements[..|elements| - 1]) + elements[|elements| - 1]
  }

  lemma {:induction false} FlattenElement(elements: seq<SigSpec>, w: nat, i: nat)
    requires forall k :: 0 <= k < |elements| ==> |elements[k]| == w
    requires i < |elements|
    ensures |Flatten(elements)| == w * |elements|
    ensures w * i + w <= |Flatten(elements)|
    ensures Flatten(elements)[w * i..w * i + w] == elements[i]
  {
    var n := |elements|;
    var init := elements[..n - 1];
    if i < n - 1 {
      FlattenElement(init, w, i);
    } else if n > 1 {
      FlattenElement(init, w, 0);
    }
    assert |Flatten(init)| == w * (n - 1) by {
      if n == 1 {
      } else {
        FlattenElement(init, w, 0);
      }
    }
    assert w * (n - 1) + w == w * n;
    if i == n - 1 {
      assert w * i == |Flatten(init)|;
    } else {
      assert w * i + w <= w * (n - 1) by {
        NonlinearBounds(if w == 0 then 1 else w, i, n - 1);
      }
    }
  }

  /** A connection carrying the whole array gives the array cell its own element. */
  lemma SliceElement(inModule: Id, cell: Id, key: Id, elements: seq<SigSpec>, target: Module, a: ArrayType)
    requires PortFor(target.wires, key) in target.wires
    requires var w := target.wires[PortFor(target.wires, key)].width;
      w >= 1 && forall k :: 0 <= k < |elements| ==> |elements[k]| == w
    requires |elements| == a.num >= 2 && 0 <= a.idx < a.num
    ensures SlicePort(inModule, cell, key, Flatten(elements), target, a) == Ok(elements[a.idx])
  {
    var w := target.wires[PortFor(target.wires, key)].width;
    FlattenElement(elements, w, a.idx);
    assert w * a.num != w by {
      NonlinearBounds(w, 1, a.num);
    }
  }

  /** All of an array cell's connections sliced, as the loop at hierarchy.cc:221-238 leaves them. */
  function SlicedConnections(inModule: Id, cell: Id, conns: map<Id, SigSpec>, target: Module, a: ArrayType): map<Id, SigSpec>
    requires forall k :: k in conns ==> SlicePort(inModule, cell, k, conns[k], target, a).Ok?
  {
    map k | k in conns :: SlicePort(inModule, cell, k, conns[k], target, a).value
  }

  /** The connections of an array cell that cannot be sliced. */
  function Unsliceable(inModule: Id, cell: Id, c: Cell, target: Module, a: ArrayType): set<Id>
  {
    set k | k in c.connections && SlicePort(inModule, cell, k, c.connections[k], target, a).Err?
  }

  /** What hierarchy.cc:221-238 makes of one array cell: every connection
      sliced, or the error of the first connection in key order that cannot be. */
  function Sliced(inModule: Id, cell: Id, c: Cell, target: Module, a: ArrayType): Result<Cell, Error>
  {
    var bad := Unsliceable(inModule, cell, c, target, a);
    if bad == {} then
      assert forall k :: k in c.connections ==> k !in bad;
      Ok(c.(connections := SlicedConnections(inModule, cell, c.connections, target, a)))
    else Err(SlicePort(inModule, cell, Least(bad), c.connections[Least(bad)], target, a).error)
  }

  /** `SliceCell`'s contract determines its result: it is `Sliced`. */
  lemma SliceCellIsSliced(inModule: Id, cell: Id, c: Cell, target: Module, a: ArrayType, r: Result<Cell, Error>)
    requires r.Ok? <==> forall k :: k in c.connections ==> SlicePort(inModule, cell, k, c.connections[k], target, a).Ok?
    requires r.Ok? ==> r.value == c.(connections := SlicedConnections(inModule, cell, c.connections, target, a))
    requires r.Err? ==> exists k :: (k in c.connections && SlicePort(inModule, cell, k, c.connections[k], target, a) == Err(r.error)
      && forall k' :: k' in c.connections && Less(k', k) ==> SlicePort(inModule, cell, k', c.connections[k'], target, a).Ok?)
    ensures r == Sliced(inModule, cell, c, target, a)
  {
    var bad := Unsliceable(inModule, cell, c, target, a);
    if r.Err? {
      var k :| k in c.connections && SlicePort(inModule, cell, k, c.connections[k], target, a) == Err(r.error)
        && forall k' :: k' in c.connections && Less(k', k) ==> SlicePort(inModule, cell, k', c.connections[k'], target, a).Ok?;
      assert k in bad;
      forall x | x in bad && x != k
        ensures Less(k, x)
      {
        LessTotal(k, x);
      }
      assert IsLeast(k, bad);
      ExtremesUnique(bad);
    } else {
      assert bad == {};
    }
  }

  /** The loop over `cell->connections_` (hierarchy.cc:221-238), in key order:
      it succeeds when every connection can be sliced, and otherwise reports
      the first connection that cannot. */
  method SliceCell(inModule: Id, cell: Id, c: Cell, target: Module, a: ArrayType) returns (r: Result<Cell, Error>)
    ensures r.Ok? <==> forall k :: k in c.connections ==> SlicePort(inModule, cell, k, c.connections[k], target, a).Ok?
    ensures r.Ok? ==> r.value == c.(connections := SlicedConnections(inModule, cell, c.connections, target, a))
    ensures r.Err? ==> exists k :: (k in c.connections && SlicePort(inModule, cell, k, c.connections[k], target, a) == Err(r.error)
      && forall k' :: k' in c.connections && Less(k', k) ==> SlicePort(inModule, cell, k', c.connections[k'], target, a).Ok?)
  {
    var order := Ascending(c.connections.Keys);
    AscendingSorted(c.connections.Keys);
    AscendingDistinct(order);
    var conns, at := SliceLoop(inModule, cell, order, c.connections, target, a);
    if conns.Err? {
      SliceStopped(inModule, cell, c.connections, target, a, order, at, conns.error);
      r := Err(conns.error);
    } else {
      SliceFinished(inModule, cell, c.connections, target, a, order, conns.value);
      r := Ok(c.(connections := conns.value));
    }
  }

  /** Where the loop stops is the first connection, in key order, that cannot be sliced. */
  lemma SliceStopped(inModule: Id, cell: Id, conns: map<Id, SigSpec>, target: Module, a: ArrayType,
                     order: seq<Id>, at: nat, e: Error)
    requires forall x :: x in order <==> x in conns
    requires forall i, j :: 0 <= i < j < |order| ==> Less(order[i], order[j])
    requires at < |order| && SlicePort(inModule, cell, order[at], conns[order[at]], target, a) == Err(e)
    requires forall j :: 0 <= j < at ==> SlicePort(inModule, cell, order[j], conns[order[j]], target, a).Ok?
    ensures exists k :: (k in conns && SlicePort(inModule, cell, k, conns[k], target, a) == Err(e)
      && forall k' :: k' in conns && Less(k', k) ==> SlicePort(inModule, cell, k', conns[k'], target, a).Ok?)
  {
    forall k' | k' in conns && Less(k', order[at])
      ensures SlicePort(inModule, cell, k', conns[k'], target, a).Ok?
    {
      var j :| 0 <= j < |order| && order[j] == k';
      AscendingOrder(order, j, at);
    }
    assert order[at] in conns;
  }

  /** A loop that got through every key sliced every connection. */
  lemma SliceFinished(inModule: Id, cell: Id, conns: map<Id, SigSpec>, target: Module, a: ArrayType,
                      order: seq<Id>, sliced: map<Id, SigSpec>)
    requires forall x :: x in order <==> x in conns
    requires sliced.Keys == conns.Keys
    requires forall j :: 0 <= j < |order| ==>
      SlicePort(inModule, cell, order[j], conns[order[j]], target, a).Ok?
      && sliced[order[j]] == SlicePort(inModule, cell, order[j], conns[order[j]], target, a).value
    ensures forall k :: k in conns ==> SlicePort(inModule, cell, k, conns[k], target, a).Ok?
    ensures sliced == SlicedConnections(inModule, cell, conns, target, a)
  {
    forall k | k in conns
      ensures SlicePort(inModule, cell, k, conns[k], target, a).Ok?
      ensures sliced[k] == SlicePort(inModule, cell, k, conns[k], target, a).value
    {
      var j :| 0 <= j < |order| && order[j] == k;
    }
  }

  /** The loop itself, over the keys in `order`; `at` is where it stopped. */
  method SliceLoop(inModule: Id, cell: Id, order: seq<Id>, conns0: map<Id, SigSpec>, target: Module, a: ArrayType)
      returns (r: Result<map<Id, SigSpec>, Error>, ghost at: nat)
    requires forall j :: 0 <= j < |order| ==> order[j] in conns0
    requires forall i, j :: 0 <= i < j < |order| ==> order[i] != order[j]
    ensures r.Ok? ==> r.value.Keys == conns0.Keys
    ensures r.Ok? ==> forall j :: 0 <= j < |order| ==>
      SlicePort(inModule, cell, order[j], conns0[order[j]], target, a).Ok?
      && r.value[order[j]] == SlicePort(inModule, cell, order[j], conns0[order[j]], target, a).value
    ensures r.Err? ==> (at < |order| && SlicePort(inModule, cell, order[at], conns0[order[at]], target, a) == Err(r.error)
      && forall j :: 0 <= j < at ==> SlicePort(inModule, cell, order[j], conns0[order[j]], target, a).Ok?)
  {
    var conns := conns0;
    var i := 0;
    at := 0;
    while i < |order|
      invariant 0 <= i <= |order|
      invariant conns.Keys == conns0.Keys
      invariant forall j :: 0 <= j < i ==>
        SlicePort(inModule, cell, order[j], conns0[order[j]], target, a).Ok?
        && conns[order[j]] == SlicePort(inModule, cell, order[j], conns0[order[j]], target, a).value
      invariant forall j :: i <= j < |order| ==> conns[order[j]] == conns0[order[j]]
    {
      var k := order[i];
      var s := SlicePort(inModule, cell, k, conns0[k], target, a);
      if s.Err? {
        at := i;
        return Err(s.error), at;
      }
      conns := conns[k := s.value];
      i := i + 1;
    }
    r := Ok(conns);
  }
}
