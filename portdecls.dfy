/** The arguments of `hierarchy -generate` (hierarchy.cc:360-393): each is
    either a port declaration `{i|o|io}[@<num>]:<portname>` or, failing that
    grammar in any way, a cell-type pattern. */
module PortDecls {
  import opened CStrings

  /** `generate_port_decl_t`: direction, name (a glob when `index` is 0). */
  datatype PortDecl = PortDecl(input: bool, output: bool, portname: string, index: int)

  datatype Token = Port(decl: PortDecl) | CellType(arg: string)

  /** What a parsed declaration always satisfies. */
  predicate WellFormed(d: PortDecl)
  {
    && (d.input || d.output)
    && 0 <= d.index <= INT_MAX
    && |d.portname| > 0
    && '\0' !in d.portname
  }

  /** How many direction letters `c` starts with: 2 for `io`, 1 for `i` or `o`,
      0 when it starts with neither. */
  function DirectionEnd(c: string): (p: nat)
    ensures p <= |c|
    ensures forall k :: 0 <= k < p ==> c[k] != ':'
  {
    if At(c, 0) == 'i' && At(c, 1) == 'o' then 2
    else if At(c, 0) == 'i' || At(c, 0) == 'o' then 1
    else 0
  }

  /** The position written after the direction letters at `p`: the number after an
      `@`, read by `strtol` and stored in an `int`, or 0 without an `@`. */
  function IndexFrom(c: string, p: nat): int
    requires p <= |c|
  {
    if At(c, p) == '@' then ToInt32(Strtol(c, p + 1).value) else 0
  }

  /** Where the `:` must stand: where `strtol` stopped when there is an `@`, else
      right after the direction letters. Nothing before it is a `:`. */
  function ColonFrom(c: string, p: nat): (q: nat)
    requires p <= |c|
    ensures p <= q <= |c|
    ensures forall k :: p <= k < q ==> c[k] != ':'
  {
    if At(c, p) == '@' then Strtol(c, p + 1).end else p
  }

  /** The grammar of hierarchy.cc:363-383 on the text before any NUL: direction
      letters, then either `@` and a number of at least 1 or nothing, then `:` and
      a name that is not empty. */
  predicate IsPortDecl(c: string)
  {
    && DirectionEnd(c) > 0
    && (At(c, DirectionEnd(c)) == '@' ==> IndexFrom(c, DirectionEnd(c)) >= 1)
    && At(c, ColonFrom(c, DirectionEnd(c))) == ':'
    && ColonFrom(c, DirectionEnd(c)) + 1 < |c|
  }

  /** Classifies one argument, reading it as the `char*` the source walks: it is a
      port declaration exactly when its text before any NUL follows the grammar;
      the name is the text after the first `:`; the position is the number after
      `@`, and at least 1 exactly when there is an `@`; a missing `:`, an empty
      name or a number below 1 makes the argument a cell-type pattern. */
  function ParseToken(arg: string): (t: Token)
    ensures t.CellType? ==> t.arg == arg
    ensures t.Port? <==> IsPortDecl(UntilNul(arg))
    ensures t.Port? ==> WellFormed(t.decl)
    ensures t.Port? && HasPrefix(arg, "io") ==> t.decl.input && t.decl.output
    ensures t.Port? && !HasPrefix(arg, "io") ==>
      (t.decl.input <==> HasPrefix(arg, "i")) && (t.decl.output <==> HasPrefix(arg, "o"))
    ensures !HasPrefix(arg, "i") && !HasPrefix(arg, "o") ==> t == CellType(arg)
    ensures t.Port? ==>
      Find(UntilNul(arg), ':', 0) >= 0 && t.decl.portname == UntilNul(arg)[Find(UntilNul(arg), ':', 0) + 1..]
    ensures Find(UntilNul(arg), ':', 0) == -1 ==> t == CellType(arg)
    ensures Find(UntilNul(arg), ':', 0) == |UntilNul(arg)| - 1 ==> t == CellType(arg)
    ensures t.Port? ==> (t.decl.index >= 1 <==> At(UntilNul(arg), DirectionEnd(UntilNul(arg))) == '@')
    ensures t.Port? ==> t.decl.index == IndexFrom(UntilNul(arg), DirectionEnd(UntilNul(arg)))
    ensures (At(UntilNul(arg), DirectionEnd(UntilNul(arg))) == '@'
             && IndexFrom(UntilNul(arg), DirectionEnd(UntilNul(arg))) < 1) ==> t == CellType(arg)
  {
    var c := UntilNul(arg);
    TextStart(arg, c);
    DirectionsRules(arg, c);
    Directions(arg, c)
  }

  /** hierarchy.cc:363-370: the direction letters of the text `c` of `arg`. */
  function Directions(arg: string, c: string): (t: Token)
    requires '\0' !in c
    ensures t.CellType? ==> t.arg == arg
    ensures t.Port? ==> WellFormed(t.decl)
    ensures t.Port? && At(c, 0) == 'i' && At(c, 1) == 'o' ==> t.decl.input && t.decl.output
    ensures t.Port? && !(At(c, 0) == 'i' && At(c, 1) == 'o') ==>
      (t.decl.input <==> At(c, 0) == 'i') && (t.decl.output <==> At(c, 0) == 'o')
    ensures At(c, 0) != 'i' && At(c, 0) != 'o' ==> t == CellType(arg)
  {
    if At(c, 0) == 'i' && At(c, 1) == 'o' then AfterDirection(arg, c, true, true, 2)
    else if At(c, 0) == 'i' then AfterDirection(arg, c, true, false, 1)
    else if At(c, 0) == 'o' then AfterDirection(arg, c, false, true, 1)
    else CellType(arg)
  }

  /** The grammar rules of `ParseToken` on the text `c`. */
  lemma DirectionsRules(arg: string, c: string)
    requires '\0' !in c
    ensures Directions(arg, c).Port? <==> IsPortDecl(c)
    ensures Directions(arg, c).Port? ==>
      Find(c, ':', 0) >= 0 && Directions(arg, c).decl.portname == c[Find(c, ':', 0) + 1..]
    ensures Find(c, ':', 0) == -1 ==> Directions(arg, c).CellType?
    ensures Find(c, ':', 0) == |c| - 1 ==> Directions(arg, c).CellType?
    ensures Directions(arg, c).Port? ==> (Directions(arg, c).decl.index >= 1 <==> At(c, DirectionEnd(c)) == '@')
    ensures Directions(arg, c).Port? ==> Directions(arg, c).decl.index == IndexFrom(c, DirectionEnd(c))
    ensures (At(c, DirectionEnd(c)) == '@' && IndexFrom(c, DirectionEnd(c)) < 1) ==> Directions(arg, c).CellType?
  {
    var t := Directions(arg, c);
    if At(c, 0) == 'i' && At(c, 1) == 'o' {
      assert t == AfterDirection(arg, c, true, true, 2);
      DirectionRules(arg, c, true, true, 2, t);
    } else if At(c, 0) == 'i' {
      assert t == AfterDirection(arg, c, true, false, 1);
      DirectionRules(arg, c, true, false, 1, t);
    } else if At(c, 0) == 'o' {
      assert t == AfterDirection(arg, c, false, true, 1);
      DirectionRules(arg, c, false, true, 1, t);
    } else {
      assert t == CellType(arg) && DirectionEnd(c) == 0;
      Unparsed(c);
    }
  }

  /** Without direction letters, no `:` of the text begins a name. */
  lemma Unparsed(c: string)
    requires DirectionEnd(c) == 0
    ensures !IsPortDecl(c)
  {
  }

  /** The rules of `ParseToken` for the text `c` once its direction letters end at `p`. */
  lemma DirectionRules(arg: string, c: string, input: bool, output: bool, p: nat, t: Token)
    requires '\0' !in c && (input || output) && 0 < p == DirectionEnd(c)
    requires t == AfterDirection(arg, c, input, output, p)
    ensures t.Port? <==> IsPortDecl(c)
    ensures t.Port? ==> Find(c, ':', 0) >= 0 && t.decl.portname == c[Find(c, ':', 0) + 1..]
    ensures Find(c, ':', 0) == -1 ==> t.CellType?
    ensures Find(c, ':', 0) == |c| - 1 ==> t.CellType?
    ensures t.Port? ==> (t.decl.index >= 1 <==> At(c, DirectionEnd(c)) == '@')
    ensures t.Port? ==> t.decl.index == IndexFrom(c, DirectionEnd(c))
    ensures (At(c, DirectionEnd(c)) == '@' && IndexFrom(c, DirectionEnd(c)) < 1) ==> t.CellType?
  {
    ColonFound(c, p);
  }

  /** The `:` where the grammar wants it is the first one of the text. */
  lemma ColonFound(c: string, p: nat)
    requires p <= |c| && forall k :: 0 <= k < p ==> c[k] != ':'
    ensures At(c, ColonFrom(c, p)) == ':' <==> Find(c, ':', 0) == ColonFrom(c, p)
  {
    var q := ColonFrom(c, p);
    if At(c, q) == ':' {
      assert c[q] == ':';
    }
  }

  /** hierarchy.cc:371-378: an optional `@` and a number that must be at least 1. */
  function AfterDirection(arg: string, c: string, input: bool, output: bool, p: nat): (t: Token)
    requires p <= |c| && '\0' !in c && (input || output)
    ensures t.CellType? ==> t.arg == arg
    ensures t.Port? ==> WellFormed(t.decl) && t.decl.input == input && t.decl.output == output
    ensures t.Port? <==>
      (At(c, p) == '@' ==> IndexFrom(c, p) >= 1) && At(c, ColonFrom(c, p)) == ':' && ColonFrom(c, p) + 1 < |c|
    ensures t.Port? ==> t.decl.portname == c[ColonFrom(c, p) + 1..] && t.decl.index == IndexFrom(c, p)
  {
    if At(c, p) == '@' then
      var conv := Strtol(c, p + 1);
      var index := ToInt32(conv.value);
      if index < 1 then CellType(arg) else AfterIndex(arg, c, input, output, index, conv.end)
    else AfterIndex(arg, c, input, output, 0, p)
  }

  /** hierarchy.cc:379-383: a `:` and then a name that is not empty. */
  function AfterIndex(arg: string, c: string, input: bool, output: bool, index: int, p: nat): (t: Token)
    requires p <= |c| && '\0' !in c && (input || output) && 0 <= index <= INT_MAX
    ensures t.CellType? ==> t.arg == arg
    ensures t.Port? ==> WellFormed(t.decl) && t.decl.input == input && t.decl.output == output
    ensures t.Port? <==> At(c, p) == ':' && p + 1 < |c|
    ensures t.Port? ==> t.decl.portname == c[p + 1..] && t.decl.index == index
  {
    if At(c, p) != ':' then CellType(arg)
    else if At(c, p + 1) == '\0' then CellType(arg)
    else
      assert forall k :: p + 1 <= k < |c| ==> c[p + 1..][k - p - 1] == c[k];
      Port(PortDecl(input, output, c[p + 1..], index))
  }

  function DirectionText(input: bool, output: bool): string
  {
    if input && output then "io" else if input then "i" else "o"
  }

  /** The canonical spelling of a declaration. */
  function Render(d: PortDecl): string
    requires WellFormed(d)
  {
    DirectionText(d.input, d.output) + (if d.index > 0 then "@" + Decimal(d.index) else "") + ":" + d.portname
  }

  /** Every well-formed declaration survives a render and parse unchanged. */
  lemma ParseRender(d: PortDecl)
    requires WellFormed(d)
    ensures ParseToken(Render(d)) == Port(d)
  {
    var dir := DirectionText(d.input, d.output);
    var num := if d.index > 0 then "@" + Decimal(d.index) else "";
    var s := Render(d);
    assert s == dir + num + ":" + d.portname;
    NoNulIn(s, dir, num, d.portname);
    AfterDirectionRender(d, s, dir, num);
    assert s[..|dir|] == dir;
    Dispatch(s, d.input, d.output, |dir|);
  }

  /** After the direction letters comes `@` or `:`, so the direction is read as written. */
  lemma Dispatch(s: string, input: bool, output: bool, p: nat)
    requires input || output
    requires UntilNul(s) == s
    requires p == |DirectionText(input, output)| && p < |s|
    requires s[..p] == DirectionText(input, output) && (s[p] == '@' || s[p] == ':')
    ensures ParseToken(s) == AfterDirection(s, s, input, output, p)
  {
    assert s[0] == s[..p][0];
    if input && output {
      assert s[1] == s[..p][1];
      DispatchOn(s, 'i', 'o', true, true, 2);
    } else if input {
      DispatchOn(s, 'i', s[1], true, false, 1);
    } else {
      DispatchOn(s, 'o', s[1], false, true, 1);
    }
  }

  /** The first two characters pick the directions and where the rest starts. */
  lemma DispatchOn(s: string, c0: char, c1: char, input: bool, output: bool, p: nat)
    requires (c0, c1, input, output, p) == ('i', 'o', true, true, 2)
      || (c0 == 'i' && c1 != 'o' && input && !output && p == 1)
      || (c0 == 'o' && !input && output && p == 1)
    requires UntilNul(s) == s && p < |s| && s[0] == c0 && s[1] == c1
    ensures ParseToken(s) == AfterDirection(s, s, input, output, p)
  {
    assert At(s, 0) == c0 && At(s, 1) == c1;
  }

  lemma AfterDirectionRender(d: PortDecl, s: string, dir: string, num: string)
    requires WellFormed(d)
    requires dir == DirectionText(d.input, d.output)
    requires num == if d.index > 0 then "@" + Decimal(d.index) else ""
    requires s == dir + num + ":" + d.portname && '\0' !in s
    ensures AfterDirection(s, s, d.input, d.output, |dir|) == Port(d)
  {
    var p := |dir|;
    var q := p + |num|;
    assert s[q] == ':';
    assert s[q + 1..] == d.portname;
    if d.index > 0 {
      assert s[p] == '@';
      assert s[p + 1..q] == Decimal(d.index);
      IndexedAt(s, d, p, q);
    } else {
      assert s[p] == ':';
      NameAt(s, d, p);
    }
  }

  /** A `:` at `q` followed by the name completes the declaration. */
  lemma NameAt(s: string, d: PortDecl, q: nat)
    requires WellFormed(d) && '\0' !in s
    requires q < |s| && s[q] == ':' && s[q + 1..] == d.portname
    ensures AfterIndex(s, s, d.input, d.output, d.index, q) == Port(d)
  {
    assert At(s, q + 1) == d.portname[0];
  }

  /** `@`, the digits of the index, then the `:` at `q` and the name. */
  lemma IndexedAt(s: string, d: PortDecl, p: nat, q: nat)
    requires WellFormed(d) && d.index > 0 && '\0' !in s
    requires q == p + 1 + |Decimal(d.index)| && q < |s|
    requires s[p] == '@' && s[p + 1..q] == Decimal(d.index)
    requires s[q] == ':' && s[q + 1..] == d.portname
    ensures AfterDirection(s, s, d.input, d.output, p) == Port(d)
  {
    StrtolDecimal(s, p + 1, q, d.index);
    NameAt(s, d, q);
  }

  lemma NoNulIn(s: string, dir: string, num: string, name: string)
    requires s == dir + num + ":" + name
    requires dir == "io" || dir == "i" || dir == "o"
    requires num == "" || (|num| > 0 && num[0] == '@' && AllDigits(num[1..]))
    requires '\0' !in name
    ensures UntilNul(s) == s
  {
    forall k | 0 <= k < |s|
      ensures s[k] != '\0'
    {
      if k < |dir| {
        assert s[k] == dir[k];
      } else if k < |dir| + |num| {
        assert s[k] == num[k - |dir|];
        if k > |dir| { assert num[k - |dir|] == num[1..][k - |dir| - 1]; }
      } else if k > |dir| + |num| {
        assert s[k] == name[k - |dir| - |num| - 1];
      }
    }
    NulFree(s);
  }

  lemma {:induction false} NulFree(s: string)
    requires forall k :: 0 <= k < |s| ==> s[k] != '\0'
    ensures UntilNul(s) == s
  {
    if |s| > 0 {
      NulFree(s[1..]);
    }
  }

  /** A declaration with an empty name is a cell-type pattern. */
  lemma EmptyNameIsCellType(s: string, input: bool, output: bool, index: nat)
    requires (input || output) && index <= INT_MAX
    requires s == DirectionText(input, output) + (if index > 0 then "@" + Decimal(index) else "") + ":"
    ensures ParseToken(s) == CellType(s)
  {
    var dir := DirectionText(input, output);
    var num := if index > 0 then "@" + Decimal(index) else "";
    assert s == dir + num + ":" + "";
    NoNulIn(s, dir, num, "");
    ColonLast(s, dir, num);
  }

  /** The first `:` of `dir + num + ":"` is its last character. */
  lemma ColonLast(s: string, dir: string, num: string)
    requires s == dir + num + ":"
    requires dir == "io" || dir == "i" || dir == "o"
    requires num == "" || (|num| > 0 && num[0] == '@' && AllDigits(num[1..]))
    ensures Find(s, ':', 0) == |s| - 1
  {
    forall k | 0 <= k < |s| - 1
      ensures s[k] != ':'
    {
      if k < |dir| {
        assert s[k] == dir[k];
      } else {
        assert s[k] == num[k - |dir|];
        if k > |dir| { assert num[k - |dir|] == num[1..][k - |dir| - 1]; }
      }
    }
    assert s[|s| - 1] == ':';
  }

  /** A position of 0 is refused: `@` must be followed by a number of at least 1. */
  lemma ZeroIndexIsCellType(s: string, input: bool, output: bool, name: string)
    requires input || output
    requires '\0' !in name
    requires s == DirectionText(input, output) + "@0:" + name
    ensures ParseToken(s) == CellType(s)
  {
    var dir := DirectionText(input, output);
    var p := |dir|;
    assert s == dir + "@0" + ":" + name;
    assert AllDigits("@0"[1..]);
    NoNulIn(s, dir, "@0", name);
    assert s[..p] == dir;
    assert s[p] == '@' && s[p + 1] == '0' && s[p + 2] == ':';
    Dispatch(s, input, output, p);
    ZeroAfterDirection(s, input, output, p);
  }

  lemma ZeroAfterDirection(s: string, input: bool, output: bool, p: nat)
    requires p + 2 < |s| && '\0' !in s && (input || output)
    requires s[p] == '@' && s[p + 1] == '0' && !IsDigit(s[p + 2])
    ensures AfterDirection(s, s, input, output, p) == CellType(s)
  {
    assert s[p + 1..p + 2] == Decimal(0);
    StrtolDecimal(s, p + 1, p + 2, 0);
  }

  /** The port declarations among `args`, in order (`generate_ports`). */
  function Declarations(args: seq<string>): seq<PortDecl>
  {
    if args == [] then [] else
    var last := match ParseToken(args[|args| - 1]) case Port(d) => [d] case CellType(_) => [];
    Declarations(args[..|args| - 1]) + last
  }

  /** The remaining arguments, unescaped, in order (`generate_cells`). */
  function CellTypePatterns(args: seq<string>, unescape: string -> string): seq<string>
  {
    if args == [] then [] else
    var last := match ParseToken(args[|args| - 1]) case Port(_) => [] case CellType(a) => [unescape(a)];
    CellTypePatterns(args[..|args| - 1], unescape) + last
  }

  /** Every argument lands in exactly one of the two lists. */
  lemma {:induction false} ArgumentsPartitioned(args: seq<string>, unescape: string -> string)
    ensures |Declarations(args)| + |CellTypePatterns(args, unescape)| == |args|
    ensures forall d :: d in Declarations(args) ==> WellFormed(d)
  {
    if args != [] {
      ArgumentsPartitioned(args[..|args| - 1], unescape);
    }
  }

  /** The loop over the arguments after `-generate` (hierarchy.cc:360-393). */
  method ParseGenerateArgs(args: seq<string>, unescape: string -> string)
      returns (cells: seq<string>, ports: seq<PortDecl>)
    ensures ports == Declarations(args)
    ensures cells == CellTypePatterns(args, unescape)
  {
    cells, ports := [], [];
    var i := 0;
    while i < |args|
      invariant 0 <= i <= |args|
      invariant ports == Declarations(args[..i])
      invariant cells == CellTypePatterns(args[..i], unescape)
    {
      assert args[..i + 1][..i] == args[..i];
      match ParseToken(args[i]) {
        case Port(d) => ports := ports + [d];
        case CellType(a) => cells := cells + [unescape(a)];
      }
      i := i + 1;
    }
    assert args[..i] == args;
  }
}
