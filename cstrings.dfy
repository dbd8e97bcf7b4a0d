/** The string behaviour of the C and C++ library calls the hierarchy pass
    relies on: the ordering of `std::string` (which fixes the iteration
    order of `std::map` and `std::set`), `strtol` and `atoi`, the `%d`
    conversion of `stringf`, `std::string::find_first_of` and `substr`, and
    reading a `char*` past the end of its string. */
module CStrings {

  /** `std::string` operator<: byte-wise lexicographic, a proper prefix first. */
  predicate Less(a: string, b: string)
    decreases |a|
  {
    if |a| == 0 then |b| > 0
    else if |b| == 0 then false
    else if a[0] != b[0] then a[0] < b[0]
    else Less(a[1..], b[1..])
  }

  lemma {:induction false} LessIrreflexive(a: string)
    ensures !Less(a, a)
    decreases |a|
  {
    if |a| > 0 {
      LessIrreflexive(a[1..]);
    }
  }

  lemma {:induction false} LessTransitive(a: string, b: string, c: string)
    requires Less(a, b) && Less(b, c)
    ensures Less(a, c)
    decreases |a|
  {
    if |a| > 0 && a[0] == b[0] && b[0] == c[0] {
      LessTransitive(a[1..], b[1..], c[1..]);
    }
  }

  lemma {:induction false} LessTotal(a: string, b: string)
    ensures a == b || Less(a, b) || Less(b, a)
    decreases |a|
  {
    if |a| > 0 && |b| > 0 && a[0] == b[0] {
      LessTotal(a[1..], b[1..]);
      if a[1..] == b[1..] {
        assert a == [a[0]] + a[1..];
        assert b == [b[0]] + b[1..];
      }
    }
  }

  lemma LessAsymmetric(a: string, b: string)
    requires Less(a, b)
    ensures !Less(b, a)
  {
    if Less(b, a) {
      LessTransitive(a, b, a);
      LessIrreflexive(a);
    }
  }

  /** `m` is what `s.begin()` designates in a `std::set<std::string>`. */
  predicate IsLeast(m: string, s: set<string>)
  {
    m in s && forall x :: x in s && x != m ==> Less(m, x)
  }

  /** `m` is the last key of `s` in iteration order. */
  predicate IsGreatest(m: string, s: set<string>)
  {
    m in s && forall x :: x in s && x != m ==> Less(x, m)
  }

  lemma {:induction false} LeastExists(s: set<string>)
    requires s != {}
    ensures exists m :: IsLeast(m, s)
    decreases |s|
  {
    var z :| z in s;
    if s == {z} {
      assert IsLeast(z, s);
    } else {
      var rest := s - {z};
      LeastExists(rest);
      var m :| IsLeast(m, rest);
      LessTotal(m, z);
      if Less(z, m) {
        forall x | x in s && x != z
          ensures Less(z, x)
        {
          if x != m {
            LessTransitive(z, m, x);
          }
        }
        assert IsLeast(z, s);
      } else {
        assert IsLeast(m, s);
      }
    }
  }

  lemma {:induction false} GreatestExists(s: set<string>)
    requires s != {}
    ensures exists m :: IsGreatest(m, s)
    decreases |s|
  {
    var z :| z in s;
    if s == {z} {
      assert IsGreatest(z, s);
    } else {
      var rest := s - {z};
      GreatestExists(rest);
      var m :| IsGreatest(m, rest);
      LessTotal(m, z);
      if Less(m, z) {
        forall x | x in s && x != z
          ensures Less(x, z)
        {
          if x != m {
            LessTransitive(x, m, z);
          }
        }
        assert IsGreatest(z, s);
      } else {
        assert IsGreatest(m, s);
      }
    }
  }

  lemma ExtremesUnique(s: set<string>)
    ensures forall m1, m2 :: IsLeast(m1, s) && IsLeast(m2, s) ==> m1 == m2
    ensures forall m1, m2 :: IsGreatest(m1, s) && IsGreatest(m2, s) ==> m1 == m2
  {
    forall m1, m2 | IsLeast(m1, s) && IsLeast(m2, s)
      ensures m1 == m2
    {
      if m1 != m2 {
        LessAsymmetric(m1, m2);
      }
    }
    forall m1, m2 | IsGreatest(m1, s) && IsGreatest(m2, s)
      ensures m1 == m2
    {
      if m1 != m2 {
        LessAsymmetric(m1, m2);
      }
    }
  }

  /** The first element of a `std::set<std::string>` (`*s.begin()`). */
  function Least(s: set<string>): (m: string)
    requires s != {}
    ensures IsLeast(m, s)
  {
    LeastExists(s);
    ExtremesUnique(s);
    var m :| IsLeast(m, s);
    m
  }

  /** The last element of `s` in iteration order. */
  function Greatest(s: set<string>): (m: string)
    requires s != {}
    ensures IsGreatest(m, s)
  {
    GreatestExists(s);
    ExtremesUnique(s);
    var m :| IsGreatest(m, s);
    m
  }

  /** One more element of a walk over `xs` is seen. */
  lemma SeenStep<T>(xs: seq<T>, seen: set<T>, i: nat)
    requires i < |xs| && forall k :: 0 <= k < i ==> xs[k] in seen
    ensures forall k :: 0 <= k < i + 1 ==> xs[k] in seen + {xs[i]}
  {
  }

  /** The keys of a `std::set<std::string>` or `std::map` in iteration order. */
  function Ascending(s: set<string>): (r: seq<string>)
    ensures |r| == |s|
    ensures forall x :: x in r <==> x in s
    decreases |s|
  {
    if s == {} then [] else
    var m := Least(s);
    [m] + Ascending(s - {m})
  }

  /** Iteration order is strictly ascending. */
  lemma {:induction false} AscendingSorted(s: set<string>)
    ensures forall i, j :: 0 <= i < j < |Ascending(s)| ==> Less(Ascending(s)[i], Ascending(s)[j])
    decreases |s|
  {
    if s != {} {
      var m := Least(s);
      var rest := Ascending(s - {m});
      AscendingSorted(s - {m});
      assert Ascending(s) == [m] + rest;
      forall i, j | 0 <= i < j < |Ascending(s)|
        ensures Less(Ascending(s)[i], Ascending(s)[j])
      {
        if i == 0 {
          assert rest[j - 1] in s - {m};
        } else {
          assert Ascending(s)[i] == rest[i - 1] && Ascending(s)[j] == rest[j - 1];
        }
      }
    }
  }

  /** A strictly ascending sequence repeats nothing. */
  lemma AscendingDistinct(r: seq<string>)
    requires forall a, b :: 0 <= a < b < |r| ==> Less(r[a], r[b])
    ensures forall a, b :: 0 <= a < b < |r| ==> r[a] != r[b]
  {
    forall a, b | 0 <= a < b < |r|
      ensures r[a] != r[b]
    {
      LessIrreflexive(r[a]);
    }
  }

  /** In a strictly ascending sequence, positions and order agree. */
  lemma AscendingOrder(r: seq<string>, i: nat, j: nat)
    requires forall a, b :: 0 <= a < b < |r| ==> Less(r[a], r[b])
    requires i < |r| && j < |r|
    ensures Less(r[i], r[j]) <==> i < j
    ensures r[i] == r[j] <==> i == j
  {
    if j < i {
      LessAsymmetric(r[j], r[i]);
    }
    if i == j {
      LessIrreflexive(r[i]);
    }
    if i < j {
      LessIrreflexive(r[i]);
    }
    if j < i {
      LessIrreflexive(r[j]);
    }
  }

  predicate HasPrefix(s: string, p: string)
  {
    |p| <= |s| && s[..|p|] == p
  }

  /** Where the middle part of a concatenation lies. */
  lemma Middle(x: string, y: string, z: string)
    ensures (x + y + z)[..|x|] == x
    ensures (x + y + z)[|x|..|x| + |y|] == y
  {
    assert (x + y + z)[..|x|] == (x + y)[..|x|];
    assert (x + y + z)[|x|..|x| + |y|] == (x + y)[|x|..|x| + |y|];
  }

  /** `p[i]` on the `char*` of `s`: the terminating NUL past the end. */
  function At(s: string, i: nat): char
  {
    if i < |s| then s[i] else '\0'
  }

  /** What `c_str()` shows of `s`: everything before the first NUL. */
  function UntilNul(s: string): (r: string)
    ensures HasPrefix(s, r)
    ensures '\0' !in r
    ensures |r| < |s| ==> s[|r|] == '\0'
  {
    if |s| == 0 || s[0] == '\0' then [] else [s[0]] + UntilNul(s[1..])
  }

  /** The first two characters of `c_str()` are those of the string when neither is NUL. */
  lemma TextStart(s: string, c: string)
    requires c == UntilNul(s)
    ensures HasPrefix(s, "i") <==> At(c, 0) == 'i'
    ensures HasPrefix(s, "o") <==> At(c, 0) == 'o'
    ensures HasPrefix(s, "io") <==> At(c, 0) == 'i' && At(c, 1) == 'o'
  {
    if |s| > 0 && s[0] != '\0' {
      assert c[0] == s[0];
      if |s| > 1 && s[1] != '\0' {
        assert c[1] == s[1];
      }
    }
  }

  predicate IsDigit(c: char)
  {
    '0' <= c <= '9'
  }

  /** isspace() in the C locale. */
  predicate IsSpace(c: char)
  {
    c == ' ' || c == '\t' || c == '\n' || c == '\U{B}' || c == '\U{C}' || c == '\r'
  }

  function DigitChar(d: nat): (c: char)
    requires d < 10
    ensures IsDigit(c) && DigitValue(c) == d
  {
    (('0' as int) + d) as char
  }

  function DigitValue(c: char): nat
    requires IsDigit(c)
  {
    (c as int) - ('0' as int)
  }

  predicate AllDigits(s: string)
  {
    forall i :: 0 <= i < |s| ==> IsDigit(s[i])
  }

  /** `stringf("%d", n)` for a non-negative `n`. */
  function Decimal(n: nat): (s: string)
    ensures |s| > 0 && AllDigits(s)
  {
    if n < 10 then [DigitChar(n)] else Decimal(n / 10) + [DigitChar(n % 10)]
  }

  /** The number a string of decimal digits denotes. */
  function DigitsValue(s: string): nat
    requires AllDigits(s)
  {
    if |s| == 0 then 0 else DigitsValue(s[..|s| - 1]) * 10 + DigitValue(s[|s| - 1])
  }

  lemma {:induction false} DecimalValue(n: nat)
    ensures DigitsValue(Decimal(n)) == n
  {
    if n >= 10 {
      DecimalValue(n / 10);
      var d := Decimal(n);
      assert d[..|d| - 1] == Decimal(n / 10);
    }
  }

  /** First position at or after `i` that is not white space. */
  function SkipSpaces(s: string, i: nat): (j: nat)
    requires i <= |s|
    ensures i <= j <= |s| && (j == |s| || !IsSpace(s[j]))
    ensures forall k :: i <= k < j ==> IsSpace(s[k])
    decreases |s| - i
  {
    if i < |s| && IsSpace(s[i]) then SkipSpaces(s, i + 1) else i
  }

  /** End of the run of decimal digits that starts at `i`. */
  function DigitRunEnd(s: string, i: nat): (j: nat)
    requires i <= |s|
    ensures i <= j <= |s| && AllDigits(s[i..j]) && (j == |s| || !IsDigit(s[j]))
    decreases |s| - i
  {
    if i < |s| && IsDigit(s[i]) then
      var j := DigitRunEnd(s, i + 1);
      assert s[i..j] == [s[i]] + s[i + 1..j];
      j
    else i
  }

  const LONG_MIN: int := -0x8000_0000_0000_0000
  const LONG_MAX: int := 0x7FFF_FFFF_FFFF_FFFF
  const INT_MIN: int := -0x8000_0000
  const INT_MAX: int := 0x7FFF_FFFF

  /** The value `strtol` stores and where it leaves `endptr`. */
  datatype Conversion = Conversion(value: int, end: nat)

  /** `strtol(s + i, &endptr, 10)` on a 64-bit `long`: white space, an
      optional sign, then digits; no digits gives 0 with `endptr` left at the
      start; an out-of-range value saturates. */
  function Strtol(s: string, i: nat): (r: Conversion)
    requires i <= |s|
    ensures LONG_MIN <= r.value <= LONG_MAX
    ensures r.end == i || i < r.end <= |s|
    ensures r.end == i ==> r.value == 0
    ensures forall k :: i <= k < r.end ==> IsSpace(s[k]) || IsDigit(s[k]) || s[k] == '-' || s[k] == '+'
  {
    var j := SkipSpaces(s, i);
    var signed := j < |s| && (s[j] == '-' || s[j] == '+');
    var k := if signed then j + 1 else j;
    var e := DigitRunEnd(s, k);
    assert forall x :: k <= x < e ==> IsDigit(s[x]) by {
      forall x | k <= x < e
        ensures IsDigit(s[x])
      {
        assert s[x] == s[k..e][x - k];
      }
    }
    if e == k then Conversion(0, i)
    else
      var magnitude: int := DigitsValue(s[k..e]);
      var v: int := if signed && s[j] == '-' then 0 - magnitude else magnitude;
      Conversion(if v < LONG_MIN then LONG_MIN else if v > LONG_MAX then LONG_MAX else v, e)
  }

  /** Conversion of a `long` to a 32-bit `int`: keeps the low 32 bits. */
  function ToInt32(v: int): (r: int)
    ensures INT_MIN <= r <= INT_MAX
    ensures (r - v) % 0x1_0000_0000 == 0
    ensures INT_MIN <= v <= INT_MAX ==> r == v
  {
    (v + 0x8000_0000) % 0x1_0000_0000 - 0x8000_0000
  }

  /** glibc's `atoi`, which is `(int) strtol(s, NULL, 10)`. */
  function Atoi(s: string): (r: int)
    ensures INT_MIN <= r <= INT_MAX
  {
    ToInt32(Strtol(s, 0).value)
  }

  /** `strtol` reads back what `%d` printed, up to the first non-digit. */
  lemma StrtolDecimal(s: string, i: nat, e: nat, n: nat)
    requires n <= LONG_MAX
    requires e == i + |Decimal(n)| && e <= |s| && s[i..e] == Decimal(n)
    requires e == |s| || !IsDigit(s[e])
    ensures Strtol(s, i) == Conversion(n, e)
  {
    var d := Decimal(n);
    assert IsDigit(s[i]) by { assert s[i] == d[0]; }
    assert SkipSpaces(s, i) == i;
    DigitRunExact(s, i, e);
    DecimalValue(n);
  }

  lemma {:induction false} DigitRunExact(s: string, i: nat, e: nat)
    requires i <= e <= |s| && AllDigits(s[i..e]) && (e == |s| || !IsDigit(s[e]))
    ensures DigitRunEnd(s, i) == e
    decreases e - i
  {
    if i < e {
      assert IsDigit(s[i]) by { assert s[i] == s[i..e][0]; }
      assert s[i + 1..e] == s[i..e][1..];
      DigitRunExact(s, i + 1, e);
    }
  }

  lemma AtoiDecimal(n: nat, rest: string)
    requires n <= INT_MAX
    requires rest == [] || !IsDigit(rest[0])
    ensures Atoi(Decimal(n) + rest) == n
  {
    var s := Decimal(n) + rest;
    assert s[0..|Decimal(n)|] == Decimal(n);
    StrtolDecimal(s, 0, |Decimal(n)|, n);
  }

  /** `s.find_first_of(c, from)` stored in an `int`: npos becomes -1. */
  function Find(s: string, c: char, from: nat): (r: int)
    ensures r == -1 || (from <= r < |s| && s[r] == c)
    ensures forall k :: from <= k < |s| && (r == -1 || k < r) ==> s[k] != c
    decreases |s| - from
  {
    if from >= |s| then -1 else if s[from] == c then from else Find(s, c, from + 1)
  }

  /** `s.substr(pos, len)`, where a negative `len` is npos after the
      conversion to `size_t`: everything from `pos` on. */
  function Substr(s: string, pos: nat, len: int): (r: string)
    requires pos <= |s|
    ensures HasPrefix(s[pos..], r)
    ensures |r| == if len < 0 || pos + len > |s| then |s| - pos else len
  {
    if len < 0 || pos + len > |s| then s[pos..] else s[pos..pos + len]
  }
}
