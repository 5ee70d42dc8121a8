/** The JavaScript built-ins that the attendance application's routes and
    class page rely on, stated over Dafny values: strings are `seq<char>`,
    numbers are `int` or `real` (no floating-point error), and `undefined`,
    `null` and `NaN` are the `None` of an `Option`. */
module Js {

  datatype Option<T> = None | Some(value: T)

  /** A JavaScript value read from a JSON field that may be a string, may be
      `null`, or may be absent altogether (`undefined`). */
  datatype Field = Missing | Null | Str(s: string)
  {
    /** JavaScript truthiness of the field: only a non-empty string is truthy. */
    predicate Truthy() { Str? && s != "" }

    /** How a template literal prints the field. */
    function Text(): (r: string)
      ensures Str? ==> r == s
      ensures Missing? ==> r == "undefined"
      ensures Null? ==> r == "null"
    {
      match this
      case Missing => "undefined"
      case Null => "null"
      case Str(v) => v
    }

    /** `field || fallback`. */
    function OrElse(fallback: string): (r: string)
      ensures Truthy() ==> r == s
      ensures !Truthy() ==> r == fallback
    {
      if Truthy() then s else fallback
    }
  }

  /** `x || 0` for a number that may be absent (a present 0 stays 0). */
  function OrZero(x: Option<int>): int {
    if x.Some? then x.value else 0
  }

  // ---------------------------------------------------------------------------
  // Whitespace, trim
  // ---------------------------------------------------------------------------

  /** The ECMAScript WhiteSpace and LineTerminator code points: what `\s`
      matches and what `String.prototype.trim` removes. */
  predicate IsSpace(c: char) {
    var n := c as int;
    (0x09 <= n <= 0x0D) || n == 0x20 || n == 0xA0 || n == 0x1680 ||
    (0x2000 <= n <= 0x200A) || n == 0x2028 || n == 0x2029 || n == 0x202F ||
    n == 0x205F || n == 0x3000 || n == 0xFEFF
  }

  /** A string made of whitespace only (the empty string included). */
  predicate IsBlank(s: string) {
    forall i :: 0 <= i < |s| ==> IsSpace(s[i])
  }

  /** The number of whitespace characters `s` starts with. */
  function LeadingSpaces(s: string): (n: nat)
    ensures n <= |s|
    ensures forall i :: 0 <= i < n ==> IsSpace(s[i])
    ensures n < |s| ==> !IsSpace(s[n])
  {
    if s != [] && IsSpace(s[0]) then 1 + LeadingSpaces(s[1..]) else 0
  }

  /** The number of whitespace characters `s` ends with. */
  function TrailingSpaces(s: string): (n: nat)
    ensures n <= |s|
    ensures forall i :: |s| - n <= i < |s| ==> IsSpace(s[i])
    ensures n < |s| ==> !IsSpace(s[|s| - n - 1])
  {
    if s != [] && IsSpace(s[|s| - 1]) then 1 + TrailingSpaces(s[..|s| - 1]) else 0
  }

  /** Drops the leading whitespace. */
  function TrimStart(s: string): (r: string)
    ensures |r| <= |s| && r == s[|s| - |r|..]
    ensures IsBlank(s[..|s| - |r|])
    ensures r == [] || !IsSpace(r[0])
  {
    s[LeadingSpaces(s)..]
  }

  /** Drops the trailing whitespace. */
  function TrimEnd(s: string): (r: string)
    ensures |r| <= |s| && r == s[..|r|]
    ensures IsBlank(s[|r|..])
    ensures r == [] || !IsSpace(r[|r| - 1])
  {
    s[..|s| - TrailingSpaces(s)]
  }

  /** `s.trim()`: the text between the leading and the trailing whitespace.
      The result starts and ends with a non-space, it follows the leading
      whitespace of `s` and only whitespace follows it, and it is empty
      exactly when `s` is blank. */
  function Trim(s: string): (r: string)
    ensures r == [] || (!IsSpace(r[0]) && !IsSpace(r[|r| - 1]))
    ensures r == [] <==> IsBlank(s)
    ensures var a := LeadingSpaces(s);
            a + |r| <= |s| && r == s[a..a + |r|] && IsBlank(s[a + |r|..])
  {
    var a := LeadingSpaces(s);
    var z := TrailingSpaces(s);
    if a + z >= |s| then
      assert IsBlank(s);
      assert s[a..a] == [];
      []
    else
      var r := s[a..|s| - z];
      assert r[0] == s[a] && r[|r| - 1] == s[|s| - z - 1];
      assert !IsBlank(s) by { assert !IsSpace(s[a]); }
      r
  }

  // ---------------------------------------------------------------------------
  // Case mapping (ASCII letters only)
  // ---------------------------------------------------------------------------

  function LowerChar(c: char): char {
    if 'A' <= c <= 'Z' then (c as int - 'A' as int + 'a' as int) as char else c
  }

  function UpperChar(c: char): char {
    if 'a' <= c <= 'z' then (c as int - 'a' as int + 'A' as int) as char else c
  }

  /** `s.toLowerCase()`, for the ASCII letters. */
  function ToLower(s: string): (r: string)
    ensures |r| == |s|
    ensures forall i :: 0 <= i < |s| ==> r[i] == LowerChar(s[i])
  {
    if s == [] then [] else [LowerChar(s[0])] + ToLower(s[1..])
  }

  /** Lower-casing a concatenation lower-cases each part. */
  lemma ToLowerAppend(a: string, b: string)
    ensures ToLower(a + b) == ToLower(a) + ToLower(b)
  {
    var l, r := ToLower(a + b), ToLower(a) + ToLower(b);
    forall i | 0 <= i < |l|
      ensures l[i] == r[i]
    {
      if i < |a| {
        assert (a + b)[i] == a[i];
      } else {
        assert (a + b)[i] == b[i - |a|];
      }
    }
  }

  /** Lower-casing never makes or unmakes whitespace. */
  lemma LowerCharKeepsSpace(c: char)
    ensures IsSpace(LowerChar(c)) <==> IsSpace(c)
  {
  }

  /** `s.toUpperCase()`, for the ASCII letters. */
  function ToUpper(s: string): (r: string)
    ensures |r| == |s|
    ensures forall i :: 0 <= i < |s| ==> r[i] == UpperChar(s[i])
  {
    if s == [] then [] else [UpperChar(s[0])] + ToUpper(s[1..])
  }

  /** `s.replace(/\s+/g, '')`: every whitespace character removed; the other
      characters keep their order (see `RemoveSpacesAppend` and
      `RemoveSpacesChar`). */
  function RemoveSpaces(s: string): (r: string)
    ensures |r| <= |s|
    ensures forall i :: 0 <= i < |r| ==> !IsSpace(r[i]) && r[i] in s
    ensures IsBlank(s) <==> r == []
  {
    if s == [] then []
    else if IsSpace(s[0]) then RemoveSpaces(s[1..])
    else [s[0]] + RemoveSpaces(s[1..])
  }

  /** Removing the whitespace of a concatenation removes it from each part. */
  lemma {:induction false} RemoveSpacesAppend(a: string, b: string)
    ensures RemoveSpaces(a + b) == RemoveSpaces(a) + RemoveSpaces(b)
    decreases |a|
  {
    if a != [] {
      var ab := a + b;
      assert ab[0] == a[0] && ab[1..] == a[1..] + b;
      RemoveSpacesAppend(a[1..], b);
      var head := if IsSpace(a[0]) then [] else [a[0]];
      assert RemoveSpaces(ab) == head + RemoveSpaces(a[1..] + b);
      assert RemoveSpaces(a) == head + RemoveSpaces(a[1..]);
    } else {
      assert a + b == b;
    }
  }

  /** A single character is dropped exactly when it is whitespace. */
  lemma RemoveSpacesChar(c: char)
    ensures RemoveSpaces([c]) == if IsSpace(c) then [] else [c]
  {
    assert [c][1..] == [];
  }

  // ---------------------------------------------------------------------------
  // Substrings
  // ---------------------------------------------------------------------------

  /** `s.startsWith(p)`. */
  predicate StartsWith(s: string, p: string) {
    |p| <= |s| && s[..|p|] == p
  }

  /** `t` occurs in `s` starting at position `i`. */
  ghost predicate OccursAt(s: string, t: string, i: int) {
    0 <= i && i + |t| <= |s| && s[i..i + |t|] == t
  }

  /** `t` occurs in `s` at some position: the meaning of `s.includes(t)`. */
  ghost predicate Occurs(s: string, t: string) {
    exists i :: OccursAt(s, t, i)
  }

  /** `s.includes(t)`, computed by scanning left to right. */
  predicate Includes(s: string, t: string)
    decreases |s|
  {
    StartsWith(s, t) || (s != [] && Includes(s[1..], t))
  }

  lemma {:induction false} IncludesIsOccurs(s: string, t: string)
    ensures Includes(s, t) <==> Occurs(s, t)
    decreases |s|
  {
    if StartsWith(s, t) {
      assert OccursAt(s, t, 0);
    } else if s == [] {
    } else {
      IncludesIsOccurs(s[1..], t);
      if |t| <= |s| {
        assert s[0..|t|] == s[..|t|];
      }
      if Includes(s[1..], t) {
        var i :| OccursAt(s[1..], t, i);
        OccursAfterHead(s, t, i + 1);
      }
      if Occurs(s, t) {
        var i :| OccursAt(s, t, i);
        if i != 0 {
          OccursAfterHead(s, t, i);
        }
      }
    }
  }

  /** An occurrence past the first character is an occurrence in the tail. */
  lemma OccursAfterHead(s: string, t: string, i: int)
    requires s != [] && 1 <= i
    ensures OccursAt(s, t, i) <==> OccursAt(s[1..], t, i - 1)
  {
    if i + |t| <= |s| {
      assert s[1..][i - 1..i - 1 + |t|] == s[i..i + |t|];
    }
  }

  // ---------------------------------------------------------------------------
  // split
  // ---------------------------------------------------------------------------

  /** `s.split(sep)` for a one-character separator: at least one part, and
      no part contains the separator. */
  function Split(s: string, sep: char): (parts: seq<string>)
    ensures |parts| >= 1
    ensures forall k :: 0 <= k < |parts| ==> sep !in parts[k]
    decreases |s|
  {
    if s == [] then [""]
    else
      var rest := Split(s[1..], sep);
      if s[0] == sep then [""] + rest
      else [[s[0]] + rest[0]] + rest[1..]
  }

  /** The parts glued back with the separator (`parts.join(sep)`). */
  function Join(parts: seq<string>, sep: char): string
    requires |parts| >= 1
    decreases |parts|
  {
    if |parts| == 1 then parts[0] else parts[0] + [sep] + Join(parts[1..], sep)
  }

  /** Splitting loses nothing: joining the parts gives the string back. */
  lemma {:induction false} JoinSplit(s: string, sep: char)
    ensures Join(Split(s, sep), sep) == s
    decreases |s|
  {
    if s != [] {
      JoinSplit(s[1..], sep);
      var rest := Split(s[1..], sep);
      if s[0] != sep {
        if |rest| == 1 {
        } else {
          assert ([[s[0]] + rest[0]] + rest[1..])[1..] == rest[1..];
        }
      } else {
        assert ([""] + rest)[1..] == rest;
      }
    }
  }

  /** Splitting `p`, the separator, then `rest`, where `p` has no separator,
      gives `p`, then the parts of `rest`. */
  lemma {:induction false} SplitAfterPrefix(p: string, sep: char, rest: string)
    requires sep !in p
    ensures Split(p + [sep] + rest, sep) == [p] + Split(rest, sep)
    decreases |p|
  {
    var s := p + [sep] + rest;
    if p == [] {
      assert s[1..] == rest;
    } else {
      assert s[1..] == p[1..] + [sep] + rest;
      SplitAfterPrefix(p[1..], sep, rest);
      assert s[0] == p[0] && p[0] != sep;
      assert [p[0]] + p[1..] == p;
    }
  }

  /** A string without the separator splits into itself alone. */
  lemma {:induction false} SplitNoSeparator(s: string, sep: char)
    requires sep !in s
    ensures Split(s, sep) == [s]
    decreases |s|
  {
    if s != [] {
      SplitNoSeparator(s[1..], sep);
      assert [s[0]] + s[1..] == s;
    }
  }

  /** Joining parts that hold no separator and splitting again gives the
      parts back: with `JoinSplit`, the two are inverse. */
  lemma {:induction false} SplitJoin(parts: seq<string>, sep: char)
    requires |parts| >= 1
    requires forall k :: 0 <= k < |parts| ==> sep !in parts[k]
    ensures Split(Join(parts, sep), sep) == parts
    decreases |parts|
  {
    if |parts| == 1 {
      SplitNoSeparator(parts[0], sep);
    } else {
      SplitJoin(parts[1..], sep);
      SplitAfterPrefix(parts[0], sep, Join(parts[1..], sep));
      assert [parts[0]] + parts[1..] == parts;
    }
  }

  /** Array destructuring `const [, a, b] = parts`: a missing element reads
      as `undefined`, which a template literal prints as "undefined". */
  function PartOr(parts: seq<string>, k: nat): (r: string)
    ensures k < |parts| ==> r == parts[k]
    ensures k >= |parts| ==> r == "undefined"
  {
    if k < |parts| then parts[k] else "undefined"
  }

  // ---------------------------------------------------------------------------
  // Numbers and their decimal text
  // ---------------------------------------------------------------------------

  predicate IsDigit(c: char) { '0' <= c <= '9' }

  function DigitChar(d: nat): (c: char)
    requires d < 10
    ensures IsDigit(c)
  {
    ('0' as int + d) as char
  }

  /** The decimal text of a natural number, most significant digit first. */
  function NatToString(n: nat): (r: string)
    ensures |r| >= 1
    ensures forall i :: 0 <= i < |r| ==> IsDigit(r[i])
  {
    if n < 10 then [DigitChar(n)] else NatToString(n / 10) + [DigitChar(n % 10)]
  }

  /** `String(i)` for an integer. */
  function IntToString(i: int): string {
    if i < 0 then "-" + NatToString(-i) else NatToString(i)
  }

  /** The value of a run of decimal digits. */
  function DigitsValue(ds: string): nat
    requires forall i :: 0 <= i < |ds| ==> IsDigit(ds[i])
    decreases |ds|
  {
    if ds == [] then 0
    else
      var d := ds[|ds| - 1] as int - '0' as int;
      assert IsDigit(ds[|ds| - 1]);
      DigitsValue(ds[..|ds| - 1]) * 10 + d
  }

  /** The length of the longest prefix of `s` made of decimal digits. */
  function DigitRun(s: string): (n: nat)
    ensures n <= |s|
    ensures forall i :: 0 <= i < n ==> IsDigit(s[i])
    ensures n < |s| ==> !IsDigit(s[n])
  {
    if s != [] && IsDigit(s[0]) then 1 + DigitRun(s[1..]) else 0
  }

  /** A hexadecimal digit, in either case. */
  predicate IsHexDigit(c: char) {
    IsDigit(c) || 'a' <= c <= 'f' || 'A' <= c <= 'F'
  }

  function HexDigitValue(c: char): (d: nat)
    requires IsHexDigit(c)
    ensures d < 16
    ensures IsDigit(c) ==> d == c as int - '0' as int
  {
    if IsDigit(c) then c as int - '0' as int
    else if 'a' <= c <= 'f' then c as int - 'a' as int + 10
    else c as int - 'A' as int + 10
  }

  /** The value of a run of hexadecimal digits. */
  function HexValue(hs: string): nat
    requires forall i :: 0 <= i < |hs| ==> IsHexDigit(hs[i])
    decreases |hs|
  {
    if hs == [] then 0
    else HexValue(hs[..|hs| - 1]) * 16 + HexDigitValue(hs[|hs| - 1])
  }

  /** The length of the longest prefix of `s` made of hexadecimal digits. */
  function HexRun(s: string): (n: nat)
    ensures n <= |s|
    ensures forall i :: 0 <= i < n ==> IsHexDigit(s[i])
    ensures n < |s| ==> !IsHexDigit(s[n])
  {
    if s != [] && IsHexDigit(s[0]) then 1 + HexRun(s[1..]) else 0
  }

  /** The text after the sign starts with `0x` or `0X`. */
  predicate HexPrefixed(body: string) {
    |body| >= 2 && body[0] == '0' && (body[1] == 'x' || body[1] == 'X')
  }

  /** `parseInt(s)` without a radix: leading whitespace, an optional sign,
      then either `0x`/`0X` and the longest run of hexadecimal digits, or the
      longest run of decimal digits; `NaN` (here `None`) when that run is
      empty. */
  function ParseInt(s: string): (r: Option<int>)
    ensures IsBlank(s) ==> r.None?
  {
    ParseSigned(TrimStart(s))
  }

  /** An optional sign, then the digits. */
  function ParseSigned(t: string): Option<int> {
    if t != [] && t[0] == '-' then
      var v := ParseDigits(t[1..]);
      if v.Some? then Some(-v.value) else None
    else if t != [] && t[0] == '+' then ParseDigits(t[1..])
    else ParseDigits(t)
  }

  /** The value of the leading run of digits, if there is one: base 16
      after a `0x`/`0X` prefix, base 10 otherwise. */
  function ParseDigits(body: string): Option<int> {
    if HexPrefixed(body) then
      var hex := body[2..];
      var n := HexRun(hex);
      if n == 0 then None else Some(HexValue(hex[..n]))
    else
      var n := DigitRun(body);
      if n == 0 then None else Some(DigitsValue(body[..n]))
  }

  lemma {:induction false} NatToStringValue(n: nat)
    ensures DigitsValue(NatToString(n)) == n
  {
    if n >= 10 {
      NatToStringValue(n / 10);
      var s := NatToString(n / 10) + [DigitChar(n % 10)];
      assert s[..|s| - 1] == NatToString(n / 10);
    }
  }

  /** `parseInt(String(i)) === i`: the decimal text of an integer reads back
      as that integer. */
  lemma ParseIntToString(i: int)
    ensures ParseInt(IntToString(i)) == Some(i)
  {
    var n: nat := if i < 0 then -i else i;
    var digits := NatToString(n);
    NatToStringValue(n);
    if i < 0 {
      ParseDigitsAll(digits);
      ParseIntSigned(digits, n);
    } else {
      ParseIntDigits(digits);
    }
  }

  /** A string that does not start with whitespace is its own `trimStart`. */
  lemma TrimStartKeeps(s: string)
    requires s != [] && !IsSpace(s[0])
    ensures TrimStart(s) == s
  {
  }

  /** A digit is neither whitespace nor a sign. */
  lemma DigitIsNotSpaceOrSign(c: char)
    requires IsDigit(c)
    ensures !IsSpace(c) && c != '-' && c != '+'
  {
  }

  /** A run of digits parses as its value. */
  lemma ParseIntDigits(ds: string)
    requires ds != [] && forall k :: 0 <= k < |ds| ==> IsDigit(ds[k])
    ensures ParseInt(ds) == Some(DigitsValue(ds) as int)
  {
    ParseDigitsAll(ds);
    DigitIsNotSpaceOrSign(ds[0]);
    TrimStartKeeps(ds);
  }

  /** A minus sign followed by text that parses as `v` parses as `-v`. */
  lemma ParseIntSigned(body: string, v: int)
    requires ParseDigits(body) == Some(v)
    ensures ParseInt(['-'] + body) == Some(-v)
  {
    var s := ['-'] + body;
    TrimStartMinus(body);
    assert s[1..] == body;
    ParseSignedNegates(s, v);
    ParseIntUntrimmed(s);
  }

  /** Text that starts with a non-space is parsed as it stands. */
  lemma ParseIntUntrimmed(t: string)
    requires TrimStart(t) == t
    ensures ParseInt(t) == ParseSigned(t)
  {
  }

  lemma TrimStartMinus(ds: string)
    ensures TrimStart(['-'] + ds) == ['-'] + ds
  {
    var s := ['-'] + ds;
    assert s[0] == '-' && !IsSpace('-');
    TrimStartKeeps(s);
  }

  lemma ParseSignedNegates(t: string, v: int)
    requires t != [] && t[0] == '-' && ParseDigits(t[1..]) == Some(v)
    ensures ParseSigned(t) == Some(-v)
  {
  }

  lemma ParseDigitsAll(ds: string)
    requires ds != [] && forall k :: 0 <= k < |ds| ==> IsDigit(ds[k])
    ensures ParseDigits(ds) == Some(DigitsValue(ds) as int)
  {
    assert |ds| >= 2 ==> IsDigit(ds[1]);
    assert !HexPrefixed(ds);
    assert DigitRun(ds) == |ds| && ds[..|ds|] == ds;
  }

  /** `0x` followed by a run of hexadecimal digits reads as their base-16
      value. */
  lemma ParseDigitsHex(hs: string)
    requires hs != [] && forall k :: 0 <= k < |hs| ==> IsHexDigit(hs[k])
    ensures ParseDigits("0x" + hs) == Some(HexValue(hs) as int)
  {
    var s := "0x" + hs;
    assert HexPrefixed(s) && s[2..] == hs;
    assert HexRun(hs) == |hs| && hs[..|hs|] == hs;
  }

  /** `parseInt("0x" + hs)` is the base-16 value of `hs`. */
  lemma ParseIntHex(hs: string)
    requires hs != [] && forall k :: 0 <= k < |hs| ==> IsHexDigit(hs[k])
    ensures ParseInt("0x" + hs) == Some(HexValue(hs) as int)
  {
    var s := "0x" + hs;
    assert s[0] == '0' && !IsSpace('0');
    TrimStartKeeps(s);
    ParseDigitsHex(hs);
    ParseIntUntrimmed(s);
    assert s[0] != '-' && s[0] != '+';
  }

  /** The digits `1` and `4` read in base 16 make 20. */
  lemma HexFourteen()
    ensures IsHexDigit('1') && IsHexDigit('4') && HexValue("14") == 20
  {
    var hs := "14";
    assert hs[..1] == "1" && hs[..1][..0] == [];
    assert HexValue("1") == 1;
  }

  /** `parseInt("0x14")` is 20 and `parseInt("-0x14")` is -20, not 0. */
  lemma ParseIntHexExample()
    ensures ParseInt("0x14") == Some(20)
    ensures ParseInt("-0x14") == Some(-20)
  {
    HexFourteen();
    ParseIntHex("14");
    ParseDigitsHex("14");
    ParseIntSigned("0x14", 20);
    assert ['-'] + "0x14" == "-0x14";
  }

  /** `Math.ceil(x)`. */
  function Ceil(x: real): (r: int)
    ensures x <= r as real < x + 1.0
  {
    -((-x).Floor)
  }

  /** `Math.round(x)`: the nearest integer, halves rounded up. */
  function Round(x: real): (r: int)
    ensures x - 0.5 < r as real <= x + 0.5
  {
    (x + 0.5).Floor
  }

  /** `Number(x.toFixed(2))`: `x` rounded to two decimals, halves away from
      zero; the result is a whole number of hundredths within half a
      hundredth of `x`. */
  function Round2(x: real): (r: real)
    ensures r * 100.0 == Hundredths(x) as real
    ensures x - 0.005 <= r <= x + 0.005
    ensures x >= 0.0 ==> x - 0.005 < r
    ensures x < 0.0 ==> r < x + 0.005
  {
    Hundredths(x) as real / 100.0
  }

  /** The whole number of hundredths that `x.toFixed(2)` prints: the nearest
      one to `100 * x`, halves rounded away from zero. */
  function Hundredths(x: real): (n: int)
    ensures x * 100.0 - 0.5 <= n as real <= x * 100.0 + 0.5
    ensures x >= 0.0 ==> x * 100.0 - 0.5 < n as real
    ensures x < 0.0 ==> n as real < x * 100.0 + 0.5
  {
    if x < 0.0 then -Round(-x * 100.0) else Round(x * 100.0)
  }

  /** `Number((part / whole * 100).toFixed(2))` when `whole` is positive, and
      0 otherwise: a percentage to two decimals. */
  function PercentOf(part: int, whole: int): real {
    if whole > 0 then Round2(part as real / whole as real * 100.0) else 0.0
  }

  /** The percentage is 0 when the whole is not positive; otherwise it is a
      whole number of hundredths within half a hundredth of the exact one. */
  lemma PercentOfNearExact(part: int, whole: int)
    ensures whole <= 0 ==> PercentOf(part, whole) == 0.0
    ensures whole > 0 ==>
              var exact := part as real / whole as real * 100.0;
              var r := PercentOf(part, whole);
              exact - 0.005 <= r <= exact + 0.005 && r * 100.0 == (r * 100.0).Floor as real
  {
    if whole > 0 {
      var exact := part as real / whole as real * 100.0;
      var r := Round2(exact);
      assert PercentOf(part, whole) == r;
      var h := Hundredths(exact);
      assert r * 100.0 == h as real;
      assert (h as real).Floor == h;
    }
  }

  /** A part that does not exceed its positive whole is a fraction in 0..1. */
  lemma RatioBounds(part: int, whole: int)
    requires 0 <= part <= whole && whole > 0
    ensures 0.0 <= part as real / whole as real <= 1.0
  {
    var f := part as real / whole as real;
    assert f * whole as real == part as real;
  }

  /** The percentage of a part that does not exceed its whole lies between 0
      and 100. */
  lemma PercentOfBounds(part: int, whole: int)
    requires 0 <= part <= whole
    ensures 0.0 <= PercentOf(part, whole) <= 100.0
  {
    if whole > 0 {
      RatioBounds(part, whole);
      var x := part as real / whole as real * 100.0;
      assert 0.0 <= x * 100.0 <= 10000.0;
      var h := Hundredths(x);
      assert 0 <= h <= 10000;
      assert PercentOf(part, whole) == h as real / 100.0;
    }
  }

  /** `s.slice(0, end)`: a negative `end` counts from the end of `s`. */
  function SliceTo<T>(s: seq<T>, end: int): (r: seq<T>)
    ensures end >= 0 ==> |r| == if end < |s| then end else |s|
    ensures end < 0 ==> |r| == if -end < |s| then |s| + end else 0
    ensures r == s[..|r|]
  {
    var k := if end >= 0 then (if end < |s| then end else |s|)
             else (if -end < |s| then |s| + end else 0);
    s[..k]
  }
}
