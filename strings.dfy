/** The string operations the components rely on, over ASCII: case folding,
    substring search, prefix tests, trimming, and the decimal conversions
    behind `Number.prototype.toString` and `parseInt`. */
module Strings {
  import opened Base

  // ---------------------------------------------------------------- case

  function LowerChar(c: char): char {
    if 'A' <= c <= 'Z' then (c as int + 32) as char else c
  }

  /** `toLowerCase` restricted to ASCII letters. */
  function Lower(s: string): (r: string)
    ensures |r| == |s|
    ensures forall i :: 0 <= i < |s| ==> r[i] == LowerChar(s[i])
  {
    if s == [] then [] else [LowerChar(s[0])] + Lower(s[1..])
  }

  lemma LowerIdempotent(s: string)
    ensures Lower(Lower(s)) == Lower(s)
  {
  }

  // ---------------------------------------------------------------- search

  predicate StartsWith(s: string, prefix: string) {
    |prefix| <= |s| && s[..|prefix|] == prefix
  }

  /** `String.prototype.includes`: the empty needle is found everywhere. */
  predicate Contains(s: string, needle: string)
    decreases |s|
  {
    StartsWith(s, needle) || (s != [] && Contains(s[1..], needle))
  }

  /** The needle occurs in s starting at position i. */
  predicate OccursAt(s: string, needle: string, i: int) {
    0 <= i && i + |needle| <= |s| && s[i..i + |needle|] == needle
  }

  /** Contains says exactly that the needle occurs at some position. */
  lemma {:induction false} ContainsIffOccurs(s: string, needle: string)
    ensures Contains(s, needle) <==> exists i :: OccursAt(s, needle, i)
    decreases |s|
  {
    if StartsWith(s, needle) {
      assert OccursAt(s, needle, 0);
    }
    if s != [] {
      ContainsIffOccurs(s[1..], needle);
      if Contains(s[1..], needle) {
        var i :| OccursAt(s[1..], needle, i);
        assert s[i + 1..i + 1 + |needle|] == s[1..][i..i + |needle|];
        assert OccursAt(s, needle, i + 1);
      }
      if exists i :: OccursAt(s, needle, i) {
        var i :| OccursAt(s, needle, i);
        if i > 0 {
          assert s[1..][i - 1..i - 1 + |needle|] == s[i..i + |needle|];
          assert OccursAt(s[1..], needle, i - 1);
        } else {
          assert StartsWith(s, needle);
        }
      }
    } else {
      if exists i :: OccursAt(s, needle, i) {
        var i :| OccursAt(s, needle, i);
        assert StartsWith(s, needle);
      }
    }
  }

  lemma {:induction false} ContainsEmpty(s: string)
    ensures Contains(s, "")
  {
    assert StartsWith(s, "");
  }

  lemma {:induction false} ContainsSelf(s: string)
    ensures Contains(s, s)
  {
    assert StartsWith(s, s);
  }

  predicate EndsWith(s: string, suffix: string) {
    |suffix| <= |s| && s[|s| - |suffix|..] == suffix
  }

  /** A string contains each of the parts it is joined from. */
  lemma ContainsPart(a: string, b: string, c: string)
    ensures Contains(a + b + c, b)
  {
    var s := a + b + c;
    assert s[|a|..|a| + |b|] == b;
    assert OccursAt(s, b, |a|);
    ContainsIffOccurs(s, b);
  }

  // ---------------------------------------------------------------- trim

  /** The white space `String.prototype.trim` removes: the WhiteSpace
      code points of ECMAScript (tab, vertical tab, form feed, space,
      no-break space, the byte-order mark and the other space separators
      of category Zs) and its LineTerminators (line feed, carriage
      return, line and paragraph separators). */
  predicate IsSpace(c: char) {
    c == ' ' || c == '\t' || c == '\n' || c == '\r' || c == '\U{000B}' || c == '\U{000C}'
    || c == '\U{00A0}' || c == '\U{FEFF}' || c == '\U{2028}' || c == '\U{2029}'
    || c == '\U{1680}' || ('\U{2000}' <= c <= '\U{200A}') || c == '\U{202F}' || c == '\U{205F}' || c == '\U{3000}'
  }

  function TrimStart(s: string): (r: string)
    ensures |r| <= |s| && r == s[|s| - |r|..]
    ensures r == [] || !IsSpace(r[0])
  {
    if s != [] && IsSpace(s[0]) then TrimStart(s[1..]) else s
  }

  function TrimEnd(s: string): (r: string)
    ensures |r| <= |s| && r == s[..|r|]
    ensures r == [] || !IsSpace(r[|r| - 1])
  {
    if s != [] && IsSpace(s[|s| - 1]) then TrimEnd(s[..|s| - 1]) else s
  }

  function Trim(s: string): string {
    TrimEnd(TrimStart(s))
  }

  predicate AllSpace(s: string) {
    forall i :: 0 <= i < |s| ==> IsSpace(s[i])
  }

  lemma {:induction false} TrimStartEmptyIff(s: string)
    ensures TrimStart(s) == [] <==> AllSpace(s)
  {
    if s == [] {
    } else if IsSpace(s[0]) {
      assert TrimStart(s) == TrimStart(s[1..]);
      TrimStartEmptyIff(s[1..]);
      AllSpaceTail(s);
    } else {
      assert TrimStart(s) == s;
    }
  }

  /** Past a leading space, the text is all space iff its tail is. */
  lemma AllSpaceTail(s: string)
    requires s != [] && IsSpace(s[0])
    ensures AllSpace(s) <==> AllSpace(s[1..])
  {
    if AllSpace(s[1..]) {
      forall i | 0 <= i < |s| ensures IsSpace(s[i]) {
        if i > 0 { assert s[i] == s[1..][i - 1]; }
      }
    } else {
      var j :| 0 <= j < |s[1..]| && !IsSpace(s[1..][j]);
      assert s[j + 1] == s[1..][j];
    }
  }

  /** Trimming leaves nothing exactly when the text is all white space. */
  lemma TrimEmptyIff(s: string)
    ensures Trim(s) == [] <==> AllSpace(s)
  {
    TrimStartEmptyIff(s);
    var t := TrimStart(s);
    if t != [] {
      assert TrimEnd(t) != [] by {
        TrimEndNonEmpty(t);
      }
    }
  }

  lemma {:induction false} TrimEndNonEmpty(t: string)
    requires t != [] && !IsSpace(t[0])
    ensures TrimEnd(t) != []
    decreases |t|
  {
    if IsSpace(t[|t| - 1]) {
      assert |t| > 1;
      TrimEndNonEmpty(t[..|t| - 1]);
    }
  }

  /** A trimmed text is empty or starts and ends with a non-space. */
  lemma TrimmedEdges(s: string)
    ensures var r := Trim(s); r == [] || (!IsSpace(r[0]) && !IsSpace(r[|r| - 1]))
  {
    var t := TrimStart(s);
    var r := TrimEnd(t);
    if r != [] {
      assert r[0] == t[0];
    }
  }

  /** Trimming twice is trimming once. */
  lemma TrimIdempotent(s: string)
    ensures Trim(Trim(s)) == Trim(s)
  {
    TrimmedEdges(s);
  }

  /** The ideographic space, one of the Zs separators, counts as white
      space: a text of it alone trims to nothing. */
  lemma TrimOfIdeographicSpace()
    ensures Trim(['\U{3000}']) == []
  {
    var e := ['\U{3000}'];
    assert IsSpace(e[0]);
    assert e[1..] == [];
    assert TrimStart(e) == [];
  }

  /** Zs separators are trimmed from both ends. */
  lemma TrimOfSpaceSeparators()
    ensures Trim(['\U{2003}', 'a', '\U{1680}']) == ['a']
  {
    var s := ['\U{2003}', 'a', '\U{1680}'];
    var t := ['a', '\U{1680}'];
    assert IsSpace(s[0]) && s[1..] == t && !IsSpace(t[0]);
    assert TrimStart(s) == t;
    assert IsSpace(t[1]) && t[..1] == ['a'];
    assert TrimEnd(t) == TrimEnd(['a']) == ['a'];
  }

  // ---------------------------------------------------------------- decimals

  predicate IsDigit(c: char) {
    '0' <= c <= '9'
  }

  function DigitChar(d: nat): (c: char)
    requires d < 10
    ensures IsDigit(c)
  {
    ('0' as int + d) as char
  }

  function DigitValue(c: char): (d: nat)
    requires IsDigit(c)
    ensures d < 10
  {
    c as int - '0' as int
  }

  /** Decimal rendering of a natural number, most significant digit first. */
  function NatToString(n: nat): (r: string)
    ensures r != []
    ensures forall i :: 0 <= i < |r| ==> IsDigit(r[i])
  {
    if n < 10 then [DigitChar(n)] else NatToString(n / 10) + [DigitChar(n % 10)]
  }

  /** `String(i)` for an integer-valued JavaScript number. */
  function IntToString(i: int): string {
    if i < 0 then "-" + NatToString(-i) else NatToString(i)
  }

  /** The value of a string of decimal digits. */
  function DigitsValue(s: string): nat
    requires forall i :: 0 <= i < |s| ==> IsDigit(s[i])
  {
    if s == [] then 0 else DigitsValue(s[..|s| - 1]) * 10 + DigitValue(s[|s| - 1])
  }

  lemma {:induction false} DigitsValueOfNatToString(n: nat)
    ensures DigitsValue(NatToString(n)) == n
  {
    if n >= 10 {
      var s := NatToString(n / 10) + [DigitChar(n % 10)];
      assert s[..|s| - 1] == NatToString(n / 10);
      DigitsValueOfNatToString(n / 10);
    }
  }

  /** The longest prefix of decimal digits. */
  function DigitPrefix(s: string): (r: string)
    ensures |r| <= |s| && r == s[..|r|]
    ensures forall i :: 0 <= i < |r| ==> IsDigit(r[i])
    ensures |r| < |s| ==> !IsDigit(s[|r|])
  {
    if s != [] && IsDigit(s[0]) then [s[0]] + DigitPrefix(s[1..]) else []
  }

  lemma {:induction false} DigitPrefixOfDigits(s: string)
    requires forall i :: 0 <= i < |s| ==> IsDigit(s[i])
    ensures DigitPrefix(s) == s
  {
    if s != [] {
      DigitPrefixOfDigits(s[1..]);
    }
  }

  function SkipSpace(s: string): (r: string)
    ensures |r| <= |s|
  {
    if s != [] && IsSpace(s[0]) then SkipSpace(s[1..]) else s
  }

  // ---------------------------------------------------------------- hexadecimals

  predicate IsHexDigit(c: char) {
    IsDigit(c) || 'a' <= c <= 'f' || 'A' <= c <= 'F'
  }

  function HexDigitValue(c: char): (d: nat)
    requires IsHexDigit(c)
    ensures d < 16
    ensures IsDigit(c) ==> d == DigitValue(c)
  {
    if IsDigit(c) then DigitValue(c)
    else if 'a' <= c <= 'f' then c as int - 'a' as int + 10
    else c as int - 'A' as int + 10
  }

  /** The value of a string of hexadecimal digits. */
  function HexValue(s: string): nat
    requires forall i :: 0 <= i < |s| ==> IsHexDigit(s[i])
  {
    if s == [] then 0 else HexValue(s[..|s| - 1]) * 16 + HexDigitValue(s[|s| - 1])
  }

  /** The longest prefix of hexadecimal digits. */
  function HexPrefix(s: string): (r: string)
    ensures |r| <= |s| && r == s[..|r|]
    ensures forall i :: 0 <= i < |r| ==> IsHexDigit(r[i])
    ensures |r| < |s| ==> !IsHexDigit(s[|r|])
  {
    if s != [] && IsHexDigit(s[0]) then [s[0]] + HexPrefix(s[1..]) else []
  }

  lemma {:induction false} HexPrefixOfHexDigits(s: string)
    requires forall i :: 0 <= i < |s| ==> IsHexDigit(s[i])
    ensures HexPrefix(s) == s
  {
    if s != [] {
      HexPrefixOfHexDigits(s[1..]);
    }
  }

  /** A "0x" or "0X" prefix, which makes `parseInt` without a radix read
      base 16. */
  predicate HasHexPrefix(s: string) {
    |s| >= 2 && s[0] == '0' && (s[1] == 'x' || s[1] == 'X')
  }

  /** The unsigned part of `parseInt`: "0x"/"0X" and the longest run of
      hexadecimal digits, or else the longest run of decimal digits;
      `None` when there is no digit. */
  function Magnitude(body: string): (r: Option<nat>)
  {
    if HasHexPrefix(body) then
      var digits := HexPrefix(body[2..]);
      if digits == [] then None else Some(HexValue(digits))
    else
      var digits := DigitPrefix(body);
      if digits == [] then None else Some(DigitsValue(digits))
  }

  /** `parseInt(s)` without a radix: leading white space, an optional
      sign, then the magnitude; `None` stands for NaN (no digit at all). */
  function ParseInt(s: string): (r: Option<int>)
  {
    var t := SkipSpace(s);
    var negative := t != [] && t[0] == '-';
    var body := if t != [] && (t[0] == '-' || t[0] == '+') then t[1..] else t;
    match Magnitude(body)
    case None => None
    case Some(v) => var n: int := v; Some(if negative then -n else n)
  }

  lemma MagnitudeOfHex(x: char, digits: string)
    requires x == 'x' || x == 'X'
    requires digits != [] && forall i :: 0 <= i < |digits| ==> IsHexDigit(digits[i])
    ensures Magnitude(['0', x] + digits) == Some(HexValue(digits))
  {
    var t := ['0', x] + digits;
    assert HasHexPrefix(t) && t[2..] == digits;
    HexPrefixOfHexDigits(digits);
  }

  /** A text that starts with a sign or a digit has no leading white
      space to skip. */
  lemma SkipSpaceNone(t: string)
    requires t != [] && (t[0] == '-' || t[0] == '+' || IsDigit(t[0]))
    ensures SkipSpace(t) == t
  {
    assert !IsSpace(t[0]);
  }

  /** Without leading white space or a sign, `parseInt` is the magnitude. */
  lemma ParseIntUnsigned(t: string)
    requires t != [] && IsDigit(t[0])
    ensures ParseInt(t) == if Magnitude(t).Some? then Some(Magnitude(t).value as int) else None
  {
    SkipSpaceNone(t);
  }

  /** A leading minus sign negates the magnitude after it. */
  lemma ParseIntNegated(t: string)
    requires t != [] && t[0] == '-'
    ensures ParseInt(t) == if Magnitude(t[1..]).Some? then Some(0 - Magnitude(t[1..]).value) else None
  {
    SkipSpaceNone(t);
  }

  /** A "0x" prefix followed by hexadecimal digits reads in base 16, with
      or without a sign. */
  lemma {:induction false} ParseIntOfHex(x: char, digits: string)
    requires x == 'x' || x == 'X'
    requires digits != [] && forall i :: 0 <= i < |digits| ==> IsHexDigit(digits[i])
    ensures ParseInt(['0', x] + digits) == Some(HexValue(digits) as int)
    ensures ParseInt(['-', '0', x] + digits) == Some(0 - HexValue(digits))
  {
    var t := ['0', x] + digits;
    var v := HexValue(digits);
    MagnitudeOfHex(x, digits);
    assert Magnitude(t) == Some(v);
    ParseIntUnsigned(t);
    var m := ['-', '0', x] + digits;
    assert m[1..] == t;
    ParseIntNegated(m);
  }

  lemma ParseIntHexExample()
    ensures ParseInt("0x1f") == Some(31)
    ensures ParseInt("0x") == None
  {
    var h := ['1', 'f'];
    assert h[..1] == ['1'] && ['1'][..0] == [];
    assert HexValue(h) == 31;
    assert "0x1f" == ['0', 'x'] + h;
    ParseIntOfHex('x', h);
    var t := ['0', 'x'];
    assert t[2..] == [] && Magnitude(t) == None;
    ParseIntUnsigned(t);
  }

  lemma ParseIntOfDigits(digits: string)
    requires digits != [] && forall i :: 0 <= i < |digits| ==> IsDigit(digits[i])
    ensures ParseInt(digits) == Some(DigitsValue(digits) as int)
    ensures ParseInt("-" + digits) == Some(0 - DigitsValue(digits))
    ensures ParseInt("+" + digits) == Some(DigitsValue(digits) as int)
  {
    DigitPrefixOfDigits(digits);
    assert !IsSpace(digits[0]) && digits[0] != '-' && digits[0] != '+';
    assert SkipSpace(digits) == digits;
    assert !HasHexPrefix(digits);
    ParseIntOfSigned('-', digits);
    ParseIntOfSigned('+', digits);
  }

  lemma ParseIntOfSigned(sign: char, digits: string)
    requires sign == '-' || sign == '+'
    requires DigitPrefix(digits) == digits != []
    ensures ParseInt([sign] + digits) == Some(if sign == '-' then 0 - DigitsValue(digits) else DigitsValue(digits) as int)
  {
    var t := [sign] + digits;
    assert t[0] == sign && t[1..] == digits;
    assert !IsSpace(t[0]);
    assert SkipSpace(t) == t;
    var body := if t != [] && (t[0] == '-' || t[0] == '+') then t[1..] else t;
    assert body == digits;
    assert !HasHexPrefix(body);
  }

  /** parseInt reads back what toString wrote. */
  lemma ParseIntOfIntToString(i: int)
    ensures ParseInt(IntToString(i)) == Some(i)
  {
    var n: nat := if i < 0 then -i else i;
    ParseIntOfDigits(NatToString(n));
    DigitsValueOfNatToString(n);
  }

  /** Distinct integers have distinct decimal renderings. */
  lemma IntToStringInjective(i: int, j: int)
    requires IntToString(i) == IntToString(j)
    ensures i == j
  {
    ParseIntOfIntToString(i);
    ParseIntOfIntToString(j);
  }
}
