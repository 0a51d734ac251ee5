/**
 * The string primitives of JavaScript that the colouring engine relies on:
 * the `\s` character class (which is also what `trim` removes),
 * `toLowerCase` on ASCII letters, decimal and hexadecimal digits,
 * `String(n)`, `n.toString(16)`, `padStart(2, "0")` and `parseInt` on a
 * run of decimal digits.
 */
module JsStrings {

  /** A member of the regular-expression class `\s` (WhiteSpace and LineTerminator). */
  predicate IsSpace(c: char)
  {
    c == '\t' || c == '\n' || c == '\U{000B}' || c == '\U{000C}' || c == '\r' || c == ' '
    || c == '\U{00A0}' || c == '\U{1680}' || ('\U{2000}' <= c <= '\U{200A}')
    || c == '\U{2028}' || c == '\U{2029}' || c == '\U{202F}' || c == '\U{205F}'
    || c == '\U{3000}' || c == '\U{FEFF}'
  }

  predicate NoSpace(s: string)
  {
    forall i :: 0 <= i < |s| ==> !IsSpace(s[i])
  }

  predicate AllSpace(s: string)
  {
    forall i :: 0 <= i < |s| ==> IsSpace(s[i])
  }

  /** The length of the run of `\s` characters starting at `i`. */
  function SpaceRun(s: string, i: nat): (n: nat)
    requires i <= |s|
    ensures i + n <= |s| && AllSpace(s[i..i + n])
    ensures i + n < |s| ==> !IsSpace(s[i + n])
    decreases |s| - i
  {
    if i < |s| && IsSpace(s[i]) then
      var n := 1 + SpaceRun(s, i + 1);
      assert s[i..i + n] == [s[i]] + s[i + 1..i + n];
      n
    else 0
  }

  /** `s.trimStart()`: the suffix left after the leading white space. */
  function TrimStart(s: string): (r: string)
    ensures |r| <= |s| && r == s[|s| - |r|..]
    ensures AllSpace(s[..|s| - |r|])
    ensures |r| > 0 ==> !IsSpace(r[0])
  {
    var n := SpaceRun(s, 0);
    assert s[..n] == s[0..n];
    s[n..]
  }

  /** `s.trimEnd()`: the prefix left before the trailing white space. */
  function TrimEnd(s: string): (r: string)
    ensures |r| <= |s| && r == s[..|r|]
    ensures AllSpace(s[|r|..])
    ensures |r| > 0 ==> !IsSpace(r[|r| - 1])
  {
    if |s| > 0 && IsSpace(s[|s| - 1]) then
      var t := TrimEnd(s[..|s| - 1]);
      assert s[..|s| - 1][|t|..] == s[|t|..|s| - 1];
      t
    else s
  }

  /** `s.trim()`. */
  function Trim(s: string): (r: string)
    ensures |r| > 0 ==> !IsSpace(r[0]) && !IsSpace(r[|r| - 1])
    ensures |r| <= |s|
  {
    TrimEnd(TrimStart(s))
  }

  /** Trimming keeps exactly the characters between the outer white-space runs. */
  lemma TrimIsInfix(s: string)
    ensures exists i, j :: 0 <= i <= j <= |s| && Trim(s) == s[i..j]
                           && AllSpace(s[..i]) && AllSpace(s[j..])
  {
    var a := TrimStart(s);
    var i := |s| - |a|;
    var r := TrimEnd(a);
    var j := i + |r|;
    assert a == s[i..];
    assert r == s[i..j];
    assert a[|r|..] == s[j..];
  }

  /** A string with no white space at either end is left alone by `trim`. */
  lemma TrimOfTrimmed(s: string)
    requires |s| > 0 ==> !IsSpace(s[0]) && !IsSpace(s[|s| - 1])
    ensures Trim(s) == s
  {
  }

  function ToLowerChar(c: char): char
  {
    if 'A' <= c <= 'Z' then (c as int + 32) as char else c
  }

  /** `s.toLowerCase()`, on the ASCII letters. */
  function ToLower(s: string): (r: string)
    ensures |r| == |s|
    ensures forall i :: 0 <= i < |s| ==> r[i] == ToLowerChar(s[i])
  {
    if |s| == 0 then "" else [ToLowerChar(s[0])] + ToLower(s[1..])
  }

  predicate IsDecDigit(c: char)
  {
    '0' <= c <= '9'
  }

  predicate AllDecDigits(s: string)
  {
    forall i :: 0 <= i < |s| ==> IsDecDigit(s[i])
  }

  /** A member of `[a-f\d]` under the `i` flag. */
  predicate IsHexDigit(c: char)
  {
    '0' <= c <= '9' || 'a' <= c <= 'f' || 'A' <= c <= 'F'
  }

  function DecValue(c: char): (d: nat)
    requires IsDecDigit(c)
    ensures d < 10
  {
    c as int - '0' as int
  }

  function HexValue(c: char): (d: nat)
    requires IsHexDigit(c)
    ensures d < 16
  {
    if '0' <= c <= '9' then c as int - '0' as int
    else if 'a' <= c <= 'f' then c as int - 'a' as int + 10
    else c as int - 'A' as int + 10
  }

  function DecChar(d: nat): (c: char)
    requires d < 10
    ensures IsDecDigit(c) && DecValue(c) == d
  {
    ('0' as int + d) as char
  }

  /** The digit `n.toString(16)` writes for `d`: lower case. */
  function HexChar(d: nat): (c: char)
    requires d < 16
    ensures IsHexDigit(c) && HexValue(c) == d && ToLowerChar(c) == c
  {
    if d < 10 then ('0' as int + d) as char else ('a' as int + d - 10) as char
  }

  /** Reading a hexadecimal digit and writing it back gives its lower-case form. */
  lemma HexCharOfValue(c: char)
    requires IsHexDigit(c)
    ensures HexChar(HexValue(c)) == ToLowerChar(c)
  {
  }

  /** `String(n)` for a non-negative integer. */
  function NatToDecimal(n: nat): (r: string)
    ensures |r| > 0 && AllDecDigits(r)
    decreases n
  {
    if n < 10 then [DecChar(n)] else NatToDecimal(n / 10) + [DecChar(n % 10)]
  }

  /** `parseInt(s, 10)` on a run of decimal digits. */
  function ParseDecimal(s: string): nat
    requires AllDecDigits(s)
  {
    if |s| == 0 then 0 else ParseDecimal(s[..|s| - 1]) * 10 + DecValue(s[|s| - 1])
  }

  /** `parseInt(String(n))` gives back `n`. */
  lemma {:induction false} ParseNatToDecimal(n: nat)
    ensures ParseDecimal(NatToDecimal(n)) == n
    decreases n
  {
    if n >= 10 {
      var t := NatToDecimal(n / 10);
      var s := t + [DecChar(n % 10)];
      assert s[..|s| - 1] == t;
      ParseNatToDecimal(n / 10);
    }
  }

  /** Distinct numbers are written differently. */
  lemma NatToDecimalInjective(m: nat, n: nat)
    requires NatToDecimal(m) == NatToDecimal(n)
    ensures m == n
  {
    ParseNatToDecimal(m);
    ParseNatToDecimal(n);
  }

  /** `n.toString(16)`. */
  function NatToHex(n: nat): (r: string)
    ensures |r| > 0
    decreases n
  {
    if n < 16 then [HexChar(n)] else NatToHex(n / 16) + [HexChar(n % 16)]
  }

  /** `s.padStart(2, "0")`. */
  function PadStart2(s: string): (r: string)
    ensures |s| >= 2 ==> r == s
    ensures |s| < 2 ==> |r| == 2 && r[2 - |s|..] == s
    ensures forall i :: 0 <= i < 2 - |s| ==> r[i] == '0'
    decreases 2 - |s|
  {
    if |s| >= 2 then s else PadStart2("0" + s)
  }

  /** `n.toString(16).padStart(2, "0")`. */
  function Hex2(n: nat): string
  {
    PadStart2(NatToHex(n))
  }

  /** A byte is written as exactly two lower-case digits, high digit first. */
  lemma Hex2Digits(n: nat)
    requires n < 256
    ensures Hex2(n) == [HexChar(n / 16), HexChar(n % 16)]
  {
    if n >= 16 {
      assert NatToHex(n / 16) == [HexChar(n / 16)];
    }
  }
}
