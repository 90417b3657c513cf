/**
 * Text handling of the manual-frame form: Python's `str.strip()` and
 * `int(text, 16)` restricted to plain hexadecimal digits, and `hex(n)` used
 * as the key text of the raw-frame table.
 */
module Hex {
  import opened Wrappers

  /** The ASCII characters `str.isspace()` accepts: the six C white-space characters and the separators 0x1C..0x1F. */
  predicate IsSpace(c: char) {
    c == ' ' || c == '\t' || c == '\n' || c == '\r' || c == '\U{B}' || c == '\U{C}'
    || ('\U{1C}' <= c <= '\U{1F}')
  }

  /** Number of leading white-space characters. */
  function LeadingSpaces(s: string): (r: nat)
    ensures r <= |s|
    ensures forall k :: 0 <= k < r ==> IsSpace(s[k])
    ensures r < |s| ==> !IsSpace(s[r])
  {
    if |s| > 0 && IsSpace(s[0]) then 1 + LeadingSpaces(s[1..]) else 0
  }

  /** Length of s once its trailing white space is removed. */
  function TrimmedEnd(s: string): (r: nat)
    ensures r <= |s|
    ensures forall k :: r <= k < |s| ==> IsSpace(s[k])
    ensures r > 0 ==> !IsSpace(s[r - 1])
  {
    if |s| > 0 && IsSpace(s[|s| - 1]) then TrimmedEnd(s[..|s| - 1]) else |s|
  }

  /** `text.strip()`: drops leading and trailing white space and nothing else. */
  function Strip(s: string): (r: string)
    ensures |r| > 0 ==> !IsSpace(r[0]) && !IsSpace(r[|r| - 1])
    ensures |r| == 0 <==> forall k :: 0 <= k < |s| ==> IsSpace(s[k])
    ensures LeadingSpaces(s) + |r| <= |s|
    ensures r == s[LeadingSpaces(s)..LeadingSpaces(s) + |r|]
    ensures forall k :: LeadingSpaces(s) + |r| <= k < |s| ==> IsSpace(s[k])
  {
    var i := LeadingSpaces(s);
    var t := s[i..];
    t[..TrimmedEnd(t)]
  }

  predicate IsHexDigit(c: char) {
    ('0' <= c <= '9') || ('a' <= c <= 'f') || ('A' <= c <= 'F')
  }

  function DigitValue(c: char): (r: nat)
    requires IsHexDigit(c)
    ensures r < 16
  {
    if '0' <= c <= '9' then c as int - '0' as int
    else if 'a' <= c <= 'f' then c as int - 'a' as int + 10
    else c as int - 'A' as int + 10
  }

  /** The lower-case digit for 0 <= v < 16, as `hex()` prints it. */
  function DigitChar(v: nat): (c: char)
    requires v < 16
    ensures IsHexDigit(c) && DigitValue(c) == v
  {
    if v < 10 then ('0' as int + v) as char else ('a' as int + v - 10) as char
  }

  /** Value of a run of hex digits, most significant first; None if any character is not a digit. */
  function DigitsValue(s: string): (r: Option<nat>)
    ensures r.Some? <==> forall k :: 0 <= k < |s| ==> IsHexDigit(s[k])
  {
    if |s| == 0 then Some(0)
    else if !IsHexDigit(s[|s| - 1]) then None
    else match DigitsValue(s[..|s| - 1])
      case None => None
      case Some(v) => Some(16 * v + DigitValue(s[|s| - 1]))
  }

  /** `int(text, 16)` on plain digits: the empty text and any non-digit are a ValueError. */
  function ParseHex(s: string): (r: Option<nat>)
    ensures r.Some? <==> |s| > 0 && forall k :: 0 <= k < |s| ==> IsHexDigit(s[k])
  {
    if |s| == 0 then None else DigitsValue(s)
  }

  /** The digits of `hex(n)` after its "0x" prefix: lower case, no leading zero. */
  function Digits(n: nat): (r: string)
    ensures |r| > 0
    ensures forall k :: 0 <= k < |r| ==> IsHexDigit(r[k])
    ensures |r| > 1 ==> r[0] != '0'
  {
    if n < 16 then [DigitChar(n)] else Digits(n / 16) + [DigitChar(n % 16)]
  }

  /** `hex(n)` for a non-negative n. */
  function HexText(n: nat): string {
    "0x" + Digits(n)
  }

  /** Reading back the digits `hex()` prints gives the number again. */
  lemma {:induction false} ParseDigits(n: nat)
    ensures ParseHex(Digits(n)) == Some(n)
  {
    if n >= 16 {
      var d := Digits(n);
      ParseDigits(n / 16);
      assert d == Digits(n / 16) + [DigitChar(n % 16)];
      assert d[..|d| - 1] == Digits(n / 16);
      assert DigitsValue(Digits(n / 16)) == Some(n / 16);
      assert d[|d| - 1] == DigitChar(n % 16);
      assert DigitsValue(d) == Some(16 * (n / 16) + n % 16);
    } else {
      var d := Digits(n);
      assert d == [DigitChar(n)];
      assert d[..0] == [];
      assert DigitsValue(d[..0]) == Some(0);
      assert DigitsValue(d) == Some(DigitValue(DigitChar(n)));
    }
  }

  /** `int(text, 16)` reads most significant digit first: a further digit multiplies the value so far by 16. */
  lemma ParseHexAppend(s: string, c: char)
    requires ParseHex(s).Some? && IsHexDigit(c)
    ensures ParseHex(s + [c]) == Some(16 * ParseHex(s).value + DigitValue(c))
  {
    assert (s + [c])[..|s + [c]| - 1] == s;
  }

  /** A single digit reads as its own value, upper or lower case. */
  lemma ParseHexDigit(c: char)
    requires IsHexDigit(c)
    ensures ParseHex([c]) == Some(DigitValue(c))
  {
    assert [c][..0] == [];
    assert DigitsValue([c][..0]) == Some(0);
    assert [c][|[c]| - 1] == c;
  }

  /** The lower-case form of a text: 'A'..'F' become 'a'..'f', everything else is kept. */
  function Lower(s: string): (r: string)
    ensures |r| == |s|
    ensures forall k :: 0 <= k < |s| ==> r[k] == (if 'A' <= s[k] <= 'F' then (s[k] as int + 32) as char else s[k])
  {
    if |s| == 0 then [] else Lower(s[..|s| - 1]) + [if 'A' <= s[|s| - 1] <= 'F' then (s[|s| - 1] as int + 32) as char else s[|s| - 1]]
  }

  /** `int(text, 16)` ignores the case of the digits. */
  lemma {:induction false} ParseHexIgnoresCase(s: string)
    ensures ParseHex(Lower(s)) == ParseHex(s)
  {
    if |s| > 0 {
      DigitsValueIgnoresCase(s);
    }
  }

  lemma {:induction false} DigitsValueIgnoresCase(s: string)
    ensures DigitsValue(Lower(s)) == DigitsValue(s)
  {
    if |s| > 0 {
      var l := Lower(s);
      assert l[..|l| - 1] == Lower(s[..|s| - 1]);
      DigitsValueIgnoresCase(s[..|s| - 1]);
    }
  }

  /** `int(text, 16)` ignores leading zeros. */
  lemma ParseHexLeadingZero(s: string)
    requires |s| > 0
    ensures ParseHex("0" + s) == ParseHex(s)
  {
    DigitsValueLeadingZero(s);
  }

  lemma {:induction false} DigitsValueLeadingZero(s: string)
    ensures DigitsValue("0" + s) == DigitsValue(s)
  {
    var z := "0" + s;
    if |s| == 0 {
      assert z[..0] == [];
    } else {
      assert z[..|z| - 1] == "0" + s[..|s| - 1];
      assert z[|z| - 1] == s[|s| - 1];
      DigitsValueLeadingZero(s[..|s| - 1]);
    }
  }

  /** `hex()` is injective, so comparing key texts in the raw table compares identifiers. */
  lemma HexTextInjective(a: nat, b: nat)
    ensures HexText(a) == HexText(b) <==> a == b
  {
    if HexText(a) == HexText(b) {
      assert Digits(a) == HexText(a)[2..];
      assert Digits(b) == HexText(b)[2..];
      ParseDigits(a);
      ParseDigits(b);
    }
  }
}
