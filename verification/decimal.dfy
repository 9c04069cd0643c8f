/**
 * Decimal text as JavaScript produces and reads it: `String(n)` for integers,
 * `padStart(2, '0')`, the leading-digits rule of `parseInt(s, 10)`, and the
 * `0x` rule `parseInt(s)` follows when no radix is given.
 */
module Decimal {
  import opened Wrappers

  predicate IsDigit(c: char)
  {
    '0' <= c <= '9'
  }

  predicate AllDigits(s: string)
  {
    forall i :: 0 <= i < |s| ==> IsDigit(s[i])
  }

  function DigitChar(d: nat): (c: char)
    requires d < 10
    ensures IsDigit(c) && c as int - '0' as int == d
  {
    (48 + d) as char
  }

  function DigitValue(c: char): (d: nat)
    requires IsDigit(c)
    ensures d < 10 && DigitChar(d) == c
  {
    c as int - '0' as int
  }

  /** `String(n)` for a non-negative integer: no sign, no leading zeros. */
  function NatToString(n: nat): (s: string)
    ensures |s| >= 1 && AllDigits(s)
    ensures n < 10 <==> |s| == 1
    decreases n
  {
    if n < 10 then [DigitChar(n)] else NatToString(n / 10) + [DigitChar(n % 10)]
  }

  /** `String(n)` for any integer: a leading '-' for negatives. */
  function IntToString(n: int): (s: string)
    ensures |s| >= 1
    ensures n >= 0 ==> AllDigits(s)
    ensures n < 0 ==> s[0] == '-'
  {
    if n < 0 then "-" + NatToString(-n) else NatToString(n)
  }

  /** The value of a string of decimal digits (read left to right). */
  function DigitsValue(s: string): nat
    requires AllDigits(s)
  {
    if s == [] then 0 else DigitsValue(s[..|s| - 1]) * 10 + DigitValue(s[|s| - 1])
  }

  lemma {:induction false} DigitsValueOfNatToString(n: nat)
    ensures DigitsValue(NatToString(n)) == n
    decreases n
  {
    var s := NatToString(n);
    if n >= 10 {
      DigitsValueOfNatToString(n / 10);
      assert s[..|s| - 1] == NatToString(n / 10);
    }
  }

  /** `s.padStart(2, '0')`. */
  function PadStart2(s: string): (r: string)
    ensures |r| == if |s| >= 2 then |s| else 2
    ensures r[|r| - |s|..] == s
    ensures forall i :: 0 <= i < |r| - |s| ==> r[i] == '0'
  {
    if |s| >= 2 then s else seq(2 - |s|, _ => '0') + s
  }

  /** The longest prefix of `s` made of digits, and what follows it. */
  function SplitDigits(s: string): (r: (string, string))
    ensures AllDigits(r.0) && r.0 + r.1 == s
    ensures r.1 != [] ==> !IsDigit(r.1[0])
  {
    if s == [] || !IsDigit(s[0]) then ([], s)
    else
      var rest := SplitDigits(s[1..]);
      var d := [s[0]] + rest.0;
      assert forall i :: 0 < i < |d| ==> d[i] == rest.0[i - 1];
      assert d + rest.1 == [s[0]] + (rest.0 + rest.1) == s;
      (d, rest.1)
  }

  lemma {:induction false} SplitDigitsOfDigitsThen(d: string, t: string)
    requires AllDigits(d)
    requires t != [] ==> !IsDigit(t[0])
    ensures SplitDigits(d + t) == (d, t)
  {
    if d == [] {
      assert d + t == t;
    } else {
      SplitDigitsOfDigitsThen(d[1..], t);
      assert (d + t)[0] == d[0] && IsDigit(d[0]);
      assert (d + t)[1..] == d[1..] + t;
      assert [d[0]] + d[1..] == d;
    }
  }

  /**
   * `parseInt(s, 10)` restricted to its digit rule: the value of the leading
   * digits, or None (NaN) when `s` does not start with a digit.
   */
  function ParseIntPrefix(s: string): (r: Option<nat>)
    ensures r.None? <==> (s == [] || !IsDigit(s[0]))
  {
    var d := SplitDigits(s).0;
    if d == [] then None else Some(DigitsValue(d))
  }

  lemma ParseIntPrefixOfNatToString(n: nat, t: string)
    requires t != [] ==> !IsDigit(t[0])
    ensures ParseIntPrefix(NatToString(n) + t) == Some(n)
  {
    SplitDigitsOfDigitsThen(NatToString(n), t);
    DigitsValueOfNatToString(n);
  }

  /** A run of digits followed by a non-digit (or nothing) parses as the run's value. */
  lemma ParseIntPrefixOfDigitsThen(d: string, t: string)
    requires AllDigits(d) && d != []
    requires t != [] ==> !IsDigit(t[0])
    ensures ParseIntPrefix(d + t) == Some(DigitsValue(d))
  {
    SplitDigitsOfDigitsThen(d, t);
  }

  /** `String(n)` followed by a non-digit splits back into `String(n)` and the rest. */
  lemma SplitNatThen(n: nat, t: string)
    requires t != [] ==> !IsDigit(t[0])
    ensures SplitDigits(NatToString(n) + t) == (NatToString(n), t)
    ensures DigitsValue(NatToString(n)) == n
  {
    SplitDigitsOfDigitsThen(NatToString(n), t);
    DigitsValueOfNatToString(n);
  }

  lemma DigitsValueOfLeadingZero(s: string)
    requires AllDigits(s)
    ensures DigitsValue("0" + s) == DigitsValue(s)
    decreases |s|
  {
    if s != [] {
      var z := "0" + s;
      assert z[..|z| - 1] == "0" + s[..|s| - 1];
      DigitsValueOfLeadingZero(s[..|s| - 1]);
    } else {
      assert ("0" + s)[..0] == [];
    }
  }

  /** A hexadecimal digit of either case, as `parseInt` reads it after `0x`. */
  predicate IsHexDigit(c: char)
  {
    IsDigit(c) || 'a' <= c <= 'f' || 'A' <= c <= 'F'
  }

  predicate AllHexDigits(s: string)
  {
    forall i :: 0 <= i < |s| ==> IsHexDigit(s[i])
  }

  function HexDigitValue(c: char): (d: nat)
    requires IsHexDigit(c)
    ensures d < 16
    ensures IsDigit(c) <==> d < 10
  {
    if IsDigit(c) then DigitValue(c)
    else if 'a' <= c <= 'f' then c as int - 'a' as int + 10
    else c as int - 'A' as int + 10
  }

  /** The value of a string of hexadecimal digits (read left to right). */
  function HexDigitsValue(s: string): nat
    requires AllHexDigits(s)
  {
    if s == [] then 0 else HexDigitsValue(s[..|s| - 1]) * 16 + HexDigitValue(s[|s| - 1])
  }

  /** The longest prefix of `s` made of hexadecimal digits, and what follows it. */
  function SplitHexDigits(s: string): (r: (string, string))
    ensures AllHexDigits(r.0) && r.0 + r.1 == s
    ensures r.1 != [] ==> !IsHexDigit(r.1[0])
  {
    if s == [] || !IsHexDigit(s[0]) then ([], s)
    else
      var rest := SplitHexDigits(s[1..]);
      var h := [s[0]] + rest.0;
      assert forall i :: 0 < i < |h| ==> h[i] == rest.0[i - 1];
      assert h + rest.1 == [s[0]] + (rest.0 + rest.1) == s;
      (h, rest.1)
  }

  lemma {:induction false} SplitHexDigitsOfHexThen(h: string, t: string)
    requires AllHexDigits(h)
    requires t != [] ==> !IsHexDigit(t[0])
    ensures SplitHexDigits(h + t) == (h, t)
  {
    if h == [] {
      assert h + t == t;
    } else {
      SplitHexDigitsOfHexThen(h[1..], t);
      assert (h + t)[0] == h[0] && IsHexDigit(h[0]);
      assert (h + t)[1..] == h[1..] + t;
      assert [h[0]] + h[1..] == h;
    }
  }

  predicate HasHexPrefix(s: string)
  {
    |s| >= 2 && s[0] == '0' && (s[1] == 'x' || s[1] == 'X')
  }

  /**
   * `parseInt(s)` with no radix, restricted like `ParseIntPrefix` to unsigned
   * text: after a `0x` or `0X` prefix the leading hexadecimal digits are read
   * in base 16 (NaN when there are none); any other text is read in base 10.
   */
  function ParseIntNoRadix(s: string): (r: Option<nat>)
    ensures !HasHexPrefix(s) ==> r == ParseIntPrefix(s)
    ensures HasHexPrefix(s) ==> (r.None? <==> (|s| == 2 || !IsHexDigit(s[2])))
  {
    if HasHexPrefix(s) then
      var h := SplitHexDigits(s[2..]).0;
      if h == [] then None else Some(HexDigitsValue(h))
    else ParseIntPrefix(s)
  }

  /** `0x`, a run of hexadecimal digits and a non-digit (or nothing) parses as the run's value. */
  lemma ParseIntNoRadixOfHexThen(x: char, h: string, t: string)
    requires x == 'x' || x == 'X'
    requires AllHexDigits(h) && h != []
    requires t != [] ==> !IsHexDigit(t[0])
    ensures ParseIntNoRadix(['0', x] + h + t) == Some(HexDigitsValue(h))
  {
    var s := ['0', x] + h + t;
    assert s[2..] == h + t;
    SplitHexDigitsOfHexThen(h, t);
  }

  lemma HexDigitsValueOf7E8()
    ensures HexDigitsValue("7E8") == 2024
  {
    assert "7E8"[..2] == "7E" && "7E"[..1] == "7" && "7"[..0] == "";
    assert HexDigitsValue("7E") == 7 * 16 + 14;
  }

  lemma HexReadingOf7E8()
    ensures ParseIntNoRadix("0x7E8") == Some(2024)
  {
    var s := "0x7E8";
    assert s[2..] == "7E8" + "";
    HexDigitsValueOf7E8();
    SplitHexDigitsOfHexThen("7E8", "");
  }

  lemma DecimalReadingOf7E8()
    ensures ParseIntPrefix("0x7E8") == Some(0)
  {
    assert "0x7E8" == "0" + "x7E8";
    ParseIntPrefixOfDigitsThen("0", "x7E8");
  }

  /** The same text reads differently with and without the radix: `"0x7E8"` is 2024, not 0. */
  lemma HexPrefixDiffersFromDecimal()
    ensures ParseIntNoRadix("0x7E8") == Some(2024)
    ensures ParseIntPrefix("0x7E8") == Some(0)
  {
    HexReadingOf7E8();
    DecimalReadingOf7E8();
  }
}
