/**
 * The sign-in address built from a username: the username's UTF-8 bytes in
 * lower-case hexadecimal, an '@', the department code and ".local".
 */
module AuthHelpers {
  import opened Wrappers

  newtype byte = x: int | 0 <= x < 256

  predicate IsLowerHex(c: char)
  {
    '0' <= c <= '9' || 'a' <= c <= 'f'
  }

  function HexDigit(n: int): (c: char)
    requires 0 <= n < 16
    ensures IsLowerHex(c)
  {
    if n < 10 then (48 + n) as char else (87 + n) as char
  }

  function HexValue(c: char): (n: int)
    requires IsLowerHex(c)
    ensures 0 <= n < 16 && HexDigit(n) == c
  {
    if c <= '9' then c as int - 48 else c as int - 87
  }

  /** `Buffer.toString('hex')`: two lower-case digits per byte, high nibble first. */
  function ToHex(bytes: seq<byte>): (s: string)
    ensures |s| == 2 * |bytes|
    ensures forall i :: 0 <= i < |s| ==> IsLowerHex(s[i])
  {
    if bytes == [] then []
    else [HexDigit(bytes[0] as int / 16), HexDigit(bytes[0] as int % 16)] + ToHex(bytes[1..])
  }

  /** Reads pairs of hex digits back into bytes. */
  function FromHex(s: string): seq<byte>
    requires |s| % 2 == 0
    requires forall i :: 0 <= i < |s| ==> IsLowerHex(s[i])
  {
    if s == [] then []
    else [(16 * HexValue(s[0]) + HexValue(s[1])) as byte] + FromHex(s[2..])
  }

  /** `generateAuthEmail`, given the username's UTF-8 bytes. */
  function GenerateAuthEmail(usernameUtf8: seq<byte>, deptCode: string): (email: string)
    ensures |email| == 2 * |usernameUtf8| + 1 + |deptCode| + 6
    ensures email[..2 * |usernameUtf8|] == ToHex(usernameUtf8)
    ensures email[2 * |usernameUtf8|] == '@'
    ensures email[2 * |usernameUtf8| + 1..] == deptCode + ".local"
  {
    ToHex(usernameUtf8) + "@" + deptCode + ".local"
  }

  /** Decoding the hex part gives back the bytes. */
  lemma {:induction false} FromHexToHex(bytes: seq<byte>)
    ensures FromHex(ToHex(bytes)) == bytes
    decreases |bytes|
  {
    if bytes != [] {
      var s := ToHex(bytes);
      var hi, lo := bytes[0] as int / 16, bytes[0] as int % 16;
      assert s[0] == HexDigit(hi) && s[1] == HexDigit(lo) && s[2..] == ToHex(bytes[1..]);
      HexValueOfDigit(hi);
      HexValueOfDigit(lo);
      FromHexToHex(bytes[1..]);
      assert bytes == [bytes[0]] + bytes[1..];
    }
  }

  /** Reading back a digit gives the nibble it was written from. */
  lemma HexValueOfDigit(n: int)
    requires 0 <= n < 16
    ensures HexValue(HexDigit(n)) == n
  {
  }

  lemma NoAtInHex(bytes: seq<byte>)
    ensures '@' !in ToHex(bytes)
  {
  }

  /** Splits at the first '@': the text before it and the text after it. */
  function SplitAtFirstAt(s: string): Option<(string, string)>
  {
    if s == [] then None
    else if s[0] == '@' then Some(([], s[1..]))
    else
      match SplitAtFirstAt(s[1..])
      case None => None
      case Some(p) => Some(([s[0]] + p.0, p.1))
  }

  lemma {:induction false} SplitAtFirstAtOf(h: string, t: string)
    requires '@' !in h
    ensures SplitAtFirstAt(h + "@" + t) == Some((h, t))
    decreases |h|
  {
    var s := h + "@" + t;
    if h == [] {
      assert s == "@" + t;
    } else {
      assert s[0] == h[0] && s[1..] == h[1..] + "@" + t;
      SplitAtFirstAtOf(h[1..], t);
      assert [h[0]] + h[1..] == h;
    }
  }

  /** Splitting the address at its first '@' recovers the hex part and the domain. */
  lemma SplitAuthEmail(usernameUtf8: seq<byte>, deptCode: string)
    ensures SplitAtFirstAt(GenerateAuthEmail(usernameUtf8, deptCode)) == Some((ToHex(usernameUtf8), deptCode + ".local"))
  {
    NoAtInHex(usernameUtf8);
    assert GenerateAuthEmail(usernameUtf8, deptCode) == ToHex(usernameUtf8) + "@" + (deptCode + ".local");
    SplitAtFirstAtOf(ToHex(usernameUtf8), deptCode + ".local");
  }

  /** Within one department, different usernames get different addresses. */
  lemma AuthEmailInjective(a: seq<byte>, b: seq<byte>, deptCode: string)
    requires GenerateAuthEmail(a, deptCode) == GenerateAuthEmail(b, deptCode)
    ensures a == b
  {
    SplitAuthEmail(a, deptCode);
    SplitAuthEmail(b, deptCode);
    FromHexToHex(a);
    FromHexToHex(b);
  }
}
