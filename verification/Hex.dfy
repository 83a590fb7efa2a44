/** encoding/hex, for byte strings. */
module Hex {
  import opened Wrappers
  import opened Text

  type uint8 = n: int | 0 <= n < 256

  type nibble = n: int | 0 <= n < 16

  function HexDigit(c: char): Option<nibble> {
    if '0' <= c <= '9' then Some((c as int) - ('0' as int))
    else if 'a' <= c <= 'f' then Some((c as int) - ('a' as int) + 10)
    else if 'A' <= c <= 'F' then Some((c as int) - ('A' as int) + 10)
    else None
  }

  function HexChar(d: nibble): (c: char)
    ensures HexDigit(c) == Some(d)
  {
    if d < 10 then (d + ('0' as int)) as char else (d - 10 + ('a' as int)) as char
  }

  predicate IsHex(s: string) {
    forall i | 0 <= i < |s| :: HexDigit(s[i]).Some?
  }

  function HexDecode(s: string): Option<seq<uint8>> {
    if s == "" then Some([])
    else if |s| == 1 || HexDigit(s[0]).None? || HexDigit(s[1]).None? then None
    else
      match HexDecode(s[2..])
      case None => None
      case Some(rest) => Some([16 * HexDigit(s[0]).value + HexDigit(s[1]).value] + rest)
  }

  function HexEncode(bytes: seq<uint8>): (s: string)
    ensures |s| == 2 * |bytes|
  {
    if bytes == [] then "" else [HexChar(bytes[0] / 16), HexChar(bytes[0] % 16)] + HexEncode(bytes[1..])
  }

  /** Lower-case hex text reads back as the bytes it was made from. */
  lemma {:induction false} HexRoundTrip(bytes: seq<uint8>)
    ensures HexDecode(HexEncode(bytes)) == Some(bytes)
    ensures IsHex(HexEncode(bytes))
  {
    if bytes != [] {
      var s, rest := HexEncode(bytes), HexEncode(bytes[1..]);
      HexRoundTrip(bytes[1..]);
      assert s[2..] == rest;
      assert forall i | 2 <= i < |s| :: s[i] == rest[i - 2];
      assert bytes == [bytes[0]] + bytes[1..];
    }
  }

  lemma HexDigitInEitherCase(c: char, d: nibble)
    ensures HexDigit(c) == Some(d) <==> LowerChar(c) == HexChar(d)
  {
  }

  /** A text reads as some bytes exactly when, but for the case of its letters, it is their hex text. */
  lemma {:induction false} HexDecodeExactly(s: string, bytes: seq<uint8>)
    ensures HexDecode(s) == Some(bytes) <==> ToLower(s) == HexEncode(bytes)
  {
    hide HexDigit, HexChar, LowerChar, ToLower;
    if |s| >= 2 && bytes != [] {
      var high, low := bytes[0] / 16, bytes[0] % 16;
      HexDecodeExactly(s[2..], bytes[1..]);
      HexDigitInEitherCase(s[0], high);
      HexDigitInEitherCase(s[1], low);
      assert ToLower(s) == [LowerChar(s[0]), LowerChar(s[1])] + ToLower(s[2..]);
      SamePair(LowerChar(s[0]), LowerChar(s[1]), ToLower(s[2..]), HexChar(high), HexChar(low), HexEncode(bytes[1..]));
      SameBytes(s, bytes);
    } else {
      assert |ToLower(s)| == |s|;
    }
  }

  lemma SamePair(a: char, b: char, s: string, c: char, d: char, t: string)
    ensures [a, b] + s == [c, d] + t <==> a == c && b == d && s == t
  {
    assert ([a, b] + s)[2..] == s && ([c, d] + t)[2..] == t;
    assert ([a, b] + s)[0] == a && ([c, d] + t)[0] == c && ([a, b] + s)[1] == b && ([c, d] + t)[1] == d;
  }

  lemma SameBytes(s: string, bytes: seq<uint8>)
    requires |s| >= 2 && bytes != []
    ensures HexDecode(s) == Some(bytes) <==>
            && HexDigit(s[0]) == Some(bytes[0] / 16) && HexDigit(s[1]) == Some(bytes[0] % 16)
            && HexDecode(s[2..]) == Some(bytes[1..])
  {
    hide HexDigit;
    if HexDigit(s[0]).Some? && HexDigit(s[1]).Some? && HexDecode(s[2..]).Some? {
      var all := [16 * HexDigit(s[0]).value + HexDigit(s[1]).value] + HexDecode(s[2..]).value;
      assert all[1..] == HexDecode(s[2..]).value;
      assert bytes == [bytes[0]] + bytes[1..];
    }
  }
}
