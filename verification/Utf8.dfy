/** UTF-8 (section 3 of RFC 3629). A `char` is a Unicode scalar value, so every string encodes. */
module Utf8 {
  import opened Text

  function EncodeChar(c: char): (bytes: seq<byte>)
    ensures 1 <= |bytes| <= 4
  {
    var n := c as int;
    var high, higher := n / 0x40, n / 0x40 / 0x40;
    if n < 0x80 then [n]
    else if n < 0x800 then [0xC0 + high, 0x80 + n % 0x40]
    else if n < 0x10000 then [0xE0 + higher, 0x80 + high % 0x40, 0x80 + n % 0x40]
    else [0xF0 + higher / 0x40, 0x80 + higher % 0x40, 0x80 + high % 0x40, 0x80 + n % 0x40]
  }

  function Encode(s: string): seq<byte> {
    if s == "" then [] else EncodeChar(s[0]) + Encode(s[1..])
  }

  /** The number of bytes a lead byte announces. */
  function Width(lead: byte): nat {
    if lead < 0xC0 then 1 else if lead < 0xE0 then 2 else if lead < 0xF0 then 3 else 4
  }

  lemma WidthOfChar(c: char)
    ensures Width(EncodeChar(c)[0]) == |EncodeChar(c)|
  {
  }

  /** The code point a well-formed sequence stands for. */
  function DecodeChar(bytes: seq<byte>): int
    requires 1 <= |bytes| <= 4
  {
    match |bytes|
    case 1 => bytes[0]
    case 2 => (bytes[0] as int - 0xC0) * 0x40 + (bytes[1] as int - 0x80)
    case 3 => ((bytes[0] as int - 0xE0) * 0x40 + (bytes[1] as int - 0x80)) * 0x40 + (bytes[2] as int - 0x80)
    case _ => (((bytes[0] as int - 0xF0) * 0x40 + (bytes[1] as int - 0x80)) * 0x40 + (bytes[2] as int - 0x80)) * 0x40 + (bytes[3] as int - 0x80)
  }

  lemma CharRoundTrip(c: char)
    ensures DecodeChar(EncodeChar(c)) == c as int
  {
    var n := c as int;
    assert n == n / 0x40 * 0x40 + n % 0x40;
    var high := n / 0x40;
    assert high == high / 0x40 * 0x40 + high % 0x40;
    var higher := high / 0x40;
    assert higher == higher / 0x40 * 0x40 + higher % 0x40;
  }

  /** No two strings share an encoding: the lead byte fixes where each character ends. */
  lemma {:induction false} EncodeInjective(s: string, t: string)
    requires Encode(s) == Encode(t)
    ensures s == t
  {
    if s != "" && t != "" {
      var x, y := EncodeChar(s[0]), EncodeChar(t[0]);
      WidthOfChar(s[0]);
      WidthOfChar(t[0]);
      assert Encode(s)[0] == x[0] && Encode(t)[0] == y[0];
      assert |x| == |y|;
      assert x == Encode(s)[..|x|] && y == Encode(t)[..|y|];
      CharRoundTrip(s[0]);
      CharRoundTrip(t[0]);
      assert Encode(s)[|x|..] == Encode(s[1..]) && Encode(t)[|y|..] == Encode(t[1..]);
      EncodeInjective(s[1..], t[1..]);
    }
  }
}
