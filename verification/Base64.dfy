/** Unpadded base64url as the key and signature encoding (section 5 of RFC 4648), with the lenient
    decoder of the host library and the two fallbacks of `decode_key_bytes`. */
module Base64 {
  import opened Wrappers
  import opened Text

  type sextet = n: int | 0 <= n < 64

  // ---------------------------------------------------------------- alphabet

  function UrlChar(n: sextet): char {
    if n < 26 then ('A' as int + n) as char
    else if n < 52 then ('a' as int + (n - 26)) as char
    else if n < 62 then ('0' as int + (n - 52)) as char
    else if n == 62 then '-'
    else '_'
  }

  /** The value of a data character. `urlsafe` also reads '-' and '_', after translating them to
      '+' and '/'; any other character is skipped by the decoder. */
  function Index(c: char, urlsafe: bool): Option<sextet> {
    if 'A' <= c <= 'Z' then Some(c as int - 'A' as int)
    else if 'a' <= c <= 'z' then Some(c as int - 'a' as int + 26)
    else if '0' <= c <= '9' then Some(c as int - '0' as int + 52)
    else if c == '+' || (urlsafe && c == '-') then Some(62)
    else if c == '/' || (urlsafe && c == '_') then Some(63)
    else None
  }

  lemma IndexOfUrlChar(n: sextet)
    ensures Index(UrlChar(n), true) == Some(n) && UrlChar(n) != '=' && !IsSpace(UrlChar(n)) && UrlChar(n) < '\U{80}'
  {
  }

  // ---------------------------------------------------------------- encoding

  /** `base64.urlsafe_b64encode`, padded. */
  function UrlsafeEncode(raw: seq<byte>): string {
    if raw == [] then ""
    else if |raw| == 1 then [UrlChar(raw[0] / 4), UrlChar(raw[0] % 4 * 16), '=', '=']
    else if |raw| == 2 then
      [UrlChar(raw[0] / 4), UrlChar(raw[0] % 4 * 16 + raw[1] / 16), UrlChar(raw[1] % 16 * 4), '=']
    else
      [UrlChar(raw[0] / 4), UrlChar(raw[0] % 4 * 16 + raw[1] / 16),
       UrlChar(raw[1] % 16 * 4 + raw[2] / 64), UrlChar(raw[2] % 64)] + UrlsafeEncode(raw[3..])
  }

  function StripPadding(s: string): string
    decreases |s|
  {
    if s != "" && s[|s| - 1] == '=' then StripPadding(s[..|s| - 1]) else s
  }

  /** `encode_key_bytes`. */
  function EncodeKeyBytes(raw: seq<byte>): string {
    StripPadding(UrlsafeEncode(raw))
  }

  // ---------------------------------------------------------------- decoding

  /** The non-strict base64 scanner: `quad` data characters of the current group are read, `left`
      holds the bits not yet written, `pads` counts padding seen since the last data character. */
  function Scan(s: string, urlsafe: bool, quad: nat, left: int, pads: nat): Option<seq<byte>>
    requires quad < 4
    requires 0 <= left < (match quad case 0 => 1 case 1 => 64 case 2 => 16 case _ => 4)
    decreases |s|
  {
    if s == "" then
      if quad == 0 then Some([]) else None
    else if s[0] == '=' then
      if quad >= 2 && quad + pads + 1 >= 4 then Some([])
      else Scan(s[1..], urlsafe, quad, left, if quad >= 2 then pads + 1 else pads)
    else
      var index := Index(s[0], urlsafe);
      if index.None? then Scan(s[1..], urlsafe, quad, left, pads)
      else
        var n := index.value;
        match quad
        case 0 => Scan(s[1..], urlsafe, 1, n, 0)
        case 1 => Emit(left * 4 + n / 16, Scan(s[1..], urlsafe, 2, n % 16, 0))
        case 2 => Emit(left * 16 + n / 4, Scan(s[1..], urlsafe, 3, n % 4, 0))
        case _ => Emit(left * 64 + n, Scan(s[1..], urlsafe, 0, 0, 0))
  }

  function Emit(b: byte, rest: Option<seq<byte>>): Option<seq<byte>> {
    if rest.None? then None else Some([b] + rest.value)
  }

  predicate IsAscii(s: string) {
    forall i :: 0 <= i < |s| ==> s[i] < '\U{80}'
  }

  function HexDigit(c: char): Option<int> {
    if IsDigit(c) then Some(c as int - '0' as int)
    else if 'a' <= c <= 'f' then Some(c as int - 'a' as int + 10)
    else if 'A' <= c <= 'F' then Some(c as int - 'A' as int + 10)
    else None
  }

  /** `bytes.fromhex`: pairs of digits, ASCII whitespace between pairs ignored. */
  function FromHex(s: string): Option<seq<byte>> {
    if s == "" then Some([])
    else if '\t' <= s[0] <= '\r' || s[0] == ' ' then FromHex(s[1..])
    else if |s| == 1 || HexDigit(s[0]).None? || HexDigit(s[1]).None? then None
    else Emit((HexDigit(s[0]).value * 16 + HexDigit(s[1]).value) % 256, FromHex(s[2..]))
  }

  datatype KeyEncodingError = EmptyEncoding | InvalidEncoding | WrongLength(actual: nat, expected: nat)

  function Padding(n: nat): string {
    match n % 4
    case 0 => ""
    case 1 => "==="
    case 2 => "=="
    case _ => "="
  }

  function DecodeText(text: string): Option<seq<byte>> {
    var url := if IsAscii(text) then Scan(text + Padding(|text|), true, 0, 0, 0) else None;
    if url.Some? then url
    else
      var standard := if IsAscii(text) then Scan(text, false, 0, 0, 0) else None;
      if standard.Some? then standard
      else FromHex(if "0x" <= text then text[2..] else text)
  }

  /** `decode_key_bytes`: base64url, then plain base64, then hexadecimal. */
  function DecodeKeyBytes(value: string, expectedLen: Option<nat>): Result<seq<byte>, KeyEncodingError> {
    var text := Strip(value);
    if text == "" then Err(EmptyEncoding)
    else
      var raw := DecodeText(text);
      if raw.None? then Err(InvalidEncoding)
      else if expectedLen.Some? && |raw.value| != expectedLen.value then Err(WrongLength(|raw.value|, expectedLen.value))
      else Ok(raw.value)
  }

  // ---------------------------------------------------------------- round trip

  /** Reading a character back from the alphabet. */
  lemma ScanChar(n: sextet, rest: string, quad: nat, left: int, pads: nat)
    requires quad < 4
    requires 0 <= left < (match quad case 0 => 1 case 1 => 64 case 2 => 16 case _ => 4)
    ensures Scan([UrlChar(n)] + rest, true, quad, left, pads)
         == match quad
            case 0 => Scan(rest, true, 1, n, 0)
            case 1 => Emit(left * 4 + n / 16, Scan(rest, true, 2, n % 16, 0))
            case 2 => Emit(left * 16 + n / 4, Scan(rest, true, 3, n % 4, 0))
            case _ => Emit(left * 64 + n, Scan(rest, true, 0, 0, 0))
  {
    IndexOfUrlChar(n);
    assert ([UrlChar(n)] + rest)[1..] == rest;
  }

  /** Three bytes are the four sextets cut from them. */
  lemma Regroup(a: byte, b: byte, c: byte)
    ensures var n0, n1, n2, n3 := a / 4, a % 4 * 16 + b / 16, b % 16 * 4 + c / 64, c % 64;
            && n0 * 4 + n1 / 16 == a && n1 % 16 * 16 + n2 / 4 == b && n2 % 4 * 64 + n3 == c
  {
  }

  lemma ScanGroup(a: byte, b: byte, c: byte, rest: string)
    ensures Scan([UrlChar(a / 4), UrlChar(a % 4 * 16 + b / 16), UrlChar(b % 16 * 4 + c / 64), UrlChar(c % 64)] + rest,
                 true, 0, 0, 0)
         == Emit(a, Emit(b, Emit(c, Scan(rest, true, 0, 0, 0))))
  {
    hide Scan;
    Regroup(a, b, c);
    var n0, n1, n2, n3 := a / 4, a % 4 * 16 + b / 16, b % 16 * 4 + c / 64, c % 64;
    var t3 := [UrlChar(n3)] + rest;
    var t2 := [UrlChar(n2)] + t3;
    var t1 := [UrlChar(n1)] + t2;
    assert [UrlChar(n0), UrlChar(n1), UrlChar(n2), UrlChar(n3)] + rest == [UrlChar(n0)] + t1;
    ScanChar(n0, t1, 0, 0, 0);
    ScanChar(n1, t2, 1, n0, 0);
    ScanChar(n2, t3, 2, n1 % 16, 0);
    ScanChar(n3, rest, 3, n2 % 4, 0);
  }

  lemma ScanLastTwo(a: byte, b: byte)
    ensures Scan([UrlChar(a / 4), UrlChar(a % 4 * 16 + b / 16), UrlChar(b % 16 * 4), '='], true, 0, 0, 0) == Some([a, b])
  {
    var n0, n1, n2 := a / 4, a % 4 * 16 + b / 16, b % 16 * 4;
    ScanChar(n0, [UrlChar(n1), UrlChar(n2), '='], 0, 0, 0);
    assert [UrlChar(n0)] + [UrlChar(n1), UrlChar(n2), '='] == [UrlChar(n0), UrlChar(n1), UrlChar(n2), '='];
    ScanChar(n1, [UrlChar(n2), '='], 1, n0, 0);
    assert [UrlChar(n1)] + [UrlChar(n2), '='] == [UrlChar(n1), UrlChar(n2), '='];
    ScanChar(n2, "=", 2, n1 % 16, 0);
    assert [UrlChar(n2)] + "=" == [UrlChar(n2), '='];
    assert n0 * 4 + n1 / 16 == a && n1 % 16 * 16 + n2 / 4 == b;
    assert Scan("=", true, 3, n2 % 4, 0) == Some([]);
    assert [b] + [] == [b] && [a] + [b] == [a, b];
  }

  lemma ScanLastOne(a: byte)
    ensures Scan([UrlChar(a / 4), UrlChar(a % 4 * 16), '=', '='], true, 0, 0, 0) == Some([a])
  {
    var n0, n1 := a / 4, a % 4 * 16;
    ScanChar(n0, [UrlChar(n1), '=', '='], 0, 0, 0);
    assert [UrlChar(n0)] + [UrlChar(n1), '=', '='] == [UrlChar(n0), UrlChar(n1), '=', '='];
    ScanChar(n1, "==", 1, n0, 0);
    assert [UrlChar(n1)] + "==" == [UrlChar(n1), '=', '='];
    assert n0 * 4 + n1 / 16 == a;
    assert "=="[1..] == "=";
    assert Scan("=", true, 2, n1 % 16, 1) == Some([]);
    assert [a] + [] == [a];
  }

  /** Characters of the encoding proper. */
  predicate Encoded(s: string) {
    forall i :: 0 <= i < |s| ==> s[i] != '=' && !IsSpace(s[i]) && s[i] < '\U{80}'
  }

  lemma {:induction false} StripPaddingOf(body: string, pad: string)
    requires Encoded(body) && forall i :: 0 <= i < |pad| ==> pad[i] == '='
    ensures StripPadding(body + pad) == body
    decreases |pad|
  {
    if pad == "" {
      assert body + pad == body;
    } else {
      assert (body + pad)[..|body + pad| - 1] == body + pad[..|pad| - 1];
      StripPaddingOf(body, pad[..|pad| - 1]);
    }
  }

  function Group(a: byte, b: byte, c: byte): (s: string)
    ensures |s| == 4 && Encoded(s)
  {
    IndexOfUrlChar(a / 4);
    IndexOfUrlChar(a % 4 * 16 + b / 16);
    IndexOfUrlChar(b % 16 * 4 + c / 64);
    IndexOfUrlChar(c % 64);
    [UrlChar(a / 4), UrlChar(a % 4 * 16 + b / 16), UrlChar(b % 16 * 4 + c / 64), UrlChar(c % 64)]
  }

  lemma EncodeGroup(raw: seq<byte>)
    requires |raw| >= 3
    ensures UrlsafeEncode(raw) == Group(raw[0], raw[1], raw[2]) + UrlsafeEncode(raw[3..])
  {
  }

  lemma {:induction false} ScanUndoesEncode(raw: seq<byte>)
    ensures Scan(UrlsafeEncode(raw), true, 0, 0, 0) == Some(raw)
  {
    if |raw| == 1 {
      ScanLastOne(raw[0]);
      assert raw == [raw[0]];
    } else if |raw| == 2 {
      ScanLastTwo(raw[0], raw[1]);
      assert raw == [raw[0], raw[1]];
    } else if |raw| >= 3 {
      EncodeGroup(raw);
      ScanGroup(raw[0], raw[1], raw[2], UrlsafeEncode(raw[3..]));
      ScanUndoesEncode(raw[3..]);
      assert [raw[0]] + ([raw[1]] + ([raw[2]] + raw[3..])) == raw;
    }
  }

  lemma PaddingPeriod(head: string, more: string)
    requires |head| == 4 && Encoded(head) && Encoded(more)
    ensures Encoded(head + more)
    ensures head + (more + Padding(|more|)) == (head + more) + Padding(|head + more|)
  {
    assert |head + more| % 4 == |more| % 4;
  }

  lemma ShortShape(raw: seq<byte>) returns (body: string)
    requires |raw| <= 2
    ensures Encoded(body) && UrlsafeEncode(raw) == body + Padding(|body|)
    ensures raw != [] ==> body != ""
  {
    if raw == [] {
      body := "";
    } else if |raw| == 1 {
      IndexOfUrlChar(raw[0] / 4);
      IndexOfUrlChar(raw[0] % 4 * 16);
      body := [UrlChar(raw[0] / 4), UrlChar(raw[0] % 4 * 16)];
    } else {
      IndexOfUrlChar(raw[0] / 4);
      IndexOfUrlChar(raw[0] % 4 * 16 + raw[1] / 16);
      IndexOfUrlChar(raw[1] % 16 * 4);
      body := [UrlChar(raw[0] / 4), UrlChar(raw[0] % 4 * 16 + raw[1] / 16), UrlChar(raw[1] % 16 * 4)];
    }
  }

  /** The padded encoding is its data characters followed by exactly the padding the decoder adds back. */
  lemma {:induction false} EncodingShape(raw: seq<byte>) returns (body: string)
    ensures Encoded(body) && UrlsafeEncode(raw) == body + Padding(|body|)
    ensures raw != [] ==> body != ""
  {
    if |raw| <= 2 {
      body := ShortShape(raw);
    } else {
      EncodeGroup(raw);
      var more := EncodingShape(raw[3..]);
      PaddingPeriod(Group(raw[0], raw[1], raw[2]), more);
      body := Group(raw[0], raw[1], raw[2]) + more;
    }
  }

  /** Every non-empty byte string decodes from its own encoding, and the encoding is clean text. */
  lemma KeyBytesRoundTrip(raw: seq<byte>, expectedLen: Option<nat>)
    requires raw != []
    requires expectedLen.Some? ==> expectedLen.value == |raw|
    ensures DecodeKeyBytes(EncodeKeyBytes(raw), expectedLen) == Ok(raw)
    ensures EncodeKeyBytes(raw) != "" && Trimmed(EncodeKeyBytes(raw))
  {
    var body := EncodingShape(raw);
    ScanUndoesEncode(raw);
    StripPaddingOf(body, Padding(|body|));
    StripTrimmed(body);
    assert IsAscii(body);
  }
}
