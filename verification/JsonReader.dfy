/** A reader for the printer's output (sections 2 to 7 of RFC 8259, no whitespace and no floats),
    and the round trip that makes the printer unambiguous. */
module JsonReader {
  import opened Text
  import opened Json
  import opened CanonicalJson

  datatype Parsed<+T> = NoParse | Parsed(value: T, rest: string)

  // ---------------------------------------------------------------- strings

  function HexValue(c: char): int
  {
    if IsDigit(c) then c as int - '0' as int else if 'a' <= c <= 'f' then c as int - 'a' as int + 10 else 0
  }

  /** The character of an escape sequence, after its backslash. */
  function ReadEscape(s: string): (p: Parsed<char>)
    ensures p.Parsed? ==> |p.rest| < |s|
  {
    if s == "" then NoParse
    else
      match s[0]
      case '\"' => Parsed('\"', s[1..])
      case '\\' => Parsed('\\', s[1..])
      case 'n' => Parsed('\n', s[1..])
      case 'r' => Parsed('\r', s[1..])
      case 't' => Parsed('\t', s[1..])
      case 'b' => Parsed('\U{8}', s[1..])
      case 'f' => Parsed('\U{c}', s[1..])
      case 'u' =>
        if |s| < 5 || s[1] != '0' || s[2] != '0' then NoParse
        else Parsed((HexValue(s[3]) * 16 + HexValue(s[4])) as char, s[5..])
      case _ => NoParse
  }

  /** The rest of a string, after its opening quote. */
  function ReadString(s: string): (p: Parsed<string>)
    ensures p.Parsed? ==> |p.rest| < |s|
    decreases |s|
  {
    if s == "" then NoParse
    else if s[0] == '\"' then Parsed("", s[1..])
    else
      var c := if s[0] == '\\' then ReadEscape(s[1..]) else Parsed(s[0], s[1..]);
      if c.NoParse? then NoParse
      else
        var more := ReadString(c.rest);
        if more.NoParse? then NoParse else Parsed([c.value] + more.value, more.rest)
  }

  // ---------------------------------------------------------------- integers

  function DigitRun(s: string): (n: nat)
    ensures n <= |s| && forall i :: 0 <= i < n ==> IsDigit(s[i])
  {
    if s != "" && IsDigit(s[0]) then 1 + DigitRun(s[1..]) else 0
  }

  function ReadNat(s: string): (p: Parsed<int>)
    ensures p.Parsed? ==> |p.rest| < |s|
  {
    var n := DigitRun(s);
    if n == 0 then NoParse else Parsed(DigitsValue(s[..n]), s[n..])
  }

  // ---------------------------------------------------------------- values

  function ReadWord(s: string, word: string, value: Json): (p: Parsed<Json>)
    requires word != ""
    ensures p.Parsed? ==> |p.rest| < |s|
  {
    if word <= s then Parsed(value, s[|word|..]) else NoParse
  }

  function ReadNumber(s: string): (p: Parsed<Json>)
    requires s != ""
    ensures p.Parsed? ==> |p.rest| < |s|
  {
    var n := ReadNat(if s[0] == '-' then s[1..] else s);
    if n.NoParse? then NoParse else Parsed(Int(if s[0] == '-' then -n.value else n.value), n.rest)
  }

  function ReadValue(s: string): (p: Parsed<Json>)
    ensures p.Parsed? ==> |p.rest| < |s|
    decreases |s|, 0
  {
    if s == "" then NoParse
    else if s[0] == 'n' then ReadWord(s, "null", Null)
    else if s[0] == 't' then ReadWord(s, "true", Bool(true))
    else if s[0] == 'f' then ReadWord(s, "false", Bool(false))
    else if s[0] == '\"' then
      var str := ReadString(s[1..]);
      if str.NoParse? then NoParse else Parsed(Str(str.value), str.rest)
    else if s[0] == '[' then
      if |s| > 1 && s[1] == ']' then Parsed(Arr([]), s[2..])
      else
        var items := ReadItems(s[1..]);
        if items.NoParse? then NoParse else Parsed(Arr(items.value), items.rest)
    else if s[0] == '{' then
      if |s| > 1 && s[1] == '}' then Parsed(Obj([]), s[2..])
      else
        var members := ReadMembers(s[1..]);
        if members.NoParse? then NoParse else Parsed(Obj(members.value), members.rest)
    else ReadNumber(s)
  }

  function ReadItems(s: string): (p: Parsed<seq<Json>>)
    ensures p.Parsed? ==> |p.rest| < |s|
    decreases |s|, 1
  {
    var first := ReadValue(s);
    if first.NoParse? || first.rest == "" then NoParse
    else if first.rest[0] == ']' then Parsed([first.value], first.rest[1..])
    else if first.rest[0] != ',' then NoParse
    else
      var more := ReadItems(first.rest[1..]);
      if more.NoParse? then NoParse else Parsed([first.value] + more.value, more.rest)
  }

  function ReadMember(s: string): (p: Parsed<Member>)
    ensures p.Parsed? ==> |p.rest| < |s|
    decreases |s|, 1
  {
    if s == "" || s[0] != '\"' then NoParse
    else
      var key := ReadString(s[1..]);
      if key.NoParse? || key.rest == "" || key.rest[0] != ':' then NoParse
      else
        var value := ReadValue(key.rest[1..]);
        if value.NoParse? then NoParse else Parsed(Member(key.value, value.value), value.rest)
  }

  function ReadMembers(s: string): (p: Parsed<Dict>)
    ensures p.Parsed? ==> |p.rest| < |s|
    decreases |s|, 2
  {
    var first := ReadMember(s);
    if first.NoParse? || first.rest == "" then NoParse
    else if first.rest[0] == '}' then Parsed([first.value], first.rest[1..])
    else if first.rest[0] != ',' then NoParse
    else
      var more := ReadMembers(first.rest[1..]);
      if more.NoParse? then NoParse else Parsed([first.value] + more.value, more.rest)
  }

  // ---------------------------------------------------------------- round trips

  lemma HexValueOfHexChar(d: int)
    requires 0 <= d < 16
    ensures HexValue(HexChar(d)) == d
  {
  }

  /** Reading one printed character gives it back and consumes exactly its text. */
  lemma EscapeCharRoundTrip(c: char, rest: string)
    ensures var s := EscapeChar(c) + rest;
            s[0] != '\"' &&
            (if s[0] == '\\' then ReadEscape(s[1..]) else Parsed(s[0], s[1..])) == Parsed(c, rest)
  {
    var e := EscapeChar(c);
    var s := e + rest;
    assert s[|e|..] == rest;
    if s[0] == '\\' {
      assert s[1..] == e[1..] + rest;
      if |e| == 6 {
        HexValueOfHexChar(c as int / 16);
        HexValueOfHexChar(c as int % 16);
        assert s[1..][5..] == rest;
        assert e == "\\u00" + [HexChar(c as int / 16), HexChar(c as int % 16)];
        assert s[1..][3] == e[4] && s[1..][4] == e[5];
      } else {
        assert s[1..][1..] == rest;
      }
    } else {
      assert s[1..] == rest;
    }
  }

  lemma {:induction false} StringRoundTrip(s: string, rest: string)
    ensures ReadString(Escape(s) + "\"" + rest) == Parsed(s, rest)
  {
    var text := Escape(s) + "\"" + rest;
    if s == "" {
      assert text == "\"" + rest;
      assert text[1..] == rest;
    } else {
      var after := Escape(s[1..]) + "\"" + rest;
      assert text == EscapeChar(s[0]) + after;
      EscapeCharRoundTrip(s[0], after);
      StringRoundTrip(s[1..], rest);
      assert [s[0]] + s[1..] == s;
    }
  }

  /** What may follow a printed number. */
  predicate Delimited(rest: string) {
    rest == "" || !IsDigit(rest[0])
  }

  lemma {:induction false} DigitRunOfDigits(digits: string, rest: string)
    requires forall i :: 0 <= i < |digits| ==> IsDigit(digits[i])
    requires Delimited(rest)
    ensures DigitRun(digits + rest) == |digits|
  {
    if digits != "" {
      assert (digits + rest)[1..] == digits[1..] + rest;
      DigitRunOfDigits(digits[1..], rest);
    } else {
      assert digits + rest == rest;
    }
  }

  lemma NatRoundTrip(n: nat, rest: string)
    requires Delimited(rest)
    ensures ReadNat(Digits(n) + rest) == Parsed(n, rest)
  {
    var d := Digits(n);
    DigitRunOfDigits(d, rest);
    DigitsRoundTrip(n);
    assert (d + rest)[..|d|] == d && (d + rest)[|d|..] == rest;
  }

  lemma ReadSigned(digits: string, value: int, rest: string)
    requires digits != "" && IsDigit(digits[0])
    requires ReadNat(digits + rest) == Parsed(value, rest)
    ensures ReadNumber(digits + rest) == Parsed(Int(value), rest)
    ensures ReadNumber("-" + digits + rest) == Parsed(Int(-value), rest)
  {
    assert ("-" + digits + rest)[1..] == digits + rest;
  }

  lemma IntRoundTrip(n: int, rest: string)
    requires Delimited(rest)
    ensures ReadNumber(IntText(n) + rest) == Parsed(Int(n), rest)
  {
    if n < 0 {
      NatRoundTrip(-n, rest);
      ReadSigned(Digits(-n), -n, rest);
    } else {
      NatRoundTrip(n, rest);
      ReadSigned(Digits(n), n, rest);
    }
  }

  /** A value's text starts with neither closing bracket. */
  lemma PrintStart(v: Json)
    requires FloatFree(v)
    ensures Print(v) != "" && Print(v)[0] != ']' && Print(v)[0] != '}'
  {
  }

  lemma ReadWords(rest: string)
    ensures ReadValue("null" + rest) == Parsed(Null, rest)
    ensures ReadValue("true" + rest) == Parsed(Bool(true), rest)
    ensures ReadValue("false" + rest) == Parsed(Bool(false), rest)
  {
    assert ("null" + rest)[4..] == rest;
    assert ("true" + rest)[4..] == rest;
    assert ("false" + rest)[5..] == rest;
  }

  lemma ReadQuoted(t: string, rest: string)
    ensures ReadValue(StringText(t) + rest) == Parsed(Str(t), rest)
  {
    var body := Escape(t) + "\"" + rest;
    assert StringText(t) + rest == "\"" + body;
    assert ("\"" + body)[1..] == body;
    StringRoundTrip(t, rest);
  }

  lemma ReadNumeral(n: int, rest: string)
    requires Delimited(rest)
    ensures ReadValue(IntText(n) + rest) == Parsed(Int(n), rest)
  {
    IntRoundTrip(n, rest);
    assert (IntText(n) + rest)[0] == IntText(n)[0];
  }

  /** The reader undoes the printer on every float-free value, whatever follows the value. */
  lemma {:induction false} ReadPrint(v: Json, rest: string)
    requires FloatFree(v) && Delimited(rest)
    ensures ReadValue(Print(v) + rest) == Parsed(v, rest)
    decreases v, 1
  {
    match v
    case Null => ReadWords(rest);
    case Bool(b) => ReadWords(rest);
    case Int(n) => ReadNumeral(n, rest);
    case Float(_, _) =>
    case Str(t) => ReadQuoted(t, rest);
    case Arr(items) => ReadPrintArray(items, rest);
    case Obj(members) => ReadPrintObject(members, rest);
  }

  lemma {:induction false} ReadPrintArray(items: seq<Json>, rest: string)
    requires FloatFreeItems(items)
    ensures ReadValue("[" + PrintItems(items) + "]" + rest) == Parsed(Arr(items), rest)
    decreases items, 1
  {
    var body := PrintItems(items) + ("]" + rest);
    var s := "[" + PrintItems(items) + "]" + rest;
    assert s[1..] == body;
    if items == [] {
      assert s[2..] == rest;
    } else {
      PrintStart(items[0]);
      assert body[0] == Print(items[0])[0];
      ReadPrintItems(items, rest);
    }
  }

  lemma {:induction false} ReadPrintObject(members: Dict, rest: string)
    requires FloatFreeMembers(members)
    ensures ReadValue("{" + PrintMembers(members) + "}" + rest) == Parsed(Obj(members), rest)
    decreases members, 1
  {
    var body := PrintMembers(members) + ("}" + rest);
    var s := "{" + PrintMembers(members) + "}" + rest;
    assert s[1..] == body;
    if members == [] {
      assert s[2..] == rest;
    } else {
      assert body[0] == PrintMember(members[0])[0] == '\"';
      ReadPrintMembers(members, rest);
    }
  }

  lemma {:induction false} ReadPrintItems(items: seq<Json>, rest: string)
    requires items != [] && FloatFreeItems(items)
    ensures ReadItems(PrintItems(items) + ("]" + rest)) == Parsed(items, rest)
    decreases items, 0
  {
    var v, more := items[0], items[1..];
    if more == [] {
      ReadPrint(v, "]" + rest);
      assert ("]" + rest)[1..] == rest;
      assert [v] == items;
    } else {
      var tail := PrintItems(more) + ("]" + rest);
      CutAtComma(Print(v), PrintItems(more), "]" + rest);
      ReadPrint(v, "," + tail);
      ReadPrintItems(more, rest);
      assert ("," + tail)[1..] == tail;
      assert [v] + more == items;
    }
  }

  lemma {:induction false} ReadPrintMember(m: Member, rest: string)
    requires FloatFree(m.value) && Delimited(rest)
    ensures ReadMember(PrintMember(m) + rest) == Parsed(m, rest)
    decreases m, 0
  {
    hide Print, FloatFree, Delimited;
    var value := Print(m.value) + rest;
    var after := ":" + value;
    MemberText(m, rest);
    StringRoundTrip(m.key, after);
    assert after[1..] == value;
    ReadPrint(m.value, rest);
  }

  lemma MemberText(m: Member, rest: string)
    ensures var s := PrintMember(m) + rest;
            s[0] == '\"' && s[1..] == Escape(m.key) + "\"" + (":" + (Print(m.value) + rest))
  {
    hide Print, Escape;
    var s := PrintMember(m) + rest;
    assert s == "\"" + (Escape(m.key) + "\"" + (":" + (Print(m.value) + rest)));
  }

  lemma Assoc(a: string, b: string, c: string)
    ensures a + b + c == a + (b + c)
  {
  }

  /** The text of a longer list and what follows it, cut at its first comma. */
  lemma CutAtComma(head: string, more: string, after: string)
    ensures head + ("," + more) + after == head + ("," + (more + after))
  {
    Assoc(head, "," + more, after);
    Assoc(",", more, after);
  }

  lemma {:induction false} ReadPrintMembers(members: Dict, rest: string)
    requires members != [] && FloatFreeMembers(members)
    ensures ReadMembers(PrintMembers(members) + ("}" + rest)) == Parsed(members, rest)
    decreases members, 0
  {
    var m, more := members[0], members[1..];
    if more == [] {
      ReadPrintMember(m, "}" + rest);
      ReadLastMember(m, PrintMember(m), rest);
      assert [m] == members;
    } else {
      var tail := PrintMembers(more) + ("}" + rest);
      CutAtComma(PrintMember(m), PrintMembers(more), "}" + rest);
      ReadPrintMember(m, "," + tail);
      ReadPrintMembers(more, rest);
      ReadNextMember(m, PrintMember(m), tail, more, rest);
      assert [m] + more == members;
    }
  }

  lemma ReadLastMember(m: Member, text: string, rest: string)
    requires ReadMember(text + ("}" + rest)) == Parsed(m, "}" + rest)
    ensures ReadMembers(text + ("}" + rest)) == Parsed([m], rest)
  {
    assert ("}" + rest)[1..] == rest;
  }

  lemma ReadNextMember(m: Member, text: string, tail: string, more: Dict, rest: string)
    requires ReadMember(text + ("," + tail)) == Parsed(m, "," + tail)
    requires ReadMembers(tail) == Parsed(more, rest)
    ensures ReadMembers(text + ("," + tail)) == Parsed([m] + more, rest)
  {
    assert ("," + tail)[1..] == tail;
  }

  /** No two float-free values print alike. */
  lemma PrintInjective(a: Json, b: Json)
    requires FloatFree(a) && FloatFree(b)
    requires Print(a) == Print(b)
    ensures a == b
  {
    ReadPrint(a, "");
    ReadPrint(b, "");
    assert Print(a) + "" == Print(a) && Print(b) + "" == Print(b);
  }
}
