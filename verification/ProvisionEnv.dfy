/** The provision environment file (python/pcs_core/certifyedge_pin.py:79-103, 288-315): what `write`
    prints, `parse_provision_env` reads back, exactly for the environments that fit on its lines. */
module ProvisionEnv {
  import opened Wrappers
  import opened Text

  datatype ProvisionEnvironment = ProvisionEnvironment(
    executablePath: string, binaryDigest: string, version: string, pinIdentity: string, provisionStrategy: string, trustGrade: string)

  const EXECUTABLE := "PCS_CERTIFYEDGE_EXECUTABLE"
  const BINARY_DIGEST := "PCS_CERTIFYEDGE_BINARY_DIGEST"
  const VERSION := "PCS_CERTIFYEDGE_VERSION"
  const PIN_IDENTITY := "PCS_CERTIFYEDGE_PIN_IDENTITY"
  const STRATEGY := "PCS_CERTIFYEDGE_PROVISION_STRATEGY"
  const TRUST_GRADE := "PCS_CERTIFYEDGE_TRUST_GRADE"
  const CLI_ALIAS := "PF_CORE_CERTIFYEDGE_CLI"

  // ---------------------------------------------------------------- writing

  datatype Binding = Binding(key: string, value: string)

  function Bindings(e: ProvisionEnvironment): seq<Binding> {
    [Binding(EXECUTABLE, e.executablePath), Binding(BINARY_DIGEST, e.binaryDigest), Binding(VERSION, e.version),
     Binding(PIN_IDENTITY, e.pinIdentity), Binding(STRATEGY, e.provisionStrategy), Binding(TRUST_GRADE, e.trustGrade),
     Binding(CLI_ALIAS, e.executablePath)]
  }

  function LineOf(b: Binding): string {
    b.key + "=" + b.value
  }

  /** Every line followed by a line feed: `"\n".join(lines) + "\n"` of a list that is not empty. */
  function Printed(bindings: seq<Binding>): string {
    if bindings == [] then "" else LineOf(bindings[0]) + "\n" + Printed(bindings[1..])
  }

  /** `ProvisionEnvironment.write`. */
  function Write(e: ProvisionEnvironment): string {
    Printed(Bindings(e))
  }

  // ---------------------------------------------------------------- parsing

  /** The separators of `str.splitlines`. */
  predicate LineBreak(c: char) {
    '\n' <= c <= '\r' || '\U{1c}' <= c <= '\U{1e}' || c == '\U{85}' || c == '\U{2028}' || c == '\U{2029}'
  }

  predicate SingleLine(s: string) {
    forall i :: 0 <= i < |s| ==> !LineBreak(s[i])
  }

  /** The position of the first line break, or the length. */
  function FirstBreak(s: string): (i: nat)
    ensures i <= |s| && SingleLine(s[..i]) && (i < |s| ==> LineBreak(s[i]))
  {
    if s == "" || LineBreak(s[0]) then 0
    else
      var rest := FirstBreak(s[1..]);
      assert s[..rest + 1] == [s[0]] + s[1..][..rest];
      rest + 1
  }

  /** The line breaks, one by one. */
  lemma BreakCharacters(c: char)
    ensures LineBreak(c) <==> c in "\n\U{b}\U{c}\r\U{1c}\U{1d}\U{1e}\U{85}\U{2028}\U{2029}"
  {
  }

  lemma {:induction false} FirstBreakAt(line: string, rest: string)
    requires SingleLine(line) && rest != "" && LineBreak(rest[0])
    ensures FirstBreak(line + rest) == |line|
  {
    hide LineBreak;
    if line == "" {
      assert line + rest == rest;
    } else {
      assert (line + rest)[1..] == line[1..] + rest;
      FirstBreakAt(line[1..], rest);
    }
  }

  /** A text divides at its line breaks. */
  lemma LinesDivide(line: string, c: char, rest: string)
    requires SingleLine(line) && LineBreak(c)
    ensures c != '\r' || rest == "" || rest[0] != '\n' ==> Lines(line + [c] + rest) == [line] + Lines(rest)
    ensures Lines(line) == if line == "" then [] else [line]
  {
    hide LineBreak;
    var t := line + [c] + rest;
    FirstBreakAt(line, [c] + rest);
    assert t == line + ([c] + rest);
    assert t[|line| + 1..] == rest && t[..|line|] == line;
    assert FirstBreak(line) == |line|;
  }

  /** A carriage return with a line feed is one break. */
  lemma LinesDivideOnce(line: string, rest: string)
    requires SingleLine(line)
    ensures Lines(line + "\r\n" + rest) == [line] + Lines(rest)
  {
    BreakCharacters('\r');
    hide LineBreak;
    var s := line + "\r\n" + rest;
    FirstBreakAt(line, "\r\n" + rest);
    assert s == line + ("\r\n" + rest);
    assert s[|line| + 2..] == rest && s[..|line|] == line;
  }

  /** `s.splitlines()`. */
  function Lines(s: string): (lines: seq<string>)
    ensures forall line :: line in lines ==> SingleLine(line)
    decreases |s|
  {
    if s == "" then []
    else
      var i := FirstBreak(s);
      if i == |s| then [s]
      else [s[..i]] + Lines(s[(if s[i] == '\r' && i + 1 < |s| && s[i + 1] == '\n' then i + 2 else i + 1)..])
  }

  /** The position of the first '=', or the length. */
  function FirstEquals(s: string): (i: nat)
    ensures i <= |s| && (i < |s| <==> '=' in s) && (i < |s| ==> s[i] == '=') && '=' !in s[..i]
  {
    if s == "" then 0
    else if s[0] == '=' then 0
    else
      var rest := FirstEquals(s[1..]);
      assert s == [s[0]] + s[1..] && s[..rest + 1] == [s[0]] + s[1..][..rest];
      rest + 1
  }

  /** What one line binds: nothing for blanks, comments and lines without "=". */
  function BindingOf(line: string): Option<Binding> {
    var text := Strip(line);
    if text == "" || text[0] == '#' || '=' !in text then None
    else Some(Binding(Strip(text[..FirstEquals(text)]), Strip(text[FirstEquals(text) + 1..])))
  }

  /** The dictionary after all lines; later lines win. */
  function Values(lines: seq<string>): map<string, string>
    decreases |lines|
  {
    if lines == [] then map[]
    else
      var before := Values(lines[..|lines| - 1]);
      var bound := BindingOf(lines[|lines| - 1]);
      if bound.None? then before else before[bound.value.key := bound.value.value]
  }

  /** `values.get(key) or fallback`. */
  function ValueOr(values: map<string, string>, key: string, fallback: string): string {
    if key in values && values[key] != "" then values[key] else fallback
  }

  const TRUST_GRADES: set<string> := {"pinned", "untrusted_development", "unpinned"}

  datatype ParseError = ExecutableMissing

  function FromValues(values: map<string, string>): Result<ProvisionEnvironment, ParseError> {
    var executable := ValueOr(values, EXECUTABLE, ValueOr(values, CLI_ALIAS, ""));
    var grade := ValueOr(values, TRUST_GRADE, "untrusted_development");
    if executable == "" then Err(ExecutableMissing)
    else Ok(ProvisionEnvironment(executable, ValueOr(values, BINARY_DIGEST, ""), ValueOr(values, VERSION, ""),
                                 ValueOr(values, PIN_IDENTITY, ""), ValueOr(values, STRATEGY, "none"),
                                 if grade in TRUST_GRADES then grade else "untrusted_development"))
  }

  function Parse(text: string): Result<ProvisionEnvironment, ParseError> {
    FromValues(Values(Lines(text)))
  }

  /** `parse_provision_env`: one pass over the lines, filling a dictionary. */
  method ParseProvisionEnv(text: string) returns (r: Result<ProvisionEnvironment, ParseError>)
    ensures r == Parse(text)
  {
    hide Strip, FirstEquals;
    var lines := Lines(text);
    var values: map<string, string> := map[];
    for i := 0 to |lines|
      invariant values == Values(lines[..i])
    {
      assert lines[..i + 1][..i] == lines[..i] && lines[..i + 1][i] == lines[i];
      var stripped := Strip(lines[i]);
      if stripped == "" || stripped[0] == '#' || '=' !in stripped {
        continue;
      }
      var at := FirstEquals(stripped);
      EqualsFound(stripped);
      values := values[Strip(stripped[..at]) := Strip(stripped[at + 1..])];
    }
    assert lines[..|lines|] == lines;
    return FromValues(values);
  }

  lemma EqualsFound(s: string)
    requires '=' in s
    ensures FirstEquals(s) < |s|
  {
  }

  // ---------------------------------------------------------------- what parsing returns

  /** A value that fits on its line. */
  predicate Fits(s: string) {
    Trimmed(s) && SingleLine(s)
  }

  predicate EnvironmentFits(e: ProvisionEnvironment) {
    && Fits(e.executablePath) && Fits(e.binaryDigest) && Fits(e.version) && Fits(e.pinIdentity) && Fits(e.provisionStrategy)
    && e.executablePath != "" && e.provisionStrategy != "" && e.trustGrade in TRUST_GRADES
  }

  lemma StripFits(s: string)
    requires SingleLine(s)
    ensures Fits(Strip(s))
  {
    hide IsSpace, LineBreak;
    StripTrimmed(s);
    StripWithin(s);
  }

  lemma StripWithin(s: string)
    ensures forall i :: 0 <= i < |Strip(s)| ==> Strip(s)[i] in s
  {
    hide IsSpace;
    StripLeftForm(s);
    StripRightForm(StripLeft(s));
    var l := StripLeft(s);
    assert forall i :: 0 <= i < |l| ==> l[i] == s[|s| - |l| + i];
    assert forall i :: 0 <= i < |Strip(s)| ==> Strip(s)[i] == l[i];
  }

  lemma BindingFits(line: string)
    requires SingleLine(line) && BindingOf(line).Some?
    ensures Fits(BindingOf(line).value.value)
  {
    hide Strip, LineBreak, Fits;
    var text := Strip(line);
    StripFits(line);
    assert SingleLine(text) by {
      FitsSingle(text);
    }
    var rest := text[FirstEquals(text) + 1..];
    assert SingleLine(rest);
    StripFits(rest);
  }

  lemma FitsSingle(s: string)
    requires Fits(s)
    ensures SingleLine(s)
  {
  }

  lemma {:induction false} ValuesFit(lines: seq<string>)
    requires forall line :: line in lines ==> SingleLine(line)
    ensures forall key :: key in Values(lines) ==> Fits(Values(lines)[key])
    decreases |lines|
  {
    hide BindingOf, Fits, SingleLine;
    if lines != [] {
      var n := |lines| - 1;
      ValuesFit(lines[..n]);
      if BindingOf(lines[n]).Some? {
        BindingFits(lines[n]);
      }
    }
  }

  lemma FallbacksFit()
    ensures Fits("") && Fits("none") && "untrusted_development" in TRUST_GRADES
  {
    assert "none"[0] == 'n' && "none"[1] == 'o' && "none"[2] == 'n' && "none"[3] == 'e';
  }

  /** Whatever the file, a parsed environment fits on its lines. */
  lemma ParsedFits(text: string)
    requires Parse(text).Ok?
    ensures EnvironmentFits(Parse(text).value)
  {
    hide Fits, Values, Lines;
    FallbacksFit();
    LinesSingle(text);
    ValuesFit(Lines(text));
  }

  lemma LinesSingle(text: string)
    ensures forall line :: line in Lines(text) ==> SingleLine(line)
  {
  }

  // ---------------------------------------------------------------- reading back what was written

  predicate PlainKey(key: string) {
    key != "" && forall i :: 0 <= i < |key| ==> 'A' <= key[i] <= 'Z' || key[i] == '_'
  }

  lemma PlainKeyFits(key: string)
    requires PlainKey(key)
    ensures key != "" && key[0] != '#' && '=' !in key && Trimmed(key) && SingleLine(key)
  {
  }

  lemma KeysPlain()
    ensures PlainKey(EXECUTABLE) && PlainKey(BINARY_DIGEST) && PlainKey(VERSION) && PlainKey(PIN_IDENTITY)
    ensures PlainKey(STRATEGY) && PlainKey(TRUST_GRADE) && PlainKey(CLI_ALIAS)
  {
    hide PlainKey;
    ExecutableKey();
    BinaryDigestKey();
    VersionKey();
    PinIdentityKey();
    StrategyKey();
    TrustGradeKey();
    CliAliasKey();
  }

  lemma ExecutableKey() ensures PlainKey(EXECUTABLE) {}

  lemma BinaryDigestKey() ensures PlainKey(BINARY_DIGEST) {}

  lemma VersionKey() ensures PlainKey(VERSION) {}

  lemma PinIdentityKey() ensures PlainKey(PIN_IDENTITY) {}

  lemma StrategyKey() ensures PlainKey(STRATEGY) {}

  lemma TrustGradeKey() ensures PlainKey(TRUST_GRADE) {}

  lemma CliAliasKey() ensures PlainKey(CLI_ALIAS) {}

  lemma KeysDiffer()
    ensures EXECUTABLE !in {BINARY_DIGEST, VERSION, PIN_IDENTITY, STRATEGY, TRUST_GRADE, CLI_ALIAS}
    ensures BINARY_DIGEST !in {VERSION, PIN_IDENTITY, STRATEGY, TRUST_GRADE, CLI_ALIAS}
    ensures VERSION !in {PIN_IDENTITY, STRATEGY, TRUST_GRADE, CLI_ALIAS}
    ensures PIN_IDENTITY !in {STRATEGY, TRUST_GRADE, CLI_ALIAS} && STRATEGY !in {TRUST_GRADE, CLI_ALIAS} && TRUST_GRADE != CLI_ALIAS
  {
    assert |EXECUTABLE| == 26 && |BINARY_DIGEST| == 29 && |VERSION| == 23 && |PIN_IDENTITY| == 28;
    assert |STRATEGY| == 34 && |TRUST_GRADE| == 27 && |CLI_ALIAS| == 23;
    assert VERSION[1] == 'C' && CLI_ALIAS[1] == 'F';
  }

  /** A written line binds what was written, "=" and "#" in the value included. */
  lemma LineReads(b: Binding)
    requires PlainKey(b.key) && Fits(b.value)
    ensures SingleLine(LineOf(b)) && BindingOf(LineOf(b)) == Some(b)
  {
    hide Strip, LineBreak, FirstEquals, IsSpace;
    var line := LineOf(b);
    LineSingle(b);
    LineTrimmed(b);
    PlainKeyFits(b.key);
    StripTrimmed(line);
    StripTrimmed(b.key);
    StripTrimmed(b.value);
    EqualsAt(b.key, b.value);
    assert line[..|b.key|] == b.key && line[|b.key| + 1..] == b.value;
    assert line[0] == b.key[0];
    assert line[|b.key|] == '=';
  }

  lemma LineSingle(b: Binding)
    requires PlainKey(b.key) && Fits(b.value)
    ensures SingleLine(LineOf(b))
  {
    assert !LineBreak('=');
    PlainKeyFits(b.key);
    hide LineBreak, IsSpace, PlainKey;
    var line := LineOf(b);
    assert forall i :: 0 <= i < |b.key| ==> line[i] == b.key[i];
    assert forall i :: 0 <= i < |b.value| ==> line[|b.key| + 1 + i] == b.value[i];
  }

  lemma LineTrimmed(b: Binding)
    requires PlainKey(b.key) && Fits(b.value)
    ensures Trimmed(LineOf(b))
  {
    PlainKeyFits(b.key);
    var line := LineOf(b);
    assert line[0] == b.key[0];
    if b.value != "" {
      assert line[|line| - 1] == b.value[|b.value| - 1];
    } else {
      assert line[|line| - 1] == '=';
    }
  }

  lemma {:induction false} EqualsAt(key: string, value: string)
    requires '=' !in key
    ensures FirstEquals(key + "=" + value) == |key|
  {
    if key != "" {
      assert (key + "=" + value)[1..] == key[1..] + "=" + value;
      EqualsAt(key[1..], value);
    }
  }

  lemma {:induction false} BreakAt(line: string, rest: string)
    requires SingleLine(line)
    ensures FirstBreak(line + "\n" + rest) == |line|
  {
    hide LineBreak;
    assert LineBreak('\n') by {
      NewlineBreaks();
    }
    var whole := line + "\n" + rest;
    if line != "" {
      assert whole[1..] == line[1..] + "\n" + rest;
      BreakAt(line[1..], rest);
    }
  }

  lemma NewlineBreaks() ensures LineBreak('\n') {}

  lemma LinesOfLine(line: string, rest: string)
    requires SingleLine(line)
    ensures Lines(line + "\n" + rest) == [line] + Lines(rest)
  {
    BreakAt(line, rest);
    var whole := line + "\n" + rest;
    assert whole[..|line|] == line && whole[|line| + 1..] == rest && whole[|line|] == '\n';
    hide LineBreak;
  }

  function LinesOf(bindings: seq<Binding>): (lines: seq<string>)
    ensures |lines| == |bindings| && forall i :: 0 <= i < |lines| ==> lines[i] == LineOf(bindings[i])
  {
    seq(|bindings|, i requires 0 <= i < |bindings| => LineOf(bindings[i]))
  }

  ghost predicate AllFit(bindings: seq<Binding>) {
    forall i :: 0 <= i < |bindings| ==> PlainKey(bindings[i].key) && Fits(bindings[i].value)
  }

  lemma {:induction false} LinesOfPrinted(bindings: seq<Binding>)
    requires AllFit(bindings)
    ensures Lines(Printed(bindings)) == LinesOf(bindings)
  {
    hide PlainKey, Fits, Lines, LineOf, SingleLine, BindingOf;
    if bindings == [] {
      NoLines();
    } else {
      LineReads(bindings[0]);
      LinesOfLine(LineOf(bindings[0]), Printed(bindings[1..]));
      LinesOfPrinted(bindings[1..]);
    }
  }

  lemma NoLines() ensures Lines("") == [] {}

  /** The dictionary a list of bindings builds. */
  function Bound(bindings: seq<Binding>): map<string, string>
    decreases |bindings|
  {
    if bindings == [] then map[]
    else
      var last := bindings[|bindings| - 1];
      Bound(bindings[..|bindings| - 1])[last.key := last.value]
  }

  lemma {:induction false} ValuesOfLines(bindings: seq<Binding>)
    requires AllFit(bindings)
    ensures Values(LinesOf(bindings)) == Bound(bindings)
    decreases |bindings|
  {
    hide PlainKey, Fits, BindingOf, LineOf;
    if bindings != [] {
      var n := |bindings| - 1;
      ValuesOfLines(bindings[..n]);
      assert LinesOf(bindings)[..n] == LinesOf(bindings[..n]);
      LineReads(bindings[n]);
    }
  }

  lemma BoundBindings(e: ProvisionEnvironment)
    ensures Bound(Bindings(e)) ==
              map[EXECUTABLE := e.executablePath, BINARY_DIGEST := e.binaryDigest, VERSION := e.version, PIN_IDENTITY := e.pinIdentity,
                  STRATEGY := e.provisionStrategy, TRUST_GRADE := e.trustGrade, CLI_ALIAS := e.executablePath]
  {
    var b := Bindings(e);
    assert b[..7] == b && b[..7][..6] == b[..6] && b[..6][..5] == b[..5] && b[..5][..4] == b[..4];
    assert b[..4][..3] == b[..3] && b[..3][..2] == b[..2] && b[..2][..1] == b[..1] && b[..1][..0] == [];
    assert Bound(b[..1]) == map[EXECUTABLE := e.executablePath];
    assert Bound(b[..2]) == Bound(b[..1])[BINARY_DIGEST := e.binaryDigest];
    assert Bound(b[..3]) == Bound(b[..2])[VERSION := e.version];
    assert Bound(b[..4]) == Bound(b[..3])[PIN_IDENTITY := e.pinIdentity];
    assert Bound(b[..5]) == Bound(b[..4])[STRATEGY := e.provisionStrategy];
    assert Bound(b[..6]) == Bound(b[..5])[TRUST_GRADE := e.trustGrade];
  }

  lemma GradesFit()
    ensures forall grade :: grade in TRUST_GRADES ==> grade != "" && Fits(grade)
  {
    hide Fits;
    PinnedFits();
    UntrustedFits();
    UnpinnedFits();
    assert |"pinned"| == 6 && |"untrusted_development"| == 21 && |"unpinned"| == 8;
  }

  lemma PinnedFits() ensures Fits("pinned") {}

  lemma UntrustedFits() ensures Fits("untrusted_development") {}

  lemma UnpinnedFits() ensures Fits("unpinned") {}

  lemma BindingsFit(e: ProvisionEnvironment)
    requires EnvironmentFits(e)
    ensures AllFit(Bindings(e))
  {
    hide PlainKey, Fits;
    KeysPlain();
    GradesFit();
  }

  /** Parsing undoes writing exactly for environments whose values are trimmed single lines, with an
      executable, a strategy and a known trust grade; values may hold "=" and "#". */
  lemma ProvisionRoundTrip(e: ProvisionEnvironment)
    ensures Parse(Write(e)) == Ok(e) <==> EnvironmentFits(e)
  {
    hide Fits, Lines, Values, Bindings, AllFit, LinesOf;
    if EnvironmentFits(e) {
      BindingsFit(e);
      LinesOfPrinted(Bindings(e));
      ValuesOfLines(Bindings(e));
      BoundBindings(e);
      KeysDiffer();
      GradesFit();
    }
    if Parse(Write(e)) == Ok(e) {
      ParsedFits(Write(e));
    }
  }
}
