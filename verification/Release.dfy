/** A release directory as a finite map from release-relative references to file contents, and the
    readers the projection and extraction code share (python/pcs_core/pcs_projection.py:94-240,
    bundle_identity.py). */
module Release {
  import opened Wrappers
  import opened Text
  import opened Json
  import opened Primitives
  import Utf8

  /** `files`: every reference from the release directory that names a regular file, with its bytes.
      `safe`: the references `resolve_contained_file` also accepts (no "..", no drive, no control character),
      with the release-relative path each resolves to. `listing`: the sorted names matching
      `result_artifact*.json` in the release directory. `root`: the components of that directory. */
  datatype Release = Release(
    files: map<string, seq<byte>>, safe: map<string, string>, listing: seq<string>, root: seq<string>)

  datatype ExtractionError =
    | EmptyValue(field: string)
    | UnknownPlaceholder(field: string)
    | NotADigest(field: string)
    | NullValue(field: string)
    | UnsupportedType(field: string)
    | PointerForm(pointer: string)
    | IdentifierForm(identifier: string)
    | UnrecognizedResolver(path: string)
    | NotContained(path: string)
    | DuplicatePointer(path: string, pointer: string)
    | ConflictingIdentifier(identifier: string)
    | DuplicateIdentifier(identifier: string)
    | NoEntries
    | MissingField(artifact: string, field: string)
    | MissingChecks(index: int)
    | MissingArtifact(name: string)
    | MalformedJson(name: string)
    | PayloadRejected
    | ReplayFailed

  // ---------------------------------------------------------------- unknown placeholders

  /** `c` is the letter `l` of the word "unknown", ignoring case; the Kelvin sign folds to 'k'. */
  predicate FoldsTo(c: char, l: char) {
    c == l || (c < '\U{80}' && c as int + 32 == l as int) || (l == 'k' && c == '\U{212a}')
  }

  predicate UnknownAt(s: string, i: int) {
    && 0 <= i <= |s| - 7
    && FoldsTo(s[i], 'u') && FoldsTo(s[i + 1], 'n') && FoldsTo(s[i + 2], 'k') && FoldsTo(s[i + 3], 'n')
    && FoldsTo(s[i + 4], 'o') && FoldsTo(s[i + 5], 'w') && FoldsTo(s[i + 6], 'n')
  }

  /** The class `[a-z0-9]` ignoring case. */
  predicate WordChar(c: char) {
    || '0' <= c <= '9' || 'a' <= c <= 'z' || 'A' <= c <= 'Z'
    || c == '\U{130}' || c == '\U{131}' || c == '\U{17f}' || c == '\U{212a}'
  }

  /** `"unknown" in s.lower()`. */
  predicate ContainsUnknown(s: string) {
    exists i :: 0 <= i < |s| && UnknownAt(s, i)
  }

  predicate UnknownWordAt(s: string, i: int) {
    UnknownAt(s, i) && (i == 0 || !WordChar(s[i - 1])) && (i + 7 == |s| || !WordChar(s[i + 7]))
  }

  /** The placeholder pattern: "unknown" standing as a word of its own. It covers the five forbidden
      literals too, each of which ends in that word. */
  predicate HasUnknownWord(s: string) {
    exists i :: 0 <= i < |s| && UnknownWordAt(s, i)
  }

  /** `assert_no_unknown_or_empty`. */
  function CheckedValue(value: string, field: string): Result<string, ExtractionError> {
    if Strip(value) == "" then Err(EmptyValue(field))
    else if HasUnknownWord(value) then Err(UnknownPlaceholder(field))
    else Ok(value)
  }

  /** The word "unknown" at a place, in letters of either case. */
  ghost predicate SpellsUnknown(s: string, i: int) {
    && 0 <= i && i + 7 <= |s| && s[i] in "uU" && s[i + 1] in "nN" && s[i + 2] in "kK\U{212a}" && s[i + 3] in "nN"
    && s[i + 4] in "oO" && s[i + 5] in "wW" && s[i + 6] in "nN"
  }

  lemma UnknownLetters(s: string, i: int)
    ensures UnknownAt(s, i) <==> SpellsUnknown(s, i)
  {
    Letters();
    hide FoldsTo;
  }

  lemma Letters()
    ensures forall c :: FoldsTo(c, 'u') <==> c in "uU"
    ensures forall c :: FoldsTo(c, 'n') <==> c in "nN"
    ensures forall c :: FoldsTo(c, 'k') <==> c in "kK\U{212a}"
    ensures forall c :: FoldsTo(c, 'o') <==> c in "oO"
    ensures forall c :: FoldsTo(c, 'w') <==> c in "wW"
  {
  }

  lemma WordCharacters(c: char)
    ensures WordChar(c) <==>
              c in "0123456789" || c in "abcdefghijklm" || c in "nopqrstuvwxyz" || c in "ABCDEFGHIJKLM" || c in "NOPQRSTUVWXYZ"
              || c in "\U{130}\U{131}\U{17f}\U{212a}"
  {
    var digits, a, n := "0123456789", "abcdefghijklm", "nopqrstuvwxyz";
    assert c in digits <==> '0' <= c <= '9';
    assert c in a <==> 'a' <= c <= 'm';
    assert c in n <==> 'n' <= c <= 'z';
    var x, y := "ABCDEFGHIJKLM", "NOPQRSTUVWXYZ";
    assert c in x <==> 'A' <= c <= 'M';
    assert c in y <==> 'N' <= c <= 'Z';
  }

  /** When a projected value is refused: a blank text, or one in which the word "unknown" stands by itself. */
  lemma CheckedMeaning(value: string, field: string)
    ensures CheckedValue(value, field).Err? && CheckedValue(value, field).error.EmptyValue? <==> forall i :: 0 <= i < |value| ==> IsSpace(value[i])
    ensures CheckedValue(value, field) == Ok(value) <==>
              && (exists i :: 0 <= i < |value| && !IsSpace(value[i]))
              && forall i :: SpellsUnknown(value, i) ==> (i > 0 && WordChar(value[i - 1])) || (i + 7 < |value| && WordChar(value[i + 7]))
    ensures CheckedValue(value, field).Ok? ==> CheckedValue(value, field) == Ok(value)
  {
    hide IsSpace, WordChar, UnknownAt, Strip, SpellsUnknown;
    StripEmpty(value);
    forall i ensures UnknownAt(value, i) <==> SpellsUnknown(value, i) {
      UnknownLetters(value, i);
    }
    forall i ensures SpellsUnknown(value, i) ==> 0 <= i && i + 7 <= |value| {
      SpelledInside(value, i);
    }
    WordSomewhere(value);
    assert forall i :: UnknownWordAt(value, i) <==>
             SpellsUnknown(value, i) && !((i > 0 && WordChar(value[i - 1])) || (i + 7 < |value| && WordChar(value[i + 7])));
  }

  lemma SpelledInside(s: string, i: int)
    ensures SpellsUnknown(s, i) ==> 0 <= i && i + 7 <= |s|
  {
  }

  lemma WordSomewhere(s: string)
    ensures HasUnknownWord(s) <==> exists i :: UnknownWordAt(s, i)
    ensures ContainsUnknown(s) <==> exists i :: UnknownAt(s, i)
  {
    hide FoldsTo, WordChar;
  }

  /** The word hides in a value exactly when it is spelt somewhere in it. */
  lemma HiddenUnknown(value: string)
    ensures ContainsUnknown(value) <==> exists i :: SpellsUnknown(value, i)
  {
    hide UnknownAt, SpellsUnknown;
    forall i ensures UnknownAt(value, i) <==> SpellsUnknown(value, i) {
      UnknownLetters(value, i);
    }
    WordSomewhere(value);
  }

  lemma NotLetterU(c: char)
    requires IsLowerHex(c) || c == 's' || c == 'h' || c == ':'
    ensures !FoldsTo(c, 'u') && !IsSpace(c)
  {
  }

  /** A digest is clean text: trimmed, and no "unknown" anywhere in it. */
  lemma {:induction false} DigestIsClean(d: string, field: string)
    requires IsDigest(d)
    ensures !ContainsUnknown(d) && Strip(d) == d && CheckedValue(d, field) == Ok(d)
  {
    DigestChars(d);
    hide IsSpace, IsDigest, FoldsTo, Strip, WordChar;
    StripTrimmed(d);
    forall i | 0 <= i < |d| ensures !UnknownAt(d, i) {
      assert !FoldsTo(d[i], 'u');
    }
  }

  lemma DigestChars(d: string)
    requires IsDigest(d)
    ensures |d| == 71 && forall i :: 0 <= i < |d| ==> !FoldsTo(d[i], 'u') && !IsSpace(d[i])
  {
    hide FoldsTo, IsSpace;
    forall i | 0 <= i < |d| ensures !FoldsTo(d[i], 'u') && !IsSpace(d[i]) {
      DigestChar(d, i);
      NotLetterU(d[i]);
    }
  }

  lemma DigestChar(d: string, i: nat)
    requires IsDigest(d) && i < |d|
    ensures IsLowerHex(d[i]) || d[i] == 's' || d[i] == 'h' || d[i] == ':'
  {
    if i < 7 {
      assert d[i] == "sha256:"[i];
    }
  }

  // ---------------------------------------------------------------- values

  /** `require_sha256_digest`. */
  function RequireDigest(v: Option<Json>, field: string): Result<string, ExtractionError> {
    match v
    case Some(Str(s)) => if IsDigest(s) then Ok(s) else Err(NotADigest(field))
    case _ => Err(NotADigest(field))
  }

  /** `normalize_projected_value`. */
  function Normalize(raw: Json, field: string): Result<string, ExtractionError> {
    match raw
    case Bool(b) => CheckedValue(if b then "true" else "false", field)
    case Int(n) => CheckedValue(IntText(n), field)
    case Str(s) => CheckedValue(Strip(s), field)
    case Null => Err(NullValue(field))
    case _ => Err(UnsupportedType(field))
  }

  /** What a raw value projects to: lower-case truth values, decimal numbers, stripped texts. */
  lemma NormalizeMeaning(raw: Json, field: string, text: string)
    ensures Normalize(raw, field) == Ok(text) <==>
              && CheckedValue(text, field).Ok?
              && match raw
                 case Bool(b) => text == if b then "true" else "false"
                 case Int(n) => text == IntText(n)
                 case Str(s) => text == Strip(s)
                 case _ => false
  {
    hide HasUnknownWord, Strip;
  }

  // ---------------------------------------------------------------- paths

  /** A part of the path, between slashes, is "..". */
  predicate Climbs(path: string) {
    ".." in Split(path, '/')
  }

  predicate Rooted(path: string) {
    path != "" && (path[0] == '/' || path[0] == '\\')
  }

  predicate DriveQualified(path: string) {
    |path| >= 2 && path[1] == ':' && path[0] != '/'
  }

  /** `assert_path_contained`. */
  predicate Contained(r: Release, path: string): (contained: bool)
    ensures contained ==> path in r.files
  {
    path != "" && !Rooted(path) && !DriveQualified(path) && !Climbs(path) && path in r.files
  }

  /** A contained path names a file, is not empty, starts with no slash of either kind and no drive, and
      climbs nowhere. */
  lemma ContainedMeaning(r: Release, path: string)
    ensures Contained(r, path) <==>
              && path in r.files && path != "" && path[0] !in "/\\" && (|path| > 1 ==> path[1] != ':')
              && ".." !in Split(path, '/')
  {
    hide Split;
  }

  /** A bare file name that no check on its form can reject. */
  predicate PlainName(name: string) {
    |name| > 2 && '/' !in name && name[0] != '\\' && name[0] != '#' && name[1] != ':'
  }

  lemma PlainNameContained(r: Release, name: string)
    requires PlainName(name) && name in r.files
    ensures Contained(r, name)
  {
    SplitNoSeparator(name, '/');
  }

  function FileDigest(p: Primitives, r: Release, path: string): string
    requires path in r.files
  {
    p.DigestOf(r.files[path])
  }

  // ---------------------------------------------------------------- documents

  /** `_load_json`: an object, nothing for a missing file or another root, an exception for bad JSON. */
  function LoadDict(p: Primitives, r: Release, name: string): Result<Option<Dict>, ExtractionError> {
    if name !in r.files then Ok(None)
    else
      match p.parseJson(r.files[name])
      case None => Err(MalformedJson(name))
      case Some(Obj(members)) => Ok(Some(members))
      case Some(_) => Ok(None)
  }

  /** `d.get(outer).get(inner)` when the outer value is an object. */
  function GetIn(d: Option<Dict>, outer: string, inner: string): Option<Json> {
    if d.None? then None
    else
      match Get(d.value, outer)
      case Some(Obj(members)) => Get(members, inner)
      case _ => None
  }

  function NonEmptyText(v: Option<Json>): Option<string> {
    match v
    case Some(Str(s)) => if s == "" then None else Some(s)
    case _ => None
  }

  /** `resolve_certified_bundle_identity_hash`: handoffs first, then the release manifest, then the
      legacy manifest, then the bundle file itself. */
  function CertifiedBundleIdentity(p: Primitives, r: Release): Result<Option<string>, ExtractionError> {
    var handoff :- LoadDict(p, r, "handoff_manifest.bundle_to_verifier.v0.json");
    var first := NonEmptyText(GetIn(handoff, "invariants", "certified_bundle_hash"));
    if first.Some? then Ok(first)
    else
      var toPf :- LoadDict(p, r, "handoff_to_pf.json");
      var second := NonEmptyText(GetIn(toPf, "invariants", "certified_bundle_hash"));
      if second.Some? then Ok(second) else ManifestIdentity(p, r)
  }

  function ManifestIdentity(p: Primitives, r: Release): Result<Option<string>, ExtractionError> {
    var manifest :- LoadDict(p, r, "release_manifest.v0.json");
    var root := GetIn(manifest, "chain_root", "certified_bundle_hash");
    var rooted := root.Some? && root.value.Str? && StartsWith(root.value.s, "sha256:");
    var verified :- if rooted then LoadDict(p, r, "verification_result.json") else Ok(None);
    if rooted && GetIn(verified, "verified_input", "bundle_hash") == root then Ok(Some(root.value.s))
    else
      var listed := NonEmptyText(ArtifactDigest(manifest));
      if listed.Some? then Ok(listed)
      else
        var legacy :- LoadDict(p, r, "RELEASE_FIXTURE_MANIFEST.json");
        var recorded := NonEmptyText(GetIn(legacy, "artifacts", "science_claim_bundle.certified.json"));
        if recorded.Some? then Ok(recorded)
        else if "science_claim_bundle.certified.json" in r.files then
          Ok(Some(p.DigestOf(r.files["science_claim_bundle.certified.json"])))
        else Ok(None)
  }

  /** The first source that has an answer. */
  function FirstAnswer(sources: seq<Option<string>>): Option<string> {
    if sources == [] then None else if sources[0].Some? then sources[0] else FirstAnswer(sources[1..])
  }

  /** A non-empty text two levels deep in a document. */
  function InnerText(d: Option<Dict>, outer: string, inner: string): Option<string> {
    if d.None? then None
    else
      match Get(d.value, outer)
      case Some(Obj(members)) =>
        (match Get(members, inner) case Some(Str(s)) => if s != "" then Some(s) else None case _ => None)
      case _ => None
  }

  /** The root of the release manifest, when it is a digest the verification confirms. */
  function ConfirmedRoot(manifest: Option<Dict>, verification: Option<Dict>): Option<string> {
    var root := InnerText(manifest, "chain_root", "certified_bundle_hash");
    if root.Some? && "sha256:" <= root.value && root == InnerText(verification, "verified_input", "bundle_hash") then root else None
  }

  /** The digest the release manifest lists for the certified bundle. */
  function ListedDigest(manifest: Option<Dict>): Option<string> {
    if manifest.None? then None
    else
      match Get(manifest.value, "artifacts")
      case Some(Obj(artifacts)) => InnerText(Some(artifacts), "science_claim_bundle.certified.json", "sha256")
      case _ => None
  }

  /** Which source decides a bundle's identity when several are present: the handoff to the verifier, the
      handoff to PF, a confirmed chain root, the listed digest, the legacy manifest, the file itself. */
  lemma IdentitySources(p: Primitives, r: Release, toVerifier: Option<Dict>, toPf: Option<Dict>, manifest: Option<Dict>,
                        verification: Option<Dict>, legacy: Option<Dict>)
    requires LoadDict(p, r, "handoff_manifest.bundle_to_verifier.v0.json") == Ok(toVerifier)
    requires LoadDict(p, r, "handoff_to_pf.json") == Ok(toPf)
    requires LoadDict(p, r, "release_manifest.v0.json") == Ok(manifest)
    requires LoadDict(p, r, "verification_result.json") == Ok(verification)
    requires LoadDict(p, r, "RELEASE_FIXTURE_MANIFEST.json") == Ok(legacy)
    ensures var bundle := "science_claim_bundle.certified.json";
            CertifiedBundleIdentity(p, r) == Ok(FirstAnswer([
              InnerText(toVerifier, "invariants", "certified_bundle_hash"), InnerText(toPf, "invariants", "certified_bundle_hash"),
              ConfirmedRoot(manifest, verification), ListedDigest(manifest), InnerText(legacy, "artifacts", bundle),
              if bundle in r.files then Some(p.DigestOf(r.files[bundle])) else None]))
  {
    ManifestSources(p, r, manifest, verification, legacy);
    InnerIs(toVerifier, "invariants", "certified_bundle_hash");
    InnerIs(toPf, "invariants", "certified_bundle_hash");
    hide LoadDict, Get, ManifestIdentity, ConfirmedRoot, ListedDigest, InnerText, NonEmptyText, GetIn, FirstAnswer;
    var bundle := "science_claim_bundle.certified.json";
    SixAnswers(InnerText(toVerifier, "invariants", "certified_bundle_hash"), InnerText(toPf, "invariants", "certified_bundle_hash"),
               ConfirmedRoot(manifest, verification), ListedDigest(manifest), InnerText(legacy, "artifacts", bundle),
               if bundle in r.files then Some(p.DigestOf(r.files[bundle])) else None);
  }

  lemma InnerIs(d: Option<Dict>, outer: string, inner: string)
    ensures NonEmptyText(GetIn(d, outer, inner)) == InnerText(d, outer, inner)
  {
    hide Get;
  }

  lemma SixAnswers(a: Option<string>, b: Option<string>, c: Option<string>, d: Option<string>, e: Option<string>, f: Option<string>)
    ensures FirstAnswer([a, b, c, d, e, f]) ==
              if a.Some? then a else if b.Some? then b else if c.Some? then c else if d.Some? then d else if e.Some? then e else f
  {
    assert [a, b, c, d, e, f][1..] == [b, c, d, e, f] && [b, c, d, e, f][1..] == [c, d, e, f] && [c, d, e, f][1..] == [d, e, f];
    assert [d, e, f][1..] == [e, f] && [e, f][1..] == [f] && FirstAnswer([f]) == f;
    assert FirstAnswer([d, e, f]) == if d.Some? then d else FirstAnswer([e, f]);
    assert FirstAnswer([c, d, e, f]) == if c.Some? then c else FirstAnswer([d, e, f]);
    assert FirstAnswer([b, c, d, e, f]) == if b.Some? then b else FirstAnswer([c, d, e, f]);
  }

  lemma ManifestSources(p: Primitives, r: Release, manifest: Option<Dict>, verification: Option<Dict>, legacy: Option<Dict>)
    requires LoadDict(p, r, "release_manifest.v0.json") == Ok(manifest)
    requires LoadDict(p, r, "verification_result.json") == Ok(verification)
    requires LoadDict(p, r, "RELEASE_FIXTURE_MANIFEST.json") == Ok(legacy)
    ensures var bundle := "science_claim_bundle.certified.json";
            ManifestIdentity(p, r) ==
              Ok(if ConfirmedRoot(manifest, verification).Some? then ConfirmedRoot(manifest, verification)
                 else if ListedDigest(manifest).Some? then ListedDigest(manifest)
                 else if InnerText(legacy, "artifacts", bundle).Some? then InnerText(legacy, "artifacts", bundle)
                 else if bundle in r.files then Some(p.DigestOf(r.files[bundle])) else None)
  {
    hide LoadDict, Get;
  }

  function ArtifactDigest(manifest: Option<Dict>): Option<Json> {
    match GetIn(manifest, "artifacts", "science_claim_bundle.certified.json")
    case Some(Obj(entry)) => Get(entry, "sha256")
    case _ => None
  }

  /** The identity as a required digest. */
  function CertifiedBundleHash(p: Primitives, r: Release): Result<string, ExtractionError> {
    var identity :- CertifiedBundleIdentity(p, r);
    RequireDigest(if identity.None? then None else Some(Str(identity.value)), CERTIFIED_BUNDLE_POINTER)
  }

  const CERTIFIED_BUNDLE_RESOLVER_ID := "#resolved/certified_bundle_hash"
  const CERTIFIED_BUNDLE_POINTER := "/#resolved/certified_bundle_hash"

  // ---------------------------------------------------------------- JSON Pointer (RFC 6901)

  /** Section 4 of RFC 6901: `~1` is a slash and `~0` a tilde; any other escape is an error. */
  function Unescape(token: string): Option<string> {
    if token == "" then Some("")
    else if token[0] != '~' then
      var rest := Unescape(token[1..]);
      if rest.None? then None else Some([token[0]] + rest.value)
    else if |token| == 1 || (token[1] != '0' && token[1] != '1') then None
    else
      var rest := Unescape(token[2..]);
      if rest.None? then None else Some([if token[1] == '1' then '/' else '~'] + rest.value)
  }

  /** A name as a pointer spells it: tildes and slashes escaped. */
  function Escaped(name: string): string {
    if name == "" then ""
    else (if name[0] == '~' then "~0" else if name[0] == '/' then "~1" else [name[0]]) + Escaped(name[1..])
  }

  /** Unescaping undoes escaping, and any other escape is refused. */
  lemma {:induction false} UnescapeEscaped(name: string)
    ensures Unescape(Escaped(name)) == Some(name)
    decreases |name|
  {
    if name != "" {
      UnescapeEscaped(name[1..]);
      var rest := Escaped(name[1..]);
      assert name == [name[0]] + name[1..];
      if name[0] == '~' {
        assert ("~0" + rest)[2..] == rest;
      } else if name[0] == '/' {
        assert ("~1" + rest)[2..] == rest;
      } else {
        assert ([name[0]] + rest)[1..] == rest;
      }
    }
  }

  lemma {:induction false} UnescapeRefuses(name: string, rest: string)
    requires rest == "" || (rest[0] != '0' && rest[0] != '1')
    ensures Unescape(Escaped(name) + "~" + rest) == None
    decreases |name|
  {
    var token := Escaped(name) + "~" + rest;
    if name == "" {
      assert token == "~" + rest;
    } else {
      UnescapeRefuses(name[1..], rest);
      var next := Escaped(name[1..]) + "~" + rest;
      if name[0] == '~' || name[0] == '/' {
        assert token[2..] == next;
      } else {
        assert token[1..] == next;
      }
    }
  }

  /** An array is read by the decimal position of an item, a text by that of a character; positions outside
      read nothing. */
  lemma StepMeaning(items: seq<Json>, s: string, i: nat)
    ensures Step(Arr(items), Digits(i)) == if i < |items| then Some(items[i]) else None
    ensures Step(Str(s), Digits(i)) == if i < |s| then Some(Str([s[i]])) else None
  {
    IndexOfDigits(i);
    hide ArrayIndex;
  }

  lemma IndexOfDigits(i: nat)
    ensures ArrayIndex(Digits(i)) == Some(i)
  {
    DigitsForm(i);
    DigitsRoundTrip(i);
    SmallDigits(i);
  }

  lemma SmallDigits(i: nat)
    ensures i == 0 ==> |Digits(i)| == 1
  {
  }

  /** A position is not written with a leading zero. */
  lemma LeadingZero(items: seq<Json>, digits: string)
    requires digits != ""
    ensures Step(Arr(items), "0" + digits) == None
  {
  }

  /** An array index without leading zeros. */
  function ArrayIndex(token: string): Option<int> {
    if token == "" || (exists i :: 0 <= i < |token| && !IsDigit(token[i])) || (token[0] == '0' && |token| > 1) then None
    else Some(DigitsValue(token))
  }

  function Step(doc: Json, token: string): Option<Json> {
    match doc
    case Obj(members) => Get(members, token)
    case Arr(items) =>
      var i := ArrayIndex(token);
      if i.Some? && 0 <= i.value < |items| then Some(items[i.value]) else None
    case Str(s) =>
      var i := ArrayIndex(token);
      if i.Some? && 0 <= i.value < |s| then Some(Str([s[i.value]])) else None
    case _ => None
  }

  function Walk(doc: Json, tokens: seq<string>): Option<Json>
    decreases |tokens|
  {
    if tokens == [] then Some(doc)
    else
      var token := Unescape(tokens[0]);
      if token.None? then None
      else
        var next := Step(doc, token.value);
        if next.None? then None else Walk(next.value, tokens[1..])
  }

  function ResolvePointer(doc: Json, pointer: string): Option<Json> {
    if pointer == "" then Some(doc)
    else if pointer[0] != '/' then None
    else Walk(doc, Split(pointer[1..], '/'))
  }

  /** A name that stands for itself in a pointer. */
  predicate PlainToken(name: string) {
    '/' !in name && '~' !in name
  }

  lemma {:induction false} UnescapePlain(name: string)
    requires '~' !in name
    ensures Unescape(name) == Some(name)
  {
    if name != "" {
      UnescapePlain(name[1..]);
      assert [name[0]] + name[1..] == name;
    }
  }

  lemma ResolveField(d: Dict, name: string)
    requires PlainToken(name)
    ensures ResolvePointer(Obj(d), "/" + name) == Get(d, name)
  {
    SplitNoSeparator(name, '/');
    UnescapePlain(name);
    assert ("/" + name)[1..] == name;
    assert [name][1..] == [];
    if Get(d, name).Some? {
      assert Walk(Get(d, name).value, []) == Get(d, name);
    }
  }

  lemma ResolveNested(d: Dict, outer: string, inner: string)
    requires PlainToken(outer) && PlainToken(inner)
    requires Get(d, outer).Some? && Get(d, outer).value.Obj?
    ensures ResolvePointer(Obj(d), "/" + outer + "/" + inner) == Get(Get(d, outer).value.members, inner)
  {
    var pointer := "/" + outer + "/" + inner;
    assert pointer[1..] == outer + ['/'] + inner;
    SplitAtSeparator(outer, '/', inner);
    SplitNoSeparator(inner, '/');
    UnescapePlain(outer);
    UnescapePlain(inner);
    var next := Get(Get(d, outer).value.members, inner);
    assert [outer, inner][1..] == [inner];
    assert Walk(Get(d, outer).value, [inner]) == next by {
      if next.Some? {
        assert Walk(next.value, []) == next;
      }
    }
  }
}
