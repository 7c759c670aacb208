/** The two projection validators (python/pcs_core/pcs_projection.py:377-631) and their agreement with
    the builder. */
module ProjectionValidation {
  import opened Wrappers
  import opened Text
  import opened Json
  import opened CanonicalJson
  import opened Primitives
  import opened Release
  import opened Projection

  datatype IssueKind =
    | EntriesMissing | NotAnObject | PathMissing | PointerShape | ValueEmpty | ValueUnknown
    | IdentifierMissing | IdentifierShape | IdentifierUnknown | DigestShape
    | UnrecognizedSource | ResolverMismatch | PathEscapes | PointerRepeated | IdentifierConflict | IdentifierRepeated
    | ManifestDigestMismatch
    | FileDigestMismatch | UnsafePayload | PayloadValueMismatch | PointerUnresolved | ValueMismatch
    | ReplayRaised(error: ExtractionError) | ExpectedHashMismatch
    | ProjectionMissing | ProjectionHashShape | ReleaseIdMismatch | WorkflowIdMismatch

  datatype Issue = Issue(index: int, kind: IssueKind)

  // ---------------------------------------------------------------- structure

  /** What the structural validator asks of one entry. */
  predicate EntryWellFormed(p: Primitives, e: Entry) {
    && e.artifactPath != ""
    && StartsWith(e.jsonPointer, "/")
    && Strip(e.normalizedValue) != "" && !ContainsUnknown(e.normalizedValue)
    && LeanIdentifier(e.leanIdentifier) && !ContainsUnknown(e.leanIdentifier)
    && IsDigest(e.artifactDigest)
    && (if Synthetic(e.artifactPath)
        then Registered(e.artifactPath)
             && (IsDigest(e.normalizedValue) ==> e.artifactDigest == ResolverDigest(p, e.artifactPath, e.normalizedValue))
        else !Climbs(e.artifactPath) && !Rooted(e.artifactPath))
  }

  predicate ItemWellFormed(p: Primitives, item: Json) {
    ReadEntry(item).Some? && EntryWellFormed(p, ReadEntry(item).value)
  }

  /** The fields two entries may not share. */
  function PointerKey(item: Json): (string, string) {
    match ReadEntry(item)
    case Some(e) => (e.artifactPath, e.jsonPointer)
    case None => ("", "")
  }

  function IdentifierOf(item: Json): string {
    match ReadEntry(item)
    case Some(e) => e.leanIdentifier
    case None => ""
  }

  ghost predicate DistinctItems(items: seq<Json>, count: int) {
    forall i, j :: 0 <= i < j < count <= |items| ==>
      PointerKey(items[i]) != PointerKey(items[j]) && IdentifierOf(items[i]) != IdentifierOf(items[j])
  }

  predicate DeclaredDigestHolds(p: Primitives, manifest: Dict) {
    match TextAt(manifest, SIGNATURE_FIELD)
    case Some(declared) => IsDigest(declared) ==> declared == p.Hash(manifest)
    case None => true
  }

  /** A manifest with no structural errors. */
  ghost predicate StructureOk(p: Primitives, manifest: Dict) {
    match Get(manifest, "entries")
    case Some(Arr(items)) =>
      && items != []
      && (forall i :: 0 <= i < |items| ==> ItemWellFormed(p, items[i]))
      && DistinctItems(items, |items|)
      && DeclaredDigestHolds(p, manifest)
    case _ => false
  }

  /** The checks of one entry on its own; the second result says whether the loop goes on to the
      cross-entry checks. */
  method EntryIssues(p: Primitives, index: int, item: Json) returns (errors: seq<Issue>, goesOn: bool)
    ensures errors == [] <==> ItemWellFormed(p, item)
    ensures errors == [] ==> goesOn
    ensures goesOn ==> item.Obj?
  {
    hide LeanIdentifier, ContainsUnknown, Strip, IsDigest, ResolverDigest, Climbs;
    errors := [];
    if !item.Obj? {
      return [Issue(index, NotAnObject)], false;
    }
    var d := item.members;
    var path, pointer, value := TextAt(d, "artifact_path"), TextAt(d, "json_pointer"), TextAt(d, "normalized_value");
    var identifier, digest := TextAt(d, "lean_identifier"), TextAt(d, "artifact_digest");
    if path.None? || path.value == "" {
      return [Issue(index, PathMissing)], false;
    }
    if pointer.None? || !StartsWith(pointer.value, "/") {
      errors := errors + [Issue(index, PointerShape)];
    }
    if value.None? || Strip(value.value) == "" {
      errors := errors + [Issue(index, ValueEmpty)];
    } else if ContainsUnknown(value.value) {
      errors := errors + [Issue(index, ValueUnknown)];
    }
    if identifier.None? || identifier.value == "" {
      errors := errors + [Issue(index, IdentifierMissing)];
      assert identifier.Some? ==> !LeanIdentifier(identifier.value) by { NoEmptyIdentifier(); }
    } else if !LeanIdentifier(identifier.value) {
      errors := errors + [Issue(index, IdentifierShape)];
    } else if ContainsUnknown(identifier.value) {
      errors := errors + [Issue(index, IdentifierUnknown)];
    }
    if digest.None? || !IsDigest(digest.value) {
      errors := errors + [Issue(index, DigestShape)];
    }
    if Synthetic(path.value) {
      if !Registered(path.value) {
        errors := errors + [Issue(index, UnrecognizedSource)];
      } else if value.Some? && IsDigest(value.value) && digest != Some(ResolverDigest(p, path.value, value.value)) {
        errors := errors + [Issue(index, ResolverMismatch)];
      }
    } else if Climbs(path.value) || Rooted(path.value) {
      errors := errors + [Issue(index, PathEscapes)];
    }
    goesOn := true;
  }

  lemma NoEmptyIdentifier()
    ensures !LeanIdentifier("")
  {
  }

  /** `validate_projection_manifest_structure`. */
  method ValidateStructure(p: Primitives, manifest: Dict) returns (errors: seq<Issue>)
    ensures errors == [] <==> StructureOk(p, manifest)
  {
    hide ItemWellFormed, ReadEntry;
    var raw := Get(manifest, "entries");
    if raw.None? || !raw.value.Arr? || raw.value.items == [] {
      return [Issue(-1, EntriesMissing)];
    }
    var items := raw.value.items;
    errors := [];
    var leanIds: map<string, string> := map[];
    var pointerKeys: set<(string, string)> := {};
    for index := 0 to |items|
      invariant errors == [] <==> (forall j :: 0 <= j < index ==> ItemWellFormed(p, items[j])) && DistinctItems(items, index)
      invariant errors == [] ==> pointerKeys == set j | 0 <= j < index :: PointerKey(items[j])
      invariant errors == [] ==> leanIds.Keys == set j | 0 <= j < index :: IdentifierOf(items[j])
    {
      var own, goesOn := EntryIssues(p, index, items[index]);
      errors := errors + own;
      if goesOn {
        var d := items[index].members;
        var path, pointer := TextAt(d, "artifact_path"), TextAt(d, "json_pointer");
        var value, identifier := TextAt(d, "normalized_value"), TextAt(d, "lean_identifier");
        if own == [] {
          ItemTexts(p, items[index]);
        }
        if path.Some? && pointer.Some? {
          var key := (path.value, pointer.value);
          if key in pointerKeys {
            errors := errors + [Issue(index, PointerRepeated)];
          }
          pointerKeys := pointerKeys + {key};
        }
        if identifier.Some? && value.Some? {
          if identifier.value in leanIds {
            errors := errors + [Issue(index, if leanIds[identifier.value] != value.value then IdentifierConflict else IdentifierRepeated)];
          } else {
            leanIds := leanIds[identifier.value := value.value];
          }
        }
      }
    }
    if !DeclaredDigestHolds(p, manifest) {
      errors := errors + [Issue(-1, ManifestDigestMismatch)];
    }
  }

  lemma ItemTexts(p: Primitives, item: Json)
    requires ItemWellFormed(p, item)
    ensures item.Obj?
    ensures var d := item.members;
            && TextAt(d, "artifact_path").Some? && TextAt(d, "json_pointer").Some?
            && TextAt(d, "normalized_value").Some? && TextAt(d, "lean_identifier").Some?
            && PointerKey(item) == (TextAt(d, "artifact_path").value, TextAt(d, "json_pointer").value)
            && IdentifierOf(item) == TextAt(d, "lean_identifier").value
  {
  }

  // ---------------------------------------------------------------- structure, spelt out

  /** The item is an object with these five texts. */
  ghost predicate Describes(item: Json, e: Entry) {
    && item.Obj?
    && Get(item.members, "artifact_path") == Some(Str(e.artifactPath)) && Get(item.members, "artifact_digest") == Some(Str(e.artifactDigest))
    && Get(item.members, "json_pointer") == Some(Str(e.jsonPointer)) && Get(item.members, "normalized_value") == Some(Str(e.normalizedValue))
    && Get(item.members, "lean_identifier") == Some(Str(e.leanIdentifier))
  }

  /** The value is not blank, neither it nor the identifier spells "unknown" anywhere, the digest has its
      form, and a synthetic source is the certified bundle's under its own digest; any other path climbs
      nowhere and starts with no slash. */
  ghost predicate Acceptable(p: Primitives, e: Entry) {
    && e.artifactPath != "" && "/" <= e.jsonPointer && LeanIdentifier(e.leanIdentifier) && IsDigest(e.artifactDigest)
    && (exists i :: 0 <= i < |e.normalizedValue| && !IsSpace(e.normalizedValue[i]))
    && (forall i :: !SpellsUnknown(e.normalizedValue, i)) && (forall i :: !SpellsUnknown(e.leanIdentifier, i))
    && (if "#" <= e.artifactPath
        then && e.artifactPath == "#resolved/certified_bundle_hash"
             && (IsDigest(e.normalizedValue) ==>
                   e.artifactDigest == p.DigestOf(Utf8.Encode("pcs-projection-resolver:" + "v0" + ":" + "#resolved/certified_bundle_hash" + ":" + e.normalizedValue)))
        else e.artifactPath[0] != '/' && e.artifactPath[0] != '\\' && ".." !in Split(e.artifactPath, '/'))
  }

  ghost predicate DescribeAll(items: seq<Json>, entries: seq<Entry>) {
    |items| == |entries| && forall i :: 0 <= i < |items| ==> Describes(items[i], entries[i])
  }

  /** When a manifest has no structural error, over its fields. */
  lemma StructureMeaning(p: Primitives, manifest: Dict)
    ensures StructureOk(p, manifest) <==>
              match Get(manifest, "entries")
              case Some(Arr(items)) =>
                && items != []
                && (exists entries :: DescribeAll(items, entries) && Distinct(entries) && forall i :: 0 <= i < |entries| ==> Acceptable(p, entries[i]))
                && forall s :: Get(manifest, "signature_or_digest") == Some(Str(s)) && IsDigest(s) ==> s == p.Hash(manifest)
              case _ => false
  {
    hide ReadEntry, EntryWellFormed, Acceptable, Get, IsDigest, Describes;
    match Get(manifest, "entries")
    case Some(Arr(items)) =>
      if StructureOk(p, manifest) {
        var entries := ReadAll(p, items);
      }
      if entries :| DescribeAll(items, entries) && Distinct(entries) && forall i :: 0 <= i < |entries| ==> Acceptable(p, entries[i]) {
        ItemsOf(p, items, entries);
      }
    case _ =>
  }

  lemma ReadMeans(item: Json, e: Entry)
    ensures ReadEntry(item) == Some(e) <==> Describes(item, e)
  {
    hide Get;
  }

  lemma WellFormedMeans(p: Primitives, e: Entry)
    ensures EntryWellFormed(p, e) <==> Acceptable(p, e)
  {
    StripEmpty(e.normalizedValue);
    HiddenUnknown(e.normalizedValue);
    HiddenUnknown(e.leanIdentifier);
    ResolverText(p, e.normalizedValue);
    assert "#" <= "#resolved/certified_bundle_hash";
    hide Strip, IsSpace, SpellsUnknown, UnknownAt, ContainsUnknown, LeanIdentifier, IsDigest, ResolverDigest, Utf8.Encode, Split;
  }

  lemma ReadAll(p: Primitives, items: seq<Json>) returns (entries: seq<Entry>)
    requires (forall i :: 0 <= i < |items| ==> ItemWellFormed(p, items[i])) && DistinctItems(items, |items|)
    ensures DescribeAll(items, entries) && Distinct(entries) && forall i :: 0 <= i < |entries| ==> Acceptable(p, entries[i])
  {
    hide ReadEntry, EntryWellFormed, Acceptable, Describes;
    entries := seq(|items|, i requires 0 <= i < |items| => ReadEntry(items[i]).value);
    forall i | 0 <= i < |items| ensures Describes(items[i], entries[i]) && Acceptable(p, entries[i]) {
      assert ItemWellFormed(p, items[i]);
      ReadMeans(items[i], entries[i]);
      WellFormedMeans(p, entries[i]);
    }
    forall i, j | 0 <= i < j < |entries|
      ensures (entries[i].artifactPath, entries[i].jsonPointer) != (entries[j].artifactPath, entries[j].jsonPointer)
      ensures entries[i].leanIdentifier != entries[j].leanIdentifier
    {
      assert ItemWellFormed(p, items[i]) && ItemWellFormed(p, items[j]);
      assert PointerKey(items[i]) != PointerKey(items[j]) && IdentifierOf(items[i]) != IdentifierOf(items[j]);
    }
  }

  lemma ItemsOf(p: Primitives, items: seq<Json>, entries: seq<Entry>)
    requires DescribeAll(items, entries) && Distinct(entries) && forall i :: 0 <= i < |entries| ==> Acceptable(p, entries[i])
    ensures (forall i :: 0 <= i < |items| ==> ItemWellFormed(p, items[i])) && DistinctItems(items, |items|)
  {
    hide ReadEntry, EntryWellFormed, Acceptable, Describes;
    forall i | 0 <= i < |items| ensures ReadEntry(items[i]) == Some(entries[i]) && ItemWellFormed(p, items[i]) {
      ReadMeans(items[i], entries[i]);
      WellFormedMeans(p, entries[i]);
    }
  }

  // ---------------------------------------------------------------- replay

  /** The value a synthetic source resolves to now. */
  function ResolvedIdentity(p: Primitives, r: Release, field: string): Result<string, ExtractionError> {
    var hash :- CertifiedBundleHash(p, r);
    Normalize(Str(hash), field)
  }

  /** The value an entry's JSON Pointer resolves to now. */
  function ResolvedField(p: Primitives, r: Release, e: Entry): Option<Result<string, ExtractionError>>
    requires e.artifactPath in r.files
  {
    match p.parseJson(r.files[e.artifactPath])
    case None => None
    case Some(doc) =>
      match ResolvePointer(doc, e.jsonPointer)
      case None => None
      case Some(raw) => Some(Normalize(raw, e.leanIdentifier))
  }

  /** An entry still says what the release says. */
  predicate EntryReplays(p: Primitives, r: Release, e: Entry) {
    if Synthetic(e.artifactPath) then
      && Registered(e.artifactPath)
      && ResolvedIdentity(p, r, e.leanIdentifier) == Ok(e.normalizedValue)
      && e.artifactDigest == ResolverDigest(p, e.artifactPath, e.normalizedValue)
    else
      && Contained(r, e.artifactPath)
      && e.artifactDigest == FileDigest(p, r, e.artifactPath)
      && (if e.jsonPointer == PAYLOAD_SHA256_POINTER
          then e.artifactPath in r.safe && e.normalizedValue == FileDigest(p, r, e.artifactPath)
          else ResolvedField(p, r, e) == Some(Ok(e.normalizedValue)))
  }

  /** The entry the replay looks at: it skips items whose path, pointer, value or identifier is no text. */
  function ReplayView(item: Json): Option<Entry> {
    if !item.Obj? then None
    else
      var path, pointer := TextAt(item.members, "artifact_path"), TextAt(item.members, "json_pointer");
      var value, identifier := TextAt(item.members, "normalized_value"), TextAt(item.members, "lean_identifier");
      var digest := TextAt(item.members, "artifact_digest");
      if path.Some? && pointer.Some? && value.Some? && identifier.Some?
      then Some(Entry(path.value, if digest.None? then "" else digest.value, pointer.value, value.value, identifier.value)) else None
  }

  predicate ItemReplays(p: Primitives, r: Release, item: Json) {
    ReplayView(item).Some? ==> EntryReplays(p, r, ReplayView(item).value)
  }

  /** `projection_manifest_hash`. */
  function ProjectionHash(p: Primitives, manifest: Dict): string {
    match TextAt(manifest, SIGNATURE_FIELD)
    case Some(declared) => if IsDigest(declared) then declared else p.Hash(manifest)
    case None => p.Hash(manifest)
  }

  predicate ExpectedHashHolds(p: Primitives, manifest: Dict, expected: Option<string>) {
    expected.Some? ==> IsDigest(expected.value) && ProjectionHash(p, manifest) == expected.value
  }

  /** A manifest the release confirms. */
  ghost predicate ReplayOk(p: Primitives, r: Release, manifest: Dict, expected: Option<string>) {
    && StructureOk(p, manifest)
    && (forall i :: 0 <= i < |Get(manifest, "entries").value.items| ==> ItemReplays(p, r, Get(manifest, "entries").value.items[i]))
    && ExpectedHashHolds(p, manifest, expected)
  }

  /** When an entry still says what the release says: its digest is the file's and its value what the
      pointer reads there now, or the file's own digest; for the resolver, the bundle's identity. */
  lemma ReplayMeaning(p: Primitives, r: Release, e: Entry)
    ensures EntryReplays(p, r, e) <==>
              if "#" <= e.artifactPath then
                && e.artifactPath == "#resolved/certified_bundle_hash" && CertifiedBundleHash(p, r) == Ok(e.normalizedValue)
                && e.artifactDigest == p.DigestOf(Utf8.Encode("pcs-projection-resolver:" + "v0" + ":" + "#resolved/certified_bundle_hash" + ":" + e.normalizedValue))
              else
                && Contained(r, e.artifactPath) && e.artifactDigest == p.DigestOf(r.files[e.artifactPath])
                && (if e.jsonPointer == "/#payload_sha256" then e.artifactPath in r.safe && e.normalizedValue == e.artifactDigest
                    else match p.parseJson(r.files[e.artifactPath])
                         case Some(doc) => (match ResolvePointer(doc, e.jsonPointer)
                                            case Some(raw) => Normalize(raw, e.leanIdentifier) == Ok(e.normalizedValue)
                                            case None => false)
                         case None => false)
  {
    ResolverText(p, e.normalizedValue);
    assert "#" <= "#resolved/certified_bundle_hash";
    IdentityClean(p, r, e.leanIdentifier);
    hide CertifiedBundleHash, Normalize, ResolverDigest, Utf8.Encode, ResolvePointer, Contained;
    hide ResolvedIdentity;
  }

  lemma IdentityClean(p: Primitives, r: Release, field: string)
    ensures ResolvedIdentity(p, r, field) == CertifiedBundleHash(p, r)
  {
    hide CertifiedBundleIdentity, IsDigest, Normalize;
    if CertifiedBundleHash(p, r).Ok? {
      DigestNormal(CertifiedBundleHash(p, r).value, field);
    }
  }

  lemma DigestNormal(d: string, field: string)
    requires IsDigest(d)
    ensures Normalize(Str(d), field) == Ok(d)
  {
    DigestIsClean(d, field);
    hide IsDigest, Strip, CheckedValue;
  }

  /** The hash a manifest goes by, and when an expected one is met. */
  lemma HashMeaning(p: Primitives, manifest: Dict, expected: string)
    ensures ExpectedHashHolds(p, manifest, None)
    ensures ExpectedHashHolds(p, manifest, Some(expected)) <==>
              && IsDigest(expected)
              && (Get(manifest, "signature_or_digest") == Some(Str(expected))
                  || (expected == p.Hash(manifest) && forall s :: Get(manifest, "signature_or_digest") == Some(Str(s)) ==> !IsDigest(s)))
  {
    hide IsDigest, Get;
  }

  lemma FileDigestClean(p: Primitives, r: Release, path: string, field: string)
    requires path in r.files
    ensures Normalize(Str(FileDigest(p, r, path)), field) == Ok(FileDigest(p, r, path))
  {
    hide Strip, CheckedValue, IsDigest;
    DigestIsClean(FileDigest(p, r, path), field);
  }

  /** The replay of one entry whose fields are all texts; malformed JSON raises. */
  method ReplayEntry(p: Primitives, r: Release, index: int, e: Entry) returns (result: Result<seq<Issue>, ExtractionError>)
    ensures result == Ok([]) <==> EntryReplays(p, r, e)
    ensures result.Err? ==> result.error.MalformedJson?
  {
    hide Contained, ResolvePointer, CertifiedBundleHash, ResolverDigest, FileDigest, Normalize;
    if Synthetic(e.artifactPath) {
      if !Registered(e.artifactPath) {
        return Ok([Issue(index, ReplayRaised(UnrecognizedResolver(e.artifactPath)))]);
      }
      var resolved := ResolvedIdentity(p, r, e.leanIdentifier);
      if resolved.Err? {
        if resolved.error.MalformedJson? {
          return Err(resolved.error);
        }
        return Ok([Issue(index, ReplayRaised(resolved.error))]);
      }
      var found: seq<Issue> := [];
      if resolved.value != e.normalizedValue {
        found := found + [Issue(index, ValueMismatch)];
      }
      if e.artifactDigest != ResolverDigest(p, e.artifactPath, resolved.value) {
        found := found + [Issue(index, FileDigestMismatch)];
      }
      return Ok(found);
    }
    if !Contained(r, e.artifactPath) {
      return Ok([Issue(index, ReplayRaised(NotContained(e.artifactPath)))]);
    }
    var actual := FileDigest(p, r, e.artifactPath);
    var errors: seq<Issue> := [];
    if e.artifactDigest != actual {
      errors := errors + [Issue(index, FileDigestMismatch)];
    }
    if e.jsonPointer == PAYLOAD_SHA256_POINTER {
      if e.artifactPath !in r.safe {
        return Ok(errors + [Issue(index, UnsafePayload)]);
      }
      FileDigestClean(p, r, e.artifactPath, e.leanIdentifier);
      if e.normalizedValue != actual {
        errors := errors + [Issue(index, PayloadValueMismatch)];
        errors := errors + [Issue(index, ValueMismatch)];
      }
    } else {
      var doc := p.parseJson(r.files[e.artifactPath]);
      if doc.None? {
        return Err(MalformedJson(e.artifactPath));
      }
      var raw := ResolvePointer(doc.value, e.jsonPointer);
      if raw.None? {
        return Ok(errors + [Issue(index, PointerUnresolved)]);
      }
      var resolved := Normalize(raw.value, e.leanIdentifier);
      if resolved.Err? {
        return Ok(errors + [Issue(index, ReplayRaised(resolved.error))]);
      }
      if resolved.value != e.normalizedValue {
        errors := errors + [Issue(index, ValueMismatch)];
      }
    }
    if e.artifactDigest != actual {
      errors := errors + [Issue(index, FileDigestMismatch)];
    }
    return Ok(errors);
  }

  /** `validate_projection_against_release`. */
  method ValidateAgainstRelease(p: Primitives, r: Release, manifest: Dict, expected: Option<string>)
    returns (result: Result<seq<Issue>, ExtractionError>)
    ensures result == Ok([]) <==> ReplayOk(p, r, manifest, expected)
    ensures result.Err? ==> result.error.MalformedJson?
  {
    hide StructureOk, ReplayView, EntryReplays, ExpectedHashHolds;
    var errors := ValidateStructure(p, manifest);
    var raw := Get(manifest, "entries");
    if raw.None? || !raw.value.Arr? {
      StructureHasEntries(p, manifest);
      return Ok(errors);
    }
    var items := raw.value.items;
    var structural := errors;
    for index := 0 to |items|
      invariant errors == [] <==> structural == [] && forall j :: 0 <= j < index ==> ItemReplays(p, r, items[j])
    {
      var entry := ReplayView(items[index]);
      if entry.Some? {
        var own := ReplayEntry(p, r, index, entry.value);
        if own.Err? {
          return own;
        }
        errors := errors + own.value;
      }
    }
    if !ExpectedHashHolds(p, manifest, expected) {
      errors := errors + [Issue(-1, ExpectedHashMismatch)];
    }
    return Ok(errors);
  }

  lemma StructureHasEntries(p: Primitives, manifest: Dict)
    ensures StructureOk(p, manifest) ==> Get(manifest, "entries").Some? && Get(manifest, "entries").value.Arr?
  {
  }
}
