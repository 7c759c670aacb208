/** PCSProjectionManifest.v0 (python/pcs_core/pcs_projection.py): the builder with its indexes and
    digest cache, and the validators that replay what it built. */
module Projection {
  import opened Wrappers
  import opened Text
  import opened Json
  import opened CanonicalJson
  import opened Primitives
  import opened Release
  import Utf8

  const RESOLVER_VERSION := "v0"
  const PAYLOAD_SHA256_POINTER := "/#payload_sha256"

  datatype Entry = Entry(
    artifactPath: string, artifactDigest: string, jsonPointer: string, normalizedValue: string, leanIdentifier: string)

  // ---------------------------------------------------------------- entries

  /** `is_synthetic_artifact_path`. */
  predicate Synthetic(path: string) {
    StartsWith(path, "#")
  }

  predicate Registered(path: string) {
    path == CERTIFIED_BUNDLE_RESOLVER_ID
  }

  /** The pattern of Lean identifiers: a letter or underscore, then letters, digits, '_' and '.'. */
  predicate LeanIdentifier(s: string) {
    && s != ""
    && (forall i :: 0 <= i < |s| ==> IdentifierChar(s[i]))
    && !IsDigit(s[0]) && s[0] != '.'
  }

  predicate IdentifierChar(c: char) {
    'A' <= c <= 'Z' || 'a' <= c <= 'z' || IsDigit(c) || c == '_' || c == '.'
  }

  /** `synthetic_resolver_digest` for a resolved digest. */
  function ResolverDigest(p: Primitives, resolverId: string, value: string): (d: string)
    ensures IsDigest(d)
  {
    p.DigestOf(Utf8.Encode("pcs-projection-resolver:" + RESOLVER_VERSION + ":" + resolverId + ":" + value))
  }

  /** What a resolver digest is the digest of. */
  lemma ResolverText(p: Primitives, value: string)
    ensures ResolverDigest(p, "#resolved/certified_bundle_hash", value)
         == p.DigestOf(Utf8.Encode("pcs-projection-resolver:" + "v0" + ":" + "#resolved/certified_bundle_hash" + ":" + value))
  {
  }

  /** A letter of either case or an underscore. */
  ghost predicate StartsName(c: char) {
    c in "abcdefghijklm" || c in "nopqrstuvwxyz" || c in "ABCDEFGHIJKLM" || c in "NOPQRSTUVWXYZ" || c == '_'
  }

  /** An identifier starts with a letter or an underscore and goes on with those, digits and dots. */
  lemma IdentifierMeaning(s: string)
    ensures LeanIdentifier(s) <==>
              s != "" && StartsName(s[0]) && forall i :: 0 <= i < |s| ==> StartsName(s[i]) || s[i] in "0123456789" || s[i] == '.'
  {
    forall c ensures IdentifierChar(c) <==> StartsName(c) || c in "0123456789" || c == '.'
             ensures StartsName(c) ==> !IsDigit(c) && c != '.'
             ensures c in "0123456789" <==> IsDigit(c) {
      NameCharacters(c);
    }
    hide StartsName, IdentifierChar;
  }

  lemma NameCharacters(c: char)
    ensures StartsName(c) <==> 'A' <= c <= 'Z' || 'a' <= c <= 'z' || c == '_'
    ensures c in "0123456789" <==> '0' <= c <= '9'
  {
    var digits, a, n := "0123456789", "abcdefghijklm", "nopqrstuvwxyz";
    assert c in digits <==> '0' <= c <= '9';
    assert c in a <==> 'a' <= c <= 'm';
    assert c in n <==> 'n' <= c <= 'z';
    var x, y := "ABCDEFGHIJKLM", "NOPQRSTUVWXYZ";
    assert c in x <==> 'A' <= c <= 'M';
    assert c in y <==> 'N' <= c <= 'Z';
  }

  /** Changing the resolved value or the resolver changes the digest, unless SHA-256 collides. */
  lemma ResolverDigestBinds(p: Primitives, value: string, other: string)
    requires ResolverDigest(p, CERTIFIED_BUNDLE_RESOLVER_ID, value) == ResolverDigest(p, CERTIFIED_BUNDLE_RESOLVER_ID, other)
    ensures || value == other
            || exists x, y :: x == Utf8.Encode("pcs-projection-resolver:" + RESOLVER_VERSION + ":" + CERTIFIED_BUNDLE_RESOLVER_ID + ":" + value)
                           && y == Utf8.Encode("pcs-projection-resolver:" + RESOLVER_VERSION + ":" + CERTIFIED_BUNDLE_RESOLVER_ID + ":" + other)
                           && Collision(p, x, y)
  {
    var head := "pcs-projection-resolver:" + RESOLVER_VERSION + ":" + CERTIFIED_BUNDLE_RESOLVER_ID + ":";
    DigestEqualOrCollision(p, Utf8.Encode(head + value), Utf8.Encode(head + other));
    if Utf8.Encode(head + value) == Utf8.Encode(head + other) {
      Utf8.EncodeInjective(head + value, head + other);
      assert (head + value)[|head|..] == value && (head + other)[|head|..] == other;
    }
  }

  // ---------------------------------------------------------------- what the builder accepts

  datatype AddRequest = AddRequest(
    artifactPath: string, jsonPointer: string, normalizedValue: string, leanIdentifier: string, requireDigest: bool)

  /** Why a request is refused on its own, before the entries already there are looked at. */
  function FormError(r: Release, req: AddRequest): Option<ExtractionError> {
    var value := CheckedValue(req.normalizedValue, req.leanIdentifier);
    var identifier := CheckedValue(req.leanIdentifier, "lean_identifier");
    if value.Err? then Some(value.error)
    else if req.requireDigest && !IsDigest(req.normalizedValue) then Some(NotADigest(req.jsonPointer))
    else if !StartsWith(req.jsonPointer, "/") then Some(PointerForm(req.jsonPointer))
    else if identifier.Err? then Some(identifier.error)
    else if !LeanIdentifier(req.leanIdentifier) then Some(IdentifierForm(req.leanIdentifier))
    else if Synthetic(req.artifactPath) then
      if Registered(req.artifactPath) then None else Some(UnrecognizedResolver(req.artifactPath))
    else if Contained(r, req.artifactPath) then None
    else Some(NotContained(req.artifactPath))
  }

  predicate PointerTaken(entries: seq<Entry>, path: string, pointer: string) {
    exists e :: e in entries && e.artifactPath == path && e.jsonPointer == pointer
  }

  predicate IdentifierTaken(entries: seq<Entry>, identifier: string) {
    exists e :: e in entries && e.leanIdentifier == identifier
  }

  predicate IdentifierBound(entries: seq<Entry>, identifier: string, value: string) {
    exists e :: e in entries && e.leanIdentifier == identifier && e.normalizedValue == value
  }

  /** Why `add` refuses a request, read off the entries alone. */
  function AddError(r: Release, entries: seq<Entry>, req: AddRequest): Option<ExtractionError> {
    if FormError(r, req).Some? then FormError(r, req)
    else if PointerTaken(entries, req.artifactPath, req.jsonPointer) then Some(DuplicatePointer(req.artifactPath, req.jsonPointer))
    else if IdentifierTaken(entries, req.leanIdentifier) then
      if IdentifierBound(entries, req.leanIdentifier, req.normalizedValue) then Some(DuplicateIdentifier(req.leanIdentifier))
      else Some(ConflictingIdentifier(req.leanIdentifier))
    else if Synthetic(req.artifactPath) && !IsDigest(req.normalizedValue) then Some(NotADigest(req.artifactPath))
    else None
  }

  /** When a request is accepted: its value and identifier are neither blank nor unknown, the identifier has
      its form and is new, the pointer starts with a slash and is new for its path, and the source is a
      contained file, or the certified bundle's resolver with a digest. */
  lemma AddMeaning(r: Release, entries: seq<Entry>, req: AddRequest)
    ensures AddError(r, entries, req) == None <==>
              && CheckedValue(req.normalizedValue, req.leanIdentifier) == Ok(req.normalizedValue)
              && CheckedValue(req.leanIdentifier, "lean_identifier") == Ok(req.leanIdentifier)
              && LeanIdentifier(req.leanIdentifier) && "/" <= req.jsonPointer
              && (req.requireDigest ==> IsDigest(req.normalizedValue))
              && (|| (req.artifactPath == "#resolved/certified_bundle_hash" && IsDigest(req.normalizedValue))
                  || (!("#" <= req.artifactPath) && Contained(r, req.artifactPath)))
              && forall e :: e in entries ==>
                   e.leanIdentifier != req.leanIdentifier && (e.artifactPath != req.artifactPath || e.jsonPointer != req.jsonPointer)
  {
    CheckedMeaning(req.normalizedValue, req.leanIdentifier);
    CheckedMeaning(req.leanIdentifier, "lean_identifier");
    assert "#" <= "#resolved/certified_bundle_hash";
    hide CheckedValue, LeanIdentifier, IsDigest, Contained, SpellsUnknown, IsSpace, WordChar;
  }

  /** Where an accepted request's digest comes from. */
  lemma NewEntryMeaning(p: Primitives, r: Release, req: AddRequest)
    requires FormError(r, req).None?
    ensures var e := NewEntry(p, r, req);
            && e == Entry(req.artifactPath, e.artifactDigest, req.jsonPointer, req.normalizedValue, req.leanIdentifier)
            && (if "#" <= req.artifactPath
                then e.artifactDigest == p.DigestOf(Utf8.Encode("pcs-projection-resolver:" + "v0" + ":" + "#resolved/certified_bundle_hash" + ":" + req.normalizedValue))
                else req.artifactPath in r.files && e.artifactDigest == p.DigestOf(r.files[req.artifactPath]))
  {
    ResolverText(p, req.normalizedValue);
    hide CheckedValue, LeanIdentifier, IsDigest, ResolverDigest, Utf8.Encode;
  }

  /** The entry an accepted request becomes. */
  function NewEntry(p: Primitives, r: Release, req: AddRequest): Entry
    requires FormError(r, req).None?
  {
    Entry(req.artifactPath,
          if Synthetic(req.artifactPath) then ResolverDigest(p, req.artifactPath, req.normalizedValue)
          else FileDigest(p, r, req.artifactPath),
          req.jsonPointer, req.normalizedValue, req.leanIdentifier)
  }

  function AddEntry(p: Primitives, r: Release, entries: seq<Entry>, req: AddRequest): Result<seq<Entry>, ExtractionError> {
    if AddError(r, entries, req).Some? then Err(AddError(r, entries, req).value) else Ok(entries + [NewEntry(p, r, req)])
  }

  // ---------------------------------------------------------------- the entries invariant

  /** What every entry the builder holds satisfies. */
  predicate EntrySound(p: Primitives, r: Release, e: Entry) {
    && CheckedValue(e.normalizedValue, e.leanIdentifier).Ok?
    && CheckedValue(e.leanIdentifier, "lean_identifier").Ok?
    && LeanIdentifier(e.leanIdentifier)
    && StartsWith(e.jsonPointer, "/")
    && (if Synthetic(e.artifactPath)
        then Registered(e.artifactPath) && IsDigest(e.normalizedValue)
             && e.artifactDigest == ResolverDigest(p, e.artifactPath, e.normalizedValue)
        else Contained(r, e.artifactPath) && e.artifactDigest == FileDigest(p, r, e.artifactPath))
  }

  /** An entry the builder holds, over its fields. */
  lemma SoundMeaning(p: Primitives, r: Release, e: Entry)
    ensures EntrySound(p, r, e) <==>
              && CheckedValue(e.normalizedValue, e.leanIdentifier) == Ok(e.normalizedValue)
              && CheckedValue(e.leanIdentifier, "lean_identifier") == Ok(e.leanIdentifier)
              && LeanIdentifier(e.leanIdentifier) && "/" <= e.jsonPointer
              && (if "#" <= e.artifactPath
                  then e.artifactPath == "#resolved/certified_bundle_hash" && IsDigest(e.normalizedValue)
                       && e.artifactDigest == p.DigestOf(Utf8.Encode("pcs-projection-resolver:" + "v0" + ":" + "#resolved/certified_bundle_hash" + ":" + e.normalizedValue))
                  else Contained(r, e.artifactPath) && e.artifactDigest == p.DigestOf(r.files[e.artifactPath]))
  {
    ResolverText(p, e.normalizedValue);
    CheckedMeaning(e.normalizedValue, e.leanIdentifier);
    CheckedMeaning(e.leanIdentifier, "lean_identifier");
    assert "#" <= "#resolved/certified_bundle_hash";
    hide CheckedValue, LeanIdentifier, IsDigest, Contained, SpellsUnknown, IsSpace, WordChar, ResolverDigest, Utf8.Encode;
  }

  ghost predicate Distinct(entries: seq<Entry>) {
    forall i, j :: 0 <= i < j < |entries| ==>
      && (entries[i].artifactPath, entries[i].jsonPointer) != (entries[j].artifactPath, entries[j].jsonPointer)
      && entries[i].leanIdentifier != entries[j].leanIdentifier
  }

  ghost predicate EntriesSound(p: Primitives, r: Release, entries: seq<Entry>) {
    (forall i :: 0 <= i < |entries| ==> EntrySound(p, r, entries[i])) && Distinct(entries)
  }

  lemma AddKeepsSound(p: Primitives, r: Release, entries: seq<Entry>, req: AddRequest)
    requires EntriesSound(p, r, entries) && AddError(r, entries, req).None?
    ensures EntriesSound(p, r, entries + [NewEntry(p, r, req)])
  {
    hide CheckedValue, LeanIdentifier, Contained, ResolverDigest, FileDigest, IsDigest;
    var e := NewEntry(p, r, req);
    assert EntrySound(p, r, e);
    forall i | 0 <= i < |entries|
      ensures (entries[i].artifactPath, entries[i].jsonPointer) != (e.artifactPath, e.jsonPointer)
      ensures entries[i].leanIdentifier != e.leanIdentifier
    {
      assert entries[i] in entries;
    }
  }

  // ---------------------------------------------------------------- the builder

  function ProjectionId(given: Option<string>, releaseId: string): string {
    if given.None? || given.value == "" then "pcs-projection-" + releaseId else given.value
  }

  /** A projection is named after its release unless it was given a name. */
  lemma ProjectionNames(given: string, releaseId: string)
    ensures ProjectionId(None, releaseId) == "pcs-projection-" + releaseId == ProjectionId(Some(""), releaseId)
    ensures given != "" ==> ProjectionId(Some(given), releaseId) == given
  {
  }

  class ProjectionManifestBuilder {
    const p: Primitives
    const release: Release
    const releaseId: string
    const workflowId: string
    const projectionId: string
    var entries: seq<Entry>
    var digestCache: map<string, string>
    var leanIds: map<string, string>
    var pointerKeys: set<(string, string)>

    /** The indexes list exactly the entries, and the cache agrees with the files. */
    ghost predicate Valid()
      reads this
    {
      && EntriesSound(p, release, entries)
      && pointerKeys == (set e | e in entries :: (e.artifactPath, e.jsonPointer))
      && leanIds.Keys == (set e | e in entries :: e.leanIdentifier)
      && (forall e :: e in entries ==> leanIds[e.leanIdentifier] == e.normalizedValue)
      && (forall path :: path in digestCache ==> path in release.files && digestCache[path] == FileDigest(p, release, path))
    }

    constructor (p: Primitives, release: Release, releaseId: string, workflowId: string, projectionId: Option<string>)
      requires CheckedValue(releaseId, "release_id").Ok? && CheckedValue(workflowId, "workflow_id").Ok?
      ensures Valid() && entries == []
      ensures this.p == p && this.release == release && this.releaseId == releaseId && this.workflowId == workflowId
      ensures this.projectionId == ProjectionId(projectionId, releaseId)
    {
      hide CheckedValue, ProjectionId, EntrySound;
      this.p, this.release, this.releaseId, this.workflowId := p, release, releaseId, workflowId;
      this.projectionId := ProjectionId(projectionId, releaseId);
      entries, digestCache, leanIds, pointerKeys := [], map[], map[], {};
    }

    /** `_file_digest_for`. */
    method FileDigestFor(path: string) returns (digest: string)
      requires Valid() && path in release.files
      modifies this`digestCache
      ensures Valid() && digest == FileDigest(p, release, path)
    {
      if path !in digestCache {
        digestCache := digestCache[path := p.DigestOf(release.files[path])];
      }
      digest := digestCache[path];
    }

    /** `add`: a request is refused exactly when the entries alone say so, and a refused request changes
        no entry and no index. */
    method Add(req: AddRequest) returns (r: Result<string, ExtractionError>)
      requires Valid()
      modifies this
      ensures Valid()
      ensures r == match AddError(release, old(entries), req) case Some(e) => Err(e) case None => Ok(req.normalizedValue)
      ensures Ok(entries) == AddEntry(p, release, old(entries), req) || (r.Err? && entries == old(entries))
      ensures r.Err? ==> pointerKeys == old(pointerKeys) && leanIds == old(leanIds)
    {
      hide CheckedValue, LeanIdentifier, Contained, ResolverDigest, FileDigest, IsDigest, EntrySound, EntriesSound;
      var formError := FormError(release, req);
      if formError.Some? {
        return Err(formError.value);
      }
      var key := (req.artifactPath, req.jsonPointer);
      assert key in pointerKeys <==> PointerTaken(entries, req.artifactPath, req.jsonPointer);
      if key in pointerKeys {
        return Err(DuplicatePointer(req.artifactPath, req.jsonPointer));
      }
      IdentifierIndexed(req.leanIdentifier, req.normalizedValue);
      if req.leanIdentifier in leanIds {
        if leanIds[req.leanIdentifier] != req.normalizedValue {
          return Err(ConflictingIdentifier(req.leanIdentifier));
        }
        return Err(DuplicateIdentifier(req.leanIdentifier));
      }
      var digest: string;
      if Synthetic(req.artifactPath) {
        if !IsDigest(req.normalizedValue) {
          return Err(NotADigest(req.artifactPath));
        }
        digest := ResolverDigest(p, req.artifactPath, req.normalizedValue);
      } else {
        digest := FileDigestFor(req.artifactPath);
      }
      var entry := Entry(req.artifactPath, digest, req.jsonPointer, req.normalizedValue, req.leanIdentifier);
      AddKeepsSound(p, release, entries, req);
      assert entry == NewEntry(p, release, req);
      pointerKeys := pointerKeys + {key};
      leanIds := leanIds[req.leanIdentifier := req.normalizedValue];
      entries := entries + [entry];
      return Ok(req.normalizedValue);
    }

    /** The identifier map answers as a search of the entries would. */
    lemma IdentifierIndexed(identifier: string, value: string)
      requires Valid()
      ensures identifier in leanIds <==> IdentifierTaken(entries, identifier)
      ensures identifier in leanIds ==> (leanIds[identifier] == value <==> IdentifierBound(entries, identifier, value))
    {
    }

    /** `build`. */
    method Build() returns (r: Result<Dict, ExtractionError>)
      requires Valid()
      ensures r == if entries == [] then Err(NoEntries) else Ok(Manifest(p, projectionId, releaseId, workflowId, entries))
    {
      if entries == [] {
        return Err(NoEntries);
      }
      var body := ManifestBody(projectionId, releaseId, workflowId, entries, PLACEHOLDER_DIGEST);
      return Ok(Put(body, SIGNATURE_FIELD, Str(p.Hash(body))));
    }
  }

  // ---------------------------------------------------------------- manifests

  function EntryToDict(e: Entry): Dict {
    [Member("artifact_path", Str(e.artifactPath)), Member("artifact_digest", Str(e.artifactDigest)),
     Member("json_pointer", Str(e.jsonPointer)), Member("normalized_value", Str(e.normalizedValue))]
    + [Member("lean_identifier", Str(e.leanIdentifier))]
  }

  function EntriesToJson(entries: seq<Entry>): (r: seq<Json>)
    ensures |r| == |entries| && forall i :: 0 <= i < |r| ==> r[i] == Obj(EntryToDict(entries[i]))
  {
    if entries == [] then [] else [Obj(EntryToDict(entries[0]))] + EntriesToJson(entries[1..])
  }

  function ManifestBody(projectionId: string, releaseId: string, workflowId: string, entries: seq<Entry>, digest: string): Dict {
    [Member("schema_version", Str("v0")), Member("artifact_type", Str("PCSProjectionManifest.v0")),
     Member("projection_id", Str(projectionId)), Member("release_id", Str(releaseId))]
    + [Member("workflow_id", Str(workflowId)), Member("entries", Arr(EntriesToJson(entries))), Member(SIGNATURE_FIELD, Str(digest))]
  }

  function Manifest(p: Primitives, projectionId: string, releaseId: string, workflowId: string, entries: seq<Entry>): Dict {
    var body := ManifestBody(projectionId, releaseId, workflowId, entries, PLACEHOLDER_DIGEST);
    Put(body, SIGNATURE_FIELD, Str(p.Hash(body)))
  }

  function TextAt(d: Dict, name: string): Option<string> {
    match Get(d, name)
    case Some(Str(s)) => Some(s)
    case _ => None
  }

  /** The entry a manifest item stands for when all its fields are texts. */
  function ReadEntry(item: Json): Option<Entry> {
    if !item.Obj? then None
    else
      var path, digest := TextAt(item.members, "artifact_path"), TextAt(item.members, "artifact_digest");
      var pointer, value := TextAt(item.members, "json_pointer"), TextAt(item.members, "normalized_value");
      var identifier := TextAt(item.members, "lean_identifier");
      if path.Some? && digest.Some? && pointer.Some? && value.Some? && identifier.Some?
      then Some(Entry(path.value, digest.value, pointer.value, value.value, identifier.value)) else None
  }

  lemma EntryNames()
    ensures "artifact_path" != "artifact_digest" && "artifact_path" != "json_pointer" && "artifact_path" != "normalized_value"
    ensures "artifact_digest" != "json_pointer" && "artifact_digest" != "normalized_value" && "json_pointer" != "normalized_value"
    ensures "lean_identifier" != "artifact_path" && "lean_identifier" != "artifact_digest"
    ensures "lean_identifier" != "json_pointer" && "lean_identifier" != "normalized_value"
  {
    assert |"artifact_path"| == 13 && |"artifact_digest"| == 15 && |"json_pointer"| == 12 && |"normalized_value"| == 16;
    assert |"lean_identifier"| == 15 && "lean_identifier"[0] == 'l' && "artifact_digest"[0] == 'a';
  }

  /** An entry reads back from its own dictionary. */
  lemma EntryRoundTrip(e: Entry)
    ensures ReadEntry(Obj(EntryToDict(e))) == Some(e)
  {
    EntryNames();
    var a, b := Member("artifact_path", Str(e.artifactPath)), Member("artifact_digest", Str(e.artifactDigest));
    var c, d := Member("json_pointer", Str(e.jsonPointer)), Member("normalized_value", Str(e.normalizedValue));
    var last := [Member("lean_identifier", Str(e.leanIdentifier))];
    forall name ensures Get(EntryToDict(e), name)
                     == if OneOfFour(a, b, c, d, name).Some? then OneOfFour(a, b, c, d, name) else Get(last, name)
    {
      GetConcat([a, b, c, d], last, name);
      FourFields(a, b, c, d, name);
    }
  }
}
