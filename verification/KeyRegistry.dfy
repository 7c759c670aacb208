/** TrustedKeyRegistry.v0 documents (python/pcs_core/artifact_integrity.py:199-316, 678-710):
    writing, loading and revoking keys. */
module KeyRegistry {
  import opened Wrappers
  import opened Text
  import opened Json
  import opened CanonicalJson
  import opened Primitives
  import opened ArtifactIntegrity
  import opened Sorting
  import Base64

  const REGISTRY_TYPE := "TrustedKeyRegistry.v0"

  datatype RegistryError =
    | UnexpectedArtifactType
    | KeysNotAnArray
    | EntryNotAnObject
    | MissingKeyId
    | DuplicateKeyId(keyId: string)
    | BadAlgorithm(keyId: string)
    | PurposesNotAnArray(keyId: string)
    | MissingField(name: string)
    | BadPublicKey(error: Base64.KeyEncodingError)
    | BadTime(name: string)
    | NoSuchKeyId(keyId: string)

  // ---------------------------------------------------------------- purposes

  /** `frozenset(str(v) for v in values)`, as its elements in ascending order. */
  function PurposeSet(p: Primitives, values: seq<Json>): seq<string> {
    if values == [] then [] else Add(p.StrOf(values[0]), PurposeSet(p, values[1..]))
  }

  function Strings(s: seq<string>): (r: seq<Json>)
    ensures |r| == |s|
  {
    if s == [] then [] else [Str(s[0])] + Strings(s[1..])
  }

  // ---------------------------------------------------------------- writing

  /** `trusted_key_to_dict`. */
  function KeyToDict(p: Primitives, key: TrustedKey): Dict {
    [Member("key_id", Str(key.keyId)), Member("algorithm", Str(key.algorithm)),
     Member("public_key", Str(Base64.EncodeKeyBytes(key.publicKey))), Member("valid_from", Str(p.FormatUtc(key.validFrom)))]
    + (Optional("valid_until", TimeField(p, key.validUntil))
    + (Optional("revoked_at", TimeField(p, key.revokedAt))
    + (Optional("purposes", if key.purposes == [] then None else Some(Arr(Strings(key.purposes))))
    + Optional("note", if key.note.None? || key.note.value == "" then None else Some(Str(key.note.value))))))
  }

  function TimeField(p: Primitives, time: Option<Instant>): Option<Json> {
    if time.None? then None else Some(Str(p.FormatUtc(time.value)))
  }

  function KeysToJson(p: Primitives, keys: seq<TrustedKey>): (r: seq<Json>)
    ensures |r| == |keys|
  {
    if keys == [] then [] else [Obj(KeyToDict(p, keys[0]))] + KeysToJson(p, keys[1..])
  }

  /** `build_trusted_key_registry`. */
  function BuildRegistry(p: Primitives, keys: seq<TrustedKey>, registryId: Option<string>): Dict {
    var payload := [
      Member("schema_version", Str("v0")),
      Member("artifact_type", Str(REGISTRY_TYPE)),
      Member(CANONICALIZATION_FIELD, Str(CANONICALIZATION_VERSION)),
      Member("keys", Arr(KeysToJson(p, keys)))]
      + Optional("registry_id", if registryId.None? || registryId.value == "" then None else Some(Str(registryId.value)));
    Put(payload, SIGNATURE_FIELD, Str(p.Hash(payload)))
  }

  // ---------------------------------------------------------------- loading

  /** An optional time: absent and null read as no time; anything but a readable text raises. */
  function LoadTime(p: Primitives, raw: Option<Json>, name: string): Result<Option<Instant>, RegistryError> {
    match raw
    case None => Ok(None)
    case Some(Null) => Ok(None)
    case Some(Str(text)) => if p.ParseUtc(text).None? then Err(BadTime(name)) else Ok(p.ParseUtc(text))
    case _ => Err(BadTime(name))
  }

  function LoadPurposes(p: Primitives, raw: Option<Json>): Option<seq<string>> {
    match raw
    case None => Some([])
    case Some(Arr(items)) => Some(PurposeSet(p, items))
    case Some(v) => if Falsy(v) then Some([]) else None
  }

  /** Absent, null or the given text. */
  predicate AbsentOr(raw: Option<Json>, text: string) {
    raw.None? || raw.value == Null || raw.value == Str(text)
  }

  /** The fields of an entry as the loader reads them. */
  datatype RawKey = RawKey(
    algorithm: Option<Json>, purposes: Option<Json>, publicKey: Option<Json>, validFrom: Option<Json>,
    validUntil: Option<Json>, revokedAt: Option<Json>, note: Option<Json>)

  function ReadEntry(entry: Dict): RawKey {
    RawKey(Get(entry, "algorithm"), Get(entry, "purposes"), Get(entry, "public_key"), Get(entry, "valid_from"),
           Get(entry, "valid_until"), Get(entry, "revoked_at"), Get(entry, "note"))
  }

  /** The parsed fields of an entry, in the order the loader looks at them. */
  datatype ParsedKey = ParsedKey(
    algorithmKnown: bool,
    purposes: Option<seq<string>>,
    publicKey: Option<Result<seq<byte>, Base64.KeyEncodingError>>,
    validFrom: Option<Option<Instant>>,
    validUntil: Result<Option<Instant>, RegistryError>,
    revokedAt: Result<Option<Instant>, RegistryError>,
    note: string)

  function ParseKey(p: Primitives, raw: RawKey): ParsedKey {
    ParsedKey(
      AbsentOr(raw.algorithm, "ed25519"),
      LoadPurposes(p, raw.purposes),
      if raw.publicKey.None? then None else Some(Base64.DecodeKeyBytes(p.StrOf(raw.publicKey.value), Some(32))),
      if raw.validFrom.None? then None else Some(p.ParseUtc(p.StrOf(raw.validFrom.value))),
      LoadTime(p, raw.validUntil, "valid_until"),
      LoadTime(p, raw.revokedAt, "revoked_at"),
      p.StrOrEmpty(raw.note))
  }

  /** `build_trusted_key` for an entry whose key id has been accepted. */
  function AssembleKey(parsed: ParsedKey, keyId: string): Result<TrustedKey, RegistryError> {
    if !parsed.algorithmKnown then Err(BadAlgorithm(keyId))
    else if parsed.purposes.None? then Err(PurposesNotAnArray(keyId))
    else if parsed.publicKey.None? then Err(MissingField("public_key"))
    else if parsed.validFrom.None? then Err(MissingField("valid_from"))
    else if parsed.publicKey.value.Err? then Err(BadPublicKey(parsed.publicKey.value.error))
    else if parsed.validFrom.value.None? then Err(BadTime("valid_from"))
    else
      var validUntil :- parsed.validUntil;
      var revokedAt :- parsed.revokedAt;
      Ok(TrustedKey(keyId, "ed25519", parsed.publicKey.value.value, parsed.validFrom.value.value, validUntil, revokedAt,
                    parsed.purposes.value, if parsed.note == "" then None else Some(parsed.note)))
  }

  function LoadKey(p: Primitives, raw: RawKey, keyId: string): Result<TrustedKey, RegistryError> {
    AssembleKey(ParseKey(p, raw), keyId)
  }

  /** The entries from one point on, when the ids in `seen` are taken. */
  function LoadKeys(p: Primitives, entries: seq<Json>, seen: set<string>): Result<seq<TrustedKey>, RegistryError> {
    if entries == [] then Ok([])
    else if !entries[0].Obj? then Err(EntryNotAnObject)
    else
      var entry := entries[0].members;
      var keyId := p.StrField(entry, "key_id");
      if keyId == "" then Err(MissingKeyId)
      else if keyId in seen then Err(DuplicateKeyId(keyId))
      else
        var key :- LoadKey(p, ReadEntry(entry), keyId);
        var rest :- LoadKeys(p, entries[1..], seen + {keyId});
        Ok([key] + rest)
  }

  function LoadRegistry(p: Primitives, payload: Dict): Result<Registry, RegistryError> {
    if !AbsentOr(Get(payload, "artifact_type"), REGISTRY_TYPE) then Err(UnexpectedArtifactType)
    else
      match Get(payload, "keys")
      case Some(Arr(entries)) =>
        var keys :- LoadKeys(p, entries, {});
        var registryId := p.StrField(payload, "registry_id");
        Ok(Registry(keys, if registryId == "" then None else Some(registryId)))
      case _ => Err(KeysNotAnArray)
  }

  function Prepend(keys: seq<TrustedKey>, rest: Result<seq<TrustedKey>, RegistryError>): Result<seq<TrustedKey>, RegistryError> {
    if rest.Err? then rest else Ok(keys + rest.value)
  }

  /** `load_trusted_key_registry`: the loop over entries with its `keys` list and `seen` set. */
  method LoadTrustedKeyRegistry(p: Primitives, payload: Dict) returns (r: Result<Registry, RegistryError>)
    ensures r == LoadRegistry(p, payload)
  {
    if !AbsentOr(Get(payload, "artifact_type"), REGISTRY_TYPE) {
      return Err(UnexpectedArtifactType);
    }
    var raw := Get(payload, "keys");
    if raw.None? || !raw.value.Arr? {
      return Err(KeysNotAnArray);
    }
    var entries := raw.value.items;
    var keys: seq<TrustedKey> := [];
    var seen: set<string> := {};
    var index := 0;
    assert entries[0..] == entries;
    assert forall r: seq<TrustedKey> :: [] + r == r;
    while index < |entries|
      invariant 0 <= index <= |entries|
      invariant LoadKeys(p, entries, {}) == Prepend(keys, LoadKeys(p, entries[index..], seen))
    {
      assert entries[index..][1..] == entries[index + 1..];
      if !entries[index].Obj? {
        return Err(EntryNotAnObject);
      }
      var entry := entries[index].members;
      var keyId := p.StrField(entry, "key_id");
      if keyId == "" {
        return Err(MissingKeyId);
      }
      if keyId in seen {
        return Err(DuplicateKeyId(keyId));
      }
      seen := seen + {keyId};
      var key := LoadKey(p, ReadEntry(entry), keyId);
      if key.Err? {
        return Err(key.error);
      }
      ghost var rest := LoadKeys(p, entries[index + 1..], seen);
      assert rest.Ok? ==> keys + ([key.value] + rest.value) == keys + [key.value] + rest.value;
      keys := keys + [key.value];
      index := index + 1;
    }
    assert keys + [] == keys;
    var registryId := p.StrField(payload, "registry_id");
    return Ok(Registry(keys, if registryId == "" then None else Some(registryId)));
  }

  // ---------------------------------------------------------------- revoking

  predicate Names(entry: Json, keyId: string) {
    entry.Obj? && Get(entry.members, "key_id") == Some(Str(keyId))
  }

  function RevokeEntry(entry: Json, keyId: string, when: string): Json {
    if Names(entry, keyId) then Obj(Put(entry.members, "revoked_at", Str(when))) else entry
  }

  function RevokeEntries(entries: seq<Json>, keyId: string, when: string): (r: seq<Json>)
    ensures |r| == |entries|
    ensures forall i :: 0 <= i < |entries| ==> r[i] == RevokeEntry(entries[i], keyId, when)
  {
    if entries == [] then [] else [RevokeEntry(entries[0], keyId, when)] + RevokeEntries(entries[1..], keyId, when)
  }

  function RevokeKey(p: Primitives, data: Dict, keyId: string, when: string): Result<Dict, RegistryError> {
    match Get(data, "keys")
    case Some(Arr(entries)) =>
      if forall entry :: entry in entries ==> !Names(entry, keyId) then Err(NoSuchKeyId(keyId))
      else
        var payload := Pop(Put(data, "keys", Arr(RevokeEntries(entries, keyId, when))), SIGNATURE_FIELD);
        Ok(Put(payload, SIGNATURE_FIELD, Str(p.Hash(payload))))
    case _ => Err(KeysNotAnArray)
  }

  /** `revoke_key_in_registry`: the loop that copies entries and marks the named ones. */
  method RevokeKeyInRegistry(p: Primitives, data: Dict, keyId: string, when: string) returns (r: Result<Dict, RegistryError>)
    ensures r == RevokeKey(p, data, keyId, when)
  {
    var raw := Get(data, "keys");
    if raw.None? || !raw.value.Arr? {
      return Err(KeysNotAnArray);
    }
    var entries := raw.value.items;
    var updated: seq<Json> := [];
    var found := false;
    for i := 0 to |entries|
      invariant |updated| == i && forall j :: 0 <= j < i ==> updated[j] == RevokeEntry(entries[j], keyId, when)
      invariant found <==> exists j :: 0 <= j < i && Names(entries[j], keyId)
    {
      if entries[i].Obj? {
        var copy := entries[i].members;
        if Get(copy, "key_id") == Some(Str(keyId)) {
          copy := Put(copy, "revoked_at", Str(when));
          found := true;
        }
        updated := updated + [Obj(copy)];
      } else {
        updated := updated + [entries[i]];
      }
    }
    if !found {
      return Err(NoSuchKeyId(keyId));
    }
    assert updated == RevokeEntries(entries, keyId, when);
    var payload := Put(data, "keys", Arr(updated));
    payload := Pop(payload, SIGNATURE_FIELD);
    return Ok(Put(payload, SIGNATURE_FIELD, Str(p.Hash(payload))));
  }
}
