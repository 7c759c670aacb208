/** Registries survive being written and loaded, and revocation only ever marks the named key. */
module KeyRegistryTheorems {
  import opened Wrappers
  import opened Text
  import opened Json
  import opened CanonicalJson
  import opened Primitives
  import opened ArtifactIntegrity
  import opened KeyRegistry
  import opened Sorting
  import Base64

  // ---------------------------------------------------------------- purposes

  lemma LeastFirst(s: seq<string>)
    requires Ascending(Self, s) && s != []
    ensures Sorting.Insert(Self, s[0], s[1..]) == s
  {
    hide Less;
    assert [s[0]] + s[1..] == s;
    if |s| > 1 {
      assert s[1..][0] == s[1];
      LessTrichotomy(s[0], s[1]);
    }
  }

  lemma {:induction false} PurposesRoundTrip(p: Primitives, s: seq<string>)
    requires Ascending(Self, s)
    ensures PurposeSet(p, Strings(s)) == s
  {
    if s != [] {
      PurposesRoundTrip(p, s[1..]);
      TailMembers(Self, s);
      LeastFirst(s);
    }
  }

  // ---------------------------------------------------------------- one key

  /** What a written key reads back as: times floored to seconds, an empty note absent. */
  function Reloaded(key: TrustedKey): TrustedKey {
    key.(validFrom := FloorToSecond(key.validFrom),
         validUntil := FloorOption(key.validUntil),
         revokedAt := FloorOption(key.revokedAt),
         note := if key.note == Some("") then None else key.note)
  }

  function FloorOption(time: Option<Instant>): Option<Instant> {
    if time.None? then None else Some(FloorToSecond(time.value))
  }

  function PurposesField(key: TrustedKey): Option<Json> {
    if key.purposes == [] then None else Some(Arr(Strings(key.purposes)))
  }

  function NoteField(key: TrustedKey): Option<Json> {
    if key.note.None? || key.note.value == "" then None else Some(Str(key.note.value))
  }

  /** Looking a name up in a written key. */
  lemma KeyDictAt(p: Primitives, key: TrustedKey, name: string)
    ensures var required := OneOfFour(
              Member("key_id", Str(key.keyId)), Member("algorithm", Str(key.algorithm)),
              Member("public_key", Str(Base64.EncodeKeyBytes(key.publicKey))), Member("valid_from", Str(p.FormatUtc(key.validFrom))),
              name);
            Get(KeyToDict(p, key), name)
            == if required.Some? then required
               else if name == "valid_until" && key.validUntil.Some? then TimeField(p, key.validUntil)
               else if name == "revoked_at" && key.revokedAt.Some? then TimeField(p, key.revokedAt)
               else if name == "purposes" && PurposesField(key).Some? then PurposesField(key)
               else if name == "note" then NoteField(key) else None
  {
    var a, b := Member("key_id", Str(key.keyId)), Member("algorithm", Str(key.algorithm));
    var c := Member("public_key", Str(Base64.EncodeKeyBytes(key.publicKey)));
    var d := Member("valid_from", Str(p.FormatUtc(key.validFrom)));
    var until, revoked := Optional("valid_until", TimeField(p, key.validUntil)), Optional("revoked_at", TimeField(p, key.revokedAt));
    var purposes, note := Optional("purposes", PurposesField(key)), Optional("note", NoteField(key));
    FourFields(a, b, c, d, name);
    GetConcat([a, b, c, d], until + (revoked + (purposes + note)), name);
    GetConcat(until, revoked + (purposes + note), name);
    GetConcat(revoked, purposes + note, name);
    GetConcat(purposes, note, name);
  }

  lemma KeyDictFields(p: Primitives, key: TrustedKey)
    ensures Get(KeyToDict(p, key), "key_id") == Some(Str(key.keyId))
    ensures ReadEntry(KeyToDict(p, key)) == WrittenFields(p, key)
  {
    KeyNames();
    KeyDictAt(p, key, "key_id");
    KeyDictAt(p, key, "algorithm");
    KeyDictAt(p, key, "public_key");
    KeyDictAt(p, key, "valid_from");
    KeyDictAt(p, key, "valid_until");
    KeyDictAt(p, key, "revoked_at");
    KeyDictAt(p, key, "purposes");
    KeyDictAt(p, key, "note");
  }

  lemma KeyNames()
    ensures "key_id" != "algorithm" && "key_id" != "public_key" && "key_id" != "valid_from"
    ensures "algorithm" != "public_key" && "algorithm" != "valid_from" && "public_key" != "valid_from"
    ensures "valid_until" != "key_id" && "valid_until" != "algorithm" && "valid_until" != "public_key" && "valid_until" != "valid_from"
    ensures "valid_until" != "revoked_at" && "valid_until" != "purposes" && "valid_until" != "note"
    ensures "revoked_at" != "key_id" && "revoked_at" != "algorithm" && "revoked_at" != "public_key" && "revoked_at" != "valid_from"
    ensures "revoked_at" != "purposes" && "revoked_at" != "note"
    ensures "purposes" != "key_id" && "purposes" != "algorithm" && "purposes" != "public_key" && "purposes" != "valid_from"
    ensures "note" != "key_id" && "note" != "algorithm" && "note" != "public_key" && "note" != "valid_from" && "note" != "purposes"
  {
    assert |"key_id"| == 6 && |"algorithm"| == 9 && |"public_key"| == 10 && |"valid_from"| == 10;
    assert |"valid_until"| == 11 && |"revoked_at"| == 10 && |"purposes"| == 8 && |"note"| == 4;
    assert "public_key"[0] == 'p' && "valid_from"[0] == 'v' && "revoked_at"[0] == 'r';
  }

  /** The conditions under which a key survives being written and read. */
  predicate Loadable(key: TrustedKey) {
    key.keyId != "" && key.algorithm == "ed25519" && |key.publicKey| == 32
  }

  lemma PublicKeyReload(raw: seq<byte>)
    ensures Base64.DecodeKeyBytes(Base64.EncodeKeyBytes(raw), Some(32)).Ok? <==> |raw| == 32
    ensures |raw| == 32 ==> Base64.DecodeKeyBytes(Base64.EncodeKeyBytes(raw), Some(32)) == Ok(raw)
  {
    if raw != [] {
      Base64.KeyBytesRoundTrip(raw, None);
    }
  }

  /** The fields a written key holds. */
  function WrittenFields(p: Primitives, key: TrustedKey): RawKey {
    RawKey(Some(Str(key.algorithm)), PurposesField(key), Some(Str(Base64.EncodeKeyBytes(key.publicKey))),
           Some(Str(p.FormatUtc(key.validFrom))), TimeField(p, key.validUntil), TimeField(p, key.revokedAt), NoteField(key))
  }

  lemma TimeReload(p: Primitives, name: string, time: Option<Instant>)
    requires p.ClockRoundTrips()
    ensures LoadTime(p, TimeField(p, time), name) == Ok(FloorOption(time))
  {
    if time.Some? { FormatUtcRoundTrip(p, time.value); }
  }

  lemma ParsedFields(p: Primitives, key: TrustedKey)
    requires p.ClockRoundTrips() && Ascending(Self, key.purposes)
    ensures var parsed := ParseKey(p, WrittenFields(p, key));
            && parsed.purposes == Some(key.purposes)
            && parsed.publicKey == Some(Base64.DecodeKeyBytes(Base64.EncodeKeyBytes(key.publicKey), Some(32)))
            && parsed.validFrom == Some(Some(FloorToSecond(key.validFrom)))
            && parsed.validUntil == Ok(FloorOption(key.validUntil))
            && parsed.revokedAt == Ok(FloorOption(key.revokedAt))
  {
    hide Base64.DecodeKeyBytes, Base64.EncodeKeyBytes, Text.Strip;
    FormatUtcRoundTrip(p, key.validFrom);
    TimeReload(p, "valid_until", key.validUntil);
    TimeReload(p, "revoked_at", key.revokedAt);
    PurposesRoundTrip(p, key.purposes);
  }

  lemma ParsedTexts(p: Primitives, key: TrustedKey)
    ensures ParseKey(p, WrittenFields(p, key)).note == if key.note.None? then "" else key.note.value
    ensures ParseKey(p, WrittenFields(p, key)).algorithmKnown <==> key.algorithm == "ed25519"
  {
    hide Base64.DecodeKeyBytes, Base64.EncodeKeyBytes, Text.Strip;
  }

  lemma KeyRoundTrip(p: Primitives, key: TrustedKey)
    requires p.ClockRoundTrips() && Ascending(Self, key.purposes) && key.keyId != ""
    ensures LoadKey(p, WrittenFields(p, key), key.keyId).Ok? <==> Loadable(key)
    ensures Loadable(key) ==> LoadKey(p, WrittenFields(p, key), key.keyId) == Ok(Reloaded(key))
  {
    PublicKeyReload(key.publicKey);
    ParsedFields(p, key);
    ParsedTexts(p, key);
    AssembleWritten(ParseKey(p, WrittenFields(p, key)), key);
  }

  lemma AssembleWritten(parsed: ParsedKey, key: TrustedKey)
    requires parsed.purposes == Some(key.purposes) && parsed.validFrom == Some(Some(FloorToSecond(key.validFrom)))
    requires parsed.validUntil == Ok(FloorOption(key.validUntil)) && parsed.revokedAt == Ok(FloorOption(key.revokedAt))
    requires parsed.note == (if key.note.None? then "" else key.note.value)
    requires parsed.algorithmKnown <==> key.algorithm == "ed25519"
    requires parsed.publicKey.Some? && (parsed.publicKey.value.Ok? <==> |key.publicKey| == 32)
    requires |key.publicKey| == 32 ==> parsed.publicKey.value == Ok(key.publicKey)
    requires key.keyId != ""
    ensures AssembleKey(parsed, key.keyId).Ok? <==> Loadable(key)
    ensures Loadable(key) ==> AssembleKey(parsed, key.keyId) == Ok(Reloaded(key))
  {
  }

  // ---------------------------------------------------------------- registries

  predicate DistinctIds(keys: seq<TrustedKey>, seen: set<string>) {
    && (forall i :: 0 <= i < |keys| ==> keys[i].keyId !in seen)
    && (forall i, j :: 0 <= i < j < |keys| ==> keys[i].keyId != keys[j].keyId)
  }

  predicate AllLoadable(keys: seq<TrustedKey>) {
    forall i :: 0 <= i < |keys| ==> Loadable(keys[i])
  }

  function ReloadedAll(keys: seq<TrustedKey>): (r: seq<TrustedKey>)
    ensures |r| == |keys| && forall i :: 0 <= i < |keys| ==> r[i] == Reloaded(keys[i])
  {
    if keys == [] then [] else [Reloaded(keys[0])] + ReloadedAll(keys[1..])
  }

  lemma {:induction false} KeysRoundTrip(p: Primitives, keys: seq<TrustedKey>, seen: set<string>)
    requires p.ClockRoundTrips() && forall i :: 0 <= i < |keys| ==> Ascending(Self, keys[i].purposes)
    ensures var loaded := LoadKeys(p, KeysToJson(p, keys), seen);
            && (loaded.Ok? <==> DistinctIds(keys, seen) && AllLoadable(keys))
            && (loaded.Ok? ==> loaded.value == ReloadedAll(keys))
  {
    hide KeyToDict, LoadKey, ReadEntry, WrittenFields;
    if keys != [] {
      var key, rest := keys[0], keys[1..];
      KeyDictFields(p, key);
      assert p.StrField(KeyToDict(p, key), "key_id") == key.keyId;
      assert KeysToJson(p, keys)[1..] == KeysToJson(p, rest);
      assert AllLoadable(keys) <==> Loadable(key) && AllLoadable(rest) by {
        assert keys == [key] + rest;
      }
      if key.keyId != "" && key.keyId !in seen {
        KeyRoundTrip(p, key);
        KeysRoundTrip(p, rest, seen + {key.keyId});
        DistinctSplit(keys, seen);
      }
    }
  }

  lemma DistinctSplit(keys: seq<TrustedKey>, seen: set<string>)
    requires keys != []
    ensures DistinctIds(keys, seen) <==> keys[0].keyId !in seen && DistinctIds(keys[1..], seen + {keys[0].keyId})
  {
    var rest := keys[1..];
    assert forall i :: 0 <= i < |rest| ==> rest[i] == keys[i + 1];
    if keys[0].keyId !in seen && DistinctIds(rest, seen + {keys[0].keyId}) {
      forall i | 0 <= i < |keys| ensures keys[i].keyId !in seen {
        assert i > 0 ==> rest[i - 1] == keys[i];
      }
      forall i, j | 0 <= i < j < |keys| ensures keys[i].keyId != keys[j].keyId {
        assert rest[j - 1] == keys[j] && (i > 0 ==> rest[i - 1] == keys[i]);
      }
    }
  }

  lemma RegistryAt(p: Primitives, keys: seq<TrustedKey>, registryId: Option<string>, name: string)
    requires name != SIGNATURE_FIELD
    ensures var required := OneOfFour(
              Member("schema_version", Str("v0")), Member("artifact_type", Str(REGISTRY_TYPE)),
              Member(CANONICALIZATION_FIELD, Str(CANONICALIZATION_VERSION)), Member("keys", Arr(KeysToJson(p, keys))), name);
            Get(BuildRegistry(p, keys, registryId), name)
            == if required.Some? then required
               else if name == "registry_id" && registryId.Some? && registryId.value != "" then Some(Str(registryId.value)) else None
  {
    var a, b := Member("schema_version", Str("v0")), Member("artifact_type", Str(REGISTRY_TYPE));
    var c, d := Member(CANONICALIZATION_FIELD, Str(CANONICALIZATION_VERSION)), Member("keys", Arr(KeysToJson(p, keys)));
    var tail := Optional("registry_id", if registryId.None? || registryId.value == "" then None else Some(Str(registryId.value)));
    FourFields(a, b, c, d, name);
    GetConcat([a, b, c, d], tail, name);
    GetPut([a, b, c, d] + tail, SIGNATURE_FIELD, Str(p.Hash([a, b, c, d] + tail)), name);
  }

  lemma RegistryNames()
    ensures "artifact_type" !in {"schema_version", SIGNATURE_FIELD, "keys", "registry_id", CANONICALIZATION_FIELD}
    ensures "keys" !in {"schema_version", SIGNATURE_FIELD, "registry_id", CANONICALIZATION_FIELD}
    ensures "registry_id" !in {"schema_version", SIGNATURE_FIELD, CANONICALIZATION_FIELD}
  {
    assert |"schema_version"| == 14 && |"artifact_type"| == 13 && |CANONICALIZATION_FIELD| == 24 && |"keys"| == 4;
    assert |"registry_id"| == 11 && |SIGNATURE_FIELD| == 19;
  }

  lemma LoadFromFields(p: Primitives, d: Dict, entries: seq<Json>)
    requires AbsentOr(Get(d, "artifact_type"), REGISTRY_TYPE) && Get(d, "keys") == Some(Arr(entries))
    ensures LoadRegistry(p, d).Ok? <==> LoadKeys(p, entries, {}).Ok?
    ensures LoadRegistry(p, d).Ok? ==>
              LoadRegistry(p, d).value == Registry(LoadKeys(p, entries, {}).value,
                                                   if p.StrField(d, "registry_id") == "" then None else Some(p.StrField(d, "registry_id")))
  {
  }

  /** Loading a written registry succeeds exactly for distinct non-empty ids and 32-byte ed25519 keys. */
  lemma RegistryLoads(p: Primitives, keys: seq<TrustedKey>, registryId: Option<string>)
    requires p.ClockRoundTrips() && forall i :: 0 <= i < |keys| ==> Ascending(Self, keys[i].purposes)
    ensures LoadRegistry(p, BuildRegistry(p, keys, registryId)).Ok? <==> DistinctIds(keys, {}) && AllLoadable(keys)
  {
    var d := BuildRegistry(p, keys, registryId);
    RegistryNames();
    RegistryAt(p, keys, registryId, "artifact_type");
    RegistryAt(p, keys, registryId, "keys");
    LoadFromFields(p, d, KeysToJson(p, keys));
    KeysRoundTrip(p, keys, {});
  }

  /** Such a registry loads as the keys it was written from, times floored to seconds, empty notes and
      an empty registry id absent. */
  lemma {:induction false} RegistryRoundTrip(p: Primitives, keys: seq<TrustedKey>, registryId: Option<string>)
    requires p.ClockRoundTrips() && forall i :: 0 <= i < |keys| ==> Ascending(Self, keys[i].purposes)
    requires DistinctIds(keys, {}) && AllLoadable(keys)
    ensures LoadRegistry(p, BuildRegistry(p, keys, registryId))
         == Ok(Registry(ReloadedAll(keys), if registryId == Some("") then None else registryId))
  {
    var d := BuildRegistry(p, keys, registryId);
    RegistryLoads(p, keys, registryId);
    RegistryNames();
    RegistryAt(p, keys, registryId, "artifact_type");
    RegistryAt(p, keys, registryId, "keys");
    LoadFromFields(p, d, KeysToJson(p, keys));
    KeysRoundTrip(p, keys, {});
    WrittenRegistryId(p, keys, registryId);
  }

  lemma WrittenRegistryId(p: Primitives, keys: seq<TrustedKey>, registryId: Option<string>)
    ensures p.StrField(BuildRegistry(p, keys, registryId), "registry_id") == if registryId.None? then "" else registryId.value
  {
    RegistryNames();
    RegistryAt(p, keys, registryId, "registry_id");
  }

  // ---------------------------------------------------------------- revocation

  /** The recorded digest is the registry's own. */
  predicate SelfConsistent(p: Primitives, data: Dict) {
    Get(data, SIGNATURE_FIELD) == Some(Str(p.Hash(data)))
  }

  /** A run of revocation calls; a call that raises leaves the registry as it was. */
  function RevokeAll(p: Primitives, data: Dict, calls: seq<(string, string)>): Dict {
    if calls == [] then data
    else
      var last := calls[|calls| - 1];
      var before := RevokeAll(p, data, calls[..|calls| - 1]);
      match RevokeKey(p, before, last.0, last.1)
      case Ok(after) => after
      case Err(_) => before
  }

  function Entries(data: Dict): seq<Json> {
    match Get(data, "keys")
    case Some(Arr(items)) => items
    case _ => []
  }

  lemma RevokeOnce(p: Primitives, data: Dict, keyId: string, when: string)
    requires RevokeKey(p, data, keyId, when).Ok?
    ensures var after := RevokeKey(p, data, keyId, when).value;
            && SelfConsistent(p, after)
            && Get(after, "keys") == Some(Arr(RevokeEntries(Entries(data), keyId, when)))
            && forall name :: name != "keys" && name != SIGNATURE_FIELD ==> Get(after, name) == Get(data, name)
  {
    var revoked := RevokeEntries(Entries(data), keyId, when);
    var put := Put(data, "keys", Arr(revoked));
    var payload := Pop(put, SIGNATURE_FIELD);
    var after := Put(payload, SIGNATURE_FIELD, Str(p.Hash(payload)));
    RegistryNames();
    forall name ensures Get(after, name) == if name == SIGNATURE_FIELD then Some(Str(p.Hash(payload)))
                                            else if name == "keys" then Some(Arr(revoked)) else Get(data, name)
    {
      GetPut(data, "keys", Arr(revoked), name);
      GetWithout(put, {SIGNATURE_FIELD}, name);
      GetPut(payload, SIGNATURE_FIELD, Str(p.Hash(payload)), name);
    }
    WithoutPut(payload, HASH_EXCLUDED_FIELDS, SIGNATURE_FIELD, Str(p.Hash(payload)));
    assert StripExcluded(after) == StripExcluded(payload);
  }

  /** The revocation text the last call naming an entry wrote. */
  function LastText(calls: seq<(string, string)>, entry: Json): (text: Option<string>)
    ensures text.Some? ==> entry.Obj?
    ensures text.None? <==> forall c :: c in calls ==> !Names(entry, c.0)
  {
    if calls == [] then None
    else
      var last := calls[|calls| - 1];
      assert calls == calls[..|calls| - 1] + [last];
      if Names(entry, last.0) then Some(last.1) else LastText(calls[..|calls| - 1], entry)
  }

  /** An entry after a run: as it was, or with the last revocation text naming it. */
  function AfterRun(entry: Json, calls: seq<(string, string)>): Json {
    match LastText(calls, entry)
    case None => entry
    case Some(text) => Obj(Put(entry.members, "revoked_at", Str(text)))
  }

  lemma RevocationKeepsName(members: Dict, text: string, keyId: string)
    ensures Names(Obj(Put(members, "revoked_at", Str(text))), keyId) <==> Names(Obj(members), keyId)
  {
    KeyNames();
    GetPut(members, "revoked_at", Str(text), "key_id");
  }

  lemma RunStep(entry: Json, early: seq<(string, string)>, keyId: string, when: string)
    ensures RevokeEntry(AfterRun(entry, early), keyId, when) == AfterRun(entry, early + [(keyId, when)])
  {
    var calls := early + [(keyId, when)];
    assert calls[..|calls| - 1] == early && calls[|calls| - 1] == (keyId, when);
    if LastText(early, entry).Some? {
      var text := LastText(early, entry).value;
      RevocationKeepsName(entry.members, text, keyId);
      PutPresent(entry.members, "revoked_at", Str(text), Str(when));
    }
  }

  /** Over every run of revocations: as many entries, in order, each as it was or with the text of the last
      call naming it; other fields are unchanged, and unless no call found its key the digest is the
      registry's own, whatever it was before. */
  lemma {:induction false} RevocationRun(p: Primitives, data: Dict, calls: seq<(string, string)>)
    ensures var after := RevokeAll(p, data, calls);
            && (SelfConsistent(p, after) || after == data)
            && |Entries(after)| == |Entries(data)|
            && (forall i :: 0 <= i < |Entries(data)| ==> Entries(after)[i] == AfterRun(Entries(data)[i], calls))
            && (forall name :: name != "keys" && name != SIGNATURE_FIELD ==> Get(after, name) == Get(data, name))
    decreases |calls|
  {
    hide RevokeEntry, AfterRun, SelfConsistent, Names;
    if calls == [] {
      NothingRevoked(data);
    } else {
      var early, last := calls[..|calls| - 1], calls[|calls| - 1];
      var before := RevokeAll(p, data, early);
      RevocationRun(p, data, early);
      assert calls == early + [(last.0, last.1)];
      forall i | 0 <= i < |Entries(data)|
        ensures RevokeEntry(Entries(before)[i], last.0, last.1) == AfterRun(Entries(data)[i], calls)
      {
        RunStep(Entries(data)[i], early, last.0, last.1);
      }
      if RevokeKey(p, before, last.0, last.1).Ok? {
        RevokeOnce(p, before, last.0, last.1);
      } else {
        RefusedRevocation(p, before, last.0, last.1);
      }
    }
  }

  lemma NothingRevoked(data: Dict)
    ensures forall i :: 0 <= i < |Entries(data)| ==> AfterRun(Entries(data)[i], []) == Entries(data)[i]
  {
    hide Names;
  }

  /** A call that raises would have changed no entry. */
  lemma RefusedRevocation(p: Primitives, data: Dict, keyId: string, when: string)
    requires RevokeKey(p, data, keyId, when).Err?
    ensures forall i :: 0 <= i < |Entries(data)| ==> RevokeEntry(Entries(data)[i], keyId, when) == Entries(data)[i]
  {
    hide Names;
  }

  /** Marking an entry revoked changes one field of it. */
  lemma MarkedEntry(p: Primitives, entry: Dict, when: Json)
    ensures ReadEntry(Put(entry, "revoked_at", when)) == ReadEntry(entry).(revokedAt := Some(when))
    ensures p.StrField(Put(entry, "revoked_at", when), "key_id") == p.StrField(entry, "key_id")
  {
    KeyNames();
    GetPut(entry, "revoked_at", when, "key_id");
    GetPut(entry, "revoked_at", when, "algorithm");
    GetPut(entry, "revoked_at", when, "purposes");
    GetPut(entry, "revoked_at", when, "public_key");
    GetPut(entry, "revoked_at", when, "valid_from");
    GetPut(entry, "revoked_at", when, "valid_until");
    GetPut(entry, "revoked_at", when, "revoked_at");
    GetPut(entry, "revoked_at", when, "note");
  }

  lemma ParseRevoked(p: Primitives, raw: RawKey, text: string)
    ensures ParseKey(p, raw.(revokedAt := Some(Str(text)))) ==
              ParseKey(p, raw).(revokedAt := if p.ParseUtc(text).None? then Err(BadTime("revoked_at")) else Ok(p.ParseUtc(text)))
  {
  }

  /** What a revocation text does to the key a verifier loads: the key loads exactly when the text is a
      time, and then it is revoked at that time. */
  lemma RevokedKeyLoads(p: Primitives, entry: Dict, keyId: string, text: string)
    requires LoadKey(p, ReadEntry(entry), keyId).Ok?
    ensures var after := Put(entry, "revoked_at", Str(text));
            && (LoadKey(p, ReadEntry(after), keyId).Ok? <==> p.ParseUtc(text).Some?)
            && (p.ParseUtc(text).Some? ==>
                  LoadKey(p, ReadEntry(after), keyId) == Ok(LoadKey(p, ReadEntry(entry), keyId).value.(revokedAt := p.ParseUtc(text))))
            && p.StrField(after, "key_id") == p.StrField(entry, "key_id")
  {
    hide Base64.DecodeKeyBytes, ParseKey, Text.Strip;
    MarkedEntry(p, entry, Str(text));
    ParseRevoked(p, ReadEntry(entry), text);
  }

  /** A loaded key after a run of calls. */
  function KeyAfter(p: Primitives, key: TrustedKey, entry: Json, calls: seq<(string, string)>): TrustedKey {
    match LastText(calls, entry)
    case None => key
    case Some(text) => key.(revokedAt := p.ParseUtc(text))
  }

  /** The last revocation text of an entry, if any, is a time. */
  predicate TextReadable(p: Primitives, entry: Json, calls: seq<(string, string)>) {
    LastText(calls, entry).Some? ==> p.ParseUtc(LastText(calls, entry).value).Some?
  }

  lemma AfterRunLoads(p: Primitives, entry: Json, keyId: string, calls: seq<(string, string)>)
    requires entry.Obj? && LoadKey(p, ReadEntry(entry.members), keyId).Ok?
    ensures var after := AfterRun(entry, calls);
            && after.Obj? && p.StrField(after.members, "key_id") == p.StrField(entry.members, "key_id")
            && (LoadKey(p, ReadEntry(after.members), keyId).Ok? <==> TextReadable(p, entry, calls))
            && (TextReadable(p, entry, calls) ==>
                  LoadKey(p, ReadEntry(after.members), keyId)
                    == Ok(KeyAfter(p, LoadKey(p, ReadEntry(entry.members), keyId).value, entry, calls)))
  {
    hide LoadKey, ReadEntry, Put, Text.Strip;
    match LastText(calls, entry)
    case None =>
    case Some(text) => RevokedKeyLoads(p, entry.members, keyId, text);
  }

  /** The keys after a run load exactly when every entry's last text is a time, and then each is the key
      from before, revoked at that time if a call named it. */
  lemma {:induction false} KeysAfterRunLoad(p: Primitives, entries: seq<Json>, after: seq<Json>, seen: set<string>, calls: seq<(string, string)>)
    requires LoadKeys(p, entries, seen).Ok? && |after| == |entries|
    requires forall i :: 0 <= i < |entries| ==> after[i] == AfterRun(entries[i], calls)
    ensures |LoadKeys(p, entries, seen).value| == |entries|
    ensures LoadKeys(p, after, seen).Ok? <==> forall i :: 0 <= i < |entries| ==> TextReadable(p, entries[i], calls)
    ensures LoadKeys(p, after, seen).Ok? ==>
              && |LoadKeys(p, after, seen).value| == |entries|
              && forall i :: 0 <= i < |entries| ==>
                   LoadKeys(p, after, seen).value[i] == KeyAfter(p, LoadKeys(p, entries, seen).value[i], entries[i], calls)
  {
    hide LoadKey, ReadEntry, TextReadable, KeyAfter, AfterRun;
    if entries != [] {
      var id := p.StrField(entries[0].members, "key_id");
      AfterRunLoads(p, entries[0], id, calls);
      KeysAfterRunLoad(p, entries[1..], after[1..], seen + {id}, calls);
      assert (forall i :: 0 <= i < |entries| ==> TextReadable(p, entries[i], calls)) <==>
             TextReadable(p, entries[0], calls) && forall i :: 0 <= i < |entries[1..]| ==> TextReadable(p, entries[1..][i], calls) by {
        assert entries == [entries[0]] + entries[1..];
      }
    }
  }

  lemma LoadedShape(p: Primitives, d: Dict)
    requires LoadRegistry(p, d).Ok?
    ensures AbsentOr(Get(d, "artifact_type"), REGISTRY_TYPE) && Get(d, "keys") == Some(Arr(Entries(d)))
    ensures LoadKeys(p, Entries(d), {}).Ok?
  {
  }

  /** A registry that loads, after every run of revocations: it still loads exactly when the last text
      naming each entry is a time, with the same id and the same keys in order, each revoked at the time of
      the last call naming it and otherwise as before. */
  lemma RegistryAfterRunLoads(p: Primitives, data: Dict, calls: seq<(string, string)>)
    requires LoadRegistry(p, data).Ok?
    ensures var after, before := LoadRegistry(p, RevokeAll(p, data, calls)), LoadRegistry(p, data).value;
            && |before.keys| == |Entries(data)|
            && (after.Ok? <==> forall i :: 0 <= i < |Entries(data)| ==> TextReadable(p, Entries(data)[i], calls))
            && (after.Ok? ==>
                  && after.value.registryId == before.registryId && |after.value.keys| == |before.keys|
                  && forall i :: 0 <= i < |before.keys| ==>
                       after.value.keys[i] == KeyAfter(p, before.keys[i], Entries(data)[i], calls))
  {
    hide LoadKeys, RevokeAll, LoadRegistry, TextReadable, KeyAfter, AfterRun, Entries;
    var after := RevokeAll(p, data, calls);
    LoadedShape(p, data);
    RevocationRun(p, data, calls);
    KeysAfterRunLoad(p, Entries(data), Entries(after), {}, calls);
    RegistryNames();
    KeysStayList(p, data, calls);
    LoadFromFields(p, data, Entries(data));
    LoadFromFields(p, after, Entries(after));
  }

  lemma {:induction false} KeysStayList(p: Primitives, data: Dict, calls: seq<(string, string)>)
    requires Get(data, "keys") == Some(Arr(Entries(data)))
    ensures Get(RevokeAll(p, data, calls), "keys") == Some(Arr(Entries(RevokeAll(p, data, calls))))
    decreases |calls|
  {
    hide RevokeEntries;
    if calls != [] {
      var early, last := calls[..|calls| - 1], calls[|calls| - 1];
      KeysStayList(p, data, early);
      if RevokeKey(p, RevokeAll(p, data, early), last.0, last.1).Ok? {
        RevokeOnce(p, RevokeAll(p, data, early), last.0, last.1);
      }
    }
  }

  /** Revocation times written from a clock are always readable, so such a run never stops a registry from
      loading. */
  lemma TimedTextsReadable(p: Primitives, entry: Json, calls: seq<(string, string)>)
    requires p.ClockRoundTrips() && forall c :: c in calls ==> exists t: Instant :: c.1 == p.FormatUtc(t)
    ensures TextReadable(p, entry, calls)
  {
    hide Names;
    if LastText(calls, entry).Some? {
      LastTextOfCall(calls, entry);
      var c :| c in calls && c.1 == LastText(calls, entry).value;
      var t: Instant :| c.1 == p.FormatUtc(t);
      FormatUtcRoundTrip(p, t);
    }
  }

  lemma {:induction false} LastTextOfCall(calls: seq<(string, string)>, entry: Json)
    requires LastText(calls, entry).Some?
    ensures exists c :: c in calls && Names(entry, c.0) && c.1 == LastText(calls, entry).value
    decreases |calls|
  {
    hide Names;
    var last := calls[|calls| - 1];
    if Names(entry, last.0) {
      assert last in calls;
    } else {
      LastTextOfCall(calls[..|calls| - 1], entry);
      var c :| c in calls[..|calls| - 1] && Names(entry, c.0) && c.1 == LastText(calls, entry).value;
      assert c in calls;
    }
  }

  // ---------------------------------------------------------------- validity

  /** A revocation at `r` pushes no earlier one later inside the key's window. */
  predicate NotPushedLater(key: TrustedKey, r: Instant) {
    || key.revokedAt.None?
    || r <= key.revokedAt.value
    || r <= key.validFrom
    || (key.validUntil.Some? && (key.validUntil.value < key.revokedAt.value || key.validUntil.value < key.validFrom))
  }

  ghost predicate InvalidFrom(key: TrustedKey, r: Instant) {
    forall t: Instant :: t >= r ==> !key.IsValidAt(t)
  }

  ghost predicate Shrinks(before: TrustedKey, after: TrustedKey) {
    forall t: Instant :: after.IsValidAt(t) ==> before.IsValidAt(t)
  }

  /** Revoking at `r` leaves no valid time from `r` on. It never adds a valid time exactly when it does
      not push an earlier revocation later inside the validity window. */
  lemma RevocationShrinksValidity(key: TrustedKey, r: Instant)
    ensures InvalidFrom(key.(revokedAt := Some(r)), r)
    ensures Shrinks(key, key.(revokedAt := Some(r))) <==> NotPushedLater(key, r)
  {
    var after := key.(revokedAt := Some(r));
    if key.revokedAt.Some? {
      var prior := key.revokedAt.value;
      var t: Instant := if key.validFrom < prior then prior else key.validFrom;
      if !NotPushedLater(key, r) {
        assert after.IsValidAt(t) && !key.IsValidAt(t);
      }
    }
  }

  /** Over a whole run, the valid times of a key shrink exactly when no call named it or the last revocation
      time does not push the one before the run later inside the window. */
  lemma RunShrinksValidity(p: Primitives, key: TrustedKey, entry: Json, calls: seq<(string, string)>)
    requires TextReadable(p, entry, calls)
    ensures Shrinks(key, KeyAfter(p, key, entry, calls)) <==>
              LastText(calls, entry).Some? ==> NotPushedLater(key, p.ParseUtc(LastText(calls, entry).value).value)
  {
    hide LastText, NotPushedLater;
    if LastText(calls, entry).Some? {
      RevocationShrinksValidity(key, p.ParseUtc(LastText(calls, entry).value).value);
    } else {
      assert KeyAfter(p, key, entry, calls) == key;
    }
  }

  /** Call `j` names the entry, and its text is a time. */
  predicate RevokesAt(p: Primitives, entry: Json, calls: seq<(string, string)>, j: nat, r: Instant) {
    j < |calls| && Names(entry, calls[j].0) && p.ParseUtc(calls[j].1) == Some(r)
  }

  /** A call that does not name the entry, or gives a time not after `r`. */
  predicate NotAfter(p: Primitives, entry: Json, call: (string, string), r: Instant) {
    Names(entry, call.0) ==> p.ParseUtc(call.1).Some? && p.ParseUtc(call.1).value <= r
  }

  /** A key some call of the run revoked at `r` is invalid at every time from `r` on, when no later call
      naming it has a later time. */
  lemma {:induction false} RevokedStaysInvalid(p: Primitives, key: TrustedKey, entry: Json, calls: seq<(string, string)>, j: nat, r: Instant)
    requires RevokesAt(p, entry, calls, j, r)
    requires forall k :: j < k < |calls| ==> NotAfter(p, entry, calls[k], r)
    ensures TextReadable(p, entry, calls)
    ensures InvalidFrom(KeyAfter(p, key, entry, calls), r)
    decreases |calls|
  {
    hide *;
    RevokingCall(p, entry, calls, j, r);
    var n := |calls| - 1;
    if Names(entry, calls[n].0) {
      LastCallRevokes(p, key, entry, calls, j, r);
    } else {
      EarlierCalls(p, entry, calls, j, r);
      RevokedStaysInvalid(p, key, entry, calls[..n], j, r);
      UnnamedLast(p, key, entry, calls);
    }
  }

  /** In the registry a whole run leads to, the same holds of the loaded key. */
  lemma RevokedInFinalRegistry(p: Primitives, data: Dict, calls: seq<(string, string)>, i: nat, j: nat, r: Instant)
    requires LoadRegistry(p, data).Ok? && LoadRegistry(p, RevokeAll(p, data, calls)).Ok?
    requires i < |Entries(data)| && RevokesAt(p, Entries(data)[i], calls, j, r)
    requires forall k :: j < k < |calls| ==> NotAfter(p, Entries(data)[i], calls[k], r)
    ensures var after := LoadRegistry(p, RevokeAll(p, data, calls)).value;
            |after.keys| == |Entries(data)| && InvalidFrom(after.keys[i], r)
  {
    hide *;
    RegistryAfterRunLoads(p, data, calls);
    RevokedStaysInvalid(p, LoadRegistry(p, data).value.keys[i], Entries(data)[i], calls, j, r);
  }

  lemma RevokingCall(p: Primitives, entry: Json, calls: seq<(string, string)>, j: nat, r: Instant)
    requires RevokesAt(p, entry, calls, j, r)
    ensures j < |calls| && Names(entry, calls[j].0)
  {
    hide Names, Text.Strip;
  }

  lemma LastCallRevokes(p: Primitives, key: TrustedKey, entry: Json, calls: seq<(string, string)>, j: nat, r: Instant)
    requires RevokesAt(p, entry, calls, j, r) && Names(entry, calls[|calls| - 1].0)
    requires forall k :: j < k < |calls| ==> NotAfter(p, entry, calls[k], r)
    ensures TextReadable(p, entry, calls) && InvalidFrom(KeyAfter(p, key, entry, calls), r)
  {
    hide Names, LastText, InvalidFrom, Text.Strip;
    var n := |calls| - 1;
    assert j < n ==> NotAfter(p, entry, calls[n], r);
    LastTextStep(calls, entry);
    var last := p.ParseUtc(calls[n].1).value;
    RevocationShrinksValidity(key, last);
    InvalidFromLater(key.(revokedAt := Some(last)), last, r);
  }

  lemma EarlierCalls(p: Primitives, entry: Json, calls: seq<(string, string)>, j: nat, r: Instant)
    requires RevokesAt(p, entry, calls, j, r) && j < |calls| - 1
    requires forall k :: j < k < |calls| ==> NotAfter(p, entry, calls[k], r)
    ensures var early := calls[..|calls| - 1];
            RevokesAt(p, entry, early, j, r) && forall k :: j < k < |early| ==> NotAfter(p, entry, early[k], r)
  {
    hide Names, NotAfter, Text.Strip;
    var early := calls[..|calls| - 1];
    assert forall k :: 0 <= k < |early| ==> early[k] == calls[k];
  }

  lemma UnnamedLast(p: Primitives, key: TrustedKey, entry: Json, calls: seq<(string, string)>)
    requires calls != [] && !Names(entry, calls[|calls| - 1].0)
    ensures TextReadable(p, entry, calls) <==> TextReadable(p, entry, calls[..|calls| - 1])
    ensures KeyAfter(p, key, entry, calls) == KeyAfter(p, key, entry, calls[..|calls| - 1])
  {
    hide Names, LastText;
    LastTextStep(calls, entry);
  }

  lemma InvalidFromLater(key: TrustedKey, early: Instant, late: Instant)
    requires InvalidFrom(key, early) && early <= late
    ensures InvalidFrom(key, late)
  {
  }

  lemma LastTextStep(calls: seq<(string, string)>, entry: Json)
    requires calls != []
    ensures var n := |calls| - 1;
            LastText(calls, entry) == if Names(entry, calls[n].0) then Some(calls[n].1) else LastText(calls[..n], entry)
  {
    hide Names;
  }

  /** Call `j` of a run does not push the revocation the key then has later inside its window. */
  predicate StepKeeps(p: Primitives, key: TrustedKey, entry: Json, calls: seq<(string, string)>, j: nat)
    requires j < |calls|
  {
    Names(entry, calls[j].0) ==>
      p.ParseUtc(calls[j].1).Some? && NotPushedLater(KeyAfter(p, key, entry, calls[..j]), p.ParseUtc(calls[j].1).value)
  }

  /** At every point of a run whose calls push no revocation later, the valid times of a key are within
      those it had at every earlier point. */
  lemma {:induction false} RunNeverRevives(p: Primitives, key: TrustedKey, entry: Json, calls: seq<(string, string)>, m: nat, n: nat)
    requires m <= n <= |calls| && forall j :: m <= j < n ==> StepKeeps(p, key, entry, calls, j)
    ensures Shrinks(KeyAfter(p, key, entry, calls[..m]), KeyAfter(p, key, entry, calls[..n]))
    decreases n
  {
    hide Names, NotPushedLater;
    if m < n {
      RunNeverRevives(p, key, entry, calls, m, n - 1);
      assert StepKeeps(p, key, entry, calls, n - 1);
      assert calls[..n][..n - 1] == calls[..n - 1] && calls[..n][n - 1] == calls[n - 1];
      var before := KeyAfter(p, key, entry, calls[..n - 1]);
      if Names(entry, calls[n - 1].0) {
        var r := p.ParseUtc(calls[n - 1].1).value;
        RevocationShrinksValidity(before, r);
        assert KeyAfter(p, key, entry, calls[..n]) == before.(revokedAt := Some(r));
      }
    }
  }

  // ---------------------------------------------------------------- what loads, spelt out

  /** Absent or null is no time; a text is the time it reads as. */
  ghost predicate TimeRead(p: Primitives, raw: Option<Json>, time: Option<Instant>) {
    if raw == None || raw == Some(Null) then time == None
    else exists text :: raw == Some(Str(text)) && time == p.ParseUtc(text) && time.Some?
  }

  /** The purposes are the texts of the list, sorted and once each; a value that counts as false is none. */
  ghost predicate PurposesRead(p: Primitives, raw: Option<Json>, purposes: seq<string>) {
    match raw
    case Some(Arr(items)) => Ascending(Self, purposes) && AsSet(purposes) == set i | 0 <= i < |items| :: p.StrOf(items[i])
    case None => purposes == []
    case Some(v) => Falsy(v) && purposes == []
  }

  /** The key an entry of a registry holds. */
  ghost predicate EntryHolds(p: Primitives, item: Json, key: TrustedKey) {
    && item.Obj?
    && var m := item.members;
    && key.keyId == p.StrField(m, "key_id") && key.keyId != ""
    && key.algorithm == "ed25519" && Get(m, "algorithm") in {None, Some(Null), Some(Str("ed25519"))}
    && Get(m, "public_key").Some? && Base64.DecodeKeyBytes(p.StrOf(Get(m, "public_key").value), Some(32)) == Ok(key.publicKey)
    && Get(m, "valid_from").Some? && p.ParseUtc(p.StrOf(Get(m, "valid_from").value)) == Some(key.validFrom)
    && TimeRead(p, Get(m, "valid_until"), key.validUntil) && TimeRead(p, Get(m, "revoked_at"), key.revokedAt)
    && PurposesRead(p, Get(m, "purposes"), key.purposes)
    && key.note == if p.StrField(m, "note") == "" then None else Some(p.StrField(m, "note"))
  }

  lemma {:induction false} PurposeSetForm(p: Primitives, items: seq<Json>)
    ensures Ascending(Self, PurposeSet(p, items)) && AsSet(PurposeSet(p, items)) == set i | 0 <= i < |items| :: p.StrOf(items[i])
  {
    hide Less, Ascending, Add;
    if items == [] {
      EmptyAscending();
    } else {
      PurposeSetForm(p, items[1..]);
      AddAscending(p.StrOf(items[0]), PurposeSet(p, items[1..]));
      assert items == [items[0]] + items[1..];
      var all := set i | 0 <= i < |items| :: p.StrOf(items[i]);
      forall x | x in all ensures x in (set i | 0 <= i < |items[1..]| :: p.StrOf(items[1..][i])) + {p.StrOf(items[0])} {
        var i :| 0 <= i < |items| && p.StrOf(items[i]) == x;
        assert i > 0 ==> items[1..][i - 1] == items[i];
      }
    }
  }

  lemma PurposesMean(p: Primitives, raw: Option<Json>, purposes: seq<string>)
    ensures LoadPurposes(p, raw) == Some(purposes) <==> PurposesRead(p, raw, purposes)
  {
    hide Ascending, PurposeSet, AsSet, Falsy;
    match raw
    case Some(Arr(items)) =>
      PurposeSetForm(p, items);
      if PurposesRead(p, raw, purposes) {
        SetUnique(purposes, PurposeSet(p, items));
      }
    case _ =>
  }

  lemma TimeMeans(p: Primitives, raw: Option<Json>, name: string, time: Option<Instant>)
    ensures LoadTime(p, raw, name) == Ok(time) <==> TimeRead(p, raw, time)
  {
    hide Text.Strip;
  }

  lemma EntryMeans(p: Primitives, m: Dict, key: TrustedKey)
    ensures p.StrField(m, "key_id") != "" && LoadKey(p, ReadEntry(m), p.StrField(m, "key_id")) == Ok(key) <==> EntryHolds(p, Obj(m), key)
  {
    PurposesMean(p, Get(m, "purposes"), key.purposes);
    TimeMeans(p, Get(m, "valid_until"), "valid_until", key.validUntil);
    TimeMeans(p, Get(m, "revoked_at"), "revoked_at", key.revokedAt);
    hide Get, TimeRead, PurposesRead, LoadTime, LoadPurposes, Base64.DecodeKeyBytes, Text.Strip, Falsy;
    var keyId := p.StrField(m, "key_id");
    var parsed := ParseKey(p, ReadEntry(m));
    AssembledMeans(parsed, keyId, key);
    assert parsed.algorithmKnown <==> Get(m, "algorithm") in {None, Some(Null), Some(Str("ed25519"))};
    assert parsed.purposes == Some(key.purposes) <==> PurposesRead(p, Get(m, "purposes"), key.purposes);
    assert parsed.publicKey == Some(Ok(key.publicKey)) <==> Get(m, "public_key").Some? && Base64.DecodeKeyBytes(p.StrOf(Get(m, "public_key").value), Some(32)) == Ok(key.publicKey);
    assert parsed.validFrom == Some(Some(key.validFrom)) <==> Get(m, "valid_from").Some? && p.ParseUtc(p.StrOf(Get(m, "valid_from").value)) == Some(key.validFrom);
    assert parsed.validUntil == Ok(key.validUntil) <==> TimeRead(p, Get(m, "valid_until"), key.validUntil);
    assert parsed.revokedAt == Ok(key.revokedAt) <==> TimeRead(p, Get(m, "revoked_at"), key.revokedAt);
    assert parsed.note == p.StrField(m, "note");
  }

  lemma AssembledMeans(parsed: ParsedKey, keyId: string, key: TrustedKey)
    ensures AssembleKey(parsed, keyId) == Ok(key) <==>
              && key.keyId == keyId && key.algorithm == "ed25519" && parsed.algorithmKnown && parsed.purposes == Some(key.purposes)
              && parsed.publicKey == Some(Ok(key.publicKey)) && parsed.validFrom == Some(Some(key.validFrom))
              && parsed.validUntil == Ok(key.validUntil) && parsed.revokedAt == Ok(key.revokedAt)
              && key.note == if parsed.note == "" then None else Some(parsed.note)
  {
  }

  /** The entries hold the keys, in order, under ids not taken and not repeated. */
  ghost predicate EntriesHold(p: Primitives, entries: seq<Json>, keys: seq<TrustedKey>, seen: set<string>) {
    && |keys| == |entries|
    && (forall i :: 0 <= i < |keys| ==> EntryHolds(p, entries[i], keys[i]) && keys[i].keyId !in seen)
    && forall i, j :: 0 <= i < j < |keys| ==> keys[i].keyId != keys[j].keyId
  }

  lemma {:induction false} KeysMean(p: Primitives, entries: seq<Json>, keys: seq<TrustedKey>, seen: set<string>)
    ensures LoadKeys(p, entries, seen) == Ok(keys) <==> EntriesHold(p, entries, keys, seen)
  {
    hide LoadKey, EntryHolds, ReadEntry;
    if entries != [] {
      if entries[0].Obj? && keys != [] {
        EntryMeans(p, entries[0].members, keys[0]);
        HeldId(p, entries[0], keys[0]);
        KeysMean(p, entries[1..], keys[1..], seen + {keys[0].keyId});
        assert keys == [keys[0]] + keys[1..];
        HeldSplit(p, entries, keys, seen);
        if LoadKeys(p, entries, seen) == Ok(keys) {
          KeyIdKept(p, entries[0].members);
        }
      } else if keys != [] {
        HeldId(p, entries[0], keys[0]);
      }
    }
  }

  lemma KeyIdKept(p: Primitives, m: Dict)
    ensures var id := p.StrField(m, "key_id"); LoadKey(p, ReadEntry(m), id).Ok? ==> LoadKey(p, ReadEntry(m), id).value.keyId == id
  {
    hide ParseKey;
  }

  lemma HeldId(p: Primitives, item: Json, key: TrustedKey)
    ensures EntryHolds(p, item, key) ==> item.Obj? && key.keyId == p.StrField(item.members, "key_id")
  {
    hide TimeRead, PurposesRead, Base64.DecodeKeyBytes, Text.Strip;
  }

  lemma HeldSplit(p: Primitives, entries: seq<Json>, keys: seq<TrustedKey>, seen: set<string>)
    requires entries != [] && keys != []
    ensures EntriesHold(p, entries, keys, seen) <==>
              EntryHolds(p, entries[0], keys[0]) && keys[0].keyId !in seen && EntriesHold(p, entries[1..], keys[1..], seen + {keys[0].keyId})
  {
    hide EntryHolds;
    if EntryHolds(p, entries[0], keys[0]) && keys[0].keyId !in seen && EntriesHold(p, entries[1..], keys[1..], seen + {keys[0].keyId}) {
      forall i | 0 <= i < |keys| ensures EntryHolds(p, entries[i], keys[i]) && keys[i].keyId !in seen {
        if i > 0 {
          assert EntryHolds(p, entries[1..][i - 1], keys[1..][i - 1]);
        }
      }
      forall i, j | 0 <= i < j < |keys| ensures keys[i].keyId != keys[j].keyId {
        assert keys[1..][j - 1] == keys[j];
        assert i > 0 ==> keys[1..][i - 1] == keys[i];
      }
    }
  }

  /** When a document loads as a registry, and as which, over its fields. */
  lemma LoadMeaning(p: Primitives, payload: Dict, registry: Registry)
    ensures LoadRegistry(p, payload) == Ok(registry) <==>
              && Get(payload, "artifact_type") in {None, Some(Null), Some(Str("TrustedKeyRegistry.v0"))}
              && registry.registryId == (if p.StrField(payload, "registry_id") == "" then None else Some(p.StrField(payload, "registry_id")))
              && match Get(payload, "keys")
                 case Some(Arr(entries)) => EntriesHold(p, entries, registry.keys, {})
                 case _ => false
  {
    hide Get, LoadKeys, EntriesHold;
    match Get(payload, "keys")
    case Some(Arr(entries)) => KeysMean(p, entries, registry.keys, {});
    case _ =>
  }
}
