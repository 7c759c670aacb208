/** What a verified signature proves and when signing leads to one. */
module IntegrityTheorems {
  import opened Wrappers
  import opened Text
  import opened Json
  import opened CanonicalJson
  import opened Primitives
  import opened ArtifactIntegrity
  import CanonicalMeaning
  import Base64

  // ---------------------------------------------------------------- what a digest covers

  lemma FieldNames()
    ensures CANONICALIZATION_FIELD !in HASH_EXCLUDED_FIELDS
    ensures "artifact_type" !in HASH_EXCLUDED_FIELDS && "schema_version" !in HASH_EXCLUDED_FIELDS
    ensures "target_digest" !in HASH_EXCLUDED_FIELDS
    ensures CANONICALIZATION_FIELD != "artifact_type" && CANONICALIZATION_FIELD != "schema_version"
    ensures CANONICALIZATION_FIELD != "target_digest"
    ensures SIGNATURE_FIELD != ARTIFACT_DIGEST_FIELD && SIGNATURE_FIELD != SIGNATURE_OBJECT_FIELD
    ensures ARTIFACT_DIGEST_FIELD != SIGNATURE_OBJECT_FIELD
  {
    assert |CANONICALIZATION_FIELD| == 24 && |SIGNATURE_FIELD| == 19 && |ARTIFACT_DIGEST_FIELD| == 15;
    assert |SIGNATURE_OBJECT_FIELD| == 9 && |"artifact_type"| == 13 && |"schema_version"| == 14 && |"target_digest"| == 13;
  }

  lemma StripWithVersion(d: Dict)
    ensures StripExcluded(WithVersion(d)) == CoveredBody(d)
  {
    FieldNames();
    GetWithout(d, HASH_EXCLUDED_FIELDS, CANONICALIZATION_FIELD);
    WithoutPut(d, HASH_EXCLUDED_FIELDS, CANONICALIZATION_FIELD, Str(CANONICALIZATION_VERSION));
  }

  lemma StripIdempotent(d: Dict)
    ensures StripExcluded(StripExcluded(d)) == StripExcluded(d)
  {
    WithoutWithout(d, HASH_EXCLUDED_FIELDS, HASH_EXCLUDED_FIELDS);
  }

  lemma CoveredBodyStable(d: Dict)
    ensures StripExcluded(CoveredBody(d)) == CoveredBody(d)
    ensures CoveredBody(WithVersion(d)) == CoveredBody(d)
  {
    StripIdempotent(d);
    StripWithVersion(StripExcluded(d));
    StripWithVersion(d);
    GetPut(StripExcluded(d), CANONICALIZATION_FIELD, Str(CANONICALIZATION_VERSION), CANONICALIZATION_FIELD);
  }

  /** Writing or removing an integrity field never changes what the digest covers. */
  lemma IntegrityFieldsUncovered(d: Dict, key: string, value: Json)
    requires key in HASH_EXCLUDED_FIELDS
    ensures CoveredBody(Put(d, key, value)) == CoveredBody(d)
    ensures CoveredBody(Pop(d, key)) == CoveredBody(d)
  {
    WithoutPut(d, HASH_EXCLUDED_FIELDS, key, value);
    WithoutWithout(d, {key}, HASH_EXCLUDED_FIELDS);
  }

  lemma DigestOfCoveredBody(p: Primitives, data: Dict, enforce: bool)
    ensures ComputeArtifactDigest(p, data, enforce) == p.CanonicalHash(CoveredBody(data), enforce)
  {
    var put := Put(StripExcluded(data), ARTIFACT_DIGEST_FIELD, Str(PLACEHOLDER_DIGEST));
    StripWithVersion(put);
    WithoutPut(StripExcluded(data), HASH_EXCLUDED_FIELDS, ARTIFACT_DIGEST_FIELD, Str(PLACEHOLDER_DIGEST));
    StripIdempotent(data);
    CoveredBodyStable(data);
  }

  // ---------------------------------------------------------------- attaching a digest

  /** The body `attach_artifact_digest` hashes. */
  function Attached(data: Dict, digest: string): Dict {
    WithVersion(Put(Pop(Pop(data, SIGNATURE_FIELD), SIGNATURE_OBJECT_FIELD), ARTIFACT_DIGEST_FIELD, Str(digest)))
  }

  lemma AttachedBody(data: Dict, digest: string)
    ensures CoveredBody(Attached(data, digest)) == CoveredBody(data)
    ensures StripExcluded(Attached(data, digest)) == CoveredBody(data)
    ensures Get(Attached(data, digest), ARTIFACT_DIGEST_FIELD) == Some(Str(digest))
    ensures !Has(Attached(data, digest), SIGNATURE_FIELD) && !Has(Attached(data, digest), SIGNATURE_OBJECT_FIELD)
  {
    FieldNames();
    var d1 := Pop(data, SIGNATURE_FIELD);
    var d2 := Pop(d1, SIGNATURE_OBJECT_FIELD);
    var d3 := Put(d2, ARTIFACT_DIGEST_FIELD, Str(digest));
    IntegrityFieldsUncovered(data, SIGNATURE_FIELD, Null);
    IntegrityFieldsUncovered(d1, SIGNATURE_OBJECT_FIELD, Null);
    IntegrityFieldsUncovered(d2, ARTIFACT_DIGEST_FIELD, Str(digest));
    CoveredBodyStable(d3);
    StripWithVersion(d3);
    forall key | key in HASH_EXCLUDED_FIELDS
      ensures Get(Attached(data, digest), key) == if key == ARTIFACT_DIGEST_FIELD then Some(Str(digest)) else None
    {
      GetPut(d3, CANONICALIZATION_FIELD, Str(CANONICALIZATION_VERSION), key);
      GetPut(d2, ARTIFACT_DIGEST_FIELD, Str(digest), key);
      GetWithout(d1, {SIGNATURE_OBJECT_FIELD}, key);
      GetWithout(data, {SIGNATURE_FIELD}, key);
    }
  }

  /** Other fields pass through `attach_artifact_digest` untouched. */
  lemma AttachedKeeps(data: Dict, digest: string, key: string)
    requires key !in HASH_EXCLUDED_FIELDS && key != CANONICALIZATION_FIELD
    ensures Get(Attached(data, digest), key) == Get(data, key)
  {
    FieldNames();
    var d1 := Pop(data, SIGNATURE_FIELD);
    var d2 := Pop(d1, SIGNATURE_OBJECT_FIELD);
    var d3 := Put(d2, ARTIFACT_DIGEST_FIELD, Str(digest));
    GetPut(d3, CANONICALIZATION_FIELD, Str(CANONICALIZATION_VERSION), key);
    GetPut(d2, ARTIFACT_DIGEST_FIELD, Str(digest), key);
    GetWithout(d1, {SIGNATURE_OBJECT_FIELD}, key);
    GetWithout(data, {SIGNATURE_FIELD}, key);
  }

  lemma {:induction false} PutPutSwap(d: Dict, key: string, value: Json, again: Json, other: string, with: Json)
    requires key != other && Has(d, key)
    ensures Put(Put(d, other, with), key, again) == Put(Put(d, key, again), other, with)
  {
    if d[0].key == key {
    } else if d[0].key == other {
    } else {
      PutPutSwap(d[1..], key, value, again, other, with);
    }
  }

  /** Rewriting the digest of an attached body is attaching the other digest. */
  lemma AttachedPut(data: Dict, digest: string, again: string)
    ensures Put(Attached(data, digest), ARTIFACT_DIGEST_FIELD, Str(again)) == Attached(data, again)
  {
    FieldNames();
    var bare := Pop(Pop(data, SIGNATURE_FIELD), SIGNATURE_OBJECT_FIELD);
    var d3, d4 := Put(bare, ARTIFACT_DIGEST_FIELD, Str(digest)), Put(bare, ARTIFACT_DIGEST_FIELD, Str(again));
    PutPresent(bare, ARTIFACT_DIGEST_FIELD, Str(digest), Str(again));
    GetPut(bare, ARTIFACT_DIGEST_FIELD, Str(digest), ARTIFACT_DIGEST_FIELD);
    GetPut(bare, ARTIFACT_DIGEST_FIELD, Str(digest), CANONICALIZATION_FIELD);
    GetPut(bare, ARTIFACT_DIGEST_FIELD, Str(again), CANONICALIZATION_FIELD);
    PutPutSwap(d3, ARTIFACT_DIGEST_FIELD, Null, Str(again), CANONICALIZATION_FIELD, Str(CANONICALIZATION_VERSION));
  }

  /** `attach_artifact_digest` succeeds exactly when the digest can be computed, and records it. */
  lemma AttachRecordsDigest(p: Primitives, data: Dict, enforce: bool)
    ensures AttachArtifactDigest(p, data, enforce)
         == match ComputeArtifactDigest(p, data, enforce)
            case Ok(digest) => Ok(Attached(data, digest))
            case Err(e) => Err(e)
  {
    DigestOfCoveredBody(p, data, enforce);
    CoveredBodyStable(data);
    AttachedBody(data, PLACEHOLDER_DIGEST);
    if ComputeArtifactDigest(p, data, enforce).Ok? {
      AttachedPut(data, PLACEHOLDER_DIGEST, ComputeArtifactDigest(p, data, enforce).value);
    }
  }

  /** The attached digest is a fixed point: computing it again gives the recorded value, and
      attaching again changes nothing. */
  lemma AttachIdempotent(p: Primitives, data: Dict, enforce: bool)
    requires AttachArtifactDigest(p, data, enforce).Ok?
    ensures var sealed := AttachArtifactDigest(p, data, enforce).value;
            && ComputeArtifactDigest(p, sealed, enforce).Ok?
            && Get(sealed, ARTIFACT_DIGEST_FIELD) == Some(Str(ComputeArtifactDigest(p, sealed, enforce).value))
            && AttachArtifactDigest(p, sealed, enforce) == Ok(sealed)
  {
    AttachRecordsDigest(p, data, enforce);
    var digest := ComputeArtifactDigest(p, data, enforce).value;
    var sealed := Attached(data, digest);
    AttachedBody(data, digest);
    DigestOfCoveredBody(p, data, enforce);
    DigestOfCoveredBody(p, sealed, enforce);
    AttachRecordsDigest(p, sealed, enforce);
    WithoutAbsent(sealed, {SIGNATURE_FIELD});
    WithoutAbsent(sealed, {SIGNATURE_OBJECT_FIELD});
    PutPresent(sealed, ARTIFACT_DIGEST_FIELD, Str(digest), Null);
    WithVersionPresent(Put(Pop(Pop(data, SIGNATURE_FIELD), SIGNATURE_OBJECT_FIELD), ARTIFACT_DIGEST_FIELD, Str(digest)));
  }

  lemma WithVersionPresent(d: Dict)
    ensures WithVersion(WithVersion(d)) == WithVersion(d)
  {
    GetPut(d, CANONICALIZATION_FIELD, Str(CANONICALIZATION_VERSION), CANONICALIZATION_FIELD);
  }

  // ---------------------------------------------------------------- signing

  function ArtifactType(p: Primitives, data: Dict): string { p.StrField(data, "artifact_type") }

  function SchemaVersion(p: Primitives, data: Dict): string { p.StrField(data, "schema_version") }

  function SignedAtText(p: Primitives, when: SignedAt): string {
    if when.At? then p.FormatUtc(when.time) else when.text
  }

  /** The message a signature over this artifact covers. */
  function ArtifactMessage(p: Primitives, data: Dict): Result<seq<byte>, Raised> {
    var digest := ComputeArtifactDigest(p, data, true);
    if digest.Err? then Err(Canonicalization(digest.error))
    else SigningMessageBytes(ArtifactType(p, data), SchemaVersion(p, data), digest.value)
  }

  function Envelope(data: Dict, digest: string, signature: Dict): Dict {
    Pop(Put(Attached(data, digest), SIGNATURE_OBJECT_FIELD, Obj(signature)), SIGNATURE_FIELD)
  }

  /** Signing succeeds exactly for an artifact the number policy accepts, whose type and version can
      stand in a signing message, under a 32-byte seed; the result records the artifact's own digest. */
  lemma SignArtifactResult(p: Primitives, data: Dict, seed: seq<byte>, keyId: string, when: SignedAt)
    ensures SignArtifact(p, data, seed, keyId, when, true).Ok? <==>
              && ComputeArtifactDigest(p, data, true).Ok?
              && DomainPart(ArtifactType(p, data)) && DomainPart(SchemaVersion(p, data)) && |seed| == 32
    ensures SignArtifact(p, data, seed, keyId, when, true).Ok? ==>
              && ArtifactMessage(p, data).Ok?
              && SignArtifact(p, data, seed, keyId, when, true).value
                 == Envelope(data, ComputeArtifactDigest(p, data, true).value,
                             SignatureMembers(keyId, SignedAtText(p, when),
                                              Base64.EncodeKeyBytes(p.sign(seed, ArtifactMessage(p, data).value))))
  {
    hide Base64.EncodeKeyBytes, CoveredBody, Utf8.Encode, Attached, IsDigest;
    AttachRecordsDigest(p, data, true);
    var computed := ComputeArtifactDigest(p, data, true);
    if computed.Ok? {
      var digest := computed.value;
      AttachedBody(data, digest);
      FieldNames();
      AttachedKeeps(data, digest, "artifact_type");
      AttachedKeeps(data, digest, "schema_version");
      var hashed := p.CanonicalHash(CoveredBody(data), true);
      DigestOfCoveredBody(p, data, true);
      assert DigestShaped(digest);
    }
  }

  lemma EnvelopeFields(p: Primitives, data: Dict, digest: string, signature: Dict)
    requires digest != ""
    ensures var sealed := Envelope(data, digest, signature);
            && CoveredBody(sealed) == CoveredBody(data)
            && !Has(sealed, SIGNATURE_FIELD)
            && p.StrField(sealed, ARTIFACT_DIGEST_FIELD) == digest
            && SignatureObject(sealed) == Some(signature)
            && ArtifactType(p, sealed) == ArtifactType(p, data)
            && SchemaVersion(p, sealed) == SchemaVersion(p, data)
            && p.StrField(sealed, "target_digest") == p.StrField(data, "target_digest")
  {
    FieldNames();
    var attached := Attached(data, digest);
    var put := Put(attached, SIGNATURE_OBJECT_FIELD, Obj(signature));
    AttachedBody(data, digest);
    IntegrityFieldsUncovered(attached, SIGNATURE_OBJECT_FIELD, Obj(signature));
    IntegrityFieldsUncovered(put, SIGNATURE_FIELD, Null);
    forall key ensures Get(Envelope(data, digest, signature), key)
                    == if key == SIGNATURE_FIELD then None
                       else if key == SIGNATURE_OBJECT_FIELD then Some(Obj(signature)) else Get(attached, key)
    {
      GetPut(attached, SIGNATURE_OBJECT_FIELD, Obj(signature), key);
      GetWithout(put, {SIGNATURE_FIELD}, key);
    }
    AttachedKeeps(data, digest, "artifact_type");
    AttachedKeeps(data, digest, "schema_version");
    AttachedKeeps(data, digest, "target_digest");
  }

  /** Adding a signature never moves the digest. */
  lemma SigningKeepsDigest(p: Primitives, data: Dict, seed: seq<byte>, keyId: string, when: SignedAt)
    requires SignArtifact(p, data, seed, keyId, when, true).Ok?
    ensures var sealed := SignArtifact(p, data, seed, keyId, when, true).value;
            && ComputeArtifactDigest(p, sealed, true) == ComputeArtifactDigest(p, data, true)
            && Ok(p.StrField(sealed, ARTIFACT_DIGEST_FIELD)) == ComputeArtifactDigest(p, data, true)
            && ArtifactMessage(p, sealed) == ArtifactMessage(p, data)
  {
    SignArtifactResult(p, data, seed, keyId, when);
    var digest := ComputeArtifactDigest(p, data, true).value;
    DigestOfCoveredBody(p, data, true);
    EnvelopeFields(p, data, digest,
                   SignatureMembers(keyId, SignedAtText(p, when), Base64.EncodeKeyBytes(p.sign(seed, ArtifactMessage(p, data).value))));
    DigestOfCoveredBody(p, SignArtifact(p, data, seed, keyId, when, true).value, true);
  }

  // ---------------------------------------------------------------- completeness

  lemma SignatureMembersReadable(p: Primitives, keyId: string, signedAt: string, value: string)
    ensures var s := SignatureMembers(keyId, signedAt, value);
            && Get(s, "algorithm") == Some(Str("ed25519")) && p.StrField(s, "key_id") == keyId
            && p.StrField(s, "signed_at") == signedAt && p.StrField(s, "value") == value
  {
    var s := SignatureMembers(keyId, signedAt, value);
    assert s[1..][0] == s[1] && s[1..][1..][0] == s[2] && s[1..][1..][1..][0] == s[3];
    assert |"algorithm"| == 9 && |"key_id"| == 6 && |"value"| == 5;
    assert Get(s[1..][1..][1..], "value") == Some(Str(value));
    assert "signed_at"[0] != "algorithm"[0];
    assert Get(s[1..][1..], "signed_at") == Some(Str(signedAt));
    assert Get(s[1..], "key_id") == Some(Str(keyId));
    assert Get(s[1..], "signed_at") == Get(s[1..][1..], "signed_at");
    assert Get(s[1..], "value") == Get(s[1..][1..], "value") == Get(s[1..][1..][1..], "value");
  }

  /** An artifact signed at `time` under a registered key verifies exactly when the second-floored
      time lies in the key's validity and the policy window, the purpose fits, and any expected
      digest is the artifact's own or the one it declares as its target. */
  lemma SignThenVerify(p: Primitives, data: Dict, seed: seq<byte>, keyId: string, time: Instant, sealed: Dict,
                       registry: Registry, policy: TimestampPolicy, purpose: Option<string>, expected: Option<string>)
    requires p.SignsCorrectly() && p.ClockRoundTrips()
    requires SignArtifact(p, data, seed, keyId, At(time), true) == Ok(sealed)
    requires Lookup(registry.keys, keyId).Some? && Lookup(registry.keys, keyId).value.publicKey == p.publicKey(seed)
    ensures var key, floored := Lookup(registry.keys, keyId).value, FloorToSecond(time);
            Accepted(p, sealed, registry, policy, purpose, expected) <==>
              && keyId != ""
              && key.IsValidAt(floored) && policy.InWindow(floored)
              && (purpose.Some? && purpose.value != "" && key.purposes != [] ==> purpose.value in key.purposes)
              && (expected.Some? ==> || Ok(expected.value) == ComputeArtifactDigest(p, data, true)
                                     || expected.value == p.StrField(data, "target_digest"))
  {
    SignArtifactResult(p, data, seed, keyId, At(time));
    SigningKeepsDigest(p, data, seed, keyId, At(time));
    DigestOfCoveredBody(p, data, true);
    var digest := ComputeArtifactDigest(p, data, true).value;
    var message := ArtifactMessage(p, data).value;
    var value := Base64.EncodeKeyBytes(p.sign(seed, message));
    var signature := SignatureMembers(keyId, p.FormatUtc(time), value);
    EnvelopeFields(p, data, digest, signature);
    SignatureMembersReadable(p, keyId, p.FormatUtc(time), value);
    Base64.KeyBytesRoundTrip(p.sign(seed, message), Some(64));
    FormatUtcRoundTrip(p, time);
    AcceptedEnvelope(p, data, sealed, signature, message, p.sign(seed, message), registry, policy, purpose);
  }

  /** The verifier's view of a fresh envelope: only the key's validity and purpose remain to check. */
  lemma AcceptedEnvelope(p: Primitives, data: Dict, sealed: Dict, signature: Dict, message: seq<byte>, raw: seq<byte>,
                         registry: Registry, policy: TimestampPolicy, purpose: Option<string>)
    requires SignatureReadable(p, signature, registry) || p.StrField(signature, "key_id") == ""
    requires ArtifactMessage(p, sealed) == Ok(message) && ArtifactType(p, sealed) == ArtifactType(p, data)
    requires Ok(p.StrField(sealed, ARTIFACT_DIGEST_FIELD)) == ComputeArtifactDigest(p, sealed, true)
    requires Base64.DecodeKeyBytes(p.StrField(signature, "value"), Some(64)) == Ok(raw)
    ensures SignatureAccepted(p, sealed, signature, registry, policy, purpose) <==>
              && SignatureReadable(p, signature, registry)
              && var key := Lookup(registry.keys, p.StrField(signature, "key_id")).value;
                 var signedAt := p.ParseUtc(p.StrField(signature, "signed_at")).value;
                 && (purpose.Some? && purpose.value != "" && key.purposes != [] ==> purpose.value in key.purposes) && key.IsValidAt(signedAt) && policy.InWindow(signedAt)
                 && |key.publicKey| == 32 && p.verify(key.publicKey, message, raw)
  {
  }

  /** A sidecar verifies against the digest of the artifact it was built for. */
  lemma SidecarVerifies(p: Primitives, target: Dict, seed: seq<byte>, keyId: string, time: Instant, sidecar: Dict,
                        registry: Registry, policy: TimestampPolicy, purpose: Option<string>)
    requires p.SignsCorrectly() && p.ClockRoundTrips()
    requires BuildIntegritySidecar(p, target, seed, keyId, At(time)) == Ok(sidecar)
    requires keyId != "" && Lookup(registry.keys, keyId).Some?
    requires Lookup(registry.keys, keyId).value.publicKey == p.publicKey(seed)
    requires Lookup(registry.keys, keyId).value.IsValidAt(FloorToSecond(time)) && policy.InWindow(FloorToSecond(time))
    requires var key := Lookup(registry.keys, keyId).value; purpose.Some? && purpose.value != "" && key.purposes != [] ==> purpose.value in key.purposes
    ensures ComputeArtifactDigest(p, target, true).Ok?
    ensures Accepted(p, sidecar, registry, policy, purpose, Some(ComputeArtifactDigest(p, target, true).value))
  {
    var digest := ComputeArtifactDigest(p, target, true).value;
    DigestOfCoveredBody(p, target, true);
    var envelope := SidecarEnvelope(p, target, digest);
    SidecarTarget(p, target, digest);
    SignThenVerify(p, envelope, seed, keyId, time, sidecar, registry, policy, purpose, Some(digest));
  }

  /** The body of a sidecar: its own type and version, and those of the artifact it binds. */
  lemma SidecarFields(p: Primitives, target: Dict, digest: string)
    ensures var e := SidecarEnvelope(p, target, digest);
            var kind := if p.StrField(target, "artifact_type") == "" then "UnknownArtifact" else p.StrField(target, "artifact_type");
            && e == [Member("schema_version", Str("v1")), Member("artifact_type", Str("ArtifactIntegrity.v1")),
                     Member("canonicalization_version", Str("v1")), Member("target_artifact_type", Str(kind)),
                     Member("target_schema_version", Str(p.StrField(target, "schema_version"))), Member("target_digest", Str(digest)),
                     Member("payload", Obj([Member("bound_artifact_type", Str(kind))]))]
  {
    hide Get;
  }

  lemma SidecarTarget(p: Primitives, target: Dict, digest: string)
    requires digest != ""
    ensures p.StrField(SidecarEnvelope(p, target, digest), "target_digest") == digest
  {
    var e := SidecarEnvelope(p, target, digest);
    assert |"target_digest"| == 13 && |"schema_version"| == 14 && |"artifact_type"| == 13;
    assert |CANONICALIZATION_FIELD| == 24 && |"target_artifact_type"| == 20 && |"target_schema_version"| == 21;
    assert "artifact_type"[0] != "target_digest"[0];
    var e1, e2, e3, e4, e5 := e[1..], e[2..], e[3..], e[4..], e[5..];
    assert e[1..] == e1 && e1[1..] == e2 && e2[1..] == e3 && e3[1..] == e4 && e4[1..] == e5;
    assert Get(e5, "target_digest") == Some(Str(digest));
    assert Get(e4, "target_digest") == Get(e5, "target_digest");
    assert Get(e3, "target_digest") == Get(e4, "target_digest");
    assert Get(e2, "target_digest") == Get(e3, "target_digest");
    assert Get(e1, "target_digest") == Get(e2, "target_digest");
  }

  // ---------------------------------------------------------------- acceptance, spelt out

  /** The first key of a registry under an id. */
  ghost predicate FirstKey(keys: seq<TrustedKey>, keyId: string, i: int) {
    0 <= i < |keys| && keys[i].keyId == keyId && forall j :: 0 <= j < i ==> keys[j].keyId != keyId
  }

  /** The artifact records its own digest, and an expected digest is that one or the declared target. */
  ghost predicate DigestHolds(p: Primitives, data: Dict, expected: Option<string>) {
    && ComputeArtifactDigest(p, data, true) == Ok(p.StrField(data, "artifact_digest"))
    && (expected.Some? ==> expected.value in {p.StrField(data, "artifact_digest"), p.StrField(data, "target_digest")})
  }

  /** The time lies in the key's validity and before its revocation, and in the policy's window. */
  ghost predicate TimeHolds(key: TrustedKey, when: Instant, policy: TimestampPolicy) {
    && key.validFrom <= when && (forall t :: key.validUntil == Some(t) ==> when <= t) && (forall t :: key.revokedAt == Some(t) ==> when < t)
    && when - policy.now <= policy.futureSkew && (forall age :: policy.maxAge == Some(age) ==> policy.now - when <= age)
  }

  /** A signature of the right form verifies for the message that names type, version and digest, under a
      key that is fit for the purpose at the time. */
  ghost predicate SignatureHolds(p: Primitives, data: Dict, signature: Dict, key: TrustedKey, when: Instant, policy: TimestampPolicy,
                                 purpose: Option<string>) {
    var kind, version := p.StrField(data, "artifact_type"), p.StrField(data, "schema_version");
    var raw := Base64.DecodeKeyBytes(p.StrField(signature, "value"), Some(64));
    && Get(signature, "algorithm") == Some(Str("ed25519")) && key.keyId != "" && p.StrField(signature, "value") != ""
    && p.StrField(signature, "signed_at") != "" && p.ParseUtc(p.StrField(signature, "signed_at")) == Some(when) && TimeHolds(key, when, policy)
    && (purpose.Some? && purpose.value != "" && key.purposes != [] ==> purpose.value in key.purposes)
    && kind != "" && ':' !in kind && version != "" && ':' !in version
    && |key.publicKey| == 32 && raw.Ok?
    && p.verify(key.publicKey, Utf8.Encode("PCS:" + (kind + (":" + (version + (":" + p.StrField(data, "artifact_digest")))))), raw.value)
  }

  lemma {:induction false} FirstKeyFound(keys: seq<TrustedKey>, keyId: string)
    ensures forall i :: FirstKey(keys, keyId, i) ==> Lookup(keys, keyId) == Some(keys[i])
    ensures Lookup(keys, keyId).Some? ==> exists i :: FirstKey(keys, keyId, i)
  {
    if keys != [] {
      FirstKeyFound(keys[1..], keyId);
      if keys[0].keyId == keyId {
        assert FirstKey(keys, keyId, 0);
      } else {
        assert forall i :: FirstKey(keys, keyId, i) ==> FirstKey(keys[1..], keyId, i - 1);
        if i :| FirstKey(keys[1..], keyId, i) {
          assert FirstKey(keys, keyId, i + 1);
        }
      }
    }
  }

  lemma UnderMeans(p: Primitives, data: Dict, signature: Dict, key: TrustedKey, when: Instant, policy: TimestampPolicy, purpose: Option<string>)
    requires DigestShaped(p.StrField(data, "artifact_digest"))
    requires p.ParseUtc(p.StrField(signature, "signed_at")) == Some(when)
    ensures && AcceptedUnder(p, data, signature, key, when, policy, purpose)
            && Get(signature, "algorithm") == Some(Str("ed25519")) && key.keyId != "" && p.StrField(signature, "value") != ""
            && p.StrField(signature, "signed_at") != ""
            <==> SignatureHolds(p, data, signature, key, when, policy, purpose)
  {
    hide Base64.DecodeKeyBytes, Utf8.Encode, Text.Strip, Get;
  }

  /** When an envelope verifies, over its fields and the registry's keys. */
  lemma AcceptedMeaning(p: Primitives, data: Dict, registry: Registry, policy: TimestampPolicy, purpose: Option<string>, expected: Option<string>)
    ensures Accepted(p, data, registry, policy, purpose, expected) <==>
              && Get(data, "signature_or_digest") == None && DigestHolds(p, data, expected)
              && match Get(data, "signature")
                 case Some(Obj(signature)) =>
                   exists i, when: Instant :: FirstKey(registry.keys, p.StrField(signature, "key_id"), i)
                                     && SignatureHolds(p, data, signature, registry.keys[i], when, policy, purpose)
                 case _ => false
  {
    DigestOfCoveredBody(p, data, true);
    hide SignatureHolds, AcceptedUnder, Base64.DecodeKeyBytes, Text.Strip, Get, CoveredBody, ComputeArtifactDigest;
    assert ComputeArtifactDigest(p, data, true).Ok? ==> DigestShaped(ComputeArtifactDigest(p, data, true).value);
    match Get(data, "signature")
    case Some(Obj(signature)) =>
      var keyId := p.StrField(signature, "key_id");
      FirstKeyFound(registry.keys, keyId);
      if DigestHolds(p, data, expected) && Lookup(registry.keys, keyId).Some? {
        var i :| FirstKey(registry.keys, keyId, i);
        var parsed := p.ParseUtc(p.StrField(signature, "signed_at"));
        if parsed.Some? {
          UnderMeans(p, data, signature, registry.keys[i], parsed.value, policy, purpose);
        }
        OneKey(registry.keys, keyId);
        HeldTime(p, data, signature, policy, purpose);
      }
    case _ =>
  }

  lemma OneKey(keys: seq<TrustedKey>, keyId: string)
    ensures forall i, j :: FirstKey(keys, keyId, i) && FirstKey(keys, keyId, j) ==> i == j
  {
  }

  lemma HeldTime(p: Primitives, data: Dict, signature: Dict, policy: TimestampPolicy, purpose: Option<string>)
    ensures forall key, when: Instant :: SignatureHolds(p, data, signature, key, when, policy, purpose) ==>
              p.ParseUtc(p.StrField(signature, "signed_at")) == Some(when)
  {
    hide Base64.DecodeKeyBytes, Text.Strip, Get, Utf8.Encode, TimeHolds;
  }

  // ---------------------------------------------------------------- soundness

  /** One call of `sign_artifact`. */
  datatype SignRequest = SignRequest(data: Dict, seed: seq<byte>, keyId: string, when: SignedAt)

  /** The same artifact up to member order, integrity fields and a defaulted canonicalization version. */
  ghost predicate SameArtifact(a: Dict, b: Dict) {
    var dropped, version := {"signature_or_digest", "artifact_digest", "signature"}, map["canonicalization_version" := VStr("v1")];
    version + (Fields(a) - dropped) == version + (Fields(b) - dropped)
  }

  /** What a digest covers: every field but the three integrity fields, and a canonicalization version. */
  lemma CoveredFields(d: Dict)
    ensures Fields(CoveredBody(d))
         == map["canonicalization_version" := VStr("v1")] + (Fields(d) - {"signature_or_digest", "artifact_digest", "signature"})
  {
    var body := StripExcluded(d);
    CanonicalMeaning.StrippedFields(d);
    FieldsGet(body, CANONICALIZATION_FIELD);
    FieldsPut(body, CANONICALIZATION_FIELD, Str(CANONICALIZATION_VERSION));
  }

  lemma SameArtifactBodies(a: Dict, b: Dict)
    ensures SameArtifact(a, b) <==> CanonicalMeaning.SameBody(CoveredBody(a), CoveredBody(b))
  {
    CoveredFields(a);
    CoveredFields(b);
    CoveredBodyStable(a);
    CoveredBodyStable(b);
    CanonicalMeaning.StrippedFields(CoveredBody(a));
    CanonicalMeaning.StrippedFields(CoveredBody(b));
    hide CoveredBody, StripExcluded, HASH_EXCLUDED_FIELDS;
  }

  function CoveredBytes(data: Dict): seq<byte> {
    match CanonicalJsonBytes(CoveredBody(data), true)
    case Ok(bytes) => bytes
    case Err(_) => []
  }

  /** The call signed `message` with the secret half of `publicKey`. */
  ghost predicate Produced(p: Primitives, request: SignRequest, publicKey: seq<byte>, message: seq<byte>) {
    && SignArtifact(p, request.data, request.seed, request.keyId, request.when, true).Ok?
    && ArtifactMessage(p, request.data) == Ok(message)
    && p.publicKey(request.seed) == publicKey
  }

  /** A signature that verifies although no call of the run produced one for that key and message. */
  ghost predicate Forgery(p: Primitives, run: seq<SignRequest>, publicKey: seq<byte>, message: seq<byte>, signature: seq<byte>) {
    p.verify(publicKey, message, signature) && forall request :: request in run ==> !Produced(p, request, publicKey, message)
  }

  /** Over every run of signing calls, a verified envelope carries the type, version and body of some
      artifact the run signed with the verifying key, unless Ed25519 was forged or SHA-256 collided. */
  lemma VerifiedMeansSigned(p: Primitives, run: seq<SignRequest>, data: Dict, registry: Registry, policy: TimestampPolicy,
                            purpose: Option<string>, expected: Option<string>)
    requires Accepted(p, data, registry, policy, purpose, expected)
    ensures var signature := SignatureObject(data).value;
            var key := Lookup(registry.keys, p.StrField(signature, "key_id")).value;
            var raw := Base64.DecodeKeyBytes(p.StrField(signature, "value"), Some(64)).value;
            || Forgery(p, run, key.publicKey, ArtifactMessage(p, data).value, raw)
            || exists request :: && request in run
                                 && p.publicKey(request.seed) == key.publicKey
                                 && ArtifactType(p, request.data) == ArtifactType(p, data)
                                 && SchemaVersion(p, request.data) == SchemaVersion(p, data)
                                 && (|| SameArtifact(request.data, data)
                                     || Collision(p, CoveredBytes(request.data), CoveredBytes(data)))
  {
    var signature := SignatureObject(data).value;
    var key := Lookup(registry.keys, p.StrField(signature, "key_id")).value;
    var raw := Base64.DecodeKeyBytes(p.StrField(signature, "value"), Some(64)).value;
    var message := ArtifactMessage(p, data).value;
    assert p.verify(key.publicKey, message, raw);
    if request :| request in run && Produced(p, request, key.publicKey, message) {
      SameMessageSameArtifact(p, request.data, data);
    }
  }

  lemma SameMessageSameArtifact(p: Primitives, a: Dict, b: Dict)
    requires ArtifactMessage(p, a).Ok? && ArtifactMessage(p, a) == ArtifactMessage(p, b)
    ensures ArtifactType(p, a) == ArtifactType(p, b) && SchemaVersion(p, a) == SchemaVersion(p, b)
    ensures SameArtifact(a, b) || Collision(p, CoveredBytes(a), CoveredBytes(b))
  {
    SigningMessageInjective(ArtifactType(p, a), SchemaVersion(p, a), ComputeArtifactDigest(p, a, true).value,
                            ArtifactType(p, b), SchemaVersion(p, b), ComputeArtifactDigest(p, b, true).value);
    DigestOfCoveredBody(p, a, true);
    DigestOfCoveredBody(p, b, true);
    CoveredBodyStable(a);
    CoveredBodyStable(b);
    SameArtifactBodies(a, b);
    EqualDigestsEqualBodies(p, CoveredBody(a), CoveredBody(b));
  }

  /** Conversely the same artifact always signs the same message: member order and integrity fields
      never reach a signature. */
  lemma SameArtifactSameMessage(p: Primitives, a: Dict, b: Dict)
    requires SameArtifact(a, b) && ArtifactMessage(p, a).Ok? && ComputeArtifactDigest(p, b, true).Ok?
    requires ArtifactType(p, a) == ArtifactType(p, b) && SchemaVersion(p, a) == SchemaVersion(p, b)
    ensures ArtifactMessage(p, a) == ArtifactMessage(p, b)
  {
    DigestOfCoveredBody(p, a, true);
    DigestOfCoveredBody(p, b, true);
    CoveredBodyStable(a);
    CoveredBodyStable(b);
    SameArtifactBodies(a, b);
    CanonicalMeaning.SameBodySameText(CoveredBody(a), CoveredBody(b));
  }
}
