/** ArtifactIntegrity.v1 envelopes (python/pcs_core/artifact_integrity.py and hash.py): digests that
    do not cover themselves, domain-separated signing messages, trusted keys, signing and
    verification. */
module ArtifactIntegrity {
  import opened Wrappers
  import opened Text
  import opened Json
  import opened CanonicalJson
  import opened Primitives
  import Base64
  import Utf8

  const CANONICALIZATION_FIELD := "canonicalization_version"
  const CANONICALIZATION_VERSION := "v1"

  // ---------------------------------------------------------------- trusted keys

  /** `purposes` is a frozenset, represented by its elements in ascending order. */
  datatype TrustedKey = TrustedKey(
    keyId: string,
    algorithm: string,
    publicKey: seq<byte>,
    validFrom: Instant,
    validUntil: Option<Instant>,
    revokedAt: Option<Instant>,
    purposes: seq<string>,
    note: Option<string>)
  {
    predicate IsRevokedAt(when: Instant) {
      revokedAt.Some? && when >= revokedAt.value
    }

    predicate IsValidAt(when: Instant) {
      && when >= validFrom
      && (validUntil.Some? ==> when <= validUntil.value)
      && !IsRevokedAt(when)
    }
  }

  datatype Registry = Registry(keys: seq<TrustedKey>, registryId: Option<string>)

  /** `TrustedKeyRegistry.get`. */
  function Lookup(keys: seq<TrustedKey>, keyId: string): Option<TrustedKey> {
    if keys == [] then None else if keys[0].keyId == keyId then Some(keys[0]) else Lookup(keys[1..], keyId)
  }

  // ---------------------------------------------------------------- failures

  datatype Issue =
    | LegacyField
    | DigestMissing
    | DigestMismatch(recorded: string, recomputed: string)
    | TargetDigestMismatch(wanted: string)
    | SignatureMissing
    | UnsupportedAlgorithm
    | SignatureIncomplete
    | UnknownKeyId(keyId: string)
    | KeyPurposeMismatch(keyId: string)
    | InvalidTimestamp(text: string)
    | KeyRevokedAtSignatureTime(keyId: string)
    | KeyOutsideValidityInterval(keyId: string)
    | TimestampInFuture
    | TimestampTooOld
    | SignatureEncoding(error: Base64.KeyEncodingError)
    | SignatureInvalid

  datatype Raised =
    | Canonicalization(error: CanonicalizationError)
    | InvalidArtifactType(text: string)
    | InvalidSchemaVersion(text: string)
    | InvalidDigest(text: string)
    | TypeAndVersionRequired
    | SeedLength(length: nat)
    | PublicKeyLength(length: nat)

  // ---------------------------------------------------------------- signing messages

  /** Usable between the separators of a signing message. */
  predicate DomainPart(s: string) {
    s != "" && ':' !in s
  }

  predicate DigestShaped(digest: string) {
    StartsWith(digest, "sha256:") && |digest| == 71
  }

  /** `domain_separated_signing_message`. */
  function SigningMessage(artifactType: string, schemaVersion: string, digest: string): Result<string, Raised> {
    if !DomainPart(artifactType) then Err(InvalidArtifactType(artifactType))
    else if !DomainPart(schemaVersion) then Err(InvalidSchemaVersion(schemaVersion))
    else if !DigestShaped(digest) then Err(InvalidDigest(digest))
    else Ok("PCS:" + (artifactType + (":" + (schemaVersion + (":" + digest)))))
  }

  function SigningMessageBytes(artifactType: string, schemaVersion: string, digest: string): Result<seq<byte>, Raised> {
    var message :- SigningMessage(artifactType, schemaVersion, digest);
    Ok(Utf8.Encode(message))
  }

  /** A text splits at its first separator in one way. */
  lemma {:induction false} SplitAtColon(a: string, b: string, x: string, y: string)
    requires ':' !in a && ':' !in b
    requires a + (":" + x) == b + (":" + y)
    ensures a == b && x == y
  {
    var s := a + (":" + x);
    assert s[|a|] == ':' && s[|b|] == ':';
    assert forall i :: 0 <= i < |a| ==> s[i] == a[i] != ':';
    assert forall i :: 0 <= i < |b| ==> s[i] == b[i] != ':';
    assert a == s[..|a|] && b == s[..|b|];
    assert x == s[|a| + 1..] && y == s[|b| + 1..];
  }

  /** One signing message speaks of one type, one version and one digest. */
  lemma SigningMessageInjective(t1: string, v1: string, d1: string, t2: string, v2: string, d2: string)
    requires SigningMessageBytes(t1, v1, d1).Ok?
    requires SigningMessageBytes(t1, v1, d1) == SigningMessageBytes(t2, v2, d2)
    ensures t1 == t2 && v1 == v2 && d1 == d2
  {
    var m1, m2 := SigningMessage(t1, v1, d1).value, SigningMessage(t2, v2, d2).value;
    Utf8.EncodeInjective(m1, m2);
    assert m1[4..] == t1 + (":" + (v1 + (":" + d1)));
    assert m2[4..] == t2 + (":" + (v2 + (":" + d2)));
    SplitAtColon(t1, t2, v1 + (":" + d1), v2 + (":" + d2));
    SplitAtColon(v1, v2, d1, d2);
  }

  // ---------------------------------------------------------------- digests

  function WithVersion(body: Dict): Dict {
    SetDefault(body, CANONICALIZATION_FIELD, Str(CANONICALIZATION_VERSION))
  }

  /** What a v1 digest covers: the artifact without integrity fields, with a canonicalization version. */
  function CoveredBody(data: Dict): Dict {
    WithVersion(StripExcluded(data))
  }

  /** `compute_artifact_digest`. */
  function ComputeArtifactDigest(p: Primitives, data: Dict, enforce: bool): Result<string, CanonicalizationError> {
    var body := WithVersion(Put(StripExcluded(data), ARTIFACT_DIGEST_FIELD, Str(PLACEHOLDER_DIGEST)));
    p.CanonicalHash(body, enforce)
  }

  /** `attach_artifact_digest`. */
  function AttachArtifactDigest(p: Primitives, data: Dict, enforce: bool): Result<Dict, CanonicalizationError> {
    var bare := Pop(Pop(data, SIGNATURE_FIELD), SIGNATURE_OBJECT_FIELD);
    var body := WithVersion(Put(bare, ARTIFACT_DIGEST_FIELD, Str(PLACEHOLDER_DIGEST)));
    var digest :- p.CanonicalHash(body, enforce);
    Ok(Put(body, ARTIFACT_DIGEST_FIELD, Str(digest)))
  }

  // ---------------------------------------------------------------- signing

  datatype SignedAt = At(time: Instant) | AsText(text: string)

  function SignatureMembers(keyId: string, signedAt: string, value: string): Dict {
    [Member("algorithm", Str("ed25519")), Member("key_id", Str(keyId)),
     Member("signed_at", Str(signedAt)), Member("value", Str(value))]
  }

  /** `sign_artifact`; a missing `signed_at` is the current time, supplied by the caller. */
  function SignArtifact(p: Primitives, data: Dict, seed: seq<byte>, keyId: string, when: SignedAt, enforce: bool)
    : Result<Dict, Raised>
  {
    var attached := AttachArtifactDigest(p, data, enforce);
    if attached.Err? then Err(Canonicalization(attached.error))
    else
      var sealed := attached.value;
      var artifactType := p.StrField(sealed, "artifact_type");
      var schemaVersion := p.StrField(sealed, "schema_version");
      if artifactType == "" || schemaVersion == "" then Err(TypeAndVersionRequired)
      else
        var message :- SigningMessageBytes(artifactType, schemaVersion, p.StrField(sealed, ARTIFACT_DIGEST_FIELD));
        if |seed| != 32 then Err(SeedLength(|seed|))
        else
          var signedAt := if when.At? then p.FormatUtc(when.time) else when.text;
          var signature := SignatureMembers(keyId, signedAt, Base64.EncodeKeyBytes(p.sign(seed, message)));
          Ok(Pop(Put(sealed, SIGNATURE_OBJECT_FIELD, Obj(signature)), SIGNATURE_FIELD))
  }

  /** The body of a sidecar: it names its target and binds the target's digest. */
  function SidecarEnvelope(p: Primitives, target: Dict, digest: string): Dict {
    var named := p.StrField(target, "artifact_type");
    var targetType := if named == "" then "UnknownArtifact" else named;
    [Member("schema_version", Str("v1")),
     Member("artifact_type", Str("ArtifactIntegrity.v1")),
     Member(CANONICALIZATION_FIELD, Str(CANONICALIZATION_VERSION)),
     Member("target_artifact_type", Str(targetType)),
     Member("target_schema_version", Str(p.StrField(target, "schema_version"))),
     Member("target_digest", Str(digest)),
     Member("payload", Obj([Member("bound_artifact_type", Str(targetType))]))]
  }

  /** `build_integrity_sidecar`. */
  function BuildIntegritySidecar(p: Primitives, target: Dict, seed: seq<byte>, keyId: string, when: SignedAt)
    : Result<Dict, Raised>
  {
    var digest := ComputeArtifactDigest(p, target, true);
    if digest.Err? then Err(Canonicalization(digest.error))
    else SignArtifact(p, SidecarEnvelope(p, target, digest.value), seed, keyId, when, true)
  }

  // ---------------------------------------------------------------- timestamp policy

  datatype TimestampPolicy = TimestampPolicy(maxAge: Option<int>, futureSkew: int, now: Instant)
  {
    /** The signing times the policy lets through. */
    predicate InWindow(signedAt: Instant) {
      signedAt <= now + futureSkew && (maxAge.Some? ==> signedAt >= now - maxAge.value)
    }

    /** `TimestampPolicy.evaluate`. */
    method Evaluate(signedAt: Instant, key: TrustedKey) returns (errors: seq<Issue>)
      ensures errors == [] <==> key.IsValidAt(signedAt) && InWindow(signedAt)
      ensures KeyRevokedAtSignatureTime(key.keyId) in errors <==> key.IsRevokedAt(signedAt)
      ensures KeyOutsideValidityInterval(key.keyId) in errors <==> !key.IsValidAt(signedAt) && !key.IsRevokedAt(signedAt)
      ensures TimestampInFuture in errors <==> signedAt > now + futureSkew
      ensures TimestampTooOld in errors <==> maxAge.Some? && signedAt < now - maxAge.value
      ensures forall e :: e in errors ==> e in {KeyRevokedAtSignatureTime(key.keyId), KeyOutsideValidityInterval(key.keyId),
                                                TimestampInFuture, TimestampTooOld}
    {
      errors := [];
      if !key.IsValidAt(signedAt) {
        if key.IsRevokedAt(signedAt) {
          errors := errors + [KeyRevokedAtSignatureTime(key.keyId)];
        } else {
          errors := errors + [KeyOutsideValidityInterval(key.keyId)];
        }
      }
      if signedAt > now + futureSkew {
        errors := errors + [TimestampInFuture];
      }
      if maxAge.Some? && signedAt < now - maxAge.value {
        errors := errors + [TimestampTooOld];
      }
    }
  }

  // ---------------------------------------------------------------- verification

  function SignatureObject(data: Dict): Option<Dict> {
    match Get(data, SIGNATURE_OBJECT_FIELD)
    case Some(Obj(members)) => Some(members)
    case _ => None
  }

  /** The recorded digest is this artifact's, or the envelope binds the expected target instead. */
  predicate DigestAccepted(p: Primitives, data: Dict, recomputed: string, expected: Option<string>) {
    var digest := p.StrField(data, ARTIFACT_DIGEST_FIELD);
    && digest == recomputed
    && (expected.Some? ==>
          digest == expected.value || recomputed == expected.value || p.StrField(data, "target_digest") == expected.value)
  }

  /** The signature object names a known key, a time and a value. */
  predicate SignatureNamesKey(p: Primitives, signature: Dict, registry: Registry) {
    && Get(signature, "algorithm") == Some(Str("ed25519"))
    && p.StrField(signature, "key_id") != ""
    && p.StrField(signature, "signed_at") != ""
    && p.StrField(signature, "value") != ""
    && Lookup(registry.keys, p.StrField(signature, "key_id")).Some?
  }

  /** The registered key an envelope's signature object names, when the object is complete. */
  function UsedKey(p: Primitives, data: Dict, registry: Registry): Option<TrustedKey> {
    var signature := SignatureObject(data);
    if signature.Some? && SignatureNamesKey(p, signature.value, registry)
    then Lookup(registry.keys, p.StrField(signature.value, "key_id")) else None
  }

  predicate SignatureReadable(p: Primitives, signature: Dict, registry: Registry) {
    SignatureNamesKey(p, signature, registry) && p.ParseUtc(p.StrField(signature, "signed_at")).Some?
  }

  /** Everything `verify_artifact_signature` checks once the key is known and the time read. */
  predicate AcceptedUnder(p: Primitives, data: Dict, signature: Dict, key: TrustedKey, signedAt: Instant,
                          policy: TimestampPolicy, purpose: Option<string>)
  {
    var message := SigningMessageBytes(p.StrField(data, "artifact_type"), p.StrField(data, "schema_version"),
                                       p.StrField(data, ARTIFACT_DIGEST_FIELD));
    var value := Base64.DecodeKeyBytes(p.StrField(signature, "value"), Some(64));
    && (purpose.Some? && purpose.value != "" && key.purposes != [] ==> purpose.value in key.purposes)
    && key.IsValidAt(signedAt) && policy.InWindow(signedAt)
    && message.Ok? && value.Ok? && |key.publicKey| == 32
    && p.verify(key.publicKey, message.value, value.value)
  }

  predicate SignatureAccepted(p: Primitives, data: Dict, signature: Dict, registry: Registry,
                              policy: TimestampPolicy, purpose: Option<string>)
  {
    && SignatureReadable(p, signature, registry)
    && AcceptedUnder(p, data, signature, Lookup(registry.keys, p.StrField(signature, "key_id")).value,
                     p.ParseUtc(p.StrField(signature, "signed_at")).value, policy, purpose)
  }

  /** What an envelope must satisfy to verify with no errors. */
  predicate Accepted(p: Primitives, data: Dict, registry: Registry, policy: TimestampPolicy,
                     purpose: Option<string>, expected: Option<string>)
  {
    var recomputed := ComputeArtifactDigest(p, data, true);
    var signature := SignatureObject(data);
    && !Has(data, SIGNATURE_FIELD)
    && DigestShaped(p.StrField(data, ARTIFACT_DIGEST_FIELD))
    && recomputed.Ok?
    && DigestAccepted(p, data, recomputed.value, expected)
    && signature.Some?
    && SignatureAccepted(p, data, signature.value, registry, policy, purpose)
  }

  predicate AboutDigest(e: Issue) {
    e.LegacyField? || e.DigestMissing? || e.DigestMismatch? || e.TargetDigestMismatch?
  }

  predicate CanRaise(p: Primitives, data: Dict, registry: Registry) {
    || !DomainPart(p.StrField(data, "artifact_type"))
    || !DomainPart(p.StrField(data, "schema_version"))
    || exists key :: key in registry.keys && |key.publicKey| != 32
  }

  /** With a digest of the right shape only the type or the version can stop the signing message. */
  lemma SigningRaises(p: Primitives, data: Dict)
    requires DigestShaped(p.StrField(data, ARTIFACT_DIGEST_FIELD))
    ensures SigningMessageBytes(p.StrField(data, "artifact_type"), p.StrField(data, "schema_version"),
                                p.StrField(data, ARTIFACT_DIGEST_FIELD)).Err? ==>
              !DomainPart(p.StrField(data, "artifact_type")) || !DomainPart(p.StrField(data, "schema_version"))
  {
  }

  method VerifyUnderKey(p: Primitives, data: Dict, signature: Dict, key: TrustedKey, signedAt: Instant,
                        policy: TimestampPolicy, purpose: Option<string>)
    returns (r: Result<seq<Issue>, Raised>)
    requires DigestShaped(p.StrField(data, ARTIFACT_DIGEST_FIELD))
    ensures r == Ok([]) <==> AcceptedUnder(p, data, signature, key, signedAt, policy, purpose)
    ensures r.Ok? ==> forall e :: e in r.value ==> !AboutDigest(e) && !e.UnknownKeyId?
    ensures r.Ok? ==> forall id :: KeyPurposeMismatch(id) in r.value <==>
              id == key.keyId && purpose.Some? && purpose.value != "" && key.purposes != [] && purpose.value !in key.purposes
    ensures r.Err? ==> || !DomainPart(p.StrField(data, "artifact_type")) || !DomainPart(p.StrField(data, "schema_version"))
                       || |key.publicKey| != 32
  {
    SigningRaises(p, data);
    hide SigningMessageBytes, Base64.DecodeKeyBytes, DomainPart, DigestShaped;
    var errors: seq<Issue> := [];
    if purpose.Some? && purpose.value != "" && purpose.value !in key.purposes && key.purposes != [] {
      errors := [KeyPurposeMismatch(key.keyId)];
    }
    var timing := policy.Evaluate(signedAt, key);
    errors := errors + timing;
    assert errors == [] <==> (purpose.Some? && purpose.value != "" && key.purposes != [] ==> purpose.value in key.purposes) && key.IsValidAt(signedAt) && policy.InWindow(signedAt);
    assert forall e :: e in errors ==> !AboutDigest(e) && !e.UnknownKeyId?;
    var message := SigningMessageBytes(p.StrField(data, "artifact_type"), p.StrField(data, "schema_version"),
                                       p.StrField(data, ARTIFACT_DIGEST_FIELD));
    if message.Err? {
      return Err(message.error);
    }
    var decoded := Base64.DecodeKeyBytes(p.StrField(signature, "value"), Some(64));
    if decoded.Err? {
      return Ok(errors + [SignatureEncoding(decoded.error)]);
    }
    if |key.publicKey| != 32 {
      return Err(PublicKeyLength(|key.publicKey|));
    }
    if !p.verify(key.publicKey, message.value, decoded.value) {
      errors := errors + [SignatureInvalid];
    }
    return Ok(errors);
  }

  /** The first thing that stops the signature object from being checked at all. */
  function Obstacle(p: Primitives, data: Dict, registry: Registry): (issue: Option<Issue>)
    ensures issue.None? ==> SignatureObject(data).Some?
    ensures issue.Some? ==> !AboutDigest(issue.value) && !issue.value.KeyPurposeMismatch?
    ensures issue.None? <==> UsedKey(p, data, registry).Some?
    ensures issue.Some? && issue.value.UnknownKeyId? ==> Lookup(registry.keys, issue.value.keyId).None?
  {
    match SignatureObject(data)
    case None => Some(SignatureMissing)
    case Some(signature) =>
      var keyId := p.StrField(signature, "key_id");
      if Get(signature, "algorithm") != Some(Str("ed25519")) then Some(UnsupportedAlgorithm)
      else if keyId == "" || p.StrField(signature, "signed_at") == "" || p.StrField(signature, "value") == "" then
        Some(SignatureIncomplete)
      else if Lookup(registry.keys, keyId).None? then Some(UnknownKeyId(keyId))
      else None
  }

  /** The second half of `verify_artifact_signature`: the signature object against the registry. */
  method VerifySignatureObject(p: Primitives, data: Dict, registry: Registry, policy: TimestampPolicy, purpose: Option<string>)
    returns (r: Result<seq<Issue>, Raised>)
    requires DigestShaped(p.StrField(data, ARTIFACT_DIGEST_FIELD))
    ensures r == Ok([]) <==>
              SignatureObject(data).Some? && SignatureAccepted(p, data, SignatureObject(data).value, registry, policy, purpose)
    ensures r.Ok? ==> forall e :: e in r.value ==> !AboutDigest(e)
    ensures r.Ok? ==> forall id :: KeyPurposeMismatch(id) in r.value <==>
              var key := UsedKey(p, data, registry);
              && key.Some? && id == key.value.keyId
              && purpose.Some? && purpose.value != "" && key.value.purposes != [] && purpose.value !in key.value.purposes
    ensures r.Ok? ==> forall e :: e in r.value && e.UnknownKeyId? ==> Lookup(registry.keys, e.keyId).None?
    ensures r.Err? ==> CanRaise(p, data, registry)
  {
    var obstacle := Obstacle(p, data, registry);
    if obstacle.Some? {
      return Ok([obstacle.value]);
    }
    var signature := SignatureObject(data).value;
    var keyId := p.StrField(signature, "key_id");
    var key := Lookup(registry.keys, keyId).value;
    LookupMember(registry.keys, keyId);
    var signedAt := p.ParseUtc(p.StrField(signature, "signed_at"));
    if signedAt.None? {
      var unfit := purpose.Some? && purpose.value != "" && purpose.value !in key.purposes && key.purposes != [];
      return Ok((if unfit then [KeyPurposeMismatch(key.keyId)] else []) + [InvalidTimestamp(p.StrField(signature, "signed_at"))]);
    }
    r := VerifyUnderKey(p, data, signature, key, signedAt.value, policy, purpose);
  }

  /** `verify_artifact_signature`: an empty list of errors means exactly `Accepted`, and what the list
      says about digests and keys is true. */
  method VerifyArtifactSignature(p: Primitives, data: Dict, registry: Registry, policy: TimestampPolicy,
                                 purpose: Option<string>, expected: Option<string>)
    returns (r: Result<seq<Issue>, Raised>)
    ensures r == Ok([]) <==> Accepted(p, data, registry, policy, purpose, expected)
    ensures r.Ok? ==> (LegacyField in r.value <==> Has(data, SIGNATURE_FIELD))
    ensures r.Ok? ==> (DigestMissing in r.value <==> !("sha256:" <= p.StrField(data, "artifact_digest") && |p.StrField(data, "artifact_digest")| == 71))
    ensures r.Ok? && DigestMissing !in r.value ==>
              var digest := p.StrField(data, ARTIFACT_DIGEST_FIELD);
              var recomputed := ComputeArtifactDigest(p, data, true);
              recomputed.Ok? && (DigestMismatch(digest, recomputed.value) in r.value <==> digest != recomputed.value)
    ensures r.Ok? && DigestMissing !in r.value ==> forall id :: KeyPurposeMismatch(id) in r.value <==>
              var key := UsedKey(p, data, registry);
              && key.Some? && id == key.value.keyId
              && purpose.Some? && purpose.value != "" && key.value.purposes != [] && purpose.value !in key.value.purposes
    ensures r.Ok? ==> forall e :: e in r.value && e.UnknownKeyId? ==> Lookup(registry.keys, e.keyId).None?
    ensures r.Err? ==> ComputeArtifactDigest(p, data, true).Err? || CanRaise(p, data, registry)
  {
    hide SignatureAccepted, ComputeArtifactDigest, UsedKey, Lookup, Get;
    var errors: seq<Issue> := [];
    if Has(data, SIGNATURE_FIELD) {
      errors := errors + [LegacyField];
    }
    var digest := p.StrField(data, ARTIFACT_DIGEST_FIELD);
    if !DigestShaped(digest) {
      return Ok(errors + [DigestMissing]);
    }
    var computed := ComputeArtifactDigest(p, data, true);
    if computed.Err? {
      return Err(Canonicalization(computed.error));
    }
    var recomputed := computed.value;
    if digest != recomputed {
      errors := errors + [DigestMismatch(digest, recomputed)];
    }
    if expected.Some? && digest != expected.value && recomputed != expected.value {
      if p.StrField(data, "target_digest") != expected.value {
        errors := errors + [TargetDigestMismatch(expected.value)];
      }
    }
    var rest := VerifySignatureObject(p, data, registry, policy, purpose);
    if rest.Err? {
      return rest;
    }
    return Ok(errors + rest.value);
  }

  lemma {:induction false} LookupMember(keys: seq<TrustedKey>, keyId: string)
    ensures Lookup(keys, keyId).Some? ==> Lookup(keys, keyId).value in keys && Lookup(keys, keyId).value.keyId == keyId
    ensures Lookup(keys, keyId).None? <==> forall k :: k in keys ==> k.keyId != keyId
  {
    if keys != [] {
      LookupMember(keys[1..], keyId);
    }
  }
}
