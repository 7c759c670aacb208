/** External attestations (python/pcs_core/external_attestation.py:61-141, 253-333): sealing rewrites the
    authentication mode after the content digest is taken, so a signature verifies exactly when the mode
    was right before. */
module Attestation {
  import opened Wrappers
  import opened Text
  import opened Json
  import opened CanonicalJson
  import opened Primitives
  import opened ArtifactIntegrity
  import opened CanonicalMeaning
  import Base64
  import IntegrityTheorems
  import Utf8

  const MODE_FIELD := "authentication_mode"
  const ATTESTATION_SIGNATURE := "attestation_signature"
  const SIGNED_MODE := "ed25519_signed"
  const BOUND_MODE := "digest_bound"
  const BOUND_ALGORITHM := "sha256-digest-bound"
  const ATTESTATION_TYPE := "ExternalAttestation.v0"
  const ATTESTATION_VERSION := "v0"

  // ---------------------------------------------------------------- sealing

  /** `env` is the pair of signing seed and key id found in the environment, both not blank; `when` is the
      given signing time or the current one as text. */
  datatype SealInput = SealInput(privateSeed: Option<seq<byte>>, keyId: Option<string>, env: Option<(string, string)>, when: string)

  datatype SealError = BadSeedText(error: Base64.KeyEncodingError) | BadSeedLength(length: nat)

  /** The attestation as the content digest sees it. */
  function Provisional(attestation: Dict): Dict {
    Pop(Pop(WithVersion(attestation), SIGNATURE_FIELD), ATTESTATION_SIGNATURE)
  }

  function ContentDigest(p: Primitives, attestation: Dict): string {
    p.Hash(Provisional(attestation))
  }

  /** `str(attestation.get("authentication_mode") or "digest_bound")`. */
  function IncomingMode(p: Primitives, attestation: Dict): string {
    if p.StrField(attestation, MODE_FIELD) == "" then BOUND_MODE else p.StrField(attestation, MODE_FIELD)
  }

  /** The seed and key id a seal uses, and whether they came from the environment. */
  datatype Signer = Signer(seed: Option<seq<byte>>, keyId: Option<string>, fromEnv: bool)

  function ChooseSigner(input: SealInput): Result<Signer, SealError> {
    if input.privateSeed.Some? || input.env.None? then Ok(Signer(input.privateSeed, input.keyId, false))
    else
      match Base64.DecodeKeyBytes(input.env.value.0, Some(32))
      case Err(e) => Err(BadSeedText(e))
      case Ok(seed) =>
        Ok(Signer(Some(seed), if input.keyId.Some? && input.keyId.value != "" then input.keyId else Some(input.env.value.1), true))
  }

  /** Which seed and key id a seal uses: the caller's seed, else the environment's with its key id unless the
      caller names one. */
  lemma SignerMeaning(input: SealInput)
    ensures input.privateSeed.Some? || input.env.None? ==> ChooseSigner(input) == Ok(Signer(input.privateSeed, input.keyId, false))
    ensures input.privateSeed.None? && input.env.Some? ==>
              && (ChooseSigner(input).Ok? <==> Base64.DecodeKeyBytes(input.env.value.0, Some(32)).Ok?)
              && (ChooseSigner(input).Ok? ==>
                    && ChooseSigner(input).value.fromEnv && ChooseSigner(input).value.seed.Some?
                    && Base64.DecodeKeyBytes(input.env.value.0, Some(32)) == Ok(ChooseSigner(input).value.seed.value)
                    && ChooseSigner(input).value.keyId == Some(if input.keyId in {None, Some("")} then input.env.value.1 else input.keyId.value))
  {
    hide Base64.DecodeKeyBytes;
  }

  /** A seal is signed when the mode says so, or the environment has keys, and seed and key id are there. */
  predicate Signs(p: Primitives, attestation: Dict, s: Signer) {
    (s.fromEnv || IncomingMode(p, attestation) == SIGNED_MODE) && s.seed.Some? && s.keyId.Some? && s.keyId.value != ""
  }

  function ContentMessage(digest: string): seq<byte>
    requires IsDigest(digest)
  {
    AttestationDomain();
    SigningMessageBytes(ATTESTATION_TYPE, ATTESTATION_VERSION, digest).value
  }

  lemma AttestationDomain()
    ensures DomainPart(ATTESTATION_TYPE) && DomainPart(ATTESTATION_VERSION)
  {
  }

  function SignedSeal(p: Primitives, attestation: Dict, seed: seq<byte>, keyId: string, when: string): Dict {
    var value := Base64.EncodeKeyBytes(p.sign(seed, ContentMessage(ContentDigest(p, attestation))));
    Put(Put(Pop(WithVersion(attestation), SIGNATURE_FIELD), MODE_FIELD, Str(SIGNED_MODE)), ATTESTATION_SIGNATURE,
        Obj(SignatureMembers(keyId, when, value)))
  }

  function BoundSeal(p: Primitives, attestation: Dict): Dict {
    Put(Put(Pop(WithVersion(attestation), SIGNATURE_FIELD), MODE_FIELD, Str(BOUND_MODE)), ATTESTATION_SIGNATURE,
        Obj([Member("algorithm", Str(BOUND_ALGORITHM)), Member("digest", Str(ContentDigest(p, attestation))), Member("note", Str(NOTE))]))
  }

  function Finish(p: Primitives, sealed: Dict): Dict {
    Put(sealed, SIGNATURE_FIELD, Str(p.Hash(sealed)))
  }

  const NOTE := "Digest-bound integrity only. Replace with ed25519_signed once org CertifyEdge / release signing keys are configured "
              + "(PCS_RELEASE_SIGNING_SEED_B64 + PCS_RELEASE_SIGNING_KEY_ID)."

  /** `seal_external_attestation`, step by step on one dictionary. */
  method Seal(p: Primitives, attestation: Dict, input: SealInput) returns (r: Result<Dict, SealError>)
    ensures r.Ok? ==>
              && ChooseSigner(input).Ok?
              && var s := ChooseSigner(input).value;
                 r.value == Finish(p, if Signs(p, attestation, s) then SignedSeal(p, attestation, s.seed.value, s.keyId.value, input.when)
                                      else BoundSeal(p, attestation))
    ensures r.Err? <==>
              || ChooseSigner(input).Err?
              || (Signs(p, attestation, ChooseSigner(input).value) && |ChooseSigner(input).value.seed.value| != 32)
  {
    hide Get, Put, Without;
    var sealed := WithVersion(attestation);
    sealed := Pop(sealed, SIGNATURE_FIELD);
    var provisional := Pop(sealed, ATTESTATION_SIGNATURE);
    var contentDigest := p.Hash(provisional);
    var mode := ModeOfSealed(p, attestation);
    var signer := ChooseSigner(input);
    if signer.Err? {
      return Err(signer.error);
    }
    if signer.value.fromEnv {
      mode := SIGNED_MODE;
    }
    if mode == SIGNED_MODE && signer.value.seed.Some? && signer.value.keyId.Some? && signer.value.keyId.value != "" {
      var seed := signer.value.seed.value;
      if |seed| != 32 {
        return Err(BadSeedLength(|seed|));
      }
      var signature := p.sign(seed, ContentMessage(contentDigest));
      sealed := Put(sealed, MODE_FIELD, Str(SIGNED_MODE));
      sealed := Put(sealed, ATTESTATION_SIGNATURE,
                    Obj(SignatureMembers(signer.value.keyId.value, input.when, Base64.EncodeKeyBytes(signature))));
    } else {
      sealed := Put(sealed, MODE_FIELD, Str(BOUND_MODE));
      sealed := Put(sealed, ATTESTATION_SIGNATURE,
                    Obj([Member("algorithm", Str(BOUND_ALGORITHM)), Member("digest", Str(contentDigest)), Member("note", Str(NOTE))]));
    }
    return Ok(Put(sealed, SIGNATURE_FIELD, Str(p.Hash(sealed))));
  }

  /** The mode read from the attestation once it carries a version and no digest. */
  method ModeOfSealed(p: Primitives, attestation: Dict) returns (mode: string)
    ensures mode == IncomingMode(p, attestation)
  {
    var sealed := Pop(WithVersion(attestation), SIGNATURE_FIELD);
    ModeUntouched(attestation);
    mode := p.StrField(sealed, MODE_FIELD);
    if mode == "" {
      mode := BOUND_MODE;
    }
  }

  lemma FieldNames()
    ensures MODE_FIELD !in {SIGNATURE_FIELD, ATTESTATION_SIGNATURE, CANONICALIZATION_FIELD} && MODE_FIELD !in HASH_EXCLUDED_FIELDS
    ensures ATTESTATION_SIGNATURE !in {SIGNATURE_FIELD, CANONICALIZATION_FIELD} && ATTESTATION_SIGNATURE !in HASH_EXCLUDED_FIELDS
    ensures CANONICALIZATION_FIELD !in HASH_EXCLUDED_FIELDS
  {
    assert |MODE_FIELD| == 19 && |SIGNATURE_FIELD| == 19 && MODE_FIELD[0] == 'a' && SIGNATURE_FIELD[0] == 's';
    assert |ATTESTATION_SIGNATURE| == 21 && |CANONICALIZATION_FIELD| == 24 && |ARTIFACT_DIGEST_FIELD| == 15;
    assert |SIGNATURE_OBJECT_FIELD| == 9;
  }

  lemma ModeUntouched(attestation: Dict)
    ensures Get(Pop(WithVersion(attestation), SIGNATURE_FIELD), MODE_FIELD) == Get(attestation, MODE_FIELD)
  {
    FieldNames();
    GetWithout(WithVersion(attestation), {SIGNATURE_FIELD}, MODE_FIELD);
    GetPut(attestation, CANONICALIZATION_FIELD, Str(CANONICALIZATION_VERSION), MODE_FIELD);
  }

  // ---------------------------------------------------------------- the overall digest

  /** The digest the validator recomputes. */
  function RecomputedDigest(p: Primitives, attestation: Dict): string {
    p.Hash(Pop(attestation, SIGNATURE_FIELD))
  }

  /** Whatever the branch, the overall digest of a sealed attestation is the one the validator recomputes. */
  lemma SealedDigestMatches(p: Primitives, sealed: Dict)
    ensures Get(Finish(p, sealed), SIGNATURE_FIELD) == Some(Str(RecomputedDigest(p, Finish(p, sealed))))
  {
    var done := Finish(p, sealed);
    GetPut(sealed, SIGNATURE_FIELD, Str(p.Hash(sealed)), SIGNATURE_FIELD);
    WithoutWithout(done, {SIGNATURE_FIELD}, HASH_EXCLUDED_FIELDS);
    WithoutPut(sealed, HASH_EXCLUDED_FIELDS, SIGNATURE_FIELD, Str(p.Hash(sealed)));
    assert StripExcluded(Pop(done, SIGNATURE_FIELD)) == StripExcluded(sealed);
  }

  // ---------------------------------------------------------------- the content digest

  /** The content digest the validator recomputes from a sealed attestation. */
  function ValidatorContent(attestation: Dict): Dict {
    Pop(Pop(attestation, ATTESTATION_SIGNATURE), SIGNATURE_FIELD)
  }

  /** What the validator hashes of a signed seal is what was signed, with the mode rewritten. */
  lemma ValidatorSeesRewrittenMode(p: Primitives, attestation: Dict, seed: seq<byte>, keyId: string, when: string)
    ensures var sealed := Finish(p, SignedSeal(p, attestation, seed, keyId, when));
            ValidatorContent(sealed) == Put(Provisional(attestation), MODE_FIELD, Str(SIGNED_MODE))
  {
    FieldNames();
    var bare := Pop(WithVersion(attestation), SIGNATURE_FIELD);
    var moded := Put(bare, MODE_FIELD, Str(SIGNED_MODE));
    var signed := SignedSeal(p, attestation, seed, keyId, when);
    var sealed := Finish(p, signed);
    var signature := Get(signed, ATTESTATION_SIGNATURE);
    var value := Obj(SignatureMembers(keyId, when, Base64.EncodeKeyBytes(p.sign(seed, ContentMessage(ContentDigest(p, attestation))))));
    assert signed == Put(moded, ATTESTATION_SIGNATURE, value);
    hide Provisional, SignedSeal;
    WithoutPut(signed, {ATTESTATION_SIGNATURE}, SIGNATURE_FIELD, Str(p.Hash(signed)));
    WithoutPut(moded, {ATTESTATION_SIGNATURE}, ATTESTATION_SIGNATURE, value);
    WithoutPut(Pop(moded, ATTESTATION_SIGNATURE), {SIGNATURE_FIELD}, SIGNATURE_FIELD, Str(p.Hash(signed)));
    assert Pop(sealed, ATTESTATION_SIGNATURE) == Put(Pop(moded, ATTESTATION_SIGNATURE), SIGNATURE_FIELD, Str(p.Hash(signed)));
    assert ValidatorContent(sealed) == Pop(Pop(moded, ATTESTATION_SIGNATURE), SIGNATURE_FIELD);
    WithoutPut(bare, {ATTESTATION_SIGNATURE}, MODE_FIELD, Str(SIGNED_MODE));
    WithoutPut(Pop(bare, ATTESTATION_SIGNATURE), {SIGNATURE_FIELD}, MODE_FIELD, Str(SIGNED_MODE));
    NoDigestLeft(attestation);
  }

  lemma NoDigestLeft(attestation: Dict)
    ensures Pop(Provisional(attestation), SIGNATURE_FIELD) == Provisional(attestation)
    ensures Provisional(attestation) == Pop(Pop(WithVersion(attestation), SIGNATURE_FIELD), ATTESTATION_SIGNATURE)
  {
    var bare := Pop(WithVersion(attestation), SIGNATURE_FIELD);
    GetWithout(WithVersion(attestation), {SIGNATURE_FIELD}, SIGNATURE_FIELD);
    GetWithout(bare, {ATTESTATION_SIGNATURE}, SIGNATURE_FIELD);
    WithoutAbsent(Provisional(attestation), {SIGNATURE_FIELD});
  }

  lemma MeaningOfText(v: Json, s: string)
    requires Meaning(v) == VStr(s)
    ensures v == Str(s)
  {
  }

  /** Rewriting the mode changes what a body means exactly when the mode was another one. */
  lemma RewriteChangesBody(body: Dict)
    ensures SameBody(Put(body, MODE_FIELD, Str(SIGNED_MODE)), body) <==> Get(body, MODE_FIELD) == Some(Str(SIGNED_MODE))
  {
    FieldNames();
    var rewritten := Put(body, MODE_FIELD, Str(SIGNED_MODE));
    if Get(body, MODE_FIELD) == Some(Str(SIGNED_MODE)) {
      PutPresent(body, MODE_FIELD, Str(SIGNED_MODE), Str(SIGNED_MODE));
    }
    if SameBody(rewritten, body) {
      StrippedFields(rewritten);
      StrippedFields(body);
      FieldsGet(StripExcluded(rewritten), MODE_FIELD);
      FieldsGet(StripExcluded(body), MODE_FIELD);
      GetWithout(rewritten, HASH_EXCLUDED_FIELDS, MODE_FIELD);
      GetWithout(body, HASH_EXCLUDED_FIELDS, MODE_FIELD);
      GetPut(body, MODE_FIELD, Str(SIGNED_MODE), MODE_FIELD);
      assert Get(body, MODE_FIELD).Some? && Meaning(Get(body, MODE_FIELD).value) == VStr(SIGNED_MODE);
      MeaningOfText(Get(body, MODE_FIELD).value, SIGNED_MODE);
    }
  }

  /** In the signed branch, the content digest the validator recomputes is the signed one exactly when the
      incoming mode was already the signed one (or the two contents collide under SHA-256). */
  lemma ContentDigestMatchesIff(p: Primitives, attestation: Dict, seed: seq<byte>, keyId: string, when: string)
    requires FloatFreeMembers(StripExcluded(Provisional(attestation)))
    ensures var sealed := Finish(p, SignedSeal(p, attestation, seed, keyId, when));
            var signed, seen := Provisional(attestation), ValidatorContent(sealed);
            && (Get(attestation, MODE_FIELD) == Some(Str(SIGNED_MODE)) ==> p.Hash(seen) == p.Hash(signed))
            && (p.Hash(seen) == p.Hash(signed) ==>
                  || Get(attestation, MODE_FIELD) == Some(Str(SIGNED_MODE))
                  || Collision(p, CanonicalJsonBytes(seen, false).value, CanonicalJsonBytes(signed, false).value))
  {
    hide SignedSeal, Fields, Provisional, ValidatorContent;
    var sealed := Finish(p, SignedSeal(p, attestation, seed, keyId, when));
    var signed, seen := Provisional(attestation), ValidatorContent(sealed);
    ValidatorSeesRewrittenMode(p, attestation, seed, keyId, when);
    ModeInProvisional(attestation);
    RewriteChangesBody(signed);
    RewriteFloatFree(signed);
    if SameBody(seen, signed) {
      HashOfSameBody(p, seen, signed);
    }
    if p.Hash(seen) == p.Hash(signed) {
      DigestEqualOrCollision(p, CanonicalJsonBytes(seen, false).value, CanonicalJsonBytes(signed, false).value);
      CanonicalBytesIffSameBody(seen, signed);
    }
  }

  lemma ModeInProvisional(attestation: Dict)
    ensures Get(Provisional(attestation), MODE_FIELD) == Get(attestation, MODE_FIELD)
  {
    FieldNames();
    ModeUntouched(attestation);
    GetWithout(Pop(WithVersion(attestation), SIGNATURE_FIELD), {ATTESTATION_SIGNATURE}, MODE_FIELD);
  }

  lemma {:induction false} PutFloatFree(d: Dict, key: string, s: string)
    requires FloatFreeMembers(d)
    ensures FloatFreeMembers(Put(d, key, Str(s)))
  {
    if d != [] && d[0].key != key {
      PutFloatFree(d[1..], key, s);
    }
  }

  lemma RewriteFloatFree(body: Dict)
    requires FloatFreeMembers(StripExcluded(body))
    ensures FloatFreeMembers(StripExcluded(Put(body, MODE_FIELD, Str(SIGNED_MODE))))
  {
    FieldNames();
    WithoutPut(body, HASH_EXCLUDED_FIELDS, MODE_FIELD, Str(SIGNED_MODE));
    PutFloatFree(StripExcluded(body), MODE_FIELD, SIGNED_MODE);
  }

  // ---------------------------------------------------------------- validating a seal

  datatype AttestationIssue =
    | AttestationDigestMismatch | SignatureModeMismatch | SignatureUnverified | KeyUnknown | SignatureUndecodable
    | PublicKeyMalformed | SignatureWrong | TimestampUnreadable | PolicyIssue(issue: Issue)

  function SignaturePart(attestation: Dict): Option<Dict> {
    match Get(attestation, ATTESTATION_SIGNATURE)
    case Some(Obj(members)) => Some(members)
    case _ => None
  }

  function SignatureAlgorithm(attestation: Dict): Option<Json> {
    if SignaturePart(attestation).None? then None else Get(SignaturePart(attestation).value, "algorithm")
  }

  /** The ed25519 envelope verifies under a registered key, at a time the key and the policy allow. */
  predicate EnvelopeAccepted(p: Primitives, attestation: Dict, signature: Dict, registry: Registry, policy: TimestampPolicy) {
    var key := Lookup(registry.keys, p.StrField(signature, "key_id"));
    var value := Base64.DecodeKeyBytes(p.StrField(signature, "value"), Some(64));
    var signedAt := p.ParseUtc(p.StrField(signature, "signed_at"));
    && key.Some? && value.Ok? && |key.value.publicKey| == 32
    && p.verify(key.value.publicKey, ContentMessage(p.Hash(ValidatorContent(attestation))), value.value)
    && signedAt.Some? && key.value.IsValidAt(signedAt.value) && policy.InWindow(signedAt.value)
  }

  predicate SealAccepted(p: Primitives, attestation: Dict, registry: Option<Registry>, policy: TimestampPolicy) {
    var mode := p.StrField(attestation, MODE_FIELD);
    && p.StrField(attestation, SIGNATURE_FIELD) == RecomputedDigest(p, attestation)
    && (mode == BOUND_MODE ==> SignatureAlgorithm(attestation) == Some(Str(BOUND_ALGORITHM)))
    && (mode == SIGNED_MODE ==>
          && SignatureAlgorithm(attestation) == Some(Str("ed25519")) && registry.Some?
          && EnvelopeAccepted(p, attestation, SignaturePart(attestation).value, registry.value, policy))
  }

  lemma ModesApart() ensures BOUND_MODE != SIGNED_MODE
  {
    assert |BOUND_MODE| == 12 && |SIGNED_MODE| == 14;
  }

  method EnvelopeIssues(p: Primitives, attestation: Dict, signature: Dict, registry: Registry, policy: TimestampPolicy)
    returns (errors: seq<AttestationIssue>)
    ensures errors == [] <==> EnvelopeAccepted(p, attestation, signature, registry, policy)
    ensures AttestationDigestMismatch !in errors
  {
    hide Base64.DecodeKeyBytes, ValidatorContent, ContentMessage, Lookup, Strip, IsDigest;
    var contentDigest := p.Hash(ValidatorContent(attestation));
    var key := Lookup(registry.keys, p.StrField(signature, "key_id"));
    if key.None? {
      return [KeyUnknown];
    }
    var message := ContentMessage(contentDigest);
    var value := Base64.DecodeKeyBytes(p.StrField(signature, "value"), Some(64));
    if value.Err? {
      return [SignatureUndecodable];
    }
    if |key.value.publicKey| != 32 {
      return [PublicKeyMalformed];
    }
    if !p.verify(key.value.publicKey, message, value.value) {
      return [SignatureWrong];
    }
    var signedAt := p.ParseUtc(p.StrField(signature, "signed_at"));
    if signedAt.None? {
      return [TimestampUnreadable];
    }
    var timing := policy.Evaluate(signedAt.value, key.value);
    errors := seq(|timing|, i requires 0 <= i < |timing| => PolicyIssue(timing[i]));
  }

  /** The digest and signature checks of `validate_external_attestation`. */
  method SealIssues(p: Primitives, attestation: Dict, registry: Option<Registry>, policy: TimestampPolicy) returns (errors: seq<AttestationIssue>)
    ensures errors == [] <==> SealAccepted(p, attestation, registry, policy)
    ensures AttestationDigestMismatch in errors <==> p.StrField(attestation, SIGNATURE_FIELD) != RecomputedDigest(p, attestation)
  {
    hide EnvelopeAccepted, RecomputedDigest, Get;
    ModesApart();
    errors := [];
    if p.StrField(attestation, SIGNATURE_FIELD) != RecomputedDigest(p, attestation) {
      errors := errors + [AttestationDigestMismatch];
    }
    var mode := p.StrField(attestation, MODE_FIELD);
    if mode == BOUND_MODE {
      if SignatureAlgorithm(attestation) != Some(Str(BOUND_ALGORITHM)) {
        errors := errors + [SignatureModeMismatch];
      }
    } else if mode == SIGNED_MODE {
      if SignatureAlgorithm(attestation) != Some(Str("ed25519")) {
        errors := errors + [SignatureModeMismatch];
      } else if registry.None? {
        errors := errors + [SignatureUnverified];
      } else {
        var envelope := EnvelopeIssues(p, attestation, SignaturePart(attestation).value, registry.value, policy);
        ghost var before := errors;
        errors := errors + envelope;
        assert errors == [] <==> before == [] && envelope == [];
      }
    }
  }

  // ---------------------------------------------------------------- accepted seals, spelt out

  /** The signature verifies for a content digest under a key, at a time the key and the policy allow. */
  ghost predicate KeyHolds(p: Primitives, signature: Dict, digest: string, key: TrustedKey, policy: TimestampPolicy) {
    var raw, when := Base64.DecodeKeyBytes(p.StrField(signature, "value"), Some(64)), p.ParseUtc(p.StrField(signature, "signed_at"));
    && raw.Ok? && |key.publicKey| == 32
    && p.verify(key.publicKey, Utf8.Encode("PCS:" + ("ExternalAttestation.v0" + (":" + ("v0" + (":" + digest))))), raw.value)
    && when.Some? && IntegrityTheorems.TimeHolds(key, when.value, policy)
  }

  /** The envelope's signature verifies for the rebuilt message under the first key of its id, at a time the
      key and the policy allow. */
  ghost predicate EnvelopeHolds(p: Primitives, attestation: Dict, signature: Dict, registry: Registry, policy: TimestampPolicy) {
    var content := Pop(Pop(attestation, "attestation_signature"), "signature_or_digest");
    exists i :: && IntegrityTheorems.FirstKey(registry.keys, p.StrField(signature, "key_id"), i)
                && KeyHolds(p, signature, p.Hash(content), registry.keys[i], policy)
  }

  /** When a seal is accepted, over the attestation's fields. */
  lemma SealMeaning(p: Primitives, attestation: Dict, registry: Option<Registry>, policy: TimestampPolicy)
    ensures SealAccepted(p, attestation, registry, policy) <==>
              && p.StrField(attestation, "signature_or_digest") == p.Hash(Pop(attestation, "signature_or_digest"))
              && (p.StrField(attestation, "authentication_mode") == "digest_bound" ==> MarkedBound(attestation))
              && (p.StrField(attestation, "authentication_mode") == "ed25519_signed" ==> SignedHolds(p, attestation, registry, policy))
  {
    hide Get, EnvelopeAccepted, EnvelopeHolds, Without;
    if SignaturePart(attestation).Some? && registry.Some? {
      EnvelopeMeans(p, attestation, SignaturePart(attestation).value, registry.value, policy);
    }
  }

  ghost predicate MarkedBound(attestation: Dict) {
    match Get(attestation, "attestation_signature")
    case Some(Obj(part)) => Get(part, "algorithm") == Some(Str("sha256-digest-bound"))
    case _ => false
  }

  ghost predicate SignedHolds(p: Primitives, attestation: Dict, registry: Option<Registry>, policy: TimestampPolicy) {
    match Get(attestation, "attestation_signature")
    case Some(Obj(part)) =>
      Get(part, "algorithm") == Some(Str("ed25519")) && registry.Some? && EnvelopeHolds(p, attestation, part, registry.value, policy)
    case _ => false
  }

  lemma EnvelopeMeans(p: Primitives, attestation: Dict, signature: Dict, registry: Registry, policy: TimestampPolicy)
    ensures EnvelopeAccepted(p, attestation, signature, registry, policy) <==> EnvelopeHolds(p, attestation, signature, registry, policy)
  {
    var keyId := p.StrField(signature, "key_id");
    IntegrityTheorems.FirstKeyFound(registry.keys, keyId);
    IntegrityTheorems.OneKey(registry.keys, keyId);
    hide Base64.DecodeKeyBytes, Text.Strip, Get, Utf8.Encode, ContentMessage, KeyHolds, Lookup, IsDigest;
    if Lookup(registry.keys, keyId).Some? {
      var i :| IntegrityTheorems.FirstKey(registry.keys, keyId, i);
      KeyMeans(p, attestation, signature, registry.keys[i], policy);
    }
  }

  lemma KeyMeans(p: Primitives, attestation: Dict, signature: Dict, key: TrustedKey, policy: TimestampPolicy)
    ensures var value, signedAt := Base64.DecodeKeyBytes(p.StrField(signature, "value"), Some(64)), p.ParseUtc(p.StrField(signature, "signed_at"));
            KeyHolds(p, signature, p.Hash(ValidatorContent(attestation)), key, policy) <==>
              && value.Ok? && |key.publicKey| == 32
              && p.verify(key.publicKey, ContentMessage(p.Hash(ValidatorContent(attestation))), value.value)
              && signedAt.Some? && key.IsValidAt(signedAt.value) && policy.InWindow(signedAt.value)
  {
    MessageForm(p.Hash(ValidatorContent(attestation)));
    hide Base64.DecodeKeyBytes, Text.Strip, Get, Utf8.Encode, ContentMessage, ValidatorContent, IsDigest;
  }

  lemma MessageForm(digest: string)
    requires IsDigest(digest)
    ensures ContentMessage(digest) == Utf8.Encode("PCS:" + ("ExternalAttestation.v0" + (":" + ("v0" + (":" + digest)))))
  {
    AttestationDomain();
    hide Utf8.Encode;
  }

  // ---------------------------------------------------------------- seal, then validate

  lemma SealedFields(p: Primitives, sealed: Dict, mode: string, signature: Dict, before: Dict)
    requires sealed == Put(Put(before, MODE_FIELD, Str(mode)), ATTESTATION_SIGNATURE, Obj(signature)) && mode != ""
    ensures var done := Finish(p, sealed);
            && p.StrField(done, MODE_FIELD) == mode && SignaturePart(done) == Some(signature)
            && p.StrField(done, SIGNATURE_FIELD) == RecomputedDigest(p, done)
  {
    FieldNames();
    var done := Finish(p, sealed);
    GetPut(sealed, SIGNATURE_FIELD, Str(p.Hash(sealed)), MODE_FIELD);
    GetPut(sealed, SIGNATURE_FIELD, Str(p.Hash(sealed)), ATTESTATION_SIGNATURE);
    GetPut(Put(before, MODE_FIELD, Str(mode)), ATTESTATION_SIGNATURE, Obj(signature), MODE_FIELD);
    GetPut(Put(before, MODE_FIELD, Str(mode)), ATTESTATION_SIGNATURE, Obj(signature), ATTESTATION_SIGNATURE);
    GetPut(before, MODE_FIELD, Str(mode), MODE_FIELD);
    SealedDigestMatches(p, sealed);
    DigestNotEmpty(p, Pop(done, SIGNATURE_FIELD));
  }

  lemma DigestNotEmpty(p: Primitives, d: Dict)
    ensures p.Hash(d) != ""
  {
    hide CanonicalText;
  }

  /** A digest-bound seal always validates. */
  lemma BoundSealAccepted(p: Primitives, attestation: Dict, registry: Option<Registry>, policy: TimestampPolicy)
    ensures SealAccepted(p, Finish(p, BoundSeal(p, attestation)), registry, policy)
  {
    ModesApart();
    var signature := [Member("algorithm", Str(BOUND_ALGORITHM)), Member("digest", Str(ContentDigest(p, attestation))), Member("note", Str(NOTE))];
    assert Get(signature, "algorithm") == Some(Str(BOUND_ALGORITHM));
    hide ContentDigest, NOTE, Finish, EnvelopeAccepted;
    SealedFields(p, BoundSeal(p, attestation), BOUND_MODE, signature, Pop(WithVersion(attestation), SIGNATURE_FIELD));
  }

  /** The envelope of a signed seal is accepted exactly when the registered key verifies the signature over
      the content the validator sees, at an allowed time. */
  lemma SignedSealChecks(p: Primitives, attestation: Dict, seed: seq<byte>, keyId: string, when: string, registry: Registry, policy: TimestampPolicy)
    requires keyId != "" && when != ""
    ensures var sealed := Finish(p, SignedSeal(p, attestation, seed, keyId, when));
            var key, signedAt := Lookup(registry.keys, keyId), p.ParseUtc(when);
            SealAccepted(p, sealed, Some(registry), policy) <==>
              && key.Some? && |key.value.publicKey| == 32
              && p.verify(key.value.publicKey, ContentMessage(p.Hash(ValidatorContent(sealed))),
                          p.sign(seed, ContentMessage(ContentDigest(p, attestation))))
              && signedAt.Some? && key.value.IsValidAt(signedAt.value) && policy.InWindow(signedAt.value)
  {
    ModesApart();
    var raw := p.sign(seed, ContentMessage(ContentDigest(p, attestation)));
    var signature := SignatureMembers(keyId, when, Base64.EncodeKeyBytes(raw));
    SealedFields(p, SignedSeal(p, attestation, seed, keyId, when), SIGNED_MODE, signature, Pop(WithVersion(attestation), SIGNATURE_FIELD));
    Base64.KeyBytesRoundTrip(raw, Some(64));
    IntegrityTheorems.SignatureMembersReadable(p, keyId, when, Base64.EncodeKeyBytes(raw));
    hide Finish, SignedSeal, Base64.DecodeKeyBytes, Base64.EncodeKeyBytes, ContentMessage, ContentDigest, ValidatorContent, RecomputedDigest,
         SignatureMembers;
  }

  /** A seal signed under the right incoming mode validates under the signer's registered key, at a time the
      key and the policy allow. */
  lemma SignedSealValidates(p: Primitives, attestation: Dict, seed: seq<byte>, keyId: string, when: string, registry: Registry,
                            policy: TimestampPolicy, key: TrustedKey, time: Instant)
    requires p.SignsCorrectly() && |seed| == 32 && keyId != "" && when != ""
    requires Get(attestation, MODE_FIELD) == Some(Str(SIGNED_MODE))
    requires Lookup(registry.keys, keyId) == Some(key) && key.publicKey == p.publicKey(seed)
    requires p.ParseUtc(when) == Some(time) && key.IsValidAt(time) && policy.InWindow(time)
    ensures SealAccepted(p, Finish(p, SignedSeal(p, attestation, seed, keyId, when)), Some(registry), policy)
  {
    hide Finish, SignedSeal, ContentMessage, ValidatorContent, SealAccepted, Provisional, Get;
    SignedSealChecks(p, attestation, seed, keyId, when, registry, policy);
    RewriteIsIdentity(p, attestation, seed, keyId, when);
  }

  lemma RewriteIsIdentity(p: Primitives, attestation: Dict, seed: seq<byte>, keyId: string, when: string)
    requires Get(attestation, MODE_FIELD) == Some(Str(SIGNED_MODE))
    ensures p.Hash(ValidatorContent(Finish(p, SignedSeal(p, attestation, seed, keyId, when)))) == ContentDigest(p, attestation)
  {
    hide Finish, SignedSeal, ValidatorContent, Provisional, Fields;
    ValidatorSeesRewrittenMode(p, attestation, seed, keyId, when);
    ModeInProvisional(attestation);
    RewriteChangesBody(Provisional(attestation));
    HashOfSameBody(p, Put(Provisional(attestation), MODE_FIELD, Str(SIGNED_MODE)), Provisional(attestation));
  }

  /** Under any other incoming mode a signed seal validates only if the registered key verifies the seal's
      signature for the message the validator rebuilds, which is not the one that was signed, or the two
      contents collide. */
  lemma OtherModeNeverValidates(p: Primitives, attestation: Dict, seed: seq<byte>, keyId: string, when: string, registry: Registry,
                                policy: TimestampPolicy)
    requires keyId != "" && when != "" && FloatFreeMembers(StripExcluded(Provisional(attestation)))
    requires Get(attestation, MODE_FIELD) != Some(Str(SIGNED_MODE))
    requires SealAccepted(p, Finish(p, SignedSeal(p, attestation, seed, keyId, when)), Some(registry), policy)
    ensures var seen := ValidatorContent(Finish(p, SignedSeal(p, attestation, seed, keyId, when)));
            var signed := ContentMessage(ContentDigest(p, attestation));
            || Collision(p, CanonicalJsonBytes(seen, false).value, CanonicalJsonBytes(Provisional(attestation), false).value)
            || (&& Lookup(registry.keys, keyId).Some? && ContentMessage(p.Hash(seen)) != signed
                && p.verify(Lookup(registry.keys, keyId).value.publicKey, ContentMessage(p.Hash(seen)), p.sign(seed, signed)))
  {
    hide Finish, SignedSeal, ContentMessage, ValidatorContent, SealAccepted, Provisional, Get, CanonicalJsonBytes;
    SignedSealChecks(p, attestation, seed, keyId, when, registry, policy);
    ContentDigestMatchesIff(p, attestation, seed, keyId, when);
    var seen := ValidatorContent(Finish(p, SignedSeal(p, attestation, seed, keyId, when)));
    if p.Hash(seen) != p.Hash(Provisional(attestation)) {
      MessagesDiffer(p.Hash(seen), ContentDigest(p, attestation));
    }
  }

  lemma MessagesDiffer(a: string, b: string)
    requires IsDigest(a) && IsDigest(b) && a != b
    ensures ContentMessage(a) != ContentMessage(b)
  {
    AttestationDomain();
    if ContentMessage(a) == ContentMessage(b) {
      SigningMessageInjective(ATTESTATION_TYPE, ATTESTATION_VERSION, a, ATTESTATION_TYPE, ATTESTATION_VERSION, b);
    }
  }
}
