/** When extraction succeeds: the builder never refuses a request of a readable release, and the replay
    only ever fails on a hidden "unknown". */
module ExtractionTheorems {
  import opened Wrappers
  import opened Text
  import opened Json
  import opened CanonicalJson
  import opened Primitives
  import opened Release
  import opened Projection
  import opened ProjectionValidation
  import opened ProjectionTheorems
  import opened Payloads
  import opened Extraction

  // ---------------------------------------------------------------- lists of requests

  /** A request the builder takes when nothing collides with it. */
  predicate RequestOk(r: Release, req: AddRequest) {
    FormError(r, req).None? && (Synthetic(req.artifactPath) ==> IsDigest(req.normalizedValue))
  }

  ghost predicate DistinctRequests(requests: seq<AddRequest>) {
    forall i, j :: 0 <= i < j < |requests| ==> !Collide(requests[i], requests[j])
  }

  predicate Collide(a: AddRequest, b: AddRequest) {
    (a.artifactPath == b.artifactPath && a.jsonPointer == b.jsonPointer) || a.leanIdentifier == b.leanIdentifier
  }

  lemma FreeRequestTaken(r: Release, entries: seq<Entry>, req: AddRequest)
    requires RequestOk(r, req)
    requires forall e :: e in entries ==>
               !(e.artifactPath == req.artifactPath && e.jsonPointer == req.jsonPointer) && e.leanIdentifier != req.leanIdentifier
    ensures AddError(r, entries, req).None?
  {
    hide FormError, IsDigest;
    assert !PointerTaken(entries, req.artifactPath, req.jsonPointer);
    assert !IdentifierTaken(entries, req.leanIdentifier);
  }

  lemma NewEntryFields(p: Primitives, r: Release, req: AddRequest)
    requires RequestOk(r, req)
    ensures FormError(r, req).None?
    ensures var e := NewEntry(p, r, req);
            && e.artifactPath == req.artifactPath && e.jsonPointer == req.jsonPointer
            && e.normalizedValue == req.normalizedValue && e.leanIdentifier == req.leanIdentifier
  {
    hide FormError, FileDigest, ResolverDigest, IsDigest;
  }

  /** Well-formed requests that do not collide are all taken, in order: the duplicate-pointer and
      duplicate-identifier refusals are unreachable. */
  lemma {:induction false} AddEachSucceeds(p: Primitives, r: Release, requests: seq<AddRequest>)
    requires DistinctRequests(requests) && forall i :: 0 <= i < |requests| ==> RequestOk(r, requests[i])
    ensures AddEach(p, r, [], requests).Ok?
    ensures var entries := AddEach(p, r, [], requests).value;
            && |entries| == |requests|
            && forall i :: 0 <= i < |requests| ==> FormError(r, requests[i]).None? && entries[i] == NewEntry(p, r, requests[i])
    decreases |requests|
  {
    hide FormError, NewEntry, RequestOk, AddError;
    if requests != [] {
      var n := |requests| - 1;
      AddEachSucceeds(p, r, requests[..n]);
      var before := AddEach(p, r, [], requests[..n]).value;
      forall i | 0 <= i < |before|
        ensures !(before[i].artifactPath == requests[n].artifactPath && before[i].jsonPointer == requests[n].jsonPointer)
        ensures before[i].leanIdentifier != requests[n].leanIdentifier
      {
        NewEntryFields(p, r, requests[i]);
        assert !Collide(requests[i], requests[n]);
      }
      NewEntryFields(p, r, requests[n]);
      FreeRequestTaken(r, before, requests[n]);
    }
  }

  /** A request refused for its form stops the whole list. */
  lemma {:induction false} AddEachRefused(p: Primitives, r: Release, requests: seq<AddRequest>, i: nat)
    requires i < |requests| && !RequestOk(r, requests[i])
    ensures AddEach(p, r, [], requests).Err?
    decreases |requests|
  {
    hide FormError, FileDigest, ResolverDigest, IsDigest;
    var n := |requests| - 1;
    if i < n {
      AddEachRefused(p, r, requests[..n], i);
    }
  }

  lemma {:induction false} AddEachSound(p: Primitives, r: Release, requests: seq<AddRequest>)
    requires AddEach(p, r, [], requests).Ok?
    ensures EntriesSound(p, r, AddEach(p, r, [], requests).value)
    decreases |requests|
  {
    hide AddEntry, EntrySound;
    if requests != [] {
      var n := |requests| - 1;
      AddEachSound(p, r, requests[..n]);
      AddEntryKeepsSound(p, r, AddEach(p, r, [], requests[..n]).value, requests[n]);
    }
  }

  // ---------------------------------------------------------------- form of requests

  /** Identifier characters only, no letter k, and a letter first. */
  predicate PlainIdentifier(s: string) {
    s != "" && !IsDigit(s[0]) && s[0] != '.' && forall i :: 0 <= i < |s| ==> IdentifierChar(s[i]) && s[i] != 'k' && s[i] != 'K'
  }

  lemma PlainIdentifierClean(s: string)
    requires PlainIdentifier(s)
    ensures LeanIdentifier(s) && !ContainsUnknown(s) && CheckedValue(s, "lean_identifier") == Ok(s)
  {
    KFreeIsClean(s, "lean_identifier");
  }

  /** A digest under a plain identifier makes a good request, from a file or the registered resolver. */
  lemma DigestRequestOk(r: Release, req: AddRequest)
    requires IsDigest(req.normalizedValue) && StartsWith(req.jsonPointer, "/") && PlainIdentifier(req.leanIdentifier)
    ensures RequestOk(r, req) <==> if Synthetic(req.artifactPath) then Registered(req.artifactPath) else Contained(r, req.artifactPath)
  {
    hide IsDigest, Contained, PlainIdentifier, LeanIdentifier, CheckedValue;
    PlainIdentifierClean(req.leanIdentifier);
    DigestIsClean(req.normalizedValue, req.leanIdentifier);
  }

  lemma IdRequestOk(r: Release, req: AddRequest, field: string)
    requires CheckedValue(req.normalizedValue, field).Ok? && !req.requireDigest
    requires StartsWith(req.jsonPointer, "/") && PlainIdentifier(req.leanIdentifier)
    requires PlainName(req.artifactPath) && req.artifactPath in r.files
    ensures RequestOk(r, req)
  {
    CheckedAnyField(req.normalizedValue, field, req.leanIdentifier);
    hide IsDigest, Contained, PlainIdentifier, LeanIdentifier, CheckedValue;
    PlainIdentifierClean(req.leanIdentifier);
    PlainNameContained(r, req.artifactPath);
  }

  lemma CheckedAnyField(value: string, field: string, other: string)
    requires CheckedValue(value, field).Ok?
    ensures CheckedValue(value, other) == Ok(value)
  {
    hide HasUnknownWord, Strip;
  }

  // ---------------------------------------------------------------- freshness

  lemma NormalizeText(raw: string, field: string)
    requires CheckedValue(Strip(raw), field).Ok?
    ensures Normalize(Str(raw), field) == Ok(Strip(raw))
  {
    hide Strip;
    CheckedAnyField(Strip(raw), field, field);
  }

  lemma FieldResolves(p: Primitives, r: Release, e: Entry, d: Dict, raw: string)
    requires e.artifactPath in r.files && p.parseJson(r.files[e.artifactPath]) == Some(Obj(d))
    requires ResolvePointer(Obj(d), e.jsonPointer) == Some(Str(raw))
    requires e.normalizedValue == Strip(raw) && CheckedValue(e.normalizedValue, e.leanIdentifier).Ok?
    ensures ResolvedField(p, r, e) == Some(Ok(e.normalizedValue))
  {
    hide CheckedValue, Strip, ResolvePointer, Normalize;
    NormalizeText(raw, e.leanIdentifier);
  }

  /** An entry read from a text field of its file replays as the stripped text. */
  lemma FieldFresh(p: Primitives, r: Release, e: Entry, d: Dict, raw: string)
    requires PlainName(e.artifactPath) && e.artifactPath in r.files && p.parseJson(r.files[e.artifactPath]) == Some(Obj(d))
    requires e.jsonPointer != PAYLOAD_SHA256_POINTER && ResolvePointer(Obj(d), e.jsonPointer) == Some(Str(raw))
    requires e.normalizedValue == Strip(raw) && CheckedValue(e.normalizedValue, e.leanIdentifier).Ok?
    ensures Fresh(p, r, e)
  {
    hide Contained, CheckedValue, Strip, ResolvePointer, ResolvedField, ResolvedIdentity, PlainName, Synthetic;
    FieldResolves(p, r, e, d, raw);
    PlainNotSynthetic(e.artifactPath);
    PlainNameContained(r, e.artifactPath);
  }

  lemma DigestFieldFresh(p: Primitives, r: Release, e: Entry, d: Dict)
    requires PlainName(e.artifactPath) && e.artifactPath in r.files && p.parseJson(r.files[e.artifactPath]) == Some(Obj(d))
    requires e.jsonPointer != PAYLOAD_SHA256_POINTER && ResolvePointer(Obj(d), e.jsonPointer) == Some(Str(e.normalizedValue))
    requires IsDigest(e.normalizedValue)
    ensures Fresh(p, r, e)
  {
    hide CheckedValue, Strip, ResolvePointer, PlainName, Fresh;
    DigestIsClean(e.normalizedValue, e.leanIdentifier);
    FieldFresh(p, r, e, d, e.normalizedValue);
  }

  lemma ResolverFresh(p: Primitives, r: Release, e: Entry)
    requires Registered(e.artifactPath) && CertifiedBundleHash(p, r) == Ok(e.normalizedValue) && IsDigest(e.normalizedValue)
    ensures Fresh(p, r, e)
  {
    hide CheckedValue, Strip, CertifiedBundleHash;
    DigestIsClean(e.normalizedValue, e.leanIdentifier);
    assert CERTIFIED_BUNDLE_RESOLVER_ID[0] == '#';
    assert Synthetic(e.artifactPath);
  }

  // ---------------------------------------------------------------- names

  lemma CertificateFilePlain() ensures PlainName("trace_certificate.json") {}

  lemma ReceiptFilePlain() ensures PlainName("runtime_receipt.json") {}

  lemma VerificationFilePlain() ensures PlainName("verification_result.json") {}

  lemma SignedFilePlain() ensures PlainName("signed_science_claim_bundle.json") {}

  lemma WitnessFilePlain() ensures PlainName("computation_witness.json") {}

  lemma ResultFilePlain() ensures PlainName(RESULT_ARTIFACT_FILE) {}

  lemma VerificationIdentifier() ensures PlainIdentifier("concreteVerification.verifiedInputBundleHash") {}

  lemma CertifiedIdentifier() ensures PlainIdentifier("concreteCertifiedBundleHash") {}

  lemma SignedIdentifier() ensures PlainIdentifier("concreteSignedInputHash") {}

  // ---------------------------------------------------------------- the verification chain

  lemma ChainRead(p: Primitives, r: Release, verification: Dict, signed: Dict)
    requires ReadChain(p, r, verification, signed).Ok?
    ensures var c := ReadChain(p, r, verification, signed).value;
            && IsDigest(c.certified) && IsDigest(c.verified) && IsDigest(c.signed)
            && CertifiedBundleHash(p, r) == Ok(c.certified)
            && GetIn(Some(verification), "verified_input", "bundle_hash") == Some(Str(c.verified))
            && Get(signed, "signed_input_bundle_hash") == Some(Str(c.signed))
            && RequireText(verification, "status", "verification_result.json") == Ok(c.verificationStatus)
            && BlockingChecksPassed(verification) == Ok(c.blockingPassed)
  {
    hide CertifiedBundleIdentity, IsDigest, RequireText, BlockingChecksPassed;
  }

  /** The documents a chain was read from. */
  ghost predicate ChainSource(p: Primitives, r: Release, c: Chain) {
    exists verification, signed ::
      && RequireDict(p, r, "verification_result.json") == Ok(verification)
      && RequireDict(p, r, "signed_science_claim_bundle.json") == Ok(signed)
      && ReadChain(p, r, verification, signed) == Ok(c)
  }

  lemma DictFile(p: Primitives, r: Release, name: string)
    requires RequireDict(p, r, name).Ok?
    ensures name in r.files && p.parseJson(r.files[name]) == Some(Obj(RequireDict(p, r, name).value))
  {
  }

  lemma FieldPointer(d: Dict, name: string, pointer: string, value: string)
    requires PlainToken(name) && pointer == "/" + name && Get(d, name) == Some(Str(value))
    ensures ResolvePointer(Obj(d), pointer) == Some(Str(value))
  {
    hide ResolvePointer;
    ResolveField(d, name);
  }

  lemma VerifiedPointer(verification: Dict, value: string)
    requires GetIn(Some(verification), "verified_input", "bundle_hash") == Some(Str(value))
    ensures ResolvePointer(Obj(verification), "/verified_input/bundle_hash") == Some(Str(value))
  {
    PlainTokenVerified();
    VerifiedPointerText();
    hide ResolvePointer, PlainToken;
    ResolveNested(verification, "verified_input", "bundle_hash");
  }

  lemma VerifiedPointerText() ensures "/" + "verified_input" + "/" + "bundle_hash" == "/verified_input/bundle_hash" {}

  lemma SignedPointer(signed: Dict, value: string)
    requires Get(signed, "signed_input_bundle_hash") == Some(Str(value))
    ensures ResolvePointer(Obj(signed), "/signed_input_bundle_hash") == Some(Str(value))
  {
    PlainTokenSigned();
    assert "/signed_input_bundle_hash" == "/" + "signed_input_bundle_hash";
    hide ResolvePointer, PlainToken;
    FieldPointer(signed, "signed_input_bundle_hash", "/signed_input_bundle_hash", value);
  }

  lemma PlainTokenVerified() ensures PlainToken("verified_input") && PlainToken("bundle_hash") {}

  lemma PlainTokenSigned() ensures PlainToken("signed_input_bundle_hash") {}

  /** A request the builder takes, whose entry the release confirms and the validator's stricter test of
      "unknown" lets through. */
  predicate Good(p: Primitives, r: Release, req: AddRequest) {
    RequestOk(r, req) && Fresh(p, r, NewEntry(p, r, req)) && NoUnknown(NewEntry(p, r, req))
  }

  lemma VerifiedRequestGood(p: Primitives, r: Release, verification: Dict, value: string)
    requires RequireDict(p, r, "verification_result.json") == Ok(verification) && IsDigest(value)
    requires GetIn(Some(verification), "verified_input", "bundle_hash") == Some(Str(value))
    ensures Good(p, r, AddRequest("verification_result.json", "/verified_input/bundle_hash", value, "concreteVerification.verifiedInputBundleHash", true))
  {
    DictFile(p, r, "verification_result.json");
    VerificationFilePlain();
    VerificationIdentifier();
    VerifiedPointer(verification, value);
    PointersNotPayload();
    hide *;
    FileDigestRequest(p, r, AddRequest("verification_result.json", "/verified_input/bundle_hash", value, "concreteVerification.verifiedInputBundleHash", true), verification);
  }

  lemma SignedRequestGood(p: Primitives, r: Release, signed: Dict, value: string)
    requires RequireDict(p, r, "signed_science_claim_bundle.json") == Ok(signed) && IsDigest(value)
    requires Get(signed, "signed_input_bundle_hash") == Some(Str(value))
    ensures Good(p, r, AddRequest("signed_science_claim_bundle.json", "/signed_input_bundle_hash", value, "concreteSignedInputHash", true))
  {
    DictFile(p, r, "signed_science_claim_bundle.json");
    SignedFilePlain();
    SignedIdentifier();
    SignedPointer(signed, value);
    PointersNotPayload();
    hide *;
    FileDigestRequest(p, r, AddRequest("signed_science_claim_bundle.json", "/signed_input_bundle_hash", value, "concreteSignedInputHash", true), signed);
  }

  lemma CertifiedRequestGood(p: Primitives, r: Release, value: string)
    requires CertifiedBundleHash(p, r) == Ok(value) && IsDigest(value)
    ensures Good(p, r, AddRequest(CERTIFIED_BUNDLE_RESOLVER_ID, CERTIFIED_BUNDLE_POINTER, value, "concreteCertifiedBundleHash", true))
  {
    CertifiedIdentifier();
    assert StartsWith(CERTIFIED_BUNDLE_POINTER, "/");
    assert Registered(CERTIFIED_BUNDLE_RESOLVER_ID);
    hide *;
    ResolverRequest(p, r, AddRequest(CERTIFIED_BUNDLE_RESOLVER_ID, CERTIFIED_BUNDLE_POINTER, value, "concreteCertifiedBundleHash", true));
  }

  /** The three chain requests are good. */
  lemma ChainRequestsGood(p: Primitives, r: Release, c: Chain)
    requires ChainSource(p, r, c)
    ensures Good(p, r, ChainRequests(c)[0]) && Good(p, r, ChainRequests(c)[1]) && Good(p, r, ChainRequests(c)[2])
  {
    hide IsDigest, ReadChain, RequireDict, CertifiedBundleHash, Good, RequireText, BlockingChecksPassed, GetIn;
    var verification, signed :|
      && RequireDict(p, r, "verification_result.json") == Ok(verification)
      && RequireDict(p, r, "signed_science_claim_bundle.json") == Ok(signed)
      && ReadChain(p, r, verification, signed) == Ok(c);
    ChainRead(p, r, verification, signed);
    VerifiedRequestGood(p, r, verification, c.verified);
    CertifiedRequestGood(p, r, c.certified);
    SignedRequestGood(p, r, signed, c.signed);
  }

  lemma PointersNotPayload()
    ensures "/verified_input/bundle_hash" != PAYLOAD_SHA256_POINTER && "/signed_input_bundle_hash" != PAYLOAD_SHA256_POINTER
    ensures "/trace_hash" != PAYLOAD_SHA256_POINTER && "/certificate_id" != PAYLOAD_SHA256_POINTER
    ensures "/witness_id" != PAYLOAD_SHA256_POINTER && "/dataset_hash" != PAYLOAD_SHA256_POINTER
    ensures "/environment_hash" != PAYLOAD_SHA256_POINTER && "/run_receipt_hash" != PAYLOAD_SHA256_POINTER
    ensures "/sha256" != PAYLOAD_SHA256_POINTER
  {
    assert PAYLOAD_SHA256_POINTER[1] == '#';
    assert "/verified_input/bundle_hash"[1] == 'v' && "/signed_input_bundle_hash"[1] == 's' && "/trace_hash"[1] == 't';
    assert "/certificate_id"[1] == 'c' && "/witness_id"[1] == 'w' && "/dataset_hash"[1] == 'd' && "/environment_hash"[1] == 'e';
    assert "/run_receipt_hash"[1] == 'r' && "/sha256"[1] == 's';
  }

  /** A confirmed digest under a plain identifier is good. */
  lemma DigestEntryGood(p: Primitives, r: Release, req: AddRequest)
    requires IsDigest(req.normalizedValue) && PlainIdentifier(req.leanIdentifier)
    requires RequestOk(r, req) && Fresh(p, r, NewEntry(p, r, req))
    ensures Good(p, r, req)
  {
    hide PlainIdentifier, IsDigest, Fresh, ContainsUnknown, RequestOk, NewEntry;
    NewEntryFields(p, r, req);
    PlainIdentifierClean(req.leanIdentifier);
    DigestIsClean(req.normalizedValue, req.leanIdentifier);
  }

  /** A digest field of a plainly named file. */
  lemma FileDigestRequest(p: Primitives, r: Release, req: AddRequest, d: Dict)
    requires IsDigest(req.normalizedValue) && StartsWith(req.jsonPointer, "/") && PlainIdentifier(req.leanIdentifier)
    requires PlainName(req.artifactPath) && req.artifactPath in r.files && p.parseJson(r.files[req.artifactPath]) == Some(Obj(d))
    requires req.jsonPointer != PAYLOAD_SHA256_POINTER && ResolvePointer(Obj(d), req.jsonPointer) == Some(Str(req.normalizedValue))
    ensures Good(p, r, req)
  {
    hide *;
    PlainNotSynthetic(req.artifactPath);
    PlainNameContained(r, req.artifactPath);
    DigestRequestOk(r, req);
    NewEntryFields(p, r, req);
    DigestFieldFresh(p, r, NewEntry(p, r, req), d);
    DigestEntryGood(p, r, req);
  }

  lemma PlainNotSynthetic(name: string)
    requires PlainName(name)
    ensures !Synthetic(name)
  {
  }

  lemma ResolverRequest(p: Primitives, r: Release, req: AddRequest)
    requires IsDigest(req.normalizedValue) && StartsWith(req.jsonPointer, "/") && PlainIdentifier(req.leanIdentifier)
    requires Registered(req.artifactPath) && CertifiedBundleHash(p, r) == Ok(req.normalizedValue)
    ensures Good(p, r, req)
  {
    assert CERTIFIED_BUNDLE_RESOLVER_ID[0] == '#';
    assert Synthetic(req.artifactPath);
    hide *;
    DigestRequestOk(r, req);
    NewEntryFields(p, r, req);
    ResolverFresh(p, r, NewEntry(p, r, req));
    DigestEntryGood(p, r, req);
  }

  /** An identifier field, stripped, of a plainly named file. */
  lemma TextRequest(p: Primitives, r: Release, req: AddRequest, d: Dict, raw: string, field: string)
    requires req.normalizedValue == Strip(raw) && CheckedValue(req.normalizedValue, field).Ok? && !req.requireDigest
    requires StartsWith(req.jsonPointer, "/") && PlainIdentifier(req.leanIdentifier)
    requires PlainName(req.artifactPath) && req.artifactPath in r.files && p.parseJson(r.files[req.artifactPath]) == Some(Obj(d))
    requires req.jsonPointer != PAYLOAD_SHA256_POINTER && ResolvePointer(Obj(d), req.jsonPointer) == Some(Str(raw))
    ensures Good(p, r, req) <==> !ContainsUnknown(req.normalizedValue)
  {
    hide PlainIdentifier, PlainName, IsDigest, Contained, Fresh, ResolvePointer, FormError, ContainsUnknown, Strip, CheckedValue;
    IdRequestOk(r, req, field);
    PlainIdentifierClean(req.leanIdentifier);
    CheckedAnyField(req.normalizedValue, field, req.leanIdentifier);
    FieldFresh(p, r, NewEntry(p, r, req), d, raw);
  }

  // ---------------------------------------------------------------- from requests to the verdict

  lemma ExtractsIffReplays(p: Primitives, r: Release, given: Option<string>, w: Workflow, commit: string)
    requires ResolveReleaseId(p, r, given).Ok? && Prepared(p, r, w).Ok?
    ensures var manifest := ReleaseManifest(p, ResolveReleaseId(p, r, given).value, w, Prepared(p, r, w).value.0);
            (exists doc :: Extracts(p, r, given, w, commit, doc)) <==> ReplayOk(p, r, manifest, Some(ProjectionHash(p, manifest)))
  {
    hide ResolveReleaseId, Prepared, ReplayOk, ReleaseManifest, ProjectionHash, Document;
    var releaseId := ResolveReleaseId(p, r, given).value;
    var manifest := ReleaseManifest(p, releaseId, w, Prepared(p, r, w).value.0);
    if ReplayOk(p, r, manifest, Some(ProjectionHash(p, manifest))) {
      assert Extracts(p, r, given, w, commit, Document(p, releaseId, w, Prepared(p, r, w).value.1, manifest, commit));
    }
  }

  lemma PlanPrepared(p: Primitives, r: Release, w: Workflow)
    requires ReadPlan(p, r, w).Ok? && ReadPlan(p, r, w).value.requests != []
    requires AddEach(p, r, [], ReadPlan(p, r, w).value.requests).Ok?
    requires |AddEach(p, r, [], ReadPlan(p, r, w).value.requests).value| > 0
    ensures Prepared(p, r, w) == Ok((AddEach(p, r, [], ReadPlan(p, r, w).value.requests).value, ReadPlan(p, r, w).value.obligations))
  {
    hide ReadPlan, AddEach;
  }

  lemma GoodParts(p: Primitives, r: Release, req: AddRequest)
    ensures RequestOk(r, req) ==> FormError(r, req).None?
    ensures Good(p, r, req) <==> RequestOk(r, req) && Fresh(p, r, NewEntry(p, r, req)) && NoUnknown(NewEntry(p, r, req))
  {
    hide FormError, Fresh, NewEntry, NoUnknown, IsDigest;
  }

  /** A plan whose requests do not collide is extracted exactly when every one of them is good. */
  lemma PlanExtracts(p: Primitives, r: Release, given: Option<string>, w: Workflow, commit: string, requests: seq<AddRequest>)
    requires ResolveReleaseId(p, r, given).Ok?
    requires ReadPlan(p, r, w).Ok? && ReadPlan(p, r, w).value.requests == requests && requests != []
    requires DistinctRequests(requests)
    ensures (exists doc :: Extracts(p, r, given, w, commit, doc)) <==> forall i :: 0 <= i < |requests| ==> Good(p, r, requests[i])
  {
    hide ReadPlan, RequestOk, NewEntry, DistinctRequests, ResolveReleaseId, FormError, AddEach, Prepared, Extracts, Good, Fresh, NoUnknown;
    forall i | 0 <= i < |requests|
      ensures RequestOk(r, requests[i]) ==> FormError(r, requests[i]).None?
      ensures Good(p, r, requests[i]) <==> RequestOk(r, requests[i]) && Fresh(p, r, NewEntry(p, r, requests[i]))
                                           && NoUnknown(NewEntry(p, r, requests[i]))
    {
      GoodParts(p, r, requests[i]);
    }
    if i :| 0 <= i < |requests| && !RequestOk(r, requests[i]) {
      AddEachRefused(p, r, requests, i);
      RefusedNotExtracted(p, r, given, w, commit);
    } else {
      AddEachSucceeds(p, r, requests);
      PreparedExtracts(p, r, given, w, commit, requests);
    }
  }

  lemma RefusedNotExtracted(p: Primitives, r: Release, given: Option<string>, w: Workflow, commit: string)
    requires ReadPlan(p, r, w).Ok? && AddEach(p, r, [], ReadPlan(p, r, w).value.requests).Err?
    ensures !exists doc :: Extracts(p, r, given, w, commit, doc)
  {
    hide ReadPlan, AddEach, ResolveReleaseId, ReplayOk;
    assert Prepared(p, r, w).Err?;
  }

  lemma UnreadNotExtracted(p: Primitives, r: Release, given: Option<string>, w: Workflow, commit: string)
    ensures (exists doc :: Extracts(p, r, given, w, commit, doc)) ==> ResolveReleaseId(p, r, given).Ok? && ReadPlan(p, r, w).Ok?
  {
    hide ReadPlan, AddEach, ResolveReleaseId, ReplayOk, ReleaseManifest, Document;
  }

  lemma PreparedExtracts(p: Primitives, r: Release, given: Option<string>, w: Workflow, commit: string, requests: seq<AddRequest>)
    requires ResolveReleaseId(p, r, given).Ok?
    requires ReadPlan(p, r, w).Ok? && ReadPlan(p, r, w).value.requests == requests && requests != []
    requires AddEach(p, r, [], requests).Ok? && |AddEach(p, r, [], requests).value| == |requests|
    ensures var entries := AddEach(p, r, [], requests).value;
            (exists doc :: Extracts(p, r, given, w, commit, doc)) <==>
              forall i :: 0 <= i < |entries| ==> Fresh(p, r, entries[i]) && NoUnknown(entries[i])
  {
    hide ReadPlan, Fresh, NoUnknown, ResolveReleaseId, ReplayOk, Manifest, EntriesSound, AddEach, Prepared, Extracts, ProjectionHash;
    AddEachSound(p, r, requests);
    var entries := AddEach(p, r, [], requests).value;
    PlanPrepared(p, r, w);
    ExtractsIffReplays(p, r, given, w, commit);
    var releaseId := ResolveReleaseId(p, r, given).value;
    BuiltManifestReplays(p, r, ProjectionId(None, releaseId), releaseId, WorkflowId(w), entries);
    assert forall i :: 0 <= i < |entries| ==> entries[i] in entries;
  }

  // ---------------------------------------------------------------- no collisions

  lemma DistinctConcat(a: seq<AddRequest>, b: seq<AddRequest>)
    requires DistinctRequests(a) && DistinctRequests(b)
    requires forall x, y :: x in a && y in b ==> !Collide(x, y)
    ensures DistinctRequests(a + b)
  {
    hide Collide;
    var both := a + b;
    forall i, j | 0 <= i < j < |both| ensures !Collide(both[i], both[j]) {
      if i < |a| <= j {
        assert both[i] in a && both[j] in b;
      }
    }
  }

  lemma ChainLengths(c: Chain)
    ensures var q := ChainRequests(c);
            && |q[0].jsonPointer| == 27 && |q[1].jsonPointer| == 32 && |q[2].jsonPointer| == 25
            && |q[0].leanIdentifier| == 44 && |q[1].leanIdentifier| == 27 && |q[2].leanIdentifier| == 23
  {
    assert |"/verified_input/bundle_hash"| == 27 && |CERTIFIED_BUNDLE_POINTER| == 32 && |"/signed_input_bundle_hash"| == 25;
    assert |"concreteVerification.verifiedInputBundleHash"| == 44 && |"concreteCertifiedBundleHash"| == 27;
    assert |"concreteSignedInputHash"| == 23;
  }

  predicate ChainShaped(req: AddRequest) {
    |req.jsonPointer| in {25, 27, 32} && |req.leanIdentifier| in {23, 27, 44}
  }

  lemma ChainDistinct(c: Chain)
    ensures DistinctRequests(ChainRequests(c)) && forall q :: q in ChainRequests(c) ==> ChainShaped(q)
  {
    ChainLengths(c);
  }
}
