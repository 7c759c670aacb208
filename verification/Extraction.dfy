/** Proof obligations of a release (python/pcs_core/lean_trust.py:71-176, 242-359, 544-831): the
    LabTrust and computation extractors, driving the projection builder. */
module Extraction {
  import opened Wrappers
  import opened Text
  import opened Json
  import opened CanonicalJson
  import opened Primitives
  import opened Release
  import opened Projection
  import opened ProjectionValidation
  import opened Payloads

  // ---------------------------------------------------------------- required readers

  /** `_require_certificate_id`, `_require_status`: a text that is not blank, stripped and checked. */
  function RequireText(d: Dict, name: string, artifact: string): Result<string, ExtractionError> {
    match Get(d, name)
    case Some(Str(s)) => if Strip(s) == "" then Err(MissingField(artifact, name)) else CheckedValue(Strip(s), name)
    case _ => Err(MissingField(artifact, name))
  }

  function RequireDict(p: Primitives, r: Release, name: string): Result<Dict, ExtractionError> {
    var loaded :- LoadDict(p, r, name);
    if loaded.None? then Err(MissingArtifact(name)) else Ok(loaded.value)
  }

  /** One entry of `checks` is an object with a check id and a status. */
  predicate CheckShaped(item: Json) {
    item.Obj? && NonEmptyText(Get(item.members, "check_id")).Some? && NonEmptyText(Get(item.members, "status")).Some?
  }

  predicate CheckPasses(item: Json) {
    item.Obj? && Get(item.members, "status") != Some(Str("failed")) && Get(item.members, "status") != Some(Str("warning"))
  }

  /** `_release_blocking_checks_passed`. */
  function BlockingChecksPassed(verification: Dict): Result<bool, ExtractionError> {
    if Get(verification, "status") != Some(Str("ProofChecked")) then Ok(false)
    else
      match Get(verification, "checks")
      case Some(Arr(items)) =>
        if items == [] then Err(MissingChecks(-1))
        else if exists i :: 0 <= i < |items| && !CheckShaped(items[i]) then Err(MissingChecks(0))
        else Ok(forall i :: 0 <= i < |items| ==> CheckPasses(items[i]))
      case _ => Err(MissingChecks(-1))
  }

  /** What both extractors read of the verification chain. */
  datatype Chain = Chain(certified: string, verified: string, signed: string, verificationStatus: string, blockingPassed: bool)

  function ReadChain(p: Primitives, r: Release, verification: Dict, signed: Dict): Result<Chain, ExtractionError> {
    var certified :- CertifiedBundleHash(p, r);
    var verified :- RequireDigest(GetIn(Some(verification), "verified_input", "bundle_hash"), "/verified_input/bundle_hash");
    var signedHash :- RequireDigest(Get(signed, "signed_input_bundle_hash"), "/signed_input_bundle_hash");
    var status :- RequireText(verification, "status", "verification_result.json");
    var blocking :- BlockingChecksPassed(verification);
    Ok(Chain(certified, verified, signedHash, status, blocking))
  }

  function Obligation(id: string, kind: string, inputs: Dict): Json {
    Obj([Member("obligation_id", Str(id)), Member("kind", Str(kind)), Member("inputs", Obj(inputs))])
  }

  function ChainObligations(c: Chain): seq<Json> {
    [Obligation("verification_admits_bundle", "VerificationAdmitsBundle",
                [Member("verification_status", Str(c.verificationStatus)), Member("verified_input_bundle_hash", Str(c.verified)),
                 Member("certified_bundle_hash", Str(c.certified)), Member("release_blocking_checks_passed", Bool(c.blockingPassed))]),
     Obligation("signed_bundle_admissible", "SignedBundleAdmissible",
                [Member("signed_input_bundle_hash", Str(c.signed)), Member("verified_input_bundle_hash", Str(c.verified))])]
  }

  function ChainRequests(c: Chain): seq<AddRequest> {
    [AddRequest("verification_result.json", "/verified_input/bundle_hash", c.verified, "concreteVerification.verifiedInputBundleHash", true),
     AddRequest(CERTIFIED_BUNDLE_RESOLVER_ID, CERTIFIED_BUNDLE_POINTER, c.certified, "concreteCertifiedBundleHash", true),
     AddRequest("signed_science_claim_bundle.json", "/signed_input_bundle_hash", c.signed, "concreteSignedInputHash", true)]
  }

  /** A document holds a text that is `t` once stripped, and `t` is neither blank nor unknown. */
  ghost predicate ReadsText(d: Dict, name: string, t: string) {
    CheckedValue(t, name) == Ok(t) && exists s :: Get(d, name) == Some(Str(s)) && t == Strip(s)
  }

  lemma TextMeaning(d: Dict, name: string, artifact: string, t: string)
    ensures RequireText(d, name, artifact) == Ok(t) <==> ReadsText(d, name, t)
  {
    match Get(d, name)
    case Some(Str(s)) =>
      CheckedMeaning(Strip(s), name);
      hide Get, Strip, HasUnknownWord, IsSpace, SpellsUnknown, WordChar;
    case _ =>
  }

  /** What the extractors read of the verification chain, over its documents. */
  lemma ChainMeaning(p: Primitives, r: Release, verification: Dict, signed: Dict, c: Chain)
    ensures ReadChain(p, r, verification, signed) == Ok(c) <==>
              && CertifiedBundleHash(p, r) == Ok(c.certified)
              && GetIn(Some(verification), "verified_input", "bundle_hash") == Some(Str(c.verified)) && IsDigest(c.verified)
              && Get(signed, "signed_input_bundle_hash") == Some(Str(c.signed)) && IsDigest(c.signed)
              && ReadsText(verification, "status", c.verificationStatus) && BlockingChecksPassed(verification) == Ok(c.blockingPassed)
  {
    TextMeaning(verification, "status", "verification_result.json", c.verificationStatus);
    hide CertifiedBundleHash, GetIn, Get, IsDigest, RequireText, ReadsText, BlockingChecksPassed;
  }

  // ---------------------------------------------------------------- LabTrust

  datatype LabTrust = LabTrust(
    certificateId: string, certificateTraceHash: string, runtimeTraceHash: string, certificateStatus: string, chain: Chain)

  function ReadLabTrust(p: Primitives, r: Release): Result<LabTrust, ExtractionError> {
    var cert :- RequireDict(p, r, "trace_certificate.json");
    var receipt :- RequireDict(p, r, "runtime_receipt.json");
    var verification :- RequireDict(p, r, "verification_result.json");
    var signed :- RequireDict(p, r, "signed_science_claim_bundle.json");
    var bundle :- RequireDict(p, r, "science_claim_bundle.certified.json");
    var certificateId :- RequireText(cert, "certificate_id", "trace_certificate.json");
    var certificateTraceHash :- RequireDigest(Get(cert, "trace_hash"), "/trace_hash");
    var runtimeTraceHash :- RequireDigest(Get(receipt, "trace_hash"), "/trace_hash");
    var certificateStatus :- RequireText(cert, "status", "trace_certificate.json");
    var chain :- ReadChain(p, r, verification, signed);
    Ok(LabTrust(certificateId, certificateTraceHash, runtimeTraceHash, certificateStatus, chain))
  }

  /** What a LabTrust release reads as, over its five documents. */
  lemma LabTrustMeaning(p: Primitives, r: Release, v: LabTrust)
    ensures ReadLabTrust(p, r) == Ok(v) <==>
              && RequireDict(p, r, "trace_certificate.json").Ok? && RequireDict(p, r, "runtime_receipt.json").Ok?
              && RequireDict(p, r, "verification_result.json").Ok? && RequireDict(p, r, "signed_science_claim_bundle.json").Ok?
              && RequireDict(p, r, "science_claim_bundle.certified.json").Ok?
              && var cert := RequireDict(p, r, "trace_certificate.json").value;
              && ReadsText(cert, "certificate_id", v.certificateId) && ReadsText(cert, "status", v.certificateStatus)
              && Get(cert, "trace_hash") == Some(Str(v.certificateTraceHash)) && IsDigest(v.certificateTraceHash)
              && Get(RequireDict(p, r, "runtime_receipt.json").value, "trace_hash") == Some(Str(v.runtimeTraceHash)) && IsDigest(v.runtimeTraceHash)
              && ReadChain(p, r, RequireDict(p, r, "verification_result.json").value, RequireDict(p, r, "signed_science_claim_bundle.json").value)
                 == Ok(v.chain)
  {
    hide IsDigest, RequireText, ReadsText, ReadChain, Get, RequireDict;
    if RequireDict(p, r, "trace_certificate.json").Ok? {
      var cert := RequireDict(p, r, "trace_certificate.json").value;
      TextMeaning(cert, "certificate_id", "trace_certificate.json", v.certificateId);
      TextMeaning(cert, "status", "trace_certificate.json", v.certificateStatus);
    }
  }

  function LabTrustRequests(v: LabTrust): seq<AddRequest> {
    [AddRequest("trace_certificate.json", "/certificate_id", v.certificateId, "concreteCertificate.certificateId", false),
     AddRequest("trace_certificate.json", "/trace_hash", v.certificateTraceHash, "concreteCertificate.traceHash", true),
     AddRequest("runtime_receipt.json", "/trace_hash", v.runtimeTraceHash, "concreteRuntimeReceipt.traceHash", true)]
    + ChainRequests(v.chain)
  }

  function LabTrustObligations(v: LabTrust): seq<Json> {
    [Obligation("trace_hash_alignment", "CertificateMatchesRuntime",
                [Member("certificate_id", Str(v.certificateId)), Member("certificate_trace_hash", Str(v.certificateTraceHash)),
                 Member("runtime_trace_hash", Str(v.runtimeTraceHash)), Member("certificate_status", Str(v.certificateStatus))])]
    + ChainObligations(v.chain)
  }

  // ---------------------------------------------------------------- computation

  datatype Computation = Computation(
    witnessId: string, datasetHash: string, environmentHash: string, runReceiptHash: string,
    payloads: seq<VerifiedPayload>, witnessStatus: string, witnessHashes: seq<string>, chain: Chain)

  /** Every witness hash as a required digest. */
  function RequireDigests(items: seq<Json>): Result<seq<string>, ExtractionError> {
    if items == [] then Ok([])
    else
      var first :- RequireDigest(Some(items[0]), "/result_hashes");
      var rest :- RequireDigests(items[1..]);
      Ok([first] + rest)
  }

  function WitnessHashes(witnessDoc: Dict): Result<seq<string>, ExtractionError> {
    match Get(witnessDoc, "result_hashes")
    case Some(Arr(items)) => if items == [] then Err(NotADigest("/result_hashes")) else RequireDigests(items)
    case _ => Err(NotADigest("/result_hashes"))
  }

  function VerifiedPayloads(p: Primitives, r: Release): Result<seq<VerifiedPayload>, ExtractionError> {
    var entries := Discovered(p, r, Candidates(p, r));
    if AllVerify(p, r, entries) then Ok(VerifiedList(p, r, entries)) else Err(PayloadRejected)
  }

  function ReadComputation(p: Primitives, r: Release): Result<Computation, ExtractionError> {
    var witnessDoc :- RequireDict(p, r, "computation_witness.json");
    var result :- RequireDict(p, r, RESULT_ARTIFACT_FILE);
    var receipt :- RequireDict(p, r, "computation_run_receipt.json");
    var verification :- RequireDict(p, r, "verification_result.json");
    var signed :- RequireDict(p, r, "signed_science_claim_bundle.json");
    var witnessId :- RequireText(witnessDoc, "witness_id", "computation_witness.json");
    var datasetHash :- RequireDigest(Get(witnessDoc, "dataset_hash"), "/dataset_hash");
    var environmentHash :- RequireDigest(Get(witnessDoc, "environment_hash"), "/environment_hash");
    var runReceiptHash :- RequireDigest(Get(witnessDoc, "run_receipt_hash"), "/run_receipt_hash");
    var payloads :- VerifiedPayloads(p, r);
    var witnessStatus :- RequireText(witnessDoc, "status", "computation_witness.json");
    var witnessHashes :- WitnessHashes(witnessDoc);
    var chain :- ReadChain(p, r, verification, signed);
    Ok(Computation(witnessId, datasetHash, environmentHash, runReceiptHash, payloads, witnessStatus, witnessHashes, chain))
  }

  lemma {:induction false} DigestsMeaning(items: seq<Json>, hashes: seq<string>)
    ensures RequireDigests(items) == Ok(hashes) <==>
              |hashes| == |items| && forall i :: 0 <= i < |items| ==> items[i] == Str(hashes[i]) && IsDigest(hashes[i])
  {
    hide IsDigest;
    if items != [] {
      if hashes != [] {
        DigestsMeaning(items[1..], hashes[1..]);
        assert hashes == [hashes[0]] + hashes[1..];
        if |hashes| == |items| {
          assert (forall i :: 0 <= i < |items| ==> items[i] == Str(hashes[i]) && IsDigest(hashes[i])) <==>
                   && items[0] == Str(hashes[0]) && IsDigest(hashes[0])
                   && forall i :: 0 <= i < |items[1..]| ==> items[1..][i] == Str(hashes[1..][i]) && IsDigest(hashes[1..][i]) by {
            TailHolds(items, hashes);
          }
        }
      }
    }
  }

  lemma TailHolds(items: seq<Json>, hashes: seq<string>)
    requires |hashes| == |items| && items != []
    ensures (forall i :: 0 <= i < |items| ==> items[i] == Str(hashes[i]) && IsDigest(hashes[i])) <==>
              && items[0] == Str(hashes[0]) && IsDigest(hashes[0])
              && forall i :: 0 <= i < |items[1..]| ==> items[1..][i] == Str(hashes[1..][i]) && IsDigest(hashes[1..][i])
  {
    hide IsDigest;
    var x, y := items[1..], hashes[1..];
    if items[0] == Str(hashes[0]) && IsDigest(hashes[0]) && forall i :: 0 <= i < |x| ==> x[i] == Str(y[i]) && IsDigest(y[i]) {
      forall i | 0 <= i < |items| ensures items[i] == Str(hashes[i]) && IsDigest(hashes[i]) {
        if i > 0 {
          assert x[i - 1] == items[i] && y[i - 1] == hashes[i];
        }
      }
    }
  }

  /** What a computation release reads as, over its documents and its payloads. */
  lemma ComputationMeaning(p: Primitives, r: Release, v: Computation)
    ensures ReadComputation(p, r) == Ok(v) <==>
              && RequireDict(p, r, "computation_witness.json").Ok? && RequireDict(p, r, "result_artifact.json").Ok?
              && RequireDict(p, r, "computation_run_receipt.json").Ok? && RequireDict(p, r, "verification_result.json").Ok?
              && RequireDict(p, r, "signed_science_claim_bundle.json").Ok?
              && WitnessRead(RequireDict(p, r, "computation_witness.json").value, v) && VerifiedPayloads(p, r) == Ok(v.payloads)
              && ReadChain(p, r, RequireDict(p, r, "verification_result.json").value, RequireDict(p, r, "signed_science_claim_bundle.json").value)
                 == Ok(v.chain)
  {
    hide IsDigest, RequireText, ReadsText, ReadChain, Get, RequireDict, VerifiedPayloads, WitnessHashes;
    if RequireDict(p, r, "computation_witness.json").Ok? {
      var witnessDoc := RequireDict(p, r, "computation_witness.json").value;
      TextMeaning(witnessDoc, "witness_id", "computation_witness.json", v.witnessId);
      TextMeaning(witnessDoc, "status", "computation_witness.json", v.witnessStatus);
      HashesMeaning(witnessDoc, v.witnessHashes);
    }
  }

  /** The fields a computation reads from its witness. */
  ghost predicate WitnessRead(witnessDoc: Dict, v: Computation) {
    && ReadsText(witnessDoc, "witness_id", v.witnessId) && ReadsText(witnessDoc, "status", v.witnessStatus)
    && Get(witnessDoc, "dataset_hash") == Some(Str(v.datasetHash)) && IsDigest(v.datasetHash)
    && Get(witnessDoc, "environment_hash") == Some(Str(v.environmentHash)) && IsDigest(v.environmentHash)
    && Get(witnessDoc, "run_receipt_hash") == Some(Str(v.runReceiptHash)) && IsDigest(v.runReceiptHash)
    && HashesRead(witnessDoc, v.witnessHashes)
  }

  ghost predicate HashesRead(witnessDoc: Dict, hashes: seq<string>) {
    match Get(witnessDoc, "result_hashes")
    case Some(Arr(items)) =>
      items != [] && |hashes| == |items| && forall i :: 0 <= i < |items| ==> items[i] == Str(hashes[i]) && IsDigest(hashes[i])
    case _ => false
  }

  lemma HashesMeaning(witnessDoc: Dict, hashes: seq<string>)
    ensures WitnessHashes(witnessDoc) == Ok(hashes) <==> HashesRead(witnessDoc, hashes)
  {
    hide Get, IsDigest, RequireDigests;
    match Get(witnessDoc, "result_hashes")
    case Some(Arr(items)) => DigestsMeaning(items, hashes);
    case _ =>
  }

  const PAYLOAD_IDENTIFIER := "concreteVerifiedResultPayloadHash"

  function PayloadIdentifier(index: nat): string {
    if index == 0 then PAYLOAD_IDENTIFIER else PAYLOAD_IDENTIFIER + ("_" + Digits(index))
  }

  function PayloadRequest(v: VerifiedPayload, index: nat): AddRequest {
    AddRequest(v.payloadPath, PAYLOAD_SHA256_POINTER, v.digest, PayloadIdentifier(index), true)
  }

  function PayloadRequests(payloads: seq<VerifiedPayload>): (reqs: seq<AddRequest>)
    ensures |reqs| == |payloads| && forall i :: 0 <= i < |reqs| ==> reqs[i] == PayloadRequest(payloads[i], i)
  {
    seq(|payloads|, i requires 0 <= i < |payloads| => PayloadRequest(payloads[i], i))
  }

  function WitnessRequests(v: Computation): seq<AddRequest>
    requires v.payloads != []
  {
    [AddRequest("computation_witness.json", "/witness_id", v.witnessId, "concreteComputationWitness.witnessId", false),
     AddRequest("computation_witness.json", "/dataset_hash", v.datasetHash, "concreteComputationWitness.datasetHash", true),
     AddRequest("computation_witness.json", "/environment_hash", v.environmentHash, "concreteComputationWitness.environmentHash", true),
     AddRequest("computation_witness.json", "/run_receipt_hash", v.runReceiptHash, "concreteComputationWitness.runReceiptHash", true),
     AddRequest(v.payloads[0].artifactPath, "/sha256", v.payloads[0].digest, "concreteResultArtifactHash", true)]
  }

  function ComputationRequests(v: Computation): seq<AddRequest>
    requires v.payloads != []
  {
    WitnessRequests(v) + PayloadRequests(v.payloads) + ChainRequests(v.chain)
  }

  function Digests(payloads: seq<VerifiedPayload>): (d: seq<string>)
    ensures |d| == |payloads| && forall i :: 0 <= i < |d| ==> d[i] == payloads[i].digest
  {
    seq(|payloads|, i requires 0 <= i < |payloads| => payloads[i].digest)
  }

  function StrItems(s: seq<string>): (items: seq<Json>)
    ensures |items| == |s| && forall i :: 0 <= i < |s| ==> items[i] == Str(s[i])
  {
    seq(|s|, i requires 0 <= i < |s| => Str(s[i]))
  }

  function AlignmentInputs(v: Computation): Dict
    requires v.payloads != []
  {
    [Member("witness_id", Str(v.witnessId)), Member("witness_result_hashes", Arr(StrItems(v.witnessHashes))),
     Member("declared_result_artifact_hashes", Arr(StrItems(Digests(v.payloads)))),
     Member("result_artifact_sha256", Str(v.payloads[0].digest))]
    + [Member("witness_status", Str(v.witnessStatus)), Member("run_receipt_hash", Str(v.runReceiptHash)),
       Member("dataset_hash", Str(v.datasetHash)), Member("environment_hash", Str(v.environmentHash))]
  }

  function ComputationObligations(v: Computation): seq<Json>
    requires v.payloads != []
  {
    [Obligation("computation_witness_hash_alignment", "ComputationWitnessHashAlignment", AlignmentInputs(v))]
    + ChainObligations(v.chain)
  }

  /** The obligations of a LabTrust release, by id and kind. */
  lemma LabTrustTable(v: LabTrust)
    ensures var items := LabTrustObligations(v);
            && |items| == 3 && Identified(items[0], "trace_hash_alignment", "CertificateMatchesRuntime")
            && Identified(items[1], "verification_admits_bundle", "VerificationAdmitsBundle")
            && Identified(items[2], "signed_bundle_admissible", "SignedBundleAdmissible")
  {
    ChainTable(v.chain);
    var inputs := [Member("certificate_id", Str(v.certificateId)), Member("certificate_trace_hash", Str(v.certificateTraceHash)),
                   Member("runtime_trace_hash", Str(v.runtimeTraceHash)), Member("certificate_status", Str(v.certificateStatus))];
    ObligationIdentified("trace_hash_alignment", "CertificateMatchesRuntime", inputs);
    hide ChainObligations, Obligation, Identified;
  }

  /** The obligations of a computation release, by id and kind. */
  lemma ComputationTable(v: Computation)
    requires v.payloads != []
    ensures var items := ComputationObligations(v);
            && |items| == 3 && Identified(items[0], "computation_witness_hash_alignment", "ComputationWitnessHashAlignment")
            && Identified(items[1], "verification_admits_bundle", "VerificationAdmitsBundle")
            && Identified(items[2], "signed_bundle_admissible", "SignedBundleAdmissible")
  {
    ChainTable(v.chain);
    ObligationIdentified("computation_witness_hash_alignment", "ComputationWitnessHashAlignment", AlignmentInputs(v));
    hide ChainObligations, Obligation, Identified, AlignmentInputs;
  }

  lemma ObligationIdentified(id: string, kind: string, inputs: Dict)
    ensures Identified(Obligation(id, kind, inputs), id, kind)
  {
  }

  lemma ChainTable(c: Chain)
    ensures var items := ChainObligations(c);
            && |items| == 2 && Identified(items[0], "verification_admits_bundle", "VerificationAdmitsBundle")
            && Identified(items[1], "signed_bundle_admissible", "SignedBundleAdmissible")
  {
    var admits := [Member("verification_status", Str(c.verificationStatus)), Member("verified_input_bundle_hash", Str(c.verified)),
                   Member("certified_bundle_hash", Str(c.certified)), Member("release_blocking_checks_passed", Bool(c.blockingPassed))];
    var signed := [Member("signed_input_bundle_hash", Str(c.signed)), Member("verified_input_bundle_hash", Str(c.verified))];
    ObligationIdentified("verification_admits_bundle", "VerificationAdmitsBundle", admits);
    ObligationIdentified("signed_bundle_admissible", "SignedBundleAdmissible", signed);
    hide Obligation, Identified;
  }

  ghost predicate Identified(item: Json, id: string, kind: string) {
    exists inputs :: item == Obj([Member("obligation_id", Str(id)), Member("kind", Str(kind)), Member("inputs", Obj(inputs))])
  }

  // ---------------------------------------------------------------- the pipeline

  datatype Workflow = LabTrustRelease | ComputationRelease

  function WorkflowId(w: Workflow): string {
    match w
    case LabTrustRelease => "labtrust.qc_release_v0.1"
    case ComputationRelease => "scientific_computation.reproducibility_v0"
  }

  /** What an extractor asks the builder to add, and the obligations it returns. */
  datatype Plan = Plan(requests: seq<AddRequest>, obligations: seq<Json>)

  function ReadPlan(p: Primitives, r: Release, w: Workflow): Result<Plan, ExtractionError> {
    match w
    case LabTrustRelease =>
      var v :- ReadLabTrust(p, r);
      Ok(Plan(LabTrustRequests(v), LabTrustObligations(v)))
    case ComputationRelease =>
      var v :- ReadComputation(p, r);
      if v.payloads == [] then Err(PayloadRejected) else Ok(Plan(ComputationRequests(v), ComputationObligations(v)))
  }

  /** The builder's entries after a list of requests, all of which must be accepted. */
  function AddEach(p: Primitives, r: Release, entries: seq<Entry>, requests: seq<AddRequest>): Result<seq<Entry>, ExtractionError>
    decreases |requests|
  {
    if requests == [] then Ok(entries)
    else
      var before :- AddEach(p, r, entries, requests[..|requests| - 1]);
      AddEntry(p, r, before, requests[|requests| - 1])
  }

  /** The release id: the caller's, or the one the release manifest declares. */
  function ResolveReleaseId(p: Primitives, r: Release, given: Option<string>): Result<string, ExtractionError> {
    var manifest :- LoadDict(p, r, "release_manifest.v0.json");
    if given.Some? && given.value != "" then CheckedValue(given.value, "release_id")
    else
      var declared: Option<Json> := if manifest.None? then None else Get(manifest.value, "release_id");
      match declared
      case Some(Str(s)) => if Strip(s) == "" then Err(MissingField("release_manifest.v0.json", "release_id")) else CheckedValue(Strip(s), "release_id")
      case _ => Err(MissingField("release_manifest.v0.json", "release_id"))
  }

  /** Which release id an extraction goes by: a non-empty one it was given, else the manifest's, stripped;
      an unreadable manifest raises either way. */
  lemma ReleaseIdMeaning(p: Primitives, r: Release, given: Option<string>, id: string)
    ensures ResolveReleaseId(p, r, given) == Ok(id) <==>
              && CheckedValue(id, "release_id") == Ok(id) && LoadDict(p, r, "release_manifest.v0.json").Ok?
              && (if given.Some? && given.value != "" then id == given.value
                  else match LoadDict(p, r, "release_manifest.v0.json").value
                       case Some(manifest) => exists s :: Get(manifest, "release_id") == Some(Str(s)) && id == Strip(s)
                       case None => false)
  {
    if given.Some? {
      CheckedMeaning(given.value, "release_id");
    }
    hide LoadDict;
    if LoadDict(p, r, "release_manifest.v0.json").Ok? {
      match LoadDict(p, r, "release_manifest.v0.json").value
      case Some(manifest) =>
        match Get(manifest, "release_id") {
          case Some(Str(s)) =>
            CheckedMeaning(Strip(s), "release_id");
            hide Get, Strip, HasUnknownWord, IsSpace, SpellsUnknown, WordChar;
          case _ =>
            hide Get, Strip, CheckedValue;
        }
      case None =>
    }
  }

  /** ProofObligation.v0. */
  function DocumentBody(p: Primitives, releaseId: string, w: Workflow, obligations: seq<Json>, manifest: Dict, commit: string): Dict {
    [Member("schema_version", Str("v0")), Member("obligation_id", Str("proof-obligation-" + releaseId)),
     Member("release_id", Str(releaseId)), Member("workflow_id", Str(WorkflowId(w)))]
    + ([Member("obligations", Arr(obligations)), Member("pcs_projection_manifest", Obj(manifest)),
        Member("pcs_projection_manifest_hash", Str(ProjectionHash(p, manifest))), Member("lean_module", Str("PCS.Theorems"))]
    + [Member("source_commit", Str(commit)), Member(SIGNATURE_FIELD, Str(PLACEHOLDER_DIGEST))])
  }

  function Document(p: Primitives, releaseId: string, w: Workflow, obligations: seq<Json>, manifest: Dict, commit: string): Dict {
    var body := DocumentBody(p, releaseId, w, obligations, manifest, commit);
    Put(body, SIGNATURE_FIELD, Str(p.Hash(body)))
  }

  function ReleaseManifest(p: Primitives, releaseId: string, w: Workflow, entries: seq<Entry>): Dict {
    Manifest(p, ProjectionId(None, releaseId), releaseId, WorkflowId(w), entries)
  }

  /** The entries and obligations of a release, before the replay. */
  function Prepared(p: Primitives, r: Release, w: Workflow): Result<(seq<Entry>, seq<Json>), ExtractionError> {
    var plan :- ReadPlan(p, r, w);
    var entries :- AddEach(p, r, [], plan.requests);
    if entries == [] then Err(NoEntries) else Ok((entries, plan.obligations))
  }

  /** Extraction returns `doc`: the release reads, the builder takes every entry, and the manifest replays. */
  ghost predicate Extracts(p: Primitives, r: Release, given: Option<string>, w: Workflow, commit: string, doc: Dict) {
    && ResolveReleaseId(p, r, given).Ok?
    && Prepared(p, r, w).Ok?
    && var releaseId := ResolveReleaseId(p, r, given).value;
       var manifest := ReleaseManifest(p, releaseId, w, Prepared(p, r, w).value.0);
       && ReplayOk(p, r, manifest, Some(ProjectionHash(p, manifest)))
       && doc == Document(p, releaseId, w, Prepared(p, r, w).value.1, manifest, commit)
  }

  /** No letter k, in any form that folds to it. */
  predicate KFree(s: string) {
    forall i :: 0 <= i < |s| ==> s[i] != 'k' && s[i] != 'K' && s[i] != '\U{212a}'
  }

  /** A text without the letter k is no placeholder. */
  lemma KFreeIsClean(s: string, field: string)
    requires KFree(s) && s != "" && !IsSpace(s[0]) && !IsSpace(s[|s| - 1])
    ensures !ContainsUnknown(s) && Strip(s) == s && CheckedValue(s, field) == Ok(s)
  {
    StripTrimmed(s);
    forall i ensures !UnknownAt(s, i) {
      assert 0 <= i <= |s| - 7 ==> !FoldsTo(s[i + 2], 'k');
    }
  }

  lemma LabTrustIdKFree()
    ensures KFree("labtrust.qc_release_v0.1")
  {
  }

  lemma ComputationIdKFree()
    ensures KFree("scientific_computation.reproducibility_v0")
  {
  }

  lemma WorkflowIdChecked(w: Workflow)
    ensures CheckedValue(WorkflowId(w), "workflow_id").Ok?
  {
    hide CheckedValue, KFree;
    var s := WorkflowId(w);
    match w
    case LabTrustRelease =>
      LabTrustIdKFree();
      assert |s| == 24 && s[0] == 'l' && s[23] == '1';
      KFreeIsClean(s, "workflow_id");
    case ComputationRelease =>
      ComputationIdKFree();
      assert |s| == 41 && s[0] == 's' && s[40] == '0';
      KFreeIsClean(s, "workflow_id");
  }
}
