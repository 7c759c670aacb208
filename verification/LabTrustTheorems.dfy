/** LabTrust releases: extraction succeeds exactly when the release reads and its certificate id does not
    hide the word "unknown", and what a passing verdict then says about the release. */
module LabTrustTheorems {
  import opened Wrappers
  import opened Text
  import opened Json
  import opened CanonicalJson
  import opened Primitives
  import opened Release
  import opened Projection
  import opened ProjectionValidation
  import opened ProjectionTheorems
  import opened Extraction
  import opened ExtractionTheorems
  import opened ObligationVerdict
  import opened ObligationDocument
  import opened LeanTrust
  import ExtractionRun

  // ---------------------------------------------------------------- no collisions

  function LabTrustOwn(v: LabTrust): (own: seq<AddRequest>)
    ensures LabTrustRequests(v) == own + ChainRequests(v.chain)
  {
    LabTrustRequests(v)[..3]
  }

  lemma LabTrustLengths(v: LabTrust)
    ensures var q := LabTrustOwn(v);
            && |q| == 3
            && |q[0].jsonPointer| == 15 && |q[1].jsonPointer| == 11 && |q[2].jsonPointer| == 11
            && |q[0].leanIdentifier| == 33 && |q[1].leanIdentifier| == 29 && |q[2].leanIdentifier| == 32
            && |q[1].artifactPath| == 22 && |q[2].artifactPath| == 20
  {
    assert |"/certificate_id"| == 15 && |"/trace_hash"| == 11;
    assert |"concreteCertificate.certificateId"| == 33 && |"concreteCertificate.traceHash"| == 29;
    assert |"concreteRuntimeReceipt.traceHash"| == 32;
    assert |"trace_certificate.json"| == 22 && |"runtime_receipt.json"| == 20;
  }

  lemma {:induction false} LabTrustDistinct(v: LabTrust)
    ensures DistinctRequests(LabTrustRequests(v))
  {
    var own := LabTrustOwn(v);
    LabTrustLengths(v);
    assert DistinctRequests(own);
    ChainDistinct(v.chain);
    forall x, y | x in own && y in ChainRequests(v.chain) ensures !Collide(x, y) {
      assert ChainShaped(y);
    }
    DistinctConcat(own, ChainRequests(v.chain));
  }

  // ---------------------------------------------------------------- what was read

  const CERTIFICATE := "trace_certificate.json"
  const RECEIPT := "runtime_receipt.json"

  ghost predicate LabTrustSource(p: Primitives, r: Release, v: LabTrust) {
    && RequireDict(p, r, CERTIFICATE).Ok? && RequireDict(p, r, RECEIPT).Ok?
    && var cert := RequireDict(p, r, CERTIFICATE).value;
       var receipt := RequireDict(p, r, RECEIPT).value;
    && RequireText(cert, "certificate_id", CERTIFICATE) == Ok(v.certificateId)
    && Get(cert, "trace_hash") == Some(Str(v.certificateTraceHash)) && IsDigest(v.certificateTraceHash)
    && Get(receipt, "trace_hash") == Some(Str(v.runtimeTraceHash)) && IsDigest(v.runtimeTraceHash)
    && RequireText(cert, "status", CERTIFICATE) == Ok(v.certificateStatus)
    && ChainSource(p, r, v.chain)
  }

  lemma LabTrustRead(p: Primitives, r: Release)
    requires ReadLabTrust(p, r).Ok?
    ensures LabTrustSource(p, r, ReadLabTrust(p, r).value)
  {
    hide RequireDict, RequireText, IsDigest, ReadChain;
    var v := ReadLabTrust(p, r).value;
    assert RequireDict(p, r, "verification_result.json").Ok?;
    assert ChainSource(p, r, v.chain);
  }

  // ---------------------------------------------------------------- requests

  lemma CertificateIdentifier() ensures PlainIdentifier("concreteCertificate.certificateId") {}

  lemma CertificateTraceIdentifier() ensures PlainIdentifier("concreteCertificate.traceHash") {}

  lemma RuntimeTraceIdentifier() ensures PlainIdentifier("concreteRuntimeReceipt.traceHash") {}

  lemma TraceHashToken() ensures PlainToken("trace_hash") && "/trace_hash" == "/" + "trace_hash" {}

  lemma TraceHashPointer(d: Dict, value: string)
    requires Get(d, "trace_hash") == Some(Str(value))
    ensures ResolvePointer(Obj(d), "/trace_hash") == Some(Str(value))
  {
    hide *;
    TraceHashToken();
    FieldPointer(d, "trace_hash", "/trace_hash", value);
  }

  lemma CertificateIdToken() ensures PlainToken("certificate_id") && "/certificate_id" == "/" + "certificate_id" {}

  lemma CertificateIdPointer(d: Dict, value: string)
    requires Get(d, "certificate_id") == Some(Str(value))
    ensures ResolvePointer(Obj(d), "/certificate_id") == Some(Str(value))
  {
    hide *;
    CertificateIdToken();
    FieldPointer(d, "certificate_id", "/certificate_id", value);
  }

  lemma RequiredText(d: Dict, name: string, artifact: string, value: string) returns (raw: string)
    requires RequireText(d, name, artifact) == Ok(value)
    ensures Get(d, name) == Some(Str(raw)) && value == Strip(raw) && CheckedValue(value, name) == Ok(value)
  {
    hide Strip, HasUnknownWord;
    raw := Get(d, name).value.s;
  }

  lemma CertificateIdRequest(p: Primitives, r: Release, cert: Dict, value: string)
    requires RequireDict(p, r, CERTIFICATE) == Ok(cert) && RequireText(cert, "certificate_id", CERTIFICATE) == Ok(value)
    ensures var req := AddRequest(CERTIFICATE, "/certificate_id", value, "concreteCertificate.certificateId", false);
            Good(p, r, req) <==> !ContainsUnknown(value)
  {
    DictFile(p, r, CERTIFICATE);
    var raw := RequiredText(cert, "certificate_id", CERTIFICATE, value);
    CertificateIdPointer(cert, raw);
    PointersNotPayload();
    CertificateFilePlain();
    CertificateIdentifier();
    hide *;
    TextRequest(p, r, AddRequest(CERTIFICATE, "/certificate_id", value, "concreteCertificate.certificateId", false), cert, raw, "certificate_id");
  }

  lemma TraceHashRequest(p: Primitives, r: Release, name: string, d: Dict, value: string, identifier: string)
    requires RequireDict(p, r, name) == Ok(d) && PlainName(name) && PlainIdentifier(identifier)
    requires Get(d, "trace_hash") == Some(Str(value)) && IsDigest(value)
    ensures Good(p, r, AddRequest(name, "/trace_hash", value, identifier, true))
  {
    DictFile(p, r, name);
    TraceHashPointer(d, value);
    PointersNotPayload();
    hide *;
    FileDigestRequest(p, r, AddRequest(name, "/trace_hash", value, identifier, true), d);
  }

  lemma LabTrustRequestsGood(p: Primitives, r: Release, v: LabTrust)
    requires LabTrustSource(p, r, v)
    ensures var q := LabTrustRequests(v);
            && |q| == 6 && (Good(p, r, q[0]) <==> !ContainsUnknown(v.certificateId))
            && Good(p, r, q[1]) && Good(p, r, q[2]) && Good(p, r, q[3]) && Good(p, r, q[4]) && Good(p, r, q[5])
  {
    hide IsDigest, RequireDict, RequireText, Good, ContainsUnknown, PlainIdentifier, PlainName, ChainSource;
    CertificateIdRequest(p, r, RequireDict(p, r, CERTIFICATE).value, v.certificateId);
    CertificateFilePlain();
    ReceiptFilePlain();
    CertificateTraceIdentifier();
    RuntimeTraceIdentifier();
    TraceHashRequest(p, r, CERTIFICATE, RequireDict(p, r, CERTIFICATE).value, v.certificateTraceHash, "concreteCertificate.traceHash");
    TraceHashRequest(p, r, RECEIPT, RequireDict(p, r, RECEIPT).value, v.runtimeTraceHash, "concreteRuntimeReceipt.traceHash");
    ChainRequestsGood(p, r, v.chain);
  }

  /** Extraction of a LabTrust release succeeds exactly when its documents read, a release id is
      declared, and the certificate id does not hide the word "unknown": the builder refuses nothing and
      the replay confirms every entry. */
  lemma LabTrustExtracts(p: Primitives, r: Release, given: Option<string>, commit: string)
    ensures (exists doc :: Extracts(p, r, given, LabTrustRelease, commit, doc)) <==>
              && ResolveReleaseId(p, r, given).Ok? && ReadLabTrust(p, r).Ok?
              && !ContainsUnknown(ReadLabTrust(p, r).value.certificateId)
  {
    hide ReadPlan, Prepared, ResolveReleaseId, ReadLabTrust, ContainsUnknown, ReplayOk, Good, LabTrustSource, AddEach, DistinctRequests,
         LabTrustRequests, Document;
    LabTrustPlan(p, r);
    UnreadNotExtracted(p, r, given, LabTrustRelease, commit);
    if ResolveReleaseId(p, r, given).Ok? && ReadLabTrust(p, r).Ok? {
      var v := ReadLabTrust(p, r).value;
      LabTrustRead(p, r);
      LabTrustRequestsGood(p, r, v);
      LabTrustDistinct(v);
      PlanExtracts(p, r, given, LabTrustRelease, commit, LabTrustRequests(v));
    }
  }

  lemma LabTrustPlan(p: Primitives, r: Release)
    ensures ReadPlan(p, r, LabTrustRelease).Ok? <==> ReadLabTrust(p, r).Ok?
    ensures ReadLabTrust(p, r).Ok? ==> ReadPlan(p, r, LabTrustRelease).value.requests == LabTrustRequests(ReadLabTrust(p, r).value)
  {
    hide ReadLabTrust, LabTrustRequests, LabTrustObligations;
  }

  // ---------------------------------------------------------------- the verdict

  /** The certificate is checked and its trace hash is the runtime's, and the release's bundle chains. */
  ghost predicate LabTrustChains(p: Primitives, r: Release) {
    && RequireDict(p, r, CERTIFICATE).Ok? && RequireDict(p, r, RECEIPT).Ok?
    && var cert := RequireDict(p, r, CERTIFICATE).value;
       var receipt := RequireDict(p, r, RECEIPT).value;
    && Get(cert, "trace_hash").Some? && Get(cert, "trace_hash") == Get(receipt, "trace_hash")
    && (exists s :: Get(cert, "status") == Some(Str(s)) && Strip(s) == "CertificateChecked")
    && BundleChains(p, r)
  }

  function TraceInputs(v: LabTrust): Dict {
    [Member("certificate_id", Str(v.certificateId)), Member("certificate_trace_hash", Str(v.certificateTraceHash)),
     Member("runtime_trace_hash", Str(v.runtimeTraceHash)), Member("certificate_status", Str(v.certificateStatus))]
  }

  lemma TraceNames()
    ensures "certificate_trace_hash" != "certificate_id"
    ensures "runtime_trace_hash" !in {"certificate_id", "certificate_trace_hash"}
    ensures "certificate_status" !in {"certificate_id", "certificate_trace_hash", "runtime_trace_hash"}
  {
    assert |"certificate_id"| == 14 && |"certificate_trace_hash"| == 22 && |"runtime_trace_hash"| == 18;
    assert |"certificate_status"| == 18 && "certificate_status"[0] == 'c' && "runtime_trace_hash"[0] == 'r';
  }

  lemma TraceFields(v: LabTrust)
    ensures var d := TraceInputs(v);
            && Get(d, "certificate_trace_hash") == Some(Str(v.certificateTraceHash))
            && Get(d, "runtime_trace_hash") == Some(Str(v.runtimeTraceHash))
            && Get(d, "certificate_status") == Some(Str(v.certificateStatus))
  {
    hide Get;
    TraceNames();
    var d := TraceInputs(v);
    forall name ensures Get(d, name) == OneOfFour(d[0], d[1], d[2], d[3], name) {
      FourFields(d[0], d[1], d[2], d[3], name);
    }
  }

  lemma TraceHolds(p: Primitives, v: LabTrust)
    ensures Evaluate(p, "CertificateMatchesRuntime", TraceInputs(v)).None? <==>
              v.certificateTraceHash == v.runtimeTraceHash && v.certificateStatus == "CertificateChecked"
  {
    TraceFields(v);
    SameTexts(TraceInputs(v), "certificate_trace_hash", "runtime_trace_hash", v.certificateTraceHash, v.runtimeTraceHash);
    hide SameField, EvaluateWitness, TraceInputs;
  }

  lemma TraceMeaning(p: Primitives, r: Release, v: LabTrust)
    requires LabTrustSource(p, r, v)
    ensures LabTrustChains(p, r) <==>
              && v.certificateTraceHash == v.runtimeTraceHash && v.certificateStatus == "CertificateChecked"
              && BundleChains(p, r)
  {
    hide RequireDict, IsDigest, RequireText, ChainSource, BundleChains, Strip;
    var cert := RequireDict(p, r, CERTIFICATE).value;
    var raw := RequiredText(cert, "status", CERTIFICATE, v.certificateStatus);
  }

  lemma ChainSourceFacts(p: Primitives, r: Release, c: Chain)
    requires ChainSource(p, r, c)
    ensures BundleChains(p, r) <==>
              && Evaluate(p, "VerificationAdmitsBundle", AdmitsInputs(c)).None?
              && Evaluate(p, "SignedBundleAdmissible", SignedInputs(c)).None?
  {
    hide ReadChain, RequireDict, Evaluate, BundleChains, RequireText, BlockingChecksPassed, GetIn, CertifiedBundleHash, IsDigest;
    var verification, signed :|
      && RequireDict(p, r, "verification_result.json") == Ok(verification)
      && RequireDict(p, r, "signed_science_claim_bundle.json") == Ok(signed)
      && ReadChain(p, r, verification, signed) == Ok(c);
    ChainRead(p, r, verification, signed);
    ChainObligationsHold(p, r, verification, signed, c);
  }

  /** The obligations of a LabTrust release all hold exactly when the release chains. */
  lemma LabTrustObligationsHold(p: Primitives, r: Release, v: LabTrust)
    requires LabTrustSource(p, r, v)
    ensures AllPassed(Rows(p, LabTrustObligations(v))) <==> LabTrustChains(p, r)
    ensures KindsKnown(Rows(p, LabTrustObligations(v)))
  {
    hide Evaluate, Rows, Obligation, LabTrustChains, BundleChains, AllPassed, KindsKnown, RequireDict, RequireText, IsDigest, ChainSource;
    ThreeRows(p, LabTrustObligations(v), "trace_hash_alignment", "CertificateMatchesRuntime", TraceInputs(v),
              "verification_admits_bundle", "VerificationAdmitsBundle", AdmitsInputs(v.chain),
              "signed_bundle_admissible", "SignedBundleAdmissible", SignedInputs(v.chain));
    TraceHolds(p, v);
    TraceMeaning(p, r, v);
    ChainSourceFacts(p, r, v.chain);
  }

  lemma LabTrustPrepared(p: Primitives, r: Release)
    requires Prepared(p, r, LabTrustRelease).Ok?
    ensures ReadLabTrust(p, r).Ok? && Prepared(p, r, LabTrustRelease).value.1 == LabTrustObligations(ReadLabTrust(p, r).value)
  {
    hide ReadLabTrust, AddEach, LabTrustObligations, LabTrustRequests;
  }

  /** A check of an extracted LabTrust document always gives a verdict, its kinds are all in the catalog,
      and its obligations all pass exactly when the release really chains. */
  lemma LabTrustVerdict(p: Primitives, r: Release, given: Option<string>, commit: string, doc: Dict)
    requires Extracts(p, r, given, LabTrustRelease, commit, doc)
    ensures Header(p, doc).Ok? && ObligationEntries(doc).Ok?
    ensures KindsKnown(Rows(p, ObligationEntries(doc).value))
    ensures AllPassed(Rows(p, ObligationEntries(doc).value)) <==> LabTrustChains(p, r)
  {
    hide Extracts, ReadLabTrust, Rows, LabTrustChains, Header, ObligationEntries, ResolveReleaseId, Prepared, CheckedValue, LabTrustSource,
         AllPassed, KindsKnown;
    ExtractsParts(p, r, given, LabTrustRelease, commit, doc);
    ExtractionRun.ReleaseIdChecked(p, r, given);
    ExtractedHeader(p, r, given, LabTrustRelease, commit, doc);
    LabTrustPrepared(p, r);
    LabTrustRead(p, r);
    LabTrustObligationsHold(p, r, ReadLabTrust(p, r).value);
  }

  lemma ExtractsParts(p: Primitives, r: Release, given: Option<string>, w: Workflow, commit: string, doc: Dict)
    requires Extracts(p, r, given, w, commit, doc)
    ensures ResolveReleaseId(p, r, given).Ok? && Prepared(p, r, w).Ok?
  {
    hide ResolveReleaseId, Prepared, ReplayOk;
  }
}
