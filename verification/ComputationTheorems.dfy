/** Computation releases: extraction succeeds exactly when the release reads, its witness id hides no
    "unknown" and no payload path looks like a resolver; and what a passing verdict then says. */
module ComputationTheorems {
  import opened Wrappers
  import opened Text
  import opened Json
  import opened CanonicalJson
  import opened Primitives
  import opened Release
  import opened Projection
  import opened ProjectionValidation
  import opened ProjectionTheorems
  import opened Payloads
  import opened Paths
  import opened Extraction
  import opened ExtractionTheorems
  import opened ObligationVerdict
  import opened ObligationDocument
  import opened LeanTrust
  import LabTrustTheorems
  import ExtractionRun

  const WITNESS := "computation_witness.json"

  // ---------------------------------------------------------------- what was read

  ghost predicate WitnessSource(p: Primitives, r: Release, v: Computation) {
    && RequireDict(p, r, WITNESS).Ok?
    && var d := RequireDict(p, r, WITNESS).value;
    && RequireText(d, "witness_id", WITNESS) == Ok(v.witnessId)
    && Get(d, "dataset_hash") == Some(Str(v.datasetHash)) && IsDigest(v.datasetHash)
    && Get(d, "environment_hash") == Some(Str(v.environmentHash)) && IsDigest(v.environmentHash)
    && Get(d, "run_receipt_hash") == Some(Str(v.runReceiptHash)) && IsDigest(v.runReceiptHash)
    && RequireText(d, "status", WITNESS) == Ok(v.witnessStatus)
    && WitnessHashes(d) == Ok(v.witnessHashes)
  }

  ghost predicate ComputationSource(p: Primitives, r: Release, v: Computation) {
    && WitnessSource(p, r, v) && RequireDict(p, r, RESULT_ARTIFACT_FILE).Ok?
    && VerifiedPayloads(p, r) == Ok(v.payloads) && ChainSource(p, r, v.chain)
  }

  lemma ComputationRead(p: Primitives, r: Release)
    requires ReadComputation(p, r).Ok?
    ensures ComputationSource(p, r, ReadComputation(p, r).value)
  {
    hide RequireDict, RequireText, IsDigest, ReadChain, WitnessHashes, VerifiedPayloads;
    var v := ReadComputation(p, r).value;
    assert RequireDict(p, r, "verification_result.json").Ok?;
    assert ChainSource(p, r, v.chain);
  }

  lemma PayloadsOf(p: Primitives, r: Release, payloads: seq<VerifiedPayload>)
    requires VerifiedPayloads(p, r) == Ok(payloads)
    ensures var entries := Discovered(p, r, Candidates(p, r));
            AllVerify(p, r, entries) && payloads == VerifiedList(p, r, entries) && payloads != [] && NoDuplicates(payloads)
  {
    hide Discovered, Candidates, VerifyPayload;
  }

  /** Each payload is a file of the release, under the digest of its bytes. */
  lemma PayloadBound(p: Primitives, r: Release, payloads: seq<VerifiedPayload>, i: nat)
    requires VerifiedPayloads(p, r) == Ok(payloads) && i < |payloads|
    ensures payloads[i].payloadPath in r.files && payloads[i].digest == FileDigest(p, r, payloads[i].payloadPath)
    ensures exists ref :: ref in r.safe && r.safe[ref] == payloads[i].payloadPath
  {
    hide VerifiedPayloads, Discovered, Candidates, VerifyPayload;
    PayloadsOf(p, r, payloads);
    var entry := Discovered(p, r, Candidates(p, r))[i];
    VerifiedPayloadBound(p, r, entry.doc, entry.path);
  }

  lemma ResultFileParts()
    ensures Parts(RESULT_ARTIFACT_FILE) == [RESULT_ARTIFACT_FILE]
  {
    hide Split;
    SplitNoSeparator(RESULT_ARTIFACT_FILE, '/');
    assert |RESULT_ARTIFACT_FILE| == 20;
    var parts := [RESULT_ARTIFACT_FILE];
    assert parts[1..] == [];
    assert Meaningful(parts) == [RESULT_ARTIFACT_FILE] + Meaningful([]);
  }

  lemma ResultFileName()
    ensures StartsWith(PathName(RESULT_ARTIFACT_FILE), "result_artifact")
  {
    hide Parts;
    ResultFileParts();
  }

  lemma ResultFileRelative(r: Release)
    ensures RelativePath(r, RESULT_ARTIFACT_FILE) == Some(RESULT_ARTIFACT_FILE)
  {
    hide Parts;
    ResultFileParts();
    assert RESULT_ARTIFACT_FILE[0] == 'r';
  }

  lemma ResultFileSlashes()
    ensures Slashes(RESULT_ARTIFACT_FILE) == RESULT_ARTIFACT_FILE
  {
    SlashesPlain(RESULT_ARTIFACT_FILE);
  }

  lemma {:induction false} FirstRelative(r: Release, names: seq<string>, path: string)
    requires names != [] && RelativePath(r, names[0]) == Some(path)
    ensures RelativePaths(r, names) != [] && RelativePaths(r, names)[0] == path
    decreases |names|
  {
    hide RelativePath;
    var n := |names| - 1;
    if n == 0 {
      assert names[..0] == [];
    } else {
      FirstRelative(r, names[..n], path);
    }
  }

  lemma PrimaryName(p: Primitives, r: Release)
    ensures CandidateNames(p, r) != [] && CandidateNames(p, r)[0] == RESULT_ARTIFACT_FILE
  {
    hide Payloads.ManifestNames;
  }

  lemma PrimaryCandidate(p: Primitives, r: Release)
    ensures Candidates(p, r) != [] && Candidates(p, r)[0] == RESULT_ARTIFACT_FILE
  {
    hide CandidateNames, RelativePath, RelativePaths;
    PrimaryName(p, r);
    ResultFileRelative(r);
    FirstRelative(r, CandidateNames(p, r), RESULT_ARTIFACT_FILE);
  }

  lemma PrimaryArtifact(p: Primitives, r: Release, result: Dict)
    requires RequireDict(p, r, RESULT_ARTIFACT_FILE) == Ok(result)
    ensures ArtifactAt(p, r, RESULT_ARTIFACT_FILE) == Some(result)
  {
    DictFile(p, r, RESULT_ARTIFACT_FILE);
    ResultFileName();
    hide PathName, RequireDict;
  }

  /** The first payload is the primary artifact's, and its digest is the one that artifact declares. */
  lemma PrimaryPayload(p: Primitives, r: Release, result: Dict, payloads: seq<VerifiedPayload>)
    requires RequireDict(p, r, RESULT_ARTIFACT_FILE) == Ok(result) && VerifiedPayloads(p, r) == Ok(payloads)
    ensures payloads != [] && payloads[0].artifactPath == RESULT_ARTIFACT_FILE
    ensures Get(result, "sha256") == Some(Str(payloads[0].digest))
  {
    hide VerifiedPayloads, Discovered, Candidates, VerifyPayload, ArtifactAt, Slashes, RequireDict;
    PrimaryArtifact(p, r, result);
    PayloadsOf(p, r, payloads);
    PrimaryCandidate(p, r);
    PrimaryFirst(p, r, Candidates(p, r));
    VerifiedPayloadBound(p, r, result, RESULT_ARTIFACT_FILE);
    ResultFileSlashes();
  }

  // ---------------------------------------------------------------- payload requests

  /** A payload path the builder takes and the replay resolves again, as a file of the release or as the
      one registered resolver with the value that resolver gives. A resolved path need not qualify: the
      reference `./x:data.json` resolves to `x:data.json`, which reads as a drive. */
  predicate PathAdmissible(p: Primitives, r: Release, v: VerifiedPayload) {
    if Synthetic(v.payloadPath) then Registered(v.payloadPath) && CertifiedBundleHash(p, r) == Ok(v.digest)
    else Contained(r, v.payloadPath) && v.payloadPath in r.safe
  }

  lemma PayloadIdentifierPlain(index: nat)
    ensures PlainIdentifier(PayloadIdentifier(index))
  {
    BasePlain();
    if index != 0 {
      var tail := "_" + Digits(index);
      forall i | 0 <= i < |tail| ensures IdentifierChar(tail[i]) && tail[i] != 'k' && tail[i] != 'K' {
        if i > 0 {
          assert tail[i] == Digits(index)[i - 1];
        }
      }
      hide Digits, IdentifierChar;
      assert PayloadIdentifier(index)[0] == PAYLOAD_IDENTIFIER[0];
    }
  }

  lemma BasePlain() ensures PlainIdentifier(PAYLOAD_IDENTIFIER) {}

  lemma PayloadPointerForm() ensures StartsWith(PAYLOAD_SHA256_POINTER, "/") {}

  lemma PayloadFresh(p: Primitives, r: Release, e: Entry)
    requires e.jsonPointer == PAYLOAD_SHA256_POINTER && !Synthetic(e.artifactPath)
    requires Contained(r, e.artifactPath) && e.normalizedValue == FileDigest(p, r, e.artifactPath)
    ensures Fresh(p, r, e) <==> e.artifactPath in r.safe
  {
    hide Contained, Synthetic, FileDigest;
  }

  lemma SyntheticFresh(p: Primitives, r: Release, e: Entry)
    requires Synthetic(e.artifactPath) && IsDigest(e.normalizedValue)
    ensures Fresh(p, r, e) <==> CertifiedBundleHash(p, r) == Ok(e.normalizedValue)
  {
    hide IsDigest, Synthetic, CertifiedBundleHash, Normalize;
    match CertifiedBundleHash(p, r)
    case Err(_) =>
    case Ok(hash) =>
      CertifiedIsDigest(p, r);
      FileDigestNormal(hash, e.leanIdentifier);
  }

  lemma CertifiedIsDigest(p: Primitives, r: Release)
    requires CertifiedBundleHash(p, r).Ok?
    ensures IsDigest(CertifiedBundleHash(p, r).value)
  {
    hide IsDigest, CertifiedBundleIdentity;
  }

  lemma FileDigestNormal(d: string, field: string)
    requires IsDigest(d)
    ensures Normalize(Str(d), field) == Ok(d)
  {
    hide Strip, CheckedValue, IsDigest;
    DigestIsClean(d, field);
  }

  /** A payload request is good exactly when its path is admissible. */
  lemma PayloadRequestGood(p: Primitives, r: Release, payloads: seq<VerifiedPayload>, i: nat)
    requires VerifiedPayloads(p, r) == Ok(payloads) && i < |payloads|
    ensures var req := PayloadRequest(payloads[i], i);
            Good(p, r, req) <==> PathAdmissible(p, r, payloads[i])
  {
    var v := payloads[i];
    var req := PayloadRequest(v, i);
    PayloadBound(p, r, payloads, i);
    PayloadIdentifierPlain(i);
    PayloadPointerForm();
    assert IsDigest(v.digest) by {
      hide IsDigest;
    }
    hide VerifiedPayloads, IsDigest, Contained, PlainIdentifier, PayloadIdentifier, RequestOk, Good, Fresh, NewEntry, FormError,
         CertifiedBundleHash, Synthetic, FileDigest;
    DigestRequestOk(r, req);
    if RequestOk(r, req) {
      NewEntryFields(p, r, req);
      var e := NewEntry(p, r, req);
      if Synthetic(v.payloadPath) {
        SyntheticFresh(p, r, e);
      } else {
        PayloadFresh(p, r, e);
      }
      if Fresh(p, r, e) {
        DigestEntryGood(p, r, req);
      }
    }
    GoodParts(p, r, req);
  }

  // ---------------------------------------------------------------- witness requests

  lemma WitnessIdToken() ensures PlainToken("witness_id") && "/witness_id" == "/" + "witness_id" {}

  lemma DatasetHashToken() ensures PlainToken("dataset_hash") && "/dataset_hash" == "/" + "dataset_hash" {}

  lemma EnvironmentHashToken() ensures PlainToken("environment_hash") && "/environment_hash" == "/" + "environment_hash" {}

  lemma RunReceiptHashToken() ensures PlainToken("run_receipt_hash") && "/run_receipt_hash" == "/" + "run_receipt_hash" {}

  lemma Sha256Token() ensures PlainToken("sha256") && "/sha256" == "/" + "sha256" {}

  lemma WitnessIdIdentifier() ensures PlainIdentifier("concreteComputationWitness.witnessId") {}

  lemma DatasetIdentifier() ensures PlainIdentifier("concreteComputationWitness.datasetHash") {}

  lemma EnvironmentIdentifier() ensures PlainIdentifier("concreteComputationWitness.environmentHash") {}

  lemma ReceiptIdentifier() ensures PlainIdentifier("concreteComputationWitness.runReceiptHash") {}

  lemma ResultIdentifier() ensures PlainIdentifier("concreteResultArtifactHash") {}

  /** A digest field under its own name in a plainly named document. */
  lemma NamedDigestGood(p: Primitives, r: Release, file: string, d: Dict, name: string, pointer: string, value: string, identifier: string)
    requires RequireDict(p, r, file) == Ok(d) && PlainName(file) && PlainIdentifier(identifier)
    requires PlainToken(name) && pointer == "/" + name && pointer != PAYLOAD_SHA256_POINTER
    requires Get(d, name) == Some(Str(value)) && IsDigest(value)
    ensures Good(p, r, AddRequest(file, pointer, value, identifier, true))
  {
    DictFile(p, r, file);
    assert StartsWith(pointer, "/");
    hide *;
    FieldPointer(d, name, pointer, value);
    FileDigestRequest(p, r, AddRequest(file, pointer, value, identifier, true), d);
  }

  lemma WitnessIdGood(p: Primitives, r: Release, d: Dict, value: string)
    requires RequireDict(p, r, WITNESS) == Ok(d) && RequireText(d, "witness_id", WITNESS) == Ok(value)
    ensures var req := AddRequest(WITNESS, "/witness_id", value, "concreteComputationWitness.witnessId", false);
            Good(p, r, req) <==> !ContainsUnknown(value)
  {
    WitnessFilePlain();
    DictFile(p, r, WITNESS);
    var raw := LabTrustTheorems.RequiredText(d, "witness_id", WITNESS, value);
    hide *;
    WitnessIdToken();
    FieldPointer(d, "witness_id", "/witness_id", raw);
    PointersNotPayload();
    WitnessIdIdentifier();
    SlashStarts("witness_id");
    TextRequest(p, r, AddRequest(WITNESS, "/witness_id", value, "concreteComputationWitness.witnessId", false), d, raw, "witness_id");
  }

  lemma SlashStarts(name: string) ensures StartsWith("/" + name, "/") {}

  /** The witness's own requests: the id decides, the four digests are always good. */
  lemma WitnessRequestsGood(p: Primitives, r: Release, v: Computation)
    requires v.payloads != [] && ComputationSource(p, r, v)
    ensures var q := WitnessRequests(v);
            && |q| == 5 && (Good(p, r, q[0]) <==> !ContainsUnknown(v.witnessId))
            && Good(p, r, q[1]) && Good(p, r, q[2]) && Good(p, r, q[3]) && Good(p, r, q[4])
  {
    hide IsDigest, RequireDict, RequireText, Good, ContainsUnknown, PlainIdentifier, PlainName, ChainSource, VerifiedPayloads, WitnessHashes,
         PlainToken;
    var d := RequireDict(p, r, WITNESS).value;
    WitnessIdGood(p, r, d, v.witnessId);
    WitnessDigestsGood(p, r, v, d);
    ResultDigestGood(p, r, v);
  }

  lemma WitnessDigestsGood(p: Primitives, r: Release, v: Computation, d: Dict)
    requires WitnessSource(p, r, v) && RequireDict(p, r, WITNESS) == Ok(d)
    ensures Good(p, r, AddRequest(WITNESS, "/dataset_hash", v.datasetHash, "concreteComputationWitness.datasetHash", true))
    ensures Good(p, r, AddRequest(WITNESS, "/environment_hash", v.environmentHash, "concreteComputationWitness.environmentHash", true))
    ensures Good(p, r, AddRequest(WITNESS, "/run_receipt_hash", v.runReceiptHash, "concreteComputationWitness.runReceiptHash", true))
  {
    hide IsDigest, RequireDict, RequireText, Good, PlainIdentifier, PlainName, WitnessHashes, PlainToken;
    WitnessFilePlain();
    PointersNotPayload();
    DatasetHashToken();
    DatasetIdentifier();
    NamedDigestGood(p, r, WITNESS, d, "dataset_hash", "/dataset_hash", v.datasetHash, "concreteComputationWitness.datasetHash");
    EnvironmentHashToken();
    EnvironmentIdentifier();
    NamedDigestGood(p, r, WITNESS, d, "environment_hash", "/environment_hash", v.environmentHash, "concreteComputationWitness.environmentHash");
    RunReceiptHashToken();
    ReceiptIdentifier();
    NamedDigestGood(p, r, WITNESS, d, "run_receipt_hash", "/run_receipt_hash", v.runReceiptHash, "concreteComputationWitness.runReceiptHash");
  }

  lemma ResultDigestGood(p: Primitives, r: Release, v: Computation)
    requires v.payloads != [] && ComputationSource(p, r, v)
    ensures Good(p, r, AddRequest(v.payloads[0].artifactPath, "/sha256", v.payloads[0].digest, "concreteResultArtifactHash", true))
  {
    hide IsDigest, RequireDict, Good, PlainIdentifier, PlainName, PlainToken, VerifiedPayloads, ChainSource, WitnessSource, FileDigest;
    var result := RequireDict(p, r, RESULT_ARTIFACT_FILE).value;
    PrimaryPayload(p, r, result, v.payloads);
    PayloadDigest(p, r, v.payloads);
    ResultFilePlain();
    PointersNotPayload();
    Sha256Token();
    ResultIdentifier();
    NamedDigestGood(p, r, RESULT_ARTIFACT_FILE, result, "sha256", "/sha256", v.payloads[0].digest, "concreteResultArtifactHash");
  }

  lemma PayloadDigest(p: Primitives, r: Release, payloads: seq<VerifiedPayload>)
    requires VerifiedPayloads(p, r) == Ok(payloads) && payloads != []
    ensures IsDigest(payloads[0].digest)
  {
    hide VerifiedPayloads, IsDigest;
    PayloadBound(p, r, payloads, 0);
  }

  // ---------------------------------------------------------------- no collisions

  lemma WitnessLengths(v: Computation)
    requires v.payloads != []
    ensures var q := WitnessRequests(v);
            && |q[0].jsonPointer| == 11 && |q[1].jsonPointer| == 13 && |q[2].jsonPointer| == 17 && |q[3].jsonPointer| == 17 && |q[4].jsonPointer| == 7
            && q[2].jsonPointer[1] == 'e' && q[3].jsonPointer[1] == 'r'
  {
    assert |"/witness_id"| == 11 && |"/dataset_hash"| == 13 && |"/environment_hash"| == 17 && |"/run_receipt_hash"| == 17 && |"/sha256"| == 7;
  }

  lemma WitnessIdentifierLengths(v: Computation)
    requires v.payloads != []
    ensures var q := WitnessRequests(v);
            && |q[0].leanIdentifier| == 36 && |q[1].leanIdentifier| == 38 && |q[2].leanIdentifier| == 42 && |q[3].leanIdentifier| == 41
            && |q[4].leanIdentifier| == 26
  {
    assert |"concreteComputationWitness.witnessId"| == 36 && |"concreteComputationWitness.datasetHash"| == 38;
    assert |"concreteComputationWitness.environmentHash"| == 42 && |"concreteComputationWitness.runReceiptHash"| == 41;
    assert |"concreteResultArtifactHash"| == 26;
  }

  lemma WitnessIdentifierMarks(v: Computation)
    requires v.payloads != []
    ensures forall q :: q in WitnessRequests(v) ==> |q.leanIdentifier| > 8 && (q.leanIdentifier[8] == 'C' || q.leanIdentifier[8] == 'R')
  {
    assert "concreteComputationWitness.witnessId"[8] == 'C' && "concreteComputationWitness.datasetHash"[8] == 'C';
    assert "concreteComputationWitness.environmentHash"[8] == 'C' && "concreteComputationWitness.runReceiptHash"[8] == 'C';
    assert "concreteResultArtifactHash"[8] == 'R';
  }

  lemma ChainMarks(c: Chain)
    ensures forall q :: q in ChainRequests(c) ==> |q.leanIdentifier| > 14 && (q.leanIdentifier[8] == 'V' ==> q.leanIdentifier[14] == 'c')
  {
    assert "concreteVerification.verifiedInputBundleHash"[14] == 'c' && "concreteCertifiedBundleHash"[8] == 'C';
    assert "concreteSignedInputHash"[8] == 'S';
  }

  lemma PayloadMarks(index: nat)
    ensures var id := PayloadIdentifier(index); |id| > 14 && id[8] == 'V' && id[14] == 'e'
  {
    assert |PAYLOAD_IDENTIFIER| == 33 && PAYLOAD_IDENTIFIER[8] == 'V' && PAYLOAD_IDENTIFIER[14] == 'e';
  }

  lemma PayloadIdentifiersDiffer(i: nat, j: nat)
    requires i != j
    ensures PayloadIdentifier(i) != PayloadIdentifier(j)
  {
    var base := |PAYLOAD_IDENTIFIER|;
    if PayloadIdentifier(i) == PayloadIdentifier(j) {
      assert i != 0 ==> PayloadIdentifier(i)[base + 1..] == Digits(i);
      assert j != 0 ==> PayloadIdentifier(j)[base + 1..] == Digits(j);
      DigitsInjective(i, j);
    }
  }

  lemma PayloadsDistinct(payloads: seq<VerifiedPayload>)
    requires NoDuplicates(payloads)
    ensures DistinctRequests(PayloadRequests(payloads))
  {
    hide PayloadIdentifier;
    forall i, j | 0 <= i < j < |payloads| ensures !Collide(PayloadRequest(payloads[i], i), PayloadRequest(payloads[j], j)) {
      PayloadIdentifiersDiffer(i, j);
    }
  }

  lemma WitnessDistinct(v: Computation)
    requires v.payloads != []
    ensures DistinctRequests(WitnessRequests(v))
  {
    WitnessLengths(v);
    WitnessIdentifierLengths(v);
  }

  predicate WitnessShaped(req: AddRequest) {
    |req.jsonPointer| in {7, 11, 13, 17} && |req.leanIdentifier| in {26, 36, 38, 41, 42}
  }

  lemma WitnessShapes(v: Computation)
    requires v.payloads != []
    ensures forall q :: q in WitnessRequests(v) ==> WitnessShaped(q)
  {
    WitnessLengths(v);
    WitnessIdentifierLengths(v);
  }

  lemma PayloadsApart(v: Computation)
    requires v.payloads != []
    ensures forall x, y :: x in WitnessRequests(v) && y in PayloadRequests(v.payloads) ==> !Collide(x, y)
    ensures forall x, y :: x in PayloadRequests(v.payloads) && y in ChainRequests(v.chain) ==> !Collide(x, y)
  {
    hide WitnessRequests, ChainRequests, PayloadIdentifier, WitnessShaped, ChainShaped;
    WitnessIdentifierMarks(v);
    ChainMarks(v.chain);
    ChainDistinct(v.chain);
    WitnessShapes(v);
    forall x | x in PayloadRequests(v.payloads)
      ensures |x.jsonPointer| == 16 && |x.leanIdentifier| > 14 && x.leanIdentifier[8] == 'V' && x.leanIdentifier[14] == 'e'
    {
      var i :| 0 <= i < |v.payloads| && x == PayloadRequest(v.payloads[i], i);
      PayloadMarks(i);
      assert |PAYLOAD_SHA256_POINTER| == 16;
    }
    forall x, y | x in WitnessRequests(v) && y in PayloadRequests(v.payloads) ensures !Collide(x, y) {
      WitnessShapeApart(x, y);
    }
    forall x, y | x in PayloadRequests(v.payloads) && y in ChainRequests(v.chain) ensures !Collide(x, y) {
      ChainShapeApart(y, x);
    }
  }

  lemma WitnessShapeApart(x: AddRequest, y: AddRequest)
    requires WitnessShaped(x) && (x.leanIdentifier[8] == 'C' || x.leanIdentifier[8] == 'R')
    requires |y.jsonPointer| == 16 && |y.leanIdentifier| > 14 && y.leanIdentifier[8] == 'V'
    ensures !Collide(x, y)
  {
  }

  lemma ChainShapeApart(x: AddRequest, y: AddRequest)
    requires ChainShaped(x) && (x.leanIdentifier[8] == 'V' ==> x.leanIdentifier[14] == 'c')
    requires |y.jsonPointer| == 16 && |y.leanIdentifier| > 14 && y.leanIdentifier[8] == 'V' && y.leanIdentifier[14] == 'e'
    ensures !Collide(x, y) && !Collide(y, x)
  {
  }

  /** With any number of payloads, no two requests of a computation release collide. */
  lemma ComputationDistinct(v: Computation)
    requires v.payloads != [] && NoDuplicates(v.payloads)
    ensures DistinctRequests(ComputationRequests(v))
  {
    hide WitnessRequests, ChainRequests, DistinctRequests, Collide, NoDuplicates;
    var own, mid, chain := WitnessRequests(v), PayloadRequests(v.payloads), ChainRequests(v.chain);
    WitnessDistinct(v);
    PayloadsDistinct(v.payloads);
    PayloadsApart(v);
    DistinctConcat(own, mid);
    ChainDistinct(v.chain);
    WitnessShapes(v);
    forall x, y | x in own + mid && y in chain ensures !Collide(x, y) {
      if x in own {
        ShapesApart(x, y);
      }
    }
    DistinctConcat(own + mid, chain);
  }

  lemma ShapesApart(x: AddRequest, y: AddRequest)
    requires WitnessShaped(x) && ChainShaped(y)
    ensures !Collide(x, y)
  {
  }

  // ---------------------------------------------------------------- when extraction succeeds

  lemma ComputationRequestsGood(p: Primitives, r: Release, v: Computation)
    requires v.payloads != [] && ComputationSource(p, r, v)
    ensures (forall i :: 0 <= i < |ComputationRequests(v)| ==> Good(p, r, ComputationRequests(v)[i])) <==>
              !ContainsUnknown(v.witnessId) && forall i :: 0 <= i < |v.payloads| ==> PathAdmissible(p, r, v.payloads[i])
  {
    ComputationParts(v);
    SourceParts(p, r, v);
    hide *;
    ChainAllGood(p, r, v.chain);
    OwnRequestsGood(p, r, v);
    PayloadRequestsGood(p, r, v.payloads);
    AllGoodConcat(p, r, WitnessRequests(v), PayloadRequests(v.payloads), ChainRequests(v.chain));
  }

  lemma ComputationParts(v: Computation)
    requires v.payloads != []
    ensures ComputationRequests(v) == WitnessRequests(v) + PayloadRequests(v.payloads) + ChainRequests(v.chain)
  {
    hide WitnessRequests, PayloadRequests, ChainRequests;
  }

  lemma SourceParts(p: Primitives, r: Release, v: Computation)
    requires ComputationSource(p, r, v)
    ensures VerifiedPayloads(p, r) == Ok(v.payloads) && ChainSource(p, r, v.chain)
  {
    hide WitnessSource, VerifiedPayloads, ChainSource, RequireDict;
  }

  lemma ThreeChainRequests(c: Chain) ensures |ChainRequests(c)| == 3 {}

  lemma ChainAllGood(p: Primitives, r: Release, c: Chain)
    requires ChainSource(p, r, c)
    ensures forall i :: 0 <= i < |ChainRequests(c)| ==> Good(p, r, ChainRequests(c)[i])
  {
    hide *;
    ThreeChainRequests(c);
    ChainRequestsGood(p, r, c);
  }

  lemma OwnRequestsGood(p: Primitives, r: Release, v: Computation)
    requires v.payloads != [] && ComputationSource(p, r, v)
    ensures (forall i :: 0 <= i < |WitnessRequests(v)| ==> Good(p, r, WitnessRequests(v)[i])) <==> !ContainsUnknown(v.witnessId)
  {
    hide ContainsUnknown, Good, WitnessRequests, ComputationSource;
    WitnessRequestsGood(p, r, v);
  }

  lemma PayloadRequestsGood(p: Primitives, r: Release, payloads: seq<VerifiedPayload>)
    requires VerifiedPayloads(p, r) == Ok(payloads)
    ensures (forall i :: 0 <= i < |PayloadRequests(payloads)| ==> Good(p, r, PayloadRequests(payloads)[i])) <==>
              forall i :: 0 <= i < |payloads| ==> PathAdmissible(p, r, payloads[i])
  {
    hide PathAdmissible, Good, PayloadRequest, VerifiedPayloads, Contained;
    var mid := PayloadRequests(payloads);
    forall i | 0 <= i < |payloads| ensures Good(p, r, mid[i]) <==> PathAdmissible(p, r, payloads[i]) {
      PayloadRequestGood(p, r, payloads, i);
    }
  }

  lemma AllGoodConcat(p: Primitives, r: Release, a: seq<AddRequest>, b: seq<AddRequest>, c: seq<AddRequest>)
    ensures (forall i :: 0 <= i < |a + b + c| ==> Good(p, r, (a + b + c)[i])) <==>
              && (forall i :: 0 <= i < |a| ==> Good(p, r, a[i])) && (forall i :: 0 <= i < |b| ==> Good(p, r, b[i]))
              && (forall i :: 0 <= i < |c| ==> Good(p, r, c[i]))
  {
    hide Good;
    var all := a + b + c;
    assert forall i :: 0 <= i < |a| ==> all[i] == a[i];
    assert forall i :: 0 <= i < |b| ==> all[|a| + i] == b[i];
    assert forall i :: 0 <= i < |c| ==> all[|a| + |b| + i] == c[i];
  }

  lemma SomeRequest(v: Computation)
    requires v.payloads != []
    ensures ComputationRequests(v) != []
  {
    hide WitnessRequests;
    ThreeChainRequests(v.chain);
  }

  lemma ComputationPlan(p: Primitives, r: Release)
    ensures ReadPlan(p, r, ComputationRelease).Ok? <==> ReadComputation(p, r).Ok?
    ensures ReadComputation(p, r).Ok? ==>
              var v := ReadComputation(p, r).value;
              && v.payloads != [] && NoDuplicates(v.payloads) && ComputationSource(p, r, v)
              && ReadPlan(p, r, ComputationRelease).value.requests == ComputationRequests(v)
  {
    hide ReadComputation, ComputationRequests, ComputationObligations, ComputationSource, VerifiedPayloads;
    if ReadComputation(p, r).Ok? {
      var v := ReadComputation(p, r).value;
      ComputationRead(p, r);
      SourceParts(p, r, v);
      PayloadsOf(p, r, v.payloads);
    }
  }

  /** Extraction of a computation release succeeds exactly when its documents and payloads read, a
      release id is declared, the witness id does not hide the word "unknown", and no payload path starts
      with '#' (or is the registered resolver and the payload its very value). With any number of
      payloads, the duplicate refusals are unreachable and the replay confirms every entry. */
  lemma ComputationExtracts(p: Primitives, r: Release, given: Option<string>, commit: string)
    ensures (exists doc :: Extracts(p, r, given, ComputationRelease, commit, doc)) <==>
              && ResolveReleaseId(p, r, given).Ok? && ReadComputation(p, r).Ok?
              && var v := ReadComputation(p, r).value;
                 !ContainsUnknown(v.witnessId) && forall i :: 0 <= i < |v.payloads| ==> PathAdmissible(p, r, v.payloads[i])
  {
    hide ReadPlan, Prepared, ResolveReleaseId, ReadComputation, ContainsUnknown, ReplayOk, Good, AddEach, DistinctRequests, PathAdmissible,
         ComputationRequests, ComputationSource, Document;
    UnreadNotExtracted(p, r, given, ComputationRelease, commit);
    ComputationPlan(p, r);
    if ResolveReleaseId(p, r, given).Ok? && ReadComputation(p, r).Ok? {
      var v := ReadComputation(p, r).value;
      ComputationRequestsGood(p, r, v);
      ComputationDistinct(v);
      SomeRequest(v);
      PlanExtracts(p, r, given, ComputationRelease, commit, ComputationRequests(v));
    }
  }

  // ---------------------------------------------------------------- the verdict

  /** Every witness hash is the digest of the bytes of a payload file, the primary payload's among them,
      no two payloads share a digest, the witness is checked, and the release's bundle chains. */
  ghost predicate ComputationChains(p: Primitives, r: Release) {
    && RequireDict(p, r, WITNESS).Ok? && VerifiedPayloads(p, r).Ok?
    && var witnessDoc := RequireDict(p, r, WITNESS).value;
       var payloads := VerifiedPayloads(p, r).value;
    && WitnessHashes(witnessDoc).Ok? && WitnessCovered(p, r, WitnessHashes(witnessDoc).value, payloads)
    && payloads != [] && payloads[0].digest in WitnessHashes(witnessDoc).value
    && AllDistinct(Digests(payloads))
    && (exists s :: Get(witnessDoc, "status") == Some(Str(s)) && Strip(s) == "CertificateChecked")
    && BundleChains(p, r)
  }

  ghost predicate WitnessCovered(p: Primitives, r: Release, hashes: seq<string>, payloads: seq<VerifiedPayload>) {
    forall i :: 0 <= i < |hashes| ==> PayloadWithDigest(p, r, hashes[i], payloads)
  }

  ghost predicate PayloadWithDigest(p: Primitives, r: Release, digest: string, payloads: seq<VerifiedPayload>) {
    exists j :: 0 <= j < |payloads| && payloads[j].payloadPath in r.files && digest == FileDigest(p, r, payloads[j].payloadPath)
  }

  lemma AlignmentNames()
    ensures "witness_result_hashes" != "witness_id" && "declared_result_artifact_hashes" !in {"witness_id", "witness_result_hashes"}
    ensures "result_artifact_sha256" !in {"witness_id", "witness_result_hashes", "declared_result_artifact_hashes"}
    ensures "witness_status" !in {"witness_id", "witness_result_hashes", "declared_result_artifact_hashes", "result_artifact_sha256"}
  {
    assert |"witness_id"| == 10 && |"witness_result_hashes"| == 21 && |"declared_result_artifact_hashes"| == 31;
    assert |"result_artifact_sha256"| == 22 && |"witness_status"| == 14;
  }

  lemma AlignmentFields(v: Computation)
    requires v.payloads != []
    ensures var d := AlignmentInputs(v);
            && Get(d, "witness_result_hashes") == Some(Arr(StrItems(v.witnessHashes)))
            && Get(d, "declared_result_artifact_hashes") == Some(Arr(StrItems(Digests(v.payloads))))
            && Get(d, "result_artifact_sha256") == Some(Str(v.payloads[0].digest))
            && Get(d, "witness_status") == Some(Str(v.witnessStatus))
  {
    AlignmentNames();
    var a, b := Member("witness_id", Str(v.witnessId)), Member("witness_result_hashes", Arr(StrItems(v.witnessHashes)));
    var c, d := Member("declared_result_artifact_hashes", Arr(StrItems(Digests(v.payloads)))),
                Member("result_artifact_sha256", Str(v.payloads[0].digest));
    var last := [Member("witness_status", Str(v.witnessStatus)), Member("run_receipt_hash", Str(v.runReceiptHash)),
                 Member("dataset_hash", Str(v.datasetHash)), Member("environment_hash", Str(v.environmentHash))];
    assert AlignmentInputs(v) == [a, b, c, d] + last;
    assert Get(last, "witness_status") == Some(Str(v.witnessStatus));
    hide Get;
    forall name ensures Get(AlignmentInputs(v), name)
                     == if OneOfFour(a, b, c, d, name).Some? then OneOfFour(a, b, c, d, name) else Get(last, name)
    {
      GetConcat([a, b, c, d], last, name);
      FourFields(a, b, c, d, name);
    }
  }

  lemma TextsOfStrings(p: Primitives, s: seq<string>)
    ensures Texts(p, StrItems(s)) == s
  {
  }

  /** The alignment obligation of a computation, in terms of its hashes. */
  lemma AlignmentHolds(p: Primitives, v: Computation)
    requires v.payloads != []
    ensures EvaluateWitness(p, AlignmentInputs(v)).None? <==>
              && AllDistinct(Digests(v.payloads)) && (forall i :: 0 <= i < |v.witnessHashes| ==> v.witnessHashes[i] in Digests(v.payloads))
              && v.payloads[0].digest in v.witnessHashes && v.witnessStatus == "CertificateChecked"
  {
    hide Get, AlignmentInputs;
    AlignmentFields(v);
    TextsOfStrings(p, Digests(v.payloads));
    var w, d := StrItems(v.witnessHashes), Digests(v.payloads);
    assert d[0] == v.payloads[0].digest;
    assert forall i :: 0 <= i < |w| ==> p.StrOf(w[i]) == v.witnessHashes[i];
    assert Str(v.payloads[0].digest) in w <==> v.payloads[0].digest in v.witnessHashes by {
      if v.payloads[0].digest in v.witnessHashes {
        var i :| 0 <= i < |w| && v.witnessHashes[i] == v.payloads[0].digest;
        assert w[i] == Str(v.payloads[0].digest);
      }
    }
  }

  lemma AlignmentEvaluates(p: Primitives, inputs: Dict)
    ensures Evaluate(p, "ComputationWitnessHashAlignment", inputs) == EvaluateWitness(p, inputs)
  {
    hide EvaluateWitness, SameField;
    KindNames();
  }

  /** Witness hashes among the declared digests are digests of payload bytes. */
  lemma CoveredIffDeclared(p: Primitives, r: Release, hashes: seq<string>, payloads: seq<VerifiedPayload>)
    requires VerifiedPayloads(p, r) == Ok(payloads)
    ensures WitnessCovered(p, r, hashes, payloads) <==> forall i :: 0 <= i < |hashes| ==> hashes[i] in Digests(payloads)
  {
    hide VerifiedPayloads, FileDigest;
    forall i | 0 <= i < |hashes|
      ensures PayloadWithDigest(p, r, hashes[i], payloads) <==> hashes[i] in Digests(payloads)
    {
      forall j | 0 <= j < |payloads|
        ensures payloads[j].payloadPath in r.files && Digests(payloads)[j] == FileDigest(p, r, payloads[j].payloadPath)
      {
        PayloadBound(p, r, payloads, j);
      }
    }
  }

  lemma WitnessMeaning(p: Primitives, r: Release, v: Computation)
    requires v.payloads != [] && ComputationSource(p, r, v)
    ensures ComputationChains(p, r) <==>
              && WitnessCovered(p, r, v.witnessHashes, v.payloads) && v.payloads[0].digest in v.witnessHashes
              && AllDistinct(Digests(v.payloads)) && v.witnessStatus == "CertificateChecked" && BundleChains(p, r)
  {
    hide RequireDict, IsDigest, RequireText, ChainSource, BundleChains, Strip, VerifiedPayloads, WitnessHashes, WitnessCovered, AllDistinct, Digests;
    var d := RequireDict(p, r, WITNESS).value;
    var raw := LabTrustTheorems.RequiredText(d, "status", WITNESS, v.witnessStatus);
  }

  lemma AlignmentMeaning(p: Primitives, r: Release, v: Computation)
    requires v.payloads != [] && ComputationSource(p, r, v)
    ensures ComputationChains(p, r) <==>
              Evaluate(p, "ComputationWitnessHashAlignment", AlignmentInputs(v)).None? && BundleChains(p, r)
  {
    SourceParts(p, r, v);
    hide Evaluate, EvaluateWitness, ComputationChains, BundleChains, ComputationSource, ChainSource, VerifiedPayloads, AlignmentInputs,
         WitnessCovered, AllDistinct;
    AlignmentEvaluates(p, AlignmentInputs(v));
    AlignmentHolds(p, v);
    CoveredIffDeclared(p, r, v.witnessHashes, v.payloads);
    WitnessMeaning(p, r, v);
  }

  lemma KindsOfCatalog()
    ensures KindTheorem("ComputationWitnessHashAlignment").Some? && KindTheorem("VerificationAdmitsBundle").Some?
    ensures KindTheorem("SignedBundleAdmissible").Some?
  {
  }

  lemma ComputationRows(p: Primitives, v: Computation)
    requires v.payloads != []
    ensures AllPassed(Rows(p, ComputationObligations(v))) <==>
              && Evaluate(p, "ComputationWitnessHashAlignment", AlignmentInputs(v)).None?
              && Evaluate(p, "VerificationAdmitsBundle", AdmitsInputs(v.chain)).None?
              && Evaluate(p, "SignedBundleAdmissible", SignedInputs(v.chain)).None?
    ensures KindsKnown(Rows(p, ComputationObligations(v)))
  {
    KindsOfCatalog();
    hide KindTheorem, Evaluate, Rows, Obligation, AllPassed, KindsKnown, AlignmentInputs;
    ThreeRows(p, ComputationObligations(v), "computation_witness_hash_alignment", "ComputationWitnessHashAlignment", AlignmentInputs(v),
              "verification_admits_bundle", "VerificationAdmitsBundle", AdmitsInputs(v.chain),
              "signed_bundle_admissible", "SignedBundleAdmissible", SignedInputs(v.chain));
  }

  /** The obligations of a computation release all hold exactly when the release chains. */
  lemma ComputationObligationsHold(p: Primitives, r: Release, v: Computation)
    requires v.payloads != [] && ComputationSource(p, r, v)
    ensures AllPassed(Rows(p, ComputationObligations(v))) <==> ComputationChains(p, r)
    ensures KindsKnown(Rows(p, ComputationObligations(v)))
  {
    SourceParts(p, r, v);
    hide *;
    ComputationRows(p, v);
    AlignmentMeaning(p, r, v);
    LabTrustTheorems.ChainSourceFacts(p, r, v.chain);
  }

  lemma ComputationPrepared(p: Primitives, r: Release)
    requires Prepared(p, r, ComputationRelease).Ok?
    ensures ReadComputation(p, r).Ok? && ReadComputation(p, r).value.payloads != []
    ensures Prepared(p, r, ComputationRelease).value.1 == ComputationObligations(ReadComputation(p, r).value)
  {
    hide ReadComputation, AddEach, ComputationObligations, ComputationRequests;
  }

  /** A check of an extracted computation document always gives a verdict, its kinds are all in the
      catalog, and its obligations all pass exactly when the release really chains. */
  lemma ComputationVerdict(p: Primitives, r: Release, given: Option<string>, commit: string, doc: Dict)
    requires Extracts(p, r, given, ComputationRelease, commit, doc)
    ensures Header(p, doc).Ok? && ObligationEntries(doc).Ok?
    ensures KindsKnown(Rows(p, ObligationEntries(doc).value))
    ensures AllPassed(Rows(p, ObligationEntries(doc).value)) <==> ComputationChains(p, r)
  {
    hide Extracts, ReadComputation, Rows, ComputationChains, Header, ObligationEntries, ResolveReleaseId, Prepared, CheckedValue,
         ComputationSource, AllPassed, KindsKnown, ComputationObligations;
    LabTrustTheorems.ExtractsParts(p, r, given, ComputationRelease, commit, doc);
    ExtractionRun.ReleaseIdChecked(p, r, given);
    ExtractedHeader(p, r, given, ComputationRelease, commit, doc);
    ComputationPrepared(p, r);
    ComputationRead(p, r);
    ComputationObligationsHold(p, r, ReadComputation(p, r).value);
  }
}
