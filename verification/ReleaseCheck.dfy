/** Extraction and checking together (python/pcs_core/lean_materialize.py:14-56): a release is checked
    exactly when it chains. */
module ReleaseCheck {
  import opened Wrappers
  import opened Json
  import opened Primitives
  import opened Release
  import opened Extraction
  import opened LeanTrust
  import opened ObligationDocument
  import LabTrustTheorems
  import ComputationTheorems
  import ExtractionRun
  import ObligationVerdict

  /** What the obligations of a workflow say of a release when they all hold. */
  ghost predicate Chains(p: Primitives, r: Release, w: Workflow) {
    match w
    case LabTrustRelease => LabTrustTheorems.LabTrustChains(p, r)
    case ComputationRelease => ComputationTheorems.ComputationChains(p, r)
  }

  ghost predicate Extractable(p: Primitives, r: Release, w: Workflow, commit: string) {
    exists doc :: Extracts(p, r, None, w, commit, doc)
  }

  lemma Verdict(p: Primitives, r: Release, w: Workflow, commit: string, doc: Dict)
    requires Extracts(p, r, None, w, commit, doc)
    ensures Header(p, doc).Ok? && ObligationEntries(doc).Ok? && KindsKnown(Rows(p, ObligationEntries(doc).value))
    ensures AllPassed(Rows(p, ObligationEntries(doc).value)) <==> Chains(p, r, w)
  {
    hide Extracts, Header, ObligationEntries, Rows, KindsKnown, AllPassed, LabTrustTheorems.LabTrustChains, ComputationTheorems.ComputationChains;
    match w
    case LabTrustRelease => LabTrustTheorems.LabTrustVerdict(p, r, None, commit, doc);
    case ComputationRelease => ComputationTheorems.ComputationVerdict(p, r, None, commit, doc);
  }

  lemma ChainsBundle(p: Primitives, r: Release, w: Workflow)
    requires Chains(p, r, w)
    ensures ObligationVerdict.BundleChains(p, r)
  {
    hide ObligationVerdict.BundleChains;
  }

  datatype MaterializeError = ExtractionFailed(error: ExtractionError) | CheckRejected

  /** `materialize_lean_trust_artifacts`, without the files it writes: it succeeds exactly when the
      release extracts, really chains, and the library built if that was required; the result it keeps
      then passes its validator and the document passes its own. */
  method MaterializeLeanTrust(p: Primitives, r: Release, w: Workflow, commit: string, requireLeanBuild: bool, toolchain: Toolchain)
    returns (result: Result<(Dict, CheckResult), MaterializeError>)
    ensures result.Ok? <==>
              Extractable(p, r, w, commit) && Chains(p, r, w) && (requireLeanBuild ==> toolchain.buildOk)
    ensures result.Ok? ==>
              && Extracts(p, r, None, w, commit, result.value.0)
              && ProjectionAccepted(p, result.value.0, Some(r)) && ProjectionAccepted(p, result.value.0, None)
              && result.value.1.status == "ProofChecked" && ResultAccepted(result.value.1)
    ensures result.Ok? ==>
              var verification := RequireDict(p, r, "verification_result.json");
              && verification.Ok? && Get(verification.value, "status") == Some(Str("ProofChecked"))
              && exists items: seq<Json> :: Get(verification.value, "checks") == Some(Arr(items)) && items != []
                   && forall i :: 0 <= i < |items| ==>
                        items[i].Obj? && exists status :: Get(items[i].members, "status") == Some(Str(status)) && status !in {"", "failed", "warning"}
  {
    hide Extracts, Chains, Header, ObligationEntries, Rows, KindsKnown, AllPassed, ProjectionAccepted, ResultAccepted, RequireDict, Get, ObligationVerdict.BundleChains;
    var extracted := ExtractionRun.ExtractProofObligations(p, r, None, w, commit);
    if extracted.Err? {
      return Err(ExtractionFailed(extracted.error));
    }
    var doc := extracted.value;
    Verdict(p, r, w, commit, doc);
    ExtractedProjectionAccepted(p, r, None, w, commit, doc);
    var checked := RunLeanCheck(p, doc, requireLeanBuild, false, toolchain);
    if checked.value.status != "ProofChecked" {
      return Err(CheckRejected);
    }
    ChainsBundle(p, r, w);
    ObligationVerdict.ChainedChecks(p, r);
    return Ok((doc, checked.value));
  }
}
