/** Obligation evaluation and LeanCheckResult.v0 (python/pcs_core/lean_trust.py:180-239, 854-1021,
    lean_validate.py:35-94, lean_catalog.py). */
module LeanTrust {
  import opened Wrappers
  import opened Text
  import opened Json
  import opened CanonicalJson
  import opened Primitives
  import opened Release
  import ProjectionValidation

  // ---------------------------------------------------------------- equality of the host language

  /** Booleans compare as the integers 0 and 1. */
  function Numeric(v: Json): Json
    decreases v, 0
  {
    match v
    case Bool(b) => Int(if b then 1 else 0)
    case Arr(items) => Arr(NumericItems(items))
    case Obj(members) => Obj(NumericMembers(members))
    case _ => v
  }

  function NumericItems(items: seq<Json>): seq<Json>
    decreases items, 0
  {
    if items == [] then [] else [Numeric(items[0])] + NumericItems(items[1..])
  }

  function NumericMembers(members: Dict): Dict
    decreases members, 0
  {
    if members == [] then []
    else
      var m := members[0];
      [Member(m.key, Numeric(m.value))] + NumericMembers(members[1..])
  }

  /** `inputs.get(a) == inputs.get(b)`; an absent field reads as null. */
  predicate SameField(inputs: Dict, a: string, b: string) {
    var x, y := Get(inputs, a), Get(inputs, b);
    Meaning(Numeric(if x.None? then Null else x.value)) == Meaning(Numeric(if y.None? then Null else y.value))
  }

  lemma SameTexts(inputs: Dict, a: string, b: string, s: string, t: string)
    requires Get(inputs, a) == Some(Str(s)) && Get(inputs, b) == Some(Str(t))
    ensures SameField(inputs, a, b) <==> s == t
  {
  }

  // ---------------------------------------------------------------- the evaluator

  datatype Failure =
    | TraceHashMismatch | CertificateStatusWrong | VerificationStatusWrong | VerifiedBundleMismatch | BlockingChecks
    | SignedBundleMismatch | ToolTraceMismatch | ToolPolicyMismatch
    | WitnessHashesMissing | DeclaredHashesMissing | DeclaredDuplicates | DeclaredEmpty | WitnessUndeclared
    | ResultNotInWitness | ResultNotDeclared | WitnessStatusWrong | UnknownKind

  function Texts(p: Primitives, items: seq<Json>): (r: seq<string>)
    ensures |r| == |items| && forall i :: 0 <= i < |r| ==> r[i] == p.StrOf(items[i])
  {
    seq(|items|, i requires 0 <= i < |items| => p.StrOf(items[i]))
  }

  predicate AllDistinct(s: seq<string>) {
    forall i, j :: 0 <= i < j < |s| ==> s[i] != s[j]
  }

  function EvaluateWitness(p: Primitives, inputs: Dict): Option<Failure> {
    var listed, declared := Get(inputs, "witness_result_hashes"), Get(inputs, "declared_result_artifact_hashes");
    var result := Get(inputs, "result_artifact_sha256");
    if listed.None? || !listed.value.Arr? || result.None? || !result.value.Str? then Some(WitnessHashesMissing)
    else if declared.None? || !declared.value.Arr? then Some(DeclaredHashesMissing)
    else
      var w, d := listed.value.items, Texts(p, declared.value.items);
      if !AllDistinct(d) then Some(DeclaredDuplicates)
      else if d == [] && w != [] then Some(DeclaredEmpty)
      else if exists i :: 0 <= i < |w| && p.StrOf(w[i]) !in d then Some(WitnessUndeclared)
      else if result.value !in w then Some(ResultNotInWitness)
      else if result.value.s !in d then Some(ResultNotDeclared)
      else if Get(inputs, "witness_status") != Some(Str("CertificateChecked")) then Some(WitnessStatusWrong)
      else None
  }

  /** `_evaluate_obligation`: nothing when the obligation holds, else the first reason it does not. */
  function Evaluate(p: Primitives, kind: string, inputs: Dict): Option<Failure> {
    if kind == "CertificateMatchesRuntime" then
      if !SameField(inputs, "certificate_trace_hash", "runtime_trace_hash") then Some(TraceHashMismatch)
      else if Get(inputs, "certificate_status") != Some(Str("CertificateChecked")) then Some(CertificateStatusWrong)
      else None
    else if kind == "VerificationAdmitsBundle" then
      if Get(inputs, "verification_status") != Some(Str("ProofChecked")) then Some(VerificationStatusWrong)
      else if !SameField(inputs, "verified_input_bundle_hash", "certified_bundle_hash") then Some(VerifiedBundleMismatch)
      else if Get(inputs, "release_blocking_checks_passed").None? || Falsy(Get(inputs, "release_blocking_checks_passed").value)
      then Some(BlockingChecks)
      else None
    else if kind == "SignedBundleAdmissible" then
      if !SameField(inputs, "signed_input_bundle_hash", "verified_input_bundle_hash") then Some(SignedBundleMismatch) else None
    else if kind == "ToolTraceHashMatchesCertificate" then
      if !SameField(inputs, "certificate_trace_hash", "trace_hash") then Some(ToolTraceMismatch)
      else if !SameField(inputs, "certificate_policy_hash", "trace_policy_hash") then Some(ToolPolicyMismatch)
      else None
    else if kind == "ComputationWitnessHashAlignment" then EvaluateWitness(p, inputs)
    else Some(UnknownKind)
  }

  /** Absent counts as null, and a truth value as 0 or 1. */
  lemma SameFieldKinds(inputs: Dict, a: string, b: string, c: bool)
    ensures Get(inputs, a) == None && Get(inputs, b) in {None, Some(Null)} ==> SameField(inputs, a, b)
    ensures Get(inputs, a) == Some(Bool(c)) && Get(inputs, b) == Some(Int(if c then 1 else 0)) ==> SameField(inputs, a, b)
    ensures Get(inputs, a) == Some(Bool(c)) && Get(inputs, b) == Some(Bool(!c)) ==> !SameField(inputs, a, b)
  {
    hide Get;
  }

  /** The witness lists declared hashes only, the result's among them, and is checked; no declared hash is
      repeated. */
  ghost predicate WitnessHolds(p: Primitives, inputs: Dict) {
    match (Get(inputs, "witness_result_hashes"), Get(inputs, "declared_result_artifact_hashes"), Get(inputs, "result_artifact_sha256"))
    case (Some(Arr(listed)), Some(Arr(declared)), Some(Str(sha))) =>
      && Str(sha) in listed && Get(inputs, "witness_status") == Some(Str("CertificateChecked"))
      && (forall i, j :: 0 <= i < j < |declared| ==> p.StrOf(declared[i]) != p.StrOf(declared[j]))
      && (forall i :: 0 <= i < |listed| ==> exists j :: 0 <= j < |declared| && p.StrOf(declared[j]) == p.StrOf(listed[i]))
    case _ => false
  }

  lemma WitnessMeans(p: Primitives, inputs: Dict)
    ensures EvaluateWitness(p, inputs) == None <==> WitnessHolds(p, inputs)
  {
    hide Get;
    match (Get(inputs, "witness_result_hashes"), Get(inputs, "declared_result_artifact_hashes"), Get(inputs, "result_artifact_sha256"))
    case (Some(Arr(listed)), Some(Arr(declared)), Some(Str(sha))) =>
      var d := Texts(p, declared);
      assert forall x :: x in d <==> exists j :: 0 <= j < |declared| && p.StrOf(declared[j]) == x;
      if Str(sha) in listed {
        var i :| 0 <= i < |listed| && listed[i] == Str(sha);
        assert p.StrOf(listed[i]) == sha;
      }
    case _ =>
  }

  /** What each kind of obligation asks of its inputs; no other kind holds. */
  lemma EvaluateMeaning(p: Primitives, kind: string, inputs: Dict)
    ensures Evaluate(p, kind, inputs) == None <==>
              || (kind == "CertificateMatchesRuntime" && SameField(inputs, "certificate_trace_hash", "runtime_trace_hash")
                  && Get(inputs, "certificate_status") == Some(Str("CertificateChecked")))
              || (kind == "VerificationAdmitsBundle" && Get(inputs, "verification_status") == Some(Str("ProofChecked"))
                  && SameField(inputs, "verified_input_bundle_hash", "certified_bundle_hash")
                  && Get(inputs, "release_blocking_checks_passed").Some? && !Falsy(Get(inputs, "release_blocking_checks_passed").value))
              || (kind == "SignedBundleAdmissible" && SameField(inputs, "signed_input_bundle_hash", "verified_input_bundle_hash"))
              || (kind == "ToolTraceHashMatchesCertificate" && SameField(inputs, "certificate_trace_hash", "trace_hash")
                  && SameField(inputs, "certificate_policy_hash", "trace_policy_hash"))
              || (kind == "ComputationWitnessHashAlignment" && WitnessHolds(p, inputs))
  {
    KindsApart(kind);
    WitnessMeans(p, inputs);
    hide EvaluateWitness, WitnessHolds, SameField, Get, Falsy;
  }

  /** The kinds are different words. */
  lemma KindsApart(kind: string)
    ensures kind == "CertificateMatchesRuntime" ==> |kind| == 25
    ensures kind == "VerificationAdmitsBundle" ==> |kind| == 24
    ensures kind == "SignedBundleAdmissible" ==> |kind| == 22
    ensures kind == "ToolTraceHashMatchesCertificate" ==> |kind| == 31 && kind[0] == 'T'
    ensures kind == "ComputationWitnessHashAlignment" ==> |kind| == 31 && kind[0] == 'C'
    ensures kind == "ReleaseChainAdmissible" ==> |kind| == 22 && kind[0] == 'R'
    ensures kind == "SignedBundleAdmissible" ==> kind[0] == 'S'
  {
  }

  // ---------------------------------------------------------------- the theorem catalog

  /** `OBLIGATION_KIND_THEOREM`. */
  function KindTheorem(kind: string): Option<string> {
    if kind == "CertificateMatchesRuntime" then Some("admissible_release_has_matching_trace_hash")
    else if kind == "VerificationAdmitsBundle" then Some("admissible_release_has_verified_input_hash_equal_to_bundle_hash")
    else if kind == "SignedBundleAdmissible" then Some("admissible_release_has_signed_input_hash_equal_to_verified_input_hash")
    else if kind == "ToolTraceHashMatchesCertificate" then Some("tool_trace_hash_matches_certificate")
    else if kind == "ComputationWitnessHashAlignment" then Some("witness_result_hashes_admissible")
    else if kind == "ReleaseChainAdmissible" then Some("concrete_envelope_release_admissible_prop")
    else None
  }

  /** The known kinds and the theorem of each. */
  lemma KindTheorems(kind: string)
    ensures KindTheorem(kind).Some? <==>
              kind in {"CertificateMatchesRuntime", "VerificationAdmitsBundle", "SignedBundleAdmissible", "ToolTraceHashMatchesCertificate",
                       "ComputationWitnessHashAlignment", "ReleaseChainAdmissible"}
    ensures KindTheorem("ToolTraceHashMatchesCertificate") == Some("tool_trace_hash_matches_certificate")
    ensures KindTheorem("ComputationWitnessHashAlignment") == Some("witness_result_hashes_admissible")
    ensures KindTheorem("ReleaseChainAdmissible") == Some("concrete_envelope_release_admissible_prop")
  {
    KindsApart("ToolTraceHashMatchesCertificate");
    KindsApart("ComputationWitnessHashAlignment");
    KindsApart("ReleaseChainAdmissible");
    KindsApart("CertificateMatchesRuntime");
    KindsApart("VerificationAdmitsBundle");
    KindsApart("SignedBundleAdmissible");
  }

  /** The theorems of the release chain. */
  lemma ChainTheorems()
    ensures KindTheorem("CertificateMatchesRuntime") == Some("admissible_release_has_matching_trace_hash")
    ensures KindTheorem("VerificationAdmitsBundle") == Some("admissible_release_has_verified_input_hash_equal_to_bundle_hash")
    ensures KindTheorem("SignedBundleAdmissible") == Some("admissible_release_has_signed_input_hash_equal_to_verified_input_hash")
  {
    KindsApart("CertificateMatchesRuntime");
    KindsApart("VerificationAdmitsBundle");
    KindsApart("SignedBundleAdmissible");
  }

  const CONCRETE_THEOREMS: seq<string> := [
    "concrete_certificate_matches_runtime", "concrete_certificate_matches_runtime_prop",
    "concrete_verification_admits_bundle", "concrete_verification_admits_bundle_prop",
    "concrete_signed_bundle_admissible", "concrete_signed_bundle_admissible_prop",
    "concrete_release_chain_admissible", "concrete_release_chain_admissible_prop",
    "concrete_envelope_release_admissible", "concrete_envelope_release_admissible_prop",
    "concrete_envelope_projection_bound", "concrete_envelope_projection_bound_prop",
    "concrete_tool_trace_hash_matches", "concrete_tool_trace_hash_matches_prop",
    "concrete_tool_use_release_admissible_prop",
    "concrete_witness_result_hashes_admissible", "concrete_witness_result_hashes_admissible_prop",
    "concrete_witness_result_hash_listed", "concrete_witness_result_hash_listed_prop",
    "concrete_computation_release_admissible_prop"]

  /** `LEAN_THEOREM_CATALOG`. */
  predicate InCatalog(theorem: string) {
    || theorem == "admissible_release_has_matching_trace_hash"
    || theorem == "admissible_release_has_verified_input_hash_equal_to_bundle_hash"
    || theorem == "admissible_release_has_signed_input_hash_equal_to_verified_input_hash"
    || theorem == "tool_trace_hash_matches_certificate"
    || theorem == "witness_result_hashes_admissible"
    || theorem in CONCRETE_THEOREMS
  }

  const UNKNOWN_THEOREM := "unknown"

  lemma UnknownNotInCatalog()
    ensures !InCatalog(UNKNOWN_THEOREM)
  {
    assert |UNKNOWN_THEOREM| == 7;
    assert forall i :: 0 <= i < |CONCRETE_THEOREMS| ==> |CONCRETE_THEOREMS[i]| > 30;
    assert |"tool_trace_hash_matches_certificate"| == 35 && |"witness_result_hashes_admissible"| == 32;
  }

  lemma KindTheoremInCatalog(kind: string)
    requires KindTheorem(kind).Some?
    ensures InCatalog(KindTheorem(kind).value)
  {
    assert CONCRETE_THEOREMS[9] == "concrete_envelope_release_admissible_prop";
  }

  /** `aggregate_lean_theorem_for_workflow`. */
  function AggregateTheorem(workflow: string): (theorem: string)
    ensures InCatalog(theorem)
  {
    assert CONCRETE_THEOREMS[9] == "concrete_envelope_release_admissible_prop";
    assert CONCRETE_THEOREMS[14] == "concrete_tool_use_release_admissible_prop";
    assert CONCRETE_THEOREMS[19] == "concrete_computation_release_admissible_prop";
    if workflow == "agent_tool_use.safety_v0" then "concrete_tool_use_release_admissible_prop"
    else if workflow == "scientific_computation.reproducibility_v0" then "concrete_computation_release_admissible_prop"
    else "concrete_envelope_release_admissible_prop"
  }

  function AggregateKind(theorem: string): string {
    if theorem == "concrete_envelope_release_admissible_prop" then "ReleaseChainAdmissible" else theorem
  }

  /** The aggregate of a workflow, and the kind its row is reported under. */
  lemma AggregateMeaning(workflow: string)
    ensures AggregateTheorem("agent_tool_use.safety_v0") == "concrete_tool_use_release_admissible_prop"
    ensures AggregateTheorem("scientific_computation.reproducibility_v0") == "concrete_computation_release_admissible_prop"
    ensures workflow !in {"agent_tool_use.safety_v0", "scientific_computation.reproducibility_v0"} ==>
              AggregateTheorem(workflow) == "concrete_envelope_release_admissible_prop"
    ensures AggregateKind("concrete_envelope_release_admissible_prop") == "ReleaseChainAdmissible"
  {
    assert |"agent_tool_use.safety_v0"| == 24 && |"scientific_computation.reproducibility_v0"| == 41;
  }

  // ---------------------------------------------------------------- running a check

  datatype Row = Row(obligationId: string, kind: string, passed: bool, theorem: string, reason: Option<Failure>)

  datatype RunFailure = ObligationFailed(obligationId: string, reason: Failure) | ProofFailed | BuildFailed

  datatype CheckResult = CheckResult(
    proofObligationId: string, status: string, claimClass: string, failures: seq<RunFailure>, rows: seq<Row>,
    leanProofChecked: bool, proofTermRef: Option<string>, projectionHash: string)

  /** What the Lean toolchain answers: whether the library builds, whether the generated proof compiles,
      and the reference of the generated file. */
  datatype Toolchain = Toolchain(buildOk: bool, proofCompiles: bool, proofRef: string, moduleName: string, workflow: string)

  function InputsOf(entry: Dict): Dict {
    match Get(entry, "inputs")
    case Some(Obj(inputs)) => inputs
    case _ => []
  }

  /** The kind and id an entry is evaluated under; an absent field reads as the empty text. */
  function FieldText(p: Primitives, entry: Dict, name: string): string {
    if Has(entry, name) then p.StrOf(Get(entry, name).value) else ""
  }

  function EvaluatedRow(p: Primitives, entry: Dict): Row {
    var kind := FieldText(p, entry, "kind");
    var reason := Evaluate(p, kind, InputsOf(entry));
    Row(FieldText(p, entry, "obligation_id"), kind, reason.None?,
        if KindTheorem(kind).Some? then KindTheorem(kind).value else UNKNOWN_THEOREM, reason)
  }

  /** What a row says of its entry: kind and id as they read, and whether the inputs satisfy the kind. */
  lemma RowMeaning(p: Primitives, entry: Dict)
    ensures var row := EvaluatedRow(p, entry);
            && row.kind == (if Get(entry, "kind").Some? then p.StrOf(Get(entry, "kind").value) else "")
            && row.obligationId == (if Get(entry, "obligation_id").Some? then p.StrOf(Get(entry, "obligation_id").value) else "")
            && row.passed == (Evaluate(p, row.kind, match Get(entry, "inputs") case Some(Obj(inputs)) => inputs case _ => []) == None)
            && (row.theorem == "unknown" || KindTheorem(row.kind) == Some(row.theorem))
            && (KindTheorem(row.kind).Some? ==> KindTheorem(row.kind) == Some(row.theorem))
  {
    hide Get, Evaluate, KindTheorem;
  }

  /** The object entries of an obligation list, evaluated in order. */
  function Rows(p: Primitives, entries: seq<Json>): seq<Row> {
    if entries == [] then []
    else
      var before := Rows(p, entries[..|entries| - 1]);
      var last := entries[|entries| - 1];
      if last.Obj? then before + [EvaluatedRow(p, last.members)] else before
  }

  predicate AllPassed(rows: seq<Row>) {
    forall i :: 0 <= i < |rows| ==> rows[i].passed
  }

  predicate KindsKnown(rows: seq<Row>) {
    forall i :: 0 <= i < |rows| ==> KindTheorem(rows[i].kind).Some?
  }

  function ObligationEntries(doc: Dict): Result<seq<Json>, ExtractionError> {
    match Get(doc, "obligations")
    case None => Ok([])
    case Some(Arr(items)) => Ok(items)
    case Some(Str(_)) => Ok([])
    case Some(Obj(_)) => Ok([])
    case Some(_) => Err(UnsupportedType("obligations"))
  }

  /** The id and projection hash a result carries, when the document declares them consistently. */
  function Header(p: Primitives, doc: Dict): Result<(string, string), ExtractionError> {
    var raw := Get(doc, "obligation_id");
    if raw.None? || !raw.value.Str? || Strip(raw.value.s) == "" then Err(MissingField("ProofObligation.v0", "obligation_id"))
    else
      var id :- CheckedValue(Strip(raw.value.s), "obligation_id");
      var hash :- RequireDigest(Get(doc, "pcs_projection_manifest_hash"), "/pcs_projection_manifest_hash");
      match Get(doc, "pcs_projection_manifest")
      case Some(Obj(manifest)) =>
        if ProjectionValidation.ProjectionHash(p, manifest) == hash then Ok((id, hash))
        else Err(NotADigest("/pcs_projection_manifest_hash"))
      case _ => Err(MissingField("ProofObligation.v0", "/pcs_projection_manifest"))
  }

  /** `run_lean_check`: obligations are evaluated one by one, the generated proof is compiled only when
      nothing failed before, and the verdict is `ProofChecked` exactly when every obligation holds, the
      library built if that was required, and the proof compiled if that was requested. */
  method RunLeanCheck(p: Primitives, doc: Dict, requireLeanBuild: bool, leanProof: bool, toolchain: Toolchain)
    returns (r: Result<CheckResult, ExtractionError>)
    ensures r.Ok? <==> ObligationEntries(doc).Ok? && Header(p, doc).Ok?
    ensures r.Ok? ==>
              var rows := Rows(p, ObligationEntries(doc).value);
              && r.value.status in {"ProofChecked", "Rejected"}
              && (r.value.status == "ProofChecked" <==>
                    && AllPassed(rows) && (requireLeanBuild ==> toolchain.buildOk)
                    && (leanProof ==> requireLeanBuild && toolchain.proofCompiles))
              && rows <= r.value.rows
              && (r.value.rows == rows <==> !r.value.leanProofChecked)
              && (r.value.leanProofChecked <==> leanProof && AllPassed(rows) && requireLeanBuild && toolchain.proofCompiles)
              && (r.value.claimClass == "EnvelopeLeanChecked" ==> r.value.leanProofChecked)
              && (ResultAccepted(r.value) <==> KindsKnown(rows) && (r.value.claimClass == "EnvelopeLeanChecked" ==> toolchain.proofRef != ""))
  {
    hide Evaluate, ProjectionValidation.ProjectionHash, CheckedValue, Header;
    var entries := ObligationEntries(doc);
    if entries.Err? {
      return Err(entries.error);
    }
    var rows: seq<Row> := [];
    var failures: seq<RunFailure> := [];
    rows, failures := EvaluateAll(p, entries.value);
    ghost var evaluated := rows;
    var leanProofChecked := false;
    var claimClass := "ProofChecked";
    var proofTermRef: Option<string> := None;
    if leanProof && failures == [] {
      proofTermRef := Some(toolchain.proofRef);
      if requireLeanBuild && toolchain.proofCompiles {
        leanProofChecked := true;
        claimClass := "EnvelopeLeanChecked";
        var theorem := AggregateTheorem(toolchain.workflow);
        rows := rows + [Row("generated_" + toolchain.moduleName, AggregateKind(theorem), true, theorem, None)];
      } else {
        failures := failures + [ProofFailed];
      }
    }
    if requireLeanBuild && !toolchain.buildOk {
      failures := [BuildFailed] + failures;
    }
    var header := Header(p, doc);
    if header.Err? {
      return Err(header.error);
    }
    var passed := failures == [];
    var result := CheckResult(header.value.0, if passed then "ProofChecked" else "Rejected",
                              if passed then claimClass else "Rejected", failures, rows, leanProofChecked, proofTermRef, header.value.1);
    HeaderHash(p, doc);
    EmittedResultAccepted(p, entries.value, evaluated, result, toolchain);
    return Ok(result);
  }

  lemma HeaderHash(p: Primitives, doc: Dict)
    requires Header(p, doc).Ok?
    ensures StartsWith(Header(p, doc).value.1, "sha256:")
  {
    hide CheckedValue, Strip, ProjectionValidation.ProjectionHash;
  }

  method EvaluateAll(p: Primitives, entries: seq<Json>) returns (rows: seq<Row>, failures: seq<RunFailure>)
    ensures rows == Rows(p, entries)
    ensures failures == [] <==> AllPassed(rows)
    ensures |failures| == |set i | 0 <= i < |rows| && !rows[i].passed|
  {
    hide Evaluate, KindTheorem;
    rows, failures := [], [];
    ghost var failed: set<int> := {};
    for i := 0 to |entries|
      invariant rows == Rows(p, entries[..i])
      invariant failed == set j | 0 <= j < |rows| && !rows[j].passed
      invariant |failures| == |failed|
      invariant failures == [] <==> AllPassed(rows)
    {
      assert entries[..i + 1][..i] == entries[..i];
      if entries[i].Obj? {
        var row := EvaluatedRow(p, entries[i].members);
        rows := rows + [row];
        if row.reason.Some? {
          failed := failed + {|rows| - 1};
          failures := failures + [ObligationFailed(row.obligationId, row.reason.value)];
        }
      }
    }
    assert entries[..|entries|] == entries;
  }

  // ---------------------------------------------------------------- validating a result

  datatype ResultIssue =
    | InvalidStatus | InvalidClaimClass | ProofNotChecked | ProofRefMissing | ProjectionHashMissing
    | TheoremNotForKind(index: int) | TheoremNotInCatalog(index: int) | RowNotPassed(index: int)

  predicate RowAccepted(row: Row) {
    (KindTheorem(row.kind).Some? ==> row.theorem == KindTheorem(row.kind).value) && InCatalog(row.theorem)
  }

  /** What the validator asks of a result. */
  predicate ResultAccepted(res: CheckResult) {
    && res.status in {"ProofChecked", "Rejected", "Stale"}
    && res.claimClass in {"ProofChecked", "EnvelopeLeanChecked", "Rejected"}
    && (res.claimClass == "EnvelopeLeanChecked" ==>
          res.leanProofChecked && res.proofTermRef.Some? && res.proofTermRef.value != "" && StartsWith(res.projectionHash, "sha256:"))
    && (forall i :: 0 <= i < |res.rows| ==> RowAccepted(res.rows[i]))
    && (res.status == "ProofChecked" ==> AllPassed(res.rows))
  }

  /** `validate_lean_check_result_semantics`. */
  method ValidateCheckResult(res: CheckResult) returns (errors: seq<ResultIssue>)
    ensures errors == [] <==> ResultAccepted(res)
    ensures forall i :: RowNotPassed(i) in errors ==> 0 <= i < |res.rows| && !res.rows[i].passed && res.status == "ProofChecked"
  {
    hide InCatalog, KindTheorem;
    errors := [];
    if res.status !in {"ProofChecked", "Rejected", "Stale"} {
      errors := errors + [InvalidStatus];
    }
    if res.claimClass !in {"ProofChecked", "EnvelopeLeanChecked", "Rejected"} {
      errors := errors + [InvalidClaimClass];
    }
    if res.claimClass == "EnvelopeLeanChecked" {
      if !res.leanProofChecked {
        errors := errors + [ProofNotChecked];
      }
      if res.proofTermRef.None? || res.proofTermRef.value == "" {
        errors := errors + [ProofRefMissing];
      }
      if !StartsWith(res.projectionHash, "sha256:") {
        errors := errors + [ProjectionHashMissing];
      }
    }
    ghost var header := errors == [];
    for i := 0 to |res.rows|
      invariant errors == [] <==> header && forall j :: 0 <= j < i ==> RowAccepted(res.rows[j])
      invariant forall j :: RowNotPassed(j) !in errors
    {
      var row := res.rows[i];
      var expectedTheorem := KindTheorem(row.kind);
      if expectedTheorem.Some? && row.theorem != expectedTheorem.value {
        errors := errors + [TheoremNotForKind(i)];
      }
      if !InCatalog(row.theorem) {
        errors := errors + [TheoremNotInCatalog(i)];
      }
    }
    ghost var shape := errors == [];
    if res.status == "ProofChecked" {
      for i := 0 to |res.rows|
        invariant errors == [] <==> shape && forall j :: 0 <= j < i ==> res.rows[j].passed
        invariant forall j :: RowNotPassed(j) in errors ==> 0 <= j < i && !res.rows[j].passed
      {
        if !res.rows[i].passed {
          errors := errors + [RowNotPassed(i)];
        }
      }
    }
  }

  // ---------------------------------------------------------------- emitted results

  lemma {:induction false} RowsShape(p: Primitives, entries: seq<Json>)
    ensures forall i :: 0 <= i < |Rows(p, entries)| ==>
              var row := Rows(p, entries)[i];
              row.theorem == if KindTheorem(row.kind).Some? then KindTheorem(row.kind).value else UNKNOWN_THEOREM
  {
    hide Evaluate, KindTheorem;
    if entries != [] {
      RowsShape(p, entries[..|entries| - 1]);
    }
  }

  /** A row the runner writes is accepted exactly when its kind is in the catalog. */
  lemma RunnerRowAccepted(row: Row)
    requires row.theorem == if KindTheorem(row.kind).Some? then KindTheorem(row.kind).value else UNKNOWN_THEOREM
    ensures RowAccepted(row) <==> KindTheorem(row.kind).Some?
  {
    hide InCatalog;
    UnknownNotInCatalog();
    if KindTheorem(row.kind).Some? {
      KindTheoremInCatalog(row.kind);
    }
  }

  lemma AggregateRowAccepted(workflow: string, id: string)
    ensures RowAccepted(Row(id, AggregateKind(AggregateTheorem(workflow)), true, AggregateTheorem(workflow), None))
  {
    assert |"concrete_tool_use_release_admissible_prop"| == 41 && |"concrete_computation_release_admissible_prop"| == 44;
    assert |"CertificateMatchesRuntime"| == 25 && |"VerificationAdmitsBundle"| == 24 && |"SignedBundleAdmissible"| == 22;
    assert |"ToolTraceHashMatchesCertificate"| == 31 && |"ComputationWitnessHashAlignment"| == 31 && |"ReleaseChainAdmissible"| == 22;
    assert "ReleaseChainAdmissible"[0] == 'R' && "SignedBundleAdmissible"[0] == 'S';
  }

  /** What the runner emits passes the validator exactly when every obligation kind is in the catalog
      (and a compiled proof has a reference). */
  lemma EmittedResultAccepted(p: Primitives, entries: seq<Json>, rows: seq<Row>, res: CheckResult, toolchain: Toolchain)
    requires rows == Rows(p, entries) && StartsWith(res.projectionHash, "sha256:")
    requires res.status in {"ProofChecked", "Rejected"} && res.claimClass in {"ProofChecked", "EnvelopeLeanChecked", "Rejected"}
    requires res.status == "ProofChecked" ==> AllPassed(rows)
    requires res.claimClass == "EnvelopeLeanChecked" ==> res.leanProofChecked && res.proofTermRef == Some(toolchain.proofRef)
    requires var theorem := AggregateTheorem(toolchain.workflow);
             || res.rows == rows
             || res.rows == rows + [Row("generated_" + toolchain.moduleName, AggregateKind(theorem), true, theorem, None)]
    ensures ResultAccepted(res) <==> KindsKnown(rows) && (res.claimClass == "EnvelopeLeanChecked" ==> toolchain.proofRef != "")
  {
    hide KindTheorem, InCatalog, Evaluate, Rows, AggregateTheorem, AggregateKind, RowAccepted;
    RowsShape(p, entries);
    forall i | 0 <= i < |rows| ensures RowAccepted(rows[i]) <==> KindTheorem(rows[i].kind).Some? {
      RunnerRowAccepted(rows[i]);
    }
    AggregateRowAccepted(toolchain.workflow, "generated_" + toolchain.moduleName);
    assert forall i :: 0 <= i < |rows| ==> res.rows[i] == rows[i];
  }
}
