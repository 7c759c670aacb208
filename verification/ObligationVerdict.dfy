/** What each obligation the extractors write says about the release when it evaluates true. */
module ObligationVerdict {
  import opened Wrappers
  import opened Text
  import opened Json
  import opened Primitives
  import opened Release
  import opened Extraction
  import opened LeanTrust

  // ---------------------------------------------------------------- rows

  lemma ObligationNames()
    ensures "obligation_id" != "kind" && "obligation_id" != "inputs" && "kind" != "inputs"
  {
    assert |"obligation_id"| == 13 && |"kind"| == 4 && |"inputs"| == 6;
  }

  /** An obligation's row passes when its kind evaluates true on its own inputs. */
  lemma ObligationRow(p: Primitives, id: string, kind: string, inputs: Dict)
    ensures Obligation(id, kind, inputs).Obj?
    ensures var row := EvaluatedRow(p, Obligation(id, kind, inputs).members);
            row.kind == kind && row.obligationId == id && (row.passed <==> Evaluate(p, kind, inputs).None?)
  {
    hide Evaluate, KindTheorem;
    ObligationNames();
    var m := Obligation(id, kind, inputs).members;
    assert m[1..][0] == Member("kind", Str(kind)) && m[1..][1..][0] == Member("inputs", Obj(inputs));
    assert Get(m, "obligation_id") == Some(Str(id)) && Get(m, "kind") == Some(Str(kind));
    assert Get(m, "inputs") == Get(m[1..][1..], "inputs") == Some(Obj(inputs));
  }

  lemma {:induction false} RowsOfObjects(p: Primitives, entries: seq<Json>)
    requires forall i :: 0 <= i < |entries| ==> entries[i].Obj?
    ensures |Rows(p, entries)| == |entries|
    ensures forall i :: 0 <= i < |entries| ==> Rows(p, entries)[i] == EvaluatedRow(p, entries[i].members)
  {
    hide EvaluatedRow;
    if entries != [] {
      RowsOfObjects(p, entries[..|entries| - 1]);
    }
  }

  /** Three obligations pass together when each evaluates true. */
  lemma ThreeRows(p: Primitives, entries: seq<Json>, id0: string, kind0: string, inputs0: Dict,
                  id1: string, kind1: string, inputs1: Dict, id2: string, kind2: string, inputs2: Dict)
    requires entries == [Obligation(id0, kind0, inputs0), Obligation(id1, kind1, inputs1), Obligation(id2, kind2, inputs2)]
    ensures AllPassed(Rows(p, entries)) <==>
              Evaluate(p, kind0, inputs0).None? && Evaluate(p, kind1, inputs1).None? && Evaluate(p, kind2, inputs2).None?
    ensures KindsKnown(Rows(p, entries)) <==>
              KindTheorem(kind0).Some? && KindTheorem(kind1).Some? && KindTheorem(kind2).Some?
  {
    hide Evaluate, KindTheorem, Rows, EvaluatedRow, Obligation;
    ObligationRow(p, id0, kind0, inputs0);
    ObligationRow(p, id1, kind1, inputs1);
    ObligationRow(p, id2, kind2, inputs2);
    RowsOfObjects(p, entries);
    var rows := Rows(p, entries);
    assert |rows| == 3;
    assert rows[0] == EvaluatedRow(p, entries[0].members) && rows[1] == EvaluatedRow(p, entries[1].members);
    assert rows[2] == EvaluatedRow(p, entries[2].members);
  }

  // ---------------------------------------------------------------- kinds

  lemma KindNames()
    ensures "VerificationAdmitsBundle" != "CertificateMatchesRuntime"
    ensures "SignedBundleAdmissible" != "CertificateMatchesRuntime" && "SignedBundleAdmissible" != "VerificationAdmitsBundle"
    ensures "ComputationWitnessHashAlignment" != "CertificateMatchesRuntime"
    ensures "ComputationWitnessHashAlignment" != "VerificationAdmitsBundle"
    ensures "ComputationWitnessHashAlignment" != "SignedBundleAdmissible"
    ensures "ComputationWitnessHashAlignment" != "ToolTraceHashMatchesCertificate"
  {
    assert |"CertificateMatchesRuntime"| == 25 && |"VerificationAdmitsBundle"| == 24 && |"SignedBundleAdmissible"| == 22;
    assert |"ComputationWitnessHashAlignment"| == 31 && "ComputationWitnessHashAlignment"[0] == 'C';
    assert "ToolTraceHashMatchesCertificate"[0] == 'T';
  }

  // ---------------------------------------------------------------- verification and signature

  function AdmitsInputs(c: Chain): Dict {
    [Member("verification_status", Str(c.verificationStatus)), Member("verified_input_bundle_hash", Str(c.verified)),
     Member("certified_bundle_hash", Str(c.certified)), Member("release_blocking_checks_passed", Bool(c.blockingPassed))]
  }

  function SignedInputs(c: Chain): Dict {
    [Member("signed_input_bundle_hash", Str(c.signed)), Member("verified_input_bundle_hash", Str(c.verified))]
  }

  lemma ChainNames()
    ensures "verified_input_bundle_hash" != "verification_status"
    ensures "certified_bundle_hash" !in {"verification_status", "verified_input_bundle_hash"}
    ensures "release_blocking_checks_passed" !in {"verification_status", "verified_input_bundle_hash", "certified_bundle_hash"}
    ensures "signed_input_bundle_hash" != "verified_input_bundle_hash"
  {
    assert |"verification_status"| == 19 && |"verified_input_bundle_hash"| == 26 && |"certified_bundle_hash"| == 21;
    assert |"release_blocking_checks_passed"| == 30 && |"signed_input_bundle_hash"| == 24;
  }

  lemma AdmitsFields(c: Chain)
    ensures var d := AdmitsInputs(c);
            && Get(d, "verification_status") == Some(Str(c.verificationStatus))
            && Get(d, "verified_input_bundle_hash") == Some(Str(c.verified))
            && Get(d, "certified_bundle_hash") == Some(Str(c.certified))
            && Get(d, "release_blocking_checks_passed") == Some(Bool(c.blockingPassed))
  {
    hide Get;
    ChainNames();
    var d := AdmitsInputs(c);
    forall name ensures Get(d, name) == OneOfFour(d[0], d[1], d[2], d[3], name) {
      FourFields(d[0], d[1], d[2], d[3], name);
    }
  }

  lemma AdmitsHolds(p: Primitives, c: Chain)
    ensures Evaluate(p, "VerificationAdmitsBundle", AdmitsInputs(c)).None? <==>
              c.verificationStatus == "ProofChecked" && c.verified == c.certified && c.blockingPassed
  {
    AdmitsFields(c);
    KindNames();
    SameTexts(AdmitsInputs(c), "verified_input_bundle_hash", "certified_bundle_hash", c.verified, c.certified);
    hide SameField, AdmitsInputs, EvaluateWitness;
  }

  lemma SignedHolds(p: Primitives, c: Chain)
    ensures Evaluate(p, "SignedBundleAdmissible", SignedInputs(c)).None? <==> c.signed == c.verified
  {
    var d := SignedInputs(c);
    ChainNames();
    assert d[1..][0] == Member("verified_input_bundle_hash", Str(c.verified));
    assert Get(d, "verified_input_bundle_hash") == Get(d[1..], "verified_input_bundle_hash");
    KindNames();
    SameTexts(d, "signed_input_bundle_hash", "verified_input_bundle_hash", c.signed, c.verified);
    hide SameField, EvaluateWitness;
  }

  /** The verification lists checks, each an object with a named check and a status that is neither failed
      nor warning. */
  ghost predicate EveryCheckPasses(verification: Dict) {
    match Get(verification, "checks")
    case Some(Arr(items)) => items != [] && forall i :: 0 <= i < |items| ==> CheckClean(items[i])
    case _ => false
  }

  ghost predicate CheckClean(item: Json) {
    && item.Obj?
    && (exists id :: Get(item.members, "check_id") == Some(Str(id)) && id != "")
    && (exists status :: Get(item.members, "status") == Some(Str(status)) && status != "" && status != "failed" && status != "warning")
  }

  lemma CleanMeansPasses(item: Json)
    ensures CheckClean(item) <==> CheckShaped(item) && CheckPasses(item)
  {
  }

  /** One bundle is certified, verified and signed, and its verification passed every check. */
  ghost predicate BundleChains(p: Primitives, r: Release) {
    && RequireDict(p, r, "verification_result.json").Ok? && RequireDict(p, r, "signed_science_claim_bundle.json").Ok?
    && CertifiedBundleHash(p, r).Ok?
    && var verification := RequireDict(p, r, "verification_result.json").value;
       var signed := RequireDict(p, r, "signed_science_claim_bundle.json").value;
       var bundle := Some(Str(CertifiedBundleHash(p, r).value));
    && GetIn(Some(verification), "verified_input", "bundle_hash") == bundle
    && Get(signed, "signed_input_bundle_hash") == bundle
    && Get(verification, "status") == Some(Str("ProofChecked"))
    && EveryCheckPasses(verification)
  }

  /** The blocking checks pass exactly for a checked verification whose checks are all clean. */
  lemma BlockingMeansChecks(verification: Dict)
    ensures BlockingChecksPassed(verification) == Ok(true) <==>
              Get(verification, "status") == Some(Str("ProofChecked")) && EveryCheckPasses(verification)
  {
    hide CheckShaped, CheckPasses, CheckClean;
    forall item ensures CheckClean(item) <==> CheckShaped(item) && CheckPasses(item) {
      CleanMeansPasses(item);
    }
  }

  /** The checks of a release whose bundle chains, spelt out. */
  lemma ChainedChecks(p: Primitives, r: Release)
    requires BundleChains(p, r)
    ensures var verification := RequireDict(p, r, "verification_result.json");
            && verification.Ok? && Get(verification.value, "status") == Some(Str("ProofChecked"))
            && exists items: seq<Json> :: Get(verification.value, "checks") == Some(Arr(items)) && items != []
                 && forall i :: 0 <= i < |items| ==>
                      items[i].Obj? && exists status :: Get(items[i].members, "status") == Some(Str(status)) && status !in {"", "failed", "warning"}
  {
    hide RequireDict, CertifiedBundleHash, GetIn;
    var verification := RequireDict(p, r, "verification_result.json").value;
    var items := Get(verification, "checks").value.items;
    forall i | 0 <= i < |items|
      ensures items[i].Obj? && exists status :: Get(items[i].members, "status") == Some(Str(status)) && status !in {"", "failed", "warning"}
    {
      assert CheckClean(items[i]);
    }
  }

  lemma StatusStripped(d: Dict)
    requires Get(d, "status") == Some(Str("ProofChecked")) && RequireText(d, "status", "verification_result.json").Ok?
    ensures RequireText(d, "status", "verification_result.json").value == "ProofChecked"
  {
    hide HasUnknownWord, Strip;
    ProofCheckedTrimmed();
  }

  lemma ProofCheckedTrimmed()
    ensures Strip("ProofChecked") == "ProofChecked"
  {
    assert |"ProofChecked"| == 12 && "ProofChecked"[0] == 'P' && "ProofChecked"[11] == 'd';
    StripTrimmed("ProofChecked");
    hide Strip;
  }

  /** Both chain obligations hold exactly when the release's bundle chains. */
  lemma ChainObligationsHold(p: Primitives, r: Release, verification: Dict, signed: Dict, c: Chain)
    requires RequireDict(p, r, "verification_result.json") == Ok(verification)
    requires RequireDict(p, r, "signed_science_claim_bundle.json") == Ok(signed)
    requires CertifiedBundleHash(p, r) == Ok(c.certified)
    requires GetIn(Some(verification), "verified_input", "bundle_hash") == Some(Str(c.verified))
    requires Get(signed, "signed_input_bundle_hash") == Some(Str(c.signed))
    requires RequireText(verification, "status", "verification_result.json") == Ok(c.verificationStatus)
    requires BlockingChecksPassed(verification) == Ok(c.blockingPassed)
    ensures BundleChains(p, r) <==>
              && Evaluate(p, "VerificationAdmitsBundle", AdmitsInputs(c)).None?
              && Evaluate(p, "SignedBundleAdmissible", SignedInputs(c)).None?
  {
    hide Evaluate, RequireDict, CertifiedBundleHash, RequireText, BlockingChecksPassed, EveryCheckPasses, GetIn, AdmitsInputs, SignedInputs;
    AdmitsHolds(p, c);
    SignedHolds(p, c);
    BlockingMeansChecks(verification);
    if Get(verification, "status") == Some(Str("ProofChecked")) {
      StatusStripped(verification);
    }
  }
}
