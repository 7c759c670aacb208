/** Readiness of a computation release (python/pcs_core/computation_validate.py:64-79, 260-433) and what
    it adds to the alignment obligation. */
module Readiness {
  import opened Wrappers
  import opened Text
  import opened Json
  import opened CanonicalJson
  import opened Primitives
  import opened Release
  import opened Projection
  import opened Payloads
  import opened Extraction
  import opened LeanTrust
  import ComputationTheorems

  const RELEASE_WITNESS_STATUS := "CertificateChecked"

  datatype ReadinessIssue =
    | SelfDigestShape | SelfDigestWrong | AggregateHashWrong | ZeroCommit
    | WitnessStatusInvalid | ViolationsNotArray | ViolationShape(index: int) | ViolationsUnexpected | ViolationsMissing
    | StatusNotChecked | DatasetHashWrong | EnvironmentHashWrong | RunHashWrong
    | HashDuplicates | ResultHashAbsent | HashUndeclared | FieldNotDigest(name: string) | ExitCodeNonZero | CommitMismatch

  /** Raised by a set lookup of an unhashable value. */
  datatype Raised = Unhashable

  // ---------------------------------------------------------------- receipts

  /** `receipt_body_digest`. */
  function ReceiptBodyDigest(p: Primitives, data: Dict): string {
    p.Hash(Put(data, SIGNATURE_FIELD, Str(PLACEHOLDER_DIGEST)))
  }

  /** The digest of a receipt does not depend on the digest it carries. */
  lemma ReceiptDigestIgnoresItself(p: Primitives, data: Dict, declared: Json)
    ensures ReceiptBodyDigest(p, Put(data, SIGNATURE_FIELD, declared)) == ReceiptBodyDigest(p, data) == p.Hash(data)
  {
    var marker := Str(PLACEHOLDER_DIGEST);
    PutPresent(data, SIGNATURE_FIELD, declared, marker);
    WithoutPut(data, HASH_EXCLUDED_FIELDS, SIGNATURE_FIELD, marker);
    assert StripExcluded(Put(data, SIGNATURE_FIELD, marker)) == StripExcluded(data);
  }

  /** `_signature_or_digest_valid` finds nothing. */
  predicate SelfDigestValid(p: Primitives, data: Dict) {
    match TextAt(data, SIGNATURE_FIELD)
    case Some(digest) => StartsWith(digest, "sha256:") && digest == ReceiptBodyDigest(p, data)
    case None => false
  }

  predicate AggregateHolds(p: Primitives, dataset: Dict) {
    match Get(dataset, "files")
    case Some(Arr(files)) =>
      TextAt(dataset, "aggregate_hash").Some? ==> TextAt(dataset, "aggregate_hash").value == p.Hash([Member("files", Arr(files))])
    case _ => true
  }

  const ZERO_COMMIT := "0000000000000000000000000000000000000000"

  predicate CommitNonZero(data: Dict) {
    TextAt(data, "code_commit") != Some(ZERO_COMMIT)
  }

  method SelfDigestIssues(p: Primitives, data: Dict) returns (errors: seq<ReadinessIssue>)
    ensures errors == [] <==> SelfDigestValid(p, data)
  {
    var digest := TextAt(data, SIGNATURE_FIELD);
    if digest.None? || !StartsWith(digest.value, "sha256:") {
      return [SelfDigestShape];
    }
    errors := if digest.value != ReceiptBodyDigest(p, data) then [SelfDigestWrong] else [];
  }

  // ---------------------------------------------------------------- the witness

  predicate ViolationOk(item: Json) {
    && item.Obj?
    && NonEmptyText(Get(item.members, "violation_id")).Some?
    && NonEmptyText(Get(item.members, "violation_type")).Some?
    && NonEmptyText(Get(item.members, "explanation")).Some?
  }

  /** No violations with a checked status, some with a rejected one. */
  predicate WitnessConsistent(p: Primitives, witnessDoc: Dict) {
    && Get(witnessDoc, "status") in {Some(Str("CertificateChecked")), Some(Str("Rejected")), Some(Str("Stale"))}
    && (match Get(witnessDoc, "violations")
        case Some(Arr(items)) =>
          && (forall i :: 0 <= i < |items| ==> ViolationOk(items[i]))
          && (Get(witnessDoc, "status") == Some(Str("CertificateChecked")) ==> items == [])
          && (Get(witnessDoc, "status") == Some(Str("Rejected")) ==> items != [])
        case _ => false)
    && CommitNonZero(witnessDoc) && SelfDigestValid(p, witnessDoc)
  }

  predicate Hashable(v: Option<Json>) {
    v.Some? ==> !v.value.Arr? && !v.value.Obj?
  }

  /** `validate_computation_witness_semantics`. */
  method WitnessIssues(p: Primitives, witnessDoc: Dict) returns (r: Result<seq<ReadinessIssue>, Raised>)
    ensures r.Err? <==> Get(witnessDoc, "status").Some? && (Get(witnessDoc, "status").value.Arr? || Get(witnessDoc, "status").value.Obj?)
    ensures r == Ok([]) <==> WitnessConsistent(p, witnessDoc)
  {
    hide SelfDigestValid, CommitNonZero, ViolationOk;
    var status := Get(witnessDoc, "status");
    if !Hashable(status) {
      return Err(Unhashable);
    }
    var errors: seq<ReadinessIssue> := [];
    if status !in {Some(Str("CertificateChecked")), Some(Str("Rejected")), Some(Str("Stale"))} {
      errors := errors + [WitnessStatusInvalid];
    }
    ghost var known := errors == [];
    var raw := Get(witnessDoc, "violations");
    var violations: seq<Json> := [];
    if raw.None? || !raw.value.Arr? {
      errors := errors + [ViolationsNotArray];
    } else {
      violations := raw.value.items;
      for i := 0 to |violations|
        invariant errors == [] <==> known && forall j :: 0 <= j < i ==> ViolationOk(violations[j])
      {
        if !ViolationOk(violations[i]) {
          errors := errors + [ViolationShape(i)];
        }
      }
    }
    if status == Some(Str("CertificateChecked")) && violations != [] {
      errors := errors + [ViolationsUnexpected];
    } else if status == Some(Str("Rejected")) && violations == [] {
      errors := errors + [ViolationsMissing];
    }
    if !CommitNonZero(witnessDoc) {
      errors := errors + [ZeroCommit];
    }
    var own := SelfDigestIssues(p, witnessDoc);
    return Ok(errors + own);
  }

  // ---------------------------------------------------------------- alignment

  /** The witness lists the result's digest, once, and nothing else. */
  predicate HashesAligned(p: Primitives, result: Dict, witnessDoc: Dict) {
    match Get(witnessDoc, "result_hashes")
    case Some(Arr(items)) =>
      var texts := Texts(p, items);
      && AllDistinct(texts)
      && (TextAt(result, "sha256").Some? ==>
            TextAt(result, "sha256").value in texts && forall i :: 0 <= i < |texts| ==> texts[i] == TextAt(result, "sha256").value)
    case _ => true
  }

  predicate DigestShaped(v: Option<Json>) {
    v.Some? && v.value.Str? && StartsWith(v.value.s, "sha256:") && |v.value.s| == 71
  }

  /** `exit_code in (0, None)`. */
  predicate CleanExit(v: Option<Json>) {
    match v
    case None => true
    case Some(Null) => true
    case Some(Int(n)) => n == 0
    case Some(Bool(b)) => !b
    case Some(Float(repr, _)) => repr == "0.0" || repr == "-0.0"
    case _ => false
  }

  predicate TextsAgree(a: Option<string>, b: Option<string>) {
    a.Some? && b.Some? ==> a == b
  }

  predicate CheckedWitnessComplete(run: Dict, witnessDoc: Dict) {
    Get(witnessDoc, "status") == Some(Str(RELEASE_WITNESS_STATUS)) ==>
      && DigestShaped(Get(witnessDoc, "dataset_hash")) && DigestShaped(Get(witnessDoc, "environment_hash"))
      && DigestShaped(Get(witnessDoc, "run_receipt_hash")) && CleanExit(Get(run, "exit_code"))
  }

  predicate Aligned(p: Primitives, dataset: Dict, environment: Dict, run: Dict, result: Dict, witnessDoc: Dict) {
    && TextsAgree(TextAt(witnessDoc, "dataset_hash"), TextAt(dataset, "aggregate_hash"))
    && TextsAgree(TextAt(witnessDoc, "environment_hash"), Some(ReceiptBodyDigest(p, environment)))
    && TextsAgree(TextAt(witnessDoc, "run_receipt_hash"), Some(ReceiptBodyDigest(p, run)))
    && HashesAligned(p, result, witnessDoc)
    && CheckedWitnessComplete(run, witnessDoc)
    && TextsAgree(TextAt(witnessDoc, "code_commit"), TextAt(run, "code_commit"))
  }

  method HashIssues(p: Primitives, result: Dict, witnessDoc: Dict) returns (errors: seq<ReadinessIssue>)
    ensures errors == [] <==> HashesAligned(p, result, witnessDoc)
  {
    hide AllDistinct, Texts;
    errors := [];
    var raw, sha := Get(witnessDoc, "result_hashes"), TextAt(result, "sha256");
    if raw.Some? && raw.value.Arr? {
      var normalized := Texts(p, raw.value.items);
      if !AllDistinct(normalized) {
        errors := errors + [HashDuplicates];
      }
      if sha.Some? {
        if sha.value !in normalized {
          errors := errors + [ResultHashAbsent];
        }
        if exists i :: 0 <= i < |normalized| && normalized[i] != sha.value {
          errors := errors + [HashUndeclared];
        }
      }
    }
  }

  /** `validate_computation_witness_alignment`. */
  method AlignmentIssues(p: Primitives, dataset: Dict, environment: Dict, run: Dict, result: Dict, witnessDoc: Dict)
    returns (errors: seq<ReadinessIssue>)
    ensures errors == [] <==> Aligned(p, dataset, environment, run, result, witnessDoc)
  {
    hide HashesAligned, ReceiptBodyDigest, DigestShaped, CleanExit;
    errors := [];
    if !TextsAgree(TextAt(witnessDoc, "dataset_hash"), TextAt(dataset, "aggregate_hash")) {
      errors := errors + [DatasetHashWrong];
    }
    if !TextsAgree(TextAt(witnessDoc, "environment_hash"), Some(ReceiptBodyDigest(p, environment))) {
      errors := errors + [EnvironmentHashWrong];
    }
    if !TextsAgree(TextAt(witnessDoc, "run_receipt_hash"), Some(ReceiptBodyDigest(p, run))) {
      errors := errors + [RunHashWrong];
    }
    var hashes := HashIssues(p, result, witnessDoc);
    errors := errors + hashes;
    ghost var before := errors == [];
    if Get(witnessDoc, "status") == Some(Str(RELEASE_WITNESS_STATUS)) {
      var names := ["dataset_hash", "environment_hash", "run_receipt_hash"];
      for i := 0 to 3
        invariant errors == [] <==> before && forall j :: 0 <= j < i ==> DigestShaped(Get(witnessDoc, names[j]))
      {
        if !DigestShaped(Get(witnessDoc, names[i])) {
          errors := errors + [FieldNotDigest(names[i])];
        }
      }
      assert names[0] == "dataset_hash" && names[1] == "environment_hash" && names[2] == "run_receipt_hash";
      if !CleanExit(Get(run, "exit_code")) {
        errors := errors + [ExitCodeNonZero];
      }
    }
    assert errors == [] <==> before && CheckedWitnessComplete(run, witnessDoc);
    if !TextsAgree(TextAt(witnessDoc, "code_commit"), TextAt(run, "code_commit")) {
      errors := errors + [CommitMismatch];
    }
  }

  predicate Ready(p: Primitives, dataset: Dict, environment: Dict, run: Dict, result: Dict, witnessDoc: Dict) {
    && AggregateHolds(p, dataset) && SelfDigestValid(p, dataset) && SelfDigestValid(p, environment)
    && CommitNonZero(run) && SelfDigestValid(p, run) && SelfDigestValid(p, result)
    && WitnessConsistent(p, witnessDoc) && Get(witnessDoc, "status") == Some(Str(RELEASE_WITNESS_STATUS))
    && Aligned(p, dataset, environment, run, result, witnessDoc)
  }

  /** `validate_computation_release_readiness`. */
  method ReadinessIssues(p: Primitives, dataset: Dict, environment: Dict, run: Dict, result: Dict, witnessDoc: Dict)
    returns (r: Result<seq<ReadinessIssue>, Raised>)
    ensures r == Ok([]) <==> Ready(p, dataset, environment, run, result, witnessDoc)
    ensures r.Err? <==> Get(witnessDoc, "status").Some? && (Get(witnessDoc, "status").value.Arr? || Get(witnessDoc, "status").value.Obj?)
  {
    hide AggregateHolds, SelfDigestValid, CommitNonZero, WitnessConsistent, Aligned;
    var errors: seq<ReadinessIssue> := if AggregateHolds(p, dataset) then [] else [AggregateHashWrong];
    var own := SelfDigestIssues(p, dataset);
    errors := errors + own;
    own := SelfDigestIssues(p, environment);
    errors := errors + own;
    if !CommitNonZero(run) {
      errors := errors + [ZeroCommit];
    }
    own := SelfDigestIssues(p, run);
    errors := errors + own;
    own := SelfDigestIssues(p, result);
    errors := errors + own;
    var witnessIssues := WitnessIssues(p, witnessDoc);
    if witnessIssues.Err? {
      return witnessIssues;
    }
    errors := errors + witnessIssues.value;
    if Get(witnessDoc, "status") != Some(Str(RELEASE_WITNESS_STATUS)) {
      errors := errors + [StatusNotChecked];
    }
    own := AlignmentIssues(p, dataset, environment, run, result, witnessDoc);
    return Ok(errors + own);
  }

  // ---------------------------------------------------------------- readiness, spelt out

  /** A document carries the digest of its own body. */
  ghost predicate CarriesOwnDigest(p: Primitives, d: Dict) {
    exists s :: Get(d, "signature_or_digest") == Some(Str(s)) && "sha256:" <= s && s == p.Hash(d)
  }

  ghost predicate HasText(d: Dict, name: string) {
    exists s :: Get(d, name) == Some(Str(s)) && s != ""
  }

  ghost predicate HasDigest(d: Dict, name: string) {
    exists s :: Get(d, name) == Some(Str(s)) && "sha256:" <= s && |s| == 71
  }

  /** Two fields that are both texts are one text. */
  ghost predicate SameWhenTexts(a: Option<Json>, b: Option<Json>) {
    forall s, t :: a == Some(Str(s)) && b == Some(Str(t)) ==> s == t
  }

  ghost predicate CommitNamed(d: Dict) {
    Get(d, "code_commit") != Some(Str("0000000000000000000000000000000000000000"))
  }

  ghost predicate NamedViolation(item: Json) {
    item.Obj? && HasText(item.members, "violation_id") && HasText(item.members, "violation_type") && HasText(item.members, "explanation")
  }

  /** A witness without issues: checked without violations, rejected with some, or stale. */
  lemma WitnessMeaning(p: Primitives, w: Dict)
    ensures WitnessConsistent(p, w) <==>
              && CommitNamed(w) && CarriesOwnDigest(p, w)
              && match (Get(w, "status"), Get(w, "violations"))
                 case (Some(Str(status)), Some(Arr(items))) =>
                   && (forall i :: 0 <= i < |items| ==> NamedViolation(items[i]))
                   && (|| (status == "CertificateChecked" && items == []) || (status == "Rejected" && items != []) || status == "Stale")
                 case _ => false
  {
    StatusesApart();
    SelfMeans(p, w);
    hide ViolationOk, NamedViolation, Get, SelfDigestValid, CarriesOwnDigest;
    match Get(w, "violations")
    case Some(Arr(items)) =>
      forall i | 0 <= i < |items| ensures ViolationOk(items[i]) <==> NamedViolation(items[i]) {
        ViolationMeans(items[i]);
      }
    case _ =>
  }

  lemma StatusesApart()
    ensures "CertificateChecked" != "Rejected" && "Rejected" != "Stale" && "CertificateChecked" != "Stale"
  {
    assert |"CertificateChecked"| == 18 && |"Rejected"| == 8 && |"Stale"| == 5;
  }

  lemma ViolationMeans(item: Json)
    ensures ViolationOk(item) <==> NamedViolation(item)
  {
    hide Get;
  }

  lemma SelfMeans(p: Primitives, d: Dict)
    ensures SelfDigestValid(p, d) <==> CarriesOwnDigest(p, d)
    ensures ReceiptBodyDigest(p, d) == p.Hash(d)
  {
    ReceiptDigestIgnoresItself(p, d, Null);
    hide Get, ReceiptBodyDigest;
  }

  /** The recorded hashes of a checked witness and its run. */
  ghost predicate RecordsAgree(p: Primitives, dataset: Dict, environment: Dict, run: Dict, w: Dict) {
    && HasDigest(w, "dataset_hash") && SameWhenTexts(Get(w, "dataset_hash"), Get(dataset, "aggregate_hash"))
    && HasDigest(w, "environment_hash") && Get(w, "environment_hash") == Some(Str(p.Hash(environment)))
    && HasDigest(w, "run_receipt_hash") && Get(w, "run_receipt_hash") == Some(Str(p.Hash(run)))
    && SameWhenTexts(Get(w, "code_commit"), Get(run, "code_commit"))
    && NoFailure(Get(run, "exit_code"))
  }

  /** An exit code that is absent, null, or equal to zero. */
  ghost predicate NoFailure(code: Option<Json>) {
    || code == None || code == Some(Null) || code == Some(Int(0)) || code == Some(Bool(false))
    || exists sign :: code == Some(Float("0.0", sign)) || code == Some(Float("-0.0", sign))
  }

  /** A listed result hash is the result's, and the only one. */
  ghost predicate OnlyResultListed(p: Primitives, result: Dict, w: Dict) {
    match Get(w, "result_hashes")
    case Some(Arr(items)) =>
      && (forall i, j :: 0 <= i < j < |items| ==> p.StrOf(items[i]) != p.StrOf(items[j]))
      && (forall sha :: Get(result, "sha256") == Some(Str(sha)) ==> |items| == 1 && p.StrOf(items[0]) == sha)
    case _ => true
  }

  ghost predicate FilesHashed(p: Primitives, dataset: Dict) {
    forall files, s :: Get(dataset, "files") == Some(Arr(files)) && Get(dataset, "aggregate_hash") == Some(Str(s)) ==>
      s == p.Hash([Member("files", Arr(files))])
  }

  /** When a computation release has no readiness issue, over the fields of its five documents. */
  lemma ReadyMeaning(p: Primitives, dataset: Dict, environment: Dict, run: Dict, result: Dict, w: Dict)
    ensures Ready(p, dataset, environment, run, result, w) <==>
              && CarriesOwnDigest(p, dataset) && CarriesOwnDigest(p, environment) && CarriesOwnDigest(p, run)
              && CarriesOwnDigest(p, result) && CarriesOwnDigest(p, w) && CommitNamed(run) && CommitNamed(w)
              && FilesHashed(p, dataset) && Get(w, "status") == Some(Str("CertificateChecked")) && Get(w, "violations") == Some(Arr([]))
              && RecordsAgree(p, dataset, environment, run, w) && OnlyResultListed(p, result, w)
  {
    SelfMeans(p, dataset);
    SelfMeans(p, environment);
    SelfMeans(p, run);
    SelfMeans(p, result);
    SelfMeans(p, w);
    StatusesApart();
    WitnessMeaning(p, w);
    if Get(w, "status") == Some(Str("CertificateChecked")) {
      RecordsMean(p, dataset, environment, run, w);
    }
    CommitMeans(run);
    ListedMeans(p, result, w);
    FilesMean(p, dataset);
    hide SelfDigestValid, CarriesOwnDigest, WitnessConsistent, ReceiptBodyDigest, Get, TextsAgree, CheckedWitnessComplete, HashesAligned,
         OnlyResultListed, RecordsAgree, AggregateHolds, FilesHashed, NamedViolation, TextAt, CommitNonZero, CommitNamed;
  }

  lemma CommitMeans(d: Dict)
    ensures CommitNonZero(d) <==> CommitNamed(d)
  {
    hide Get;
  }

  lemma FilesMean(p: Primitives, dataset: Dict)
    ensures AggregateHolds(p, dataset) <==> FilesHashed(p, dataset)
  {
    hide Get;
  }

  lemma RecordsMean(p: Primitives, dataset: Dict, environment: Dict, run: Dict, w: Dict)
    requires Get(w, "status") == Some(Str("CertificateChecked"))
    ensures RecordsAgree(p, dataset, environment, run, w) <==>
              && TextsAgree(TextAt(w, "dataset_hash"), TextAt(dataset, "aggregate_hash"))
              && TextsAgree(TextAt(w, "environment_hash"), Some(ReceiptBodyDigest(p, environment)))
              && TextsAgree(TextAt(w, "run_receipt_hash"), Some(ReceiptBodyDigest(p, run)))
              && CheckedWitnessComplete(run, w) && TextsAgree(TextAt(w, "code_commit"), TextAt(run, "code_commit"))
  {
    SelfMeans(p, environment);
    SelfMeans(p, run);
    ExitMeans(Get(run, "exit_code"));
    DigestMeans(w, "dataset_hash");
    DigestMeans(w, "environment_hash");
    DigestMeans(w, "run_receipt_hash");
    AgreeMeans(w, "dataset_hash", dataset, "aggregate_hash");
    AgreeMeans(w, "code_commit", run, "code_commit");
    assert RELEASE_WITNESS_STATUS == "CertificateChecked";
    hide Get, ReceiptBodyDigest, DigestShaped, CleanExit, NoFailure, SameWhenTexts;
  }

  lemma ExitMeans(code: Option<Json>)
    ensures CleanExit(code) <==> NoFailure(code)
  {
  }

  lemma DigestMeans(d: Dict, name: string)
    ensures DigestShaped(Get(d, name)) <==> HasDigest(d, name)
  {
    hide Get;
  }

  lemma AgreeMeans(a: Dict, name: string, b: Dict, other: string)
    ensures TextsAgree(TextAt(a, name), TextAt(b, other)) <==> SameWhenTexts(Get(a, name), Get(b, other))
  {
    hide Get;
  }

  lemma ListedMeans(p: Primitives, result: Dict, w: Dict)
    ensures HashesAligned(p, result, w) <==> OnlyResultListed(p, result, w)
  {
    hide Get;
    match Get(w, "result_hashes")
    case Some(Arr(items)) =>
      var texts := Texts(p, items);
      if TextAt(result, "sha256").Some? {
        var sha := TextAt(result, "sha256").value;
        RepeatedNotDistinct(texts, sha);
        assert |items| == 1 && p.StrOf(items[0]) == sha <==> AllDistinct(texts) && sha in texts && forall i :: 0 <= i < |texts| ==> texts[i] == sha;
      }
    case _ =>
  }

  // ---------------------------------------------------------------- what readiness adds

  lemma {:induction false} RequiredAreTexts(items: seq<Json>)
    requires RequireDigests(items).Ok?
    ensures items == StrItems(RequireDigests(items).value)
  {
    hide IsDigest;
    if items != [] {
      RequiredAreTexts(items[1..]);
      assert items == [items[0]] + items[1..];
    }
  }

  lemma RepeatedNotDistinct(s: seq<string>, x: string)
    ensures |s| > 1 && (forall i :: 0 <= i < |s| ==> s[i] == x) ==> !AllDistinct(s)
  {
    if |s| > 1 && forall i :: 0 <= i < |s| ==> s[i] == x {
      assert s[0] == s[1];
    }
  }

  /** A ready witness whose hashes are digests lists exactly the result's digest. */
  lemma ReadyListsOneHash(p: Primitives, result: Dict, witnessDoc: Dict, sha: string)
    requires HashesAligned(p, result, witnessDoc) && WitnessHashes(witnessDoc).Ok? && Get(result, "sha256") == Some(Str(sha))
    ensures WitnessHashes(witnessDoc) == Ok([sha])
  {
    hide IsDigest;
    var items := Get(witnessDoc, "result_hashes").value.items;
    var hashes := WitnessHashes(witnessDoc).value;
    RequiredAreTexts(items);
    ComputationTheorems.TextsOfStrings(p, hashes);
    assert Texts(p, items) == hashes;
    assert TextAt(result, "sha256") == Some(sha);
    assert sha in hashes && hashes[0] == sha;
    RepeatedNotDistinct(hashes, sha);
    assert hashes == [sha];
  }

  /** When a ready computation release is also extracted, its witness lists exactly the primary result's
      digest, and the alignment obligation then holds exactly when no two payloads share a digest; with a
      single result artifact it always holds. */
  lemma ReadyReleaseAligned(p: Primitives, r: Release, dataset: Dict, environment: Dict, run: Dict, result: Dict, witnessDoc: Dict)
    requires RequireDict(p, r, RESULT_ARTIFACT_FILE) == Ok(result) && RequireDict(p, r, "computation_witness.json") == Ok(witnessDoc)
    requires Ready(p, dataset, environment, run, result, witnessDoc) && ReadComputation(p, r).Ok?
    ensures var v := ReadComputation(p, r).value;
            && v.payloads != [] && v.witnessHashes == [v.payloads[0].digest]
            && (Evaluate(p, "ComputationWitnessHashAlignment", AlignmentInputs(v)).None? <==> AllDistinct(Digests(v.payloads)))
            && (|v.payloads| == 1 ==> Evaluate(p, "ComputationWitnessHashAlignment", AlignmentInputs(v)).None?)
  {
    var v := ReadComputation(p, r).value;
    ReadyParts(p, dataset, environment, run, result, witnessDoc);
    ComputationTheorems.ComputationRead(p, r);
    ComputationTheorems.SourceParts(p, r, v);
    WitnessParts(p, r, v, witnessDoc);
    hide *;
    ComputationTheorems.PrimaryPayload(p, r, result, v.payloads);
    ReadyListsOneHash(p, result, witnessDoc, v.payloads[0].digest);
    ComputationTheorems.AlignmentEvaluates(p, AlignmentInputs(v));
    ComputationTheorems.AlignmentHolds(p, v);
    OneHashDeclared(v);
  }

  lemma ReadyParts(p: Primitives, dataset: Dict, environment: Dict, run: Dict, result: Dict, witnessDoc: Dict)
    requires Ready(p, dataset, environment, run, result, witnessDoc)
    ensures HashesAligned(p, result, witnessDoc) && Get(witnessDoc, "status") == Some(Str("CertificateChecked"))
  {
    hide AggregateHolds, SelfDigestValid, CommitNonZero, WitnessConsistent, HashesAligned, CheckedWitnessComplete, TextsAgree;
  }

  lemma OneHashDeclared(v: Computation)
    requires v.payloads != [] && v.witnessHashes == [v.payloads[0].digest]
    ensures forall i :: 0 <= i < |v.witnessHashes| ==> v.witnessHashes[i] in Digests(v.payloads)
    ensures v.payloads[0].digest in v.witnessHashes
    ensures |v.payloads| == 1 ==> AllDistinct(Digests(v.payloads))
  {
    assert Digests(v.payloads)[0] == v.payloads[0].digest;
    assert v.witnessHashes[0] == v.payloads[0].digest;
  }

  lemma WitnessParts(p: Primitives, r: Release, v: Computation, witnessDoc: Dict)
    requires ComputationTheorems.ComputationSource(p, r, v) && RequireDict(p, r, "computation_witness.json") == Ok(witnessDoc)
    requires Get(witnessDoc, "status") == Some(Str("CertificateChecked"))
    ensures WitnessHashes(witnessDoc) == Ok(v.witnessHashes) && v.witnessStatus == "CertificateChecked"
  {
    hide RequireDict, WitnessHashes, VerifiedPayloads, IsDigest, HasUnknownWord, Strip;
    CheckedTrimmed();
  }

  lemma CheckedTrimmed()
    ensures Strip("CertificateChecked") == "CertificateChecked"
  {
    assert |"CertificateChecked"| == 18 && "CertificateChecked"[0] == 'C' && "CertificateChecked"[17] == 'd';
    StripTrimmed("CertificateChecked");
    hide Strip;
  }
}
