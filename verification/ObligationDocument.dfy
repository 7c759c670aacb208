/** ProofObligation.v0 documents: their validators (python/pcs_core/pcs_projection.py:590-631,
    lean_validate.py:14-34), and why everything the extractor returns passes them and gets a verdict. */
module ObligationDocument {
  import opened Wrappers
  import opened Text
  import opened Json
  import opened CanonicalJson
  import opened Primitives
  import opened Release
  import opened Projection
  import opened ProjectionValidation
  import opened ProjectionTheorems
  import opened Extraction
  import opened LeanTrust

  // ---------------------------------------------------------------- validators

  /** A field that is a text must equal the manifest's; another value is not compared. */
  predicate FieldAgrees(doc: Dict, manifest: Dict, name: string) {
    TextAt(doc, name).Some? ==> TextAt(manifest, name) == TextAt(doc, name)
  }

  /** A document whose projection the validator accepts, against a release when one is given. */
  ghost predicate ProjectionAccepted(p: Primitives, doc: Dict, release: Option<Release>) {
    match Get(doc, "pcs_projection_manifest")
    case Some(Obj(manifest)) =>
      var hash := TextAt(doc, "pcs_projection_manifest_hash");
      && hash.Some? && IsDigest(hash.value)
      && FieldAgrees(doc, manifest, "release_id") && FieldAgrees(doc, manifest, "workflow_id")
      && (match release
          case Some(r) => ReplayOk(p, r, manifest, hash)
          case None => StructureOk(p, manifest) && ProjectionHash(p, manifest) == hash.value)
    case _ => false
  }

  /** `validate_proof_obligation_projection`. */
  method ValidateObligationProjection(p: Primitives, doc: Dict, release: Option<Release>)
    returns (result: Result<seq<Issue>, ExtractionError>)
    ensures result == Ok([]) <==> ProjectionAccepted(p, doc, release)
    ensures result.Err? ==> release.Some? && result.error.MalformedJson?
  {
    hide StructureOk, ReplayOk, ProjectionHash, IsDigest;
    var raw := Get(doc, "pcs_projection_manifest");
    if raw.None? || !raw.value.Obj? {
      return Ok([Issue(-1, ProjectionMissing)]);
    }
    var manifest := raw.value.members;
    var hash := TextAt(doc, "pcs_projection_manifest_hash");
    var errors: seq<Issue> := [];
    if hash.None? || !IsDigest(hash.value) {
      errors := errors + [Issue(-1, ProjectionHashShape)];
    }
    if !FieldAgrees(doc, manifest, "release_id") {
      errors := errors + [Issue(-1, ReleaseIdMismatch)];
    }
    if !FieldAgrees(doc, manifest, "workflow_id") {
      errors := errors + [Issue(-1, WorkflowIdMismatch)];
    }
    ghost var shaped := errors == [];
    match release {
      case Some(r) =>
        var replay := ValidateAgainstRelease(p, r, manifest, hash);
        if replay.Err? {
          return replay;
        }
        errors := errors + replay.value;
        assert errors == [] <==> shaped && ReplayOk(p, r, manifest, hash);
      case None =>
        var structure := ValidateStructure(p, manifest);
        errors := errors + structure;
        if hash.Some? && IsDigest(hash.value) && ProjectionHash(p, manifest) != hash.value {
          errors := errors + [Issue(-1, ExpectedHashMismatch)];
        }
        assert errors == [] <==> shaped && StructureOk(p, manifest) && ProjectionHash(p, manifest) == hash.value;
    }
    return Ok(errors);
  }

  /** A document that also lists obligations, all of kinds the catalog has. */
  ghost predicate DocumentAccepted(p: Primitives, doc: Dict) {
    && ProjectionAccepted(p, doc, None)
    && match Get(doc, "obligations")
       case Some(Arr(items)) => items != [] && forall i :: 0 <= i < |items| ==> EntryKindKnown(items[i])
       case _ => false
  }

  predicate EntryKindKnown(item: Json) {
    item.Obj? && TextAt(item.members, "kind").Some? && KindTheorem(TextAt(item.members, "kind").value).Some?
  }

  /** Two fields of a name: when the document's is a text, the manifest's is that text. */
  ghost predicate CarriesOver(doc: Dict, manifest: Dict, name: string) {
    forall s :: Get(doc, name) == Some(Str(s)) ==> Get(manifest, name) == Some(Str(s))
  }

  /** When a document's projection is accepted without a release, over its fields. */
  lemma ProjectionMeaning(p: Primitives, doc: Dict)
    ensures ProjectionAccepted(p, doc, None) <==> CarriesProjection(p, doc)
  {
    hide Get, IsDigest, StructureOk, ProjectionHash;
  }

  /** The document embeds a manifest without structural errors under its hash, and names its release and
      workflow as the manifest does. */
  ghost predicate CarriesProjection(p: Primitives, doc: Dict) {
    match (Get(doc, "pcs_projection_manifest"), Get(doc, "pcs_projection_manifest_hash"))
    case (Some(Obj(body)), Some(Str(declared))) =>
      && IsDigest(declared) && StructureOk(p, body) && ProjectionHash(p, body) == declared
      && CarriesOver(doc, body, "release_id") && CarriesOver(doc, body, "workflow_id")
    case _ => false
  }

  /** When a document is accepted with its obligations: at least one, each an object of a known kind. */
  lemma DocumentMeaning(p: Primitives, doc: Dict)
    ensures DocumentAccepted(p, doc) <==>
              && ProjectionAccepted(p, doc, None)
              && match Get(doc, "obligations")
                 case Some(Arr(items)) =>
                   items != [] && forall i :: 0 <= i < |items| ==>
                     items[i].Obj? && exists kind :: Get(items[i].members, "kind") == Some(Str(kind)) && KindNamed(kind)
                 case _ => false
  {
    KindsNamed();
    hide Get, ProjectionAccepted, KindTheorem, KindNamed;
  }

  lemma KindsNamed()
    ensures forall kind :: KindTheorem(kind).Some? <==> KindNamed(kind)
  {
    hide KindTheorem;
    forall kind: string ensures KindTheorem(kind).Some? <==> KindNamed(kind) {
      KindTheorems(kind);
    }
  }

  /** The six kinds of obligation. */
  ghost predicate KindNamed(kind: string) {
    kind in {"CertificateMatchesRuntime", "VerificationAdmitsBundle", "SignedBundleAdmissible", "ToolTraceHashMatchesCertificate",
             "ComputationWitnessHashAlignment", "ReleaseChainAdmissible"}
  }

  datatype DocumentIssue = ProjectionIssue(issue: Issue) | ObligationsMissing | EntryNotObject(index: int) | KindUnknown(index: int)

  /** `validate_proof_obligation_semantics`. */
  method ValidateObligationSemantics(p: Primitives, doc: Dict) returns (errors: seq<DocumentIssue>)
    ensures errors == [] <==> DocumentAccepted(p, doc)
  {
    hide ProjectionAccepted, KindTheorem;
    var projection := ValidateObligationProjection(p, doc, None);
    errors := seq(|projection.value|, i requires 0 <= i < |projection.value| => ProjectionIssue(projection.value[i]));
    var raw := Get(doc, "obligations");
    if raw.None? || !raw.value.Arr? || raw.value.items == [] {
      return errors + [ObligationsMissing];
    }
    var items := raw.value.items;
    for index := 0 to |items|
      invariant errors == [] <==> ProjectionAccepted(p, doc, None) && forall j :: 0 <= j < index ==> EntryKindKnown(items[j])
    {
      if !items[index].Obj? {
        errors := errors + [EntryNotObject(index)];
      } else if !EntryKindKnown(items[index]) {
        errors := errors + [KindUnknown(index)];
      }
    }
  }

  // ---------------------------------------------------------------- fields of an extracted document

  /** The ten names are pairwise different. */
  lemma DocumentNames()
    ensures "obligations" !in {"schema_version", "obligation_id", "release_id", "workflow_id", SIGNATURE_FIELD}
    ensures "pcs_projection_manifest" !in {"schema_version", "obligation_id", "release_id", "workflow_id", "obligations", SIGNATURE_FIELD}
    ensures "pcs_projection_manifest_hash" !in {"schema_version", "obligation_id", "release_id", "workflow_id", "obligations", SIGNATURE_FIELD}
    ensures "pcs_projection_manifest_hash" != "pcs_projection_manifest"
  {
    assert |"schema_version"| == 14 && |"obligation_id"| == 13 && |"release_id"| == 10 && |"workflow_id"| == 11;
    assert |"obligations"| == 11 && |"pcs_projection_manifest"| == 23 && |"pcs_projection_manifest_hash"| == 28;
    assert |SIGNATURE_FIELD| == 19 && "obligations"[0] == 'o' && "workflow_id"[0] == 'w';
  }

  lemma HeadNames()
    ensures "obligation_id" !in {"schema_version", SIGNATURE_FIELD}
    ensures "release_id" !in {"schema_version", "obligation_id", SIGNATURE_FIELD}
    ensures "workflow_id" !in {"schema_version", "obligation_id", "release_id", SIGNATURE_FIELD}
  {
    assert |"schema_version"| == 14 && |"obligation_id"| == 13 && |"release_id"| == 10 && |"workflow_id"| == 11;
    assert |SIGNATURE_FIELD| == 19;
  }

  function DocumentHead(releaseId: string, w: Workflow): Dict {
    [Member("schema_version", Str("v0")), Member("obligation_id", Str("proof-obligation-" + releaseId)),
     Member("release_id", Str(releaseId)), Member("workflow_id", Str(WorkflowId(w)))]
  }

  function DocumentMiddle(p: Primitives, obligations: seq<Json>, manifest: Dict): Dict {
    [Member("obligations", Arr(obligations)), Member("pcs_projection_manifest", Obj(manifest)),
     Member("pcs_projection_manifest_hash", Str(ProjectionHash(p, manifest))), Member("lean_module", Str("PCS.Theorems"))]
  }

  lemma DocumentGet(p: Primitives, releaseId: string, w: Workflow, obligations: seq<Json>, manifest: Dict, commit: string, name: string)
    requires name != SIGNATURE_FIELD
    ensures var doc := Document(p, releaseId, w, obligations, manifest, commit);
            var head, middle := DocumentHead(releaseId, w), DocumentMiddle(p, obligations, manifest);
            Has(head, name) || Has(middle, name) ==> Get(doc, name) == if Has(head, name) then Get(head, name) else Get(middle, name)
  {
    hide ProjectionHash, WorkflowId, Get;
    var body := DocumentBody(p, releaseId, w, obligations, manifest, commit);
    var head, middle := DocumentHead(releaseId, w), DocumentMiddle(p, obligations, manifest);
    var last := [Member("source_commit", Str(commit)), Member(SIGNATURE_FIELD, Str(PLACEHOLDER_DIGEST))];
    assert body == head + (middle + last);
    GetConcat(head, middle + last, name);
    GetConcat(middle, last, name);
    GetPut(body, SIGNATURE_FIELD, Str(p.Hash(body)), name);
  }

  lemma HeadFields(releaseId: string, w: Workflow)
    ensures var head := DocumentHead(releaseId, w);
            && Get(head, "obligation_id") == Some(Str("proof-obligation-" + releaseId))
            && Get(head, "release_id") == Some(Str(releaseId)) && Get(head, "workflow_id") == Some(Str(WorkflowId(w)))
            && Get(head, "obligations") == None && Get(head, "pcs_projection_manifest") == None
            && Get(head, "pcs_projection_manifest_hash") == None
  {
    hide Get, WorkflowId;
    DocumentNames();
    HeadNames();
    var h := DocumentHead(releaseId, w);
    forall name ensures Get(h, name) == OneOfFour(h[0], h[1], h[2], h[3], name) {
      FourFields(h[0], h[1], h[2], h[3], name);
    }
  }

  lemma MiddleFields(p: Primitives, obligations: seq<Json>, manifest: Dict)
    ensures var middle := DocumentMiddle(p, obligations, manifest);
            && Get(middle, "obligations") == Some(Arr(obligations)) && Get(middle, "pcs_projection_manifest") == Some(Obj(manifest))
            && Get(middle, "pcs_projection_manifest_hash") == Some(Str(ProjectionHash(p, manifest)))
  {
    hide Get, ProjectionHash;
    DocumentNames();
    var m := DocumentMiddle(p, obligations, manifest);
    forall name ensures Get(m, name) == OneOfFour(m[0], m[1], m[2], m[3], name) {
      FourFields(m[0], m[1], m[2], m[3], name);
    }
  }

  lemma DocumentFields(p: Primitives, releaseId: string, w: Workflow, obligations: seq<Json>, manifest: Dict, commit: string)
    ensures var doc := Document(p, releaseId, w, obligations, manifest, commit);
            && Get(doc, "obligation_id") == Some(Str("proof-obligation-" + releaseId))
            && Get(doc, "release_id") == Some(Str(releaseId)) && Get(doc, "workflow_id") == Some(Str(WorkflowId(w)))
            && Get(doc, "obligations") == Some(Arr(obligations)) && Get(doc, "pcs_projection_manifest") == Some(Obj(manifest))
            && Get(doc, "pcs_projection_manifest_hash") == Some(Str(ProjectionHash(p, manifest)))
  {
    hide Get, WorkflowId, ProjectionHash, Document, DocumentHead, DocumentMiddle;
    DocumentNames();
    HeadNames();
    HeadFields(releaseId, w);
    MiddleFields(p, obligations, manifest);
    forall name | name != SIGNATURE_FIELD
      ensures var doc := Document(p, releaseId, w, obligations, manifest, commit);
              var head, middle := DocumentHead(releaseId, w), DocumentMiddle(p, obligations, manifest);
              Has(head, name) || Has(middle, name) ==> Get(doc, name) == if Has(head, name) then Get(head, name) else Get(middle, name)
    {
      DocumentGet(p, releaseId, w, obligations, manifest, commit, name);
    }
  }

  // ---------------------------------------------------------------- extracted documents pass

  lemma HashIsDigest(p: Primitives, manifest: Dict)
    ensures IsDigest(ProjectionHash(p, manifest))
  {
    hide IsDigest;
  }

  lemma ReplayIncludesStructure(p: Primitives, r: Release, manifest: Dict, expected: Option<string>)
    requires ReplayOk(p, r, manifest, expected)
    ensures StructureOk(p, manifest)
  {
    hide StructureOk, ItemReplays;
  }

  lemma ReleaseManifestFields(p: Primitives, releaseId: string, w: Workflow, entries: seq<Entry>)
    ensures var m := ReleaseManifest(p, releaseId, w, entries);
            TextAt(m, "release_id") == Some(releaseId) && TextAt(m, "workflow_id") == Some(WorkflowId(w))
  {
    hide Manifest, WorkflowId, EntriesToJson;
    ManifestFields(p, ProjectionId(None, releaseId), releaseId, WorkflowId(w), entries);
  }

  /** Every document extraction returns passes the projection validator, with the release at hand and
      without it. */
  lemma ExtractedProjectionAccepted(p: Primitives, r: Release, given: Option<string>, w: Workflow, commit: string, doc: Dict)
    requires Extracts(p, r, given, w, commit, doc)
    ensures ProjectionAccepted(p, doc, Some(r)) && ProjectionAccepted(p, doc, None)
  {
    hide ReplayOk, StructureOk, ProjectionHash, IsDigest, ReleaseManifest, Document, ResolveReleaseId, Prepared, WorkflowId, Get;
    var releaseId := ResolveReleaseId(p, r, given).value;
    var manifest := ReleaseManifest(p, releaseId, w, Prepared(p, r, w).value.0);
    DocumentFields(p, releaseId, w, Prepared(p, r, w).value.1, manifest, commit);
    ReleaseManifestFields(p, releaseId, w, Prepared(p, r, w).value.0);
    HashIsDigest(p, manifest);
    ReplayIncludesStructure(p, r, manifest, Some(ProjectionHash(p, manifest)));
  }

  // ---------------------------------------------------------------- extracted documents get a verdict

  lemma SpaceNoWordChar(c: char)
    requires IsSpace(c)
    ensures !WordChar(c)
  {
  }

  const ID_PREFIX := "proof-obligation-"

  lemma PrefixFacts()
    ensures |ID_PREFIX| == 17 && !IsSpace(ID_PREFIX[0]) && forall i :: 0 <= i < 17 ==> !FoldsTo(ID_PREFIX[i], 'u')
  {
  }

  lemma StripKeepsHead(s: string)
    requires s != "" && !IsSpace(s[0])
    ensures Strip(s) != "" && Strip(s) <= s && forall i :: |Strip(s)| <= i < |s| ==> IsSpace(s[i])
  {
    hide IsSpace;
    assert StripLeft(s) == s;
    StripRightForm(s);
    StripRightDrops(s);
  }

  lemma PrefixedStrip(releaseId: string)
    ensures var s, id := ID_PREFIX + releaseId, Strip(ID_PREFIX + releaseId);
            && id != "" && id <= s && Strip(id) == id && forall i :: |id| <= i < |s| ==> IsSpace(s[i])
  {
    hide IsSpace, Strip;
    var s := ID_PREFIX + releaseId;
    PrefixFacts();
    assert s[0] == ID_PREFIX[0];
    StripKeepsHead(s);
    StripTrimmed(s);
    StripTrimmed(Strip(s));
  }

  lemma PlaceholderAfterPrefix(id: string, i: int)
    requires |id| >= 1 && UnknownWordAt(id, i)
    requires forall k :: 0 <= k < 17 && k < |id| ==> id[k] == ID_PREFIX[k]
    ensures i >= 17
  {
    PrefixFacts();
    hide FoldsTo, WordChar;
    assert FoldsTo(id[i], 'u');
  }

  /** A placeholder found behind the prefix was one before it was there. */
  lemma PrefixHidesNothing(releaseId: string, id: string, i: int)
    requires id != "" && id <= ID_PREFIX + releaseId && UnknownWordAt(id, i)
    requires forall k :: |id| <= k < 17 + |releaseId| ==> IsSpace((ID_PREFIX + releaseId)[k])
    ensures HasUnknownWord(releaseId)
  {
    PrefixFacts();
    PlaceholderAfterPrefix(id, i);
    hide IsSpace, WordChar, FoldsTo;
    assert forall k :: 17 <= k < |id| ==> id[k] == releaseId[k - 17];
    if i + 7 == |id| < 17 + |releaseId| {
      assert IsSpace((ID_PREFIX + releaseId)[|id|]);
      SpaceNoWordChar(releaseId[i + 7 - 17]);
    }
    assert UnknownWordAt(releaseId, i - 17);
  }

  lemma PrefixedIdChecked(releaseId: string)
    requires CheckedValue(releaseId, "release_id").Ok?
    ensures var id := Strip(ID_PREFIX + releaseId); id != "" && CheckedValue(id, "obligation_id") == Ok(id)
  {
    var id := Strip(ID_PREFIX + releaseId);
    PrefixedStrip(releaseId);
    PrefixFacts();
    hide IsSpace, UnknownWordAt, Strip;
    forall i | 0 <= i < |id| && UnknownWordAt(id, i) ensures HasUnknownWord(releaseId) {
      PrefixHidesNothing(releaseId, id, i);
    }
  }

  /** Every document extraction returns has a well-formed header, so a check of it always gives a verdict. */
  lemma ExtractedHeader(p: Primitives, r: Release, given: Option<string>, w: Workflow, commit: string, doc: Dict)
    requires Extracts(p, r, given, w, commit, doc) && CheckedValue(ResolveReleaseId(p, r, given).value, "release_id").Ok?
    ensures Header(p, doc).Ok? && ObligationEntries(doc) == Ok(Prepared(p, r, w).value.1)
    ensures Get(doc, "obligations") == Some(Arr(Prepared(p, r, w).value.1))
  {
    hide ReplayOk, ProjectionHash, IsDigest, ReleaseManifest, Document, ResolveReleaseId, Prepared, WorkflowId, Get, Strip, CheckedValue;
    var releaseId := ResolveReleaseId(p, r, given).value;
    var manifest := ReleaseManifest(p, releaseId, w, Prepared(p, r, w).value.0);
    DocumentFields(p, releaseId, w, Prepared(p, r, w).value.1, manifest, commit);
    HashIsDigest(p, manifest);
    PrefixedIdChecked(releaseId);
  }
}
