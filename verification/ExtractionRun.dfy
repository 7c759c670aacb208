/** `extract_proof_obligations_from_release` over the mutable builder, and when it succeeds. */
module ExtractionRun {
  import opened Wrappers
  import opened Text
  import opened Json
  import opened CanonicalJson
  import opened Primitives
  import opened Release
  import opened Projection
  import opened ProjectionValidation
  import opened ProjectionTheorems
  import opened Payloads
  import opened Extraction

  // ---------------------------------------------------------------- driving the builder

  lemma {:induction false} AddEachFails(p: Primitives, r: Release, requests: seq<AddRequest>, i: nat, e: ExtractionError)
    requires i <= |requests| && AddEach(p, r, [], requests[..i]) == Err(e)
    ensures AddEach(p, r, [], requests) == Err(e)
    decreases |requests|
  {
    hide AddEntry;
    if i == |requests| {
      assert requests[..i] == requests;
    } else {
      var shorter := requests[..|requests| - 1];
      assert shorter[..i] == requests[..i];
      AddEachFails(p, r, shorter, i, e);
    }
  }

  /** The extractor's calls of `add`, the first refusal ending them. */
  method AddRequests(builder: ProjectionManifestBuilder, requests: seq<AddRequest>) returns (failure: Option<ExtractionError>)
    requires builder.Valid() && builder.entries == []
    modifies builder
    ensures builder.Valid()
    ensures AddEach(builder.p, builder.release, [], requests)
         == match failure case None => Ok(builder.entries) case Some(e) => Err(e)
  {
    hide AddEntry, AddError;
    for i := 0 to |requests|
      invariant builder.Valid()
      invariant AddEach(builder.p, builder.release, [], requests[..i]) == Ok(builder.entries)
    {
      ghost var upTo := requests[..i + 1];
      assert upTo[..i] == requests[..i] && upTo[i] == requests[i];
      ghost var before := builder.entries;
      var added := builder.Add(requests[i]);
      AddEntryAsAdd(builder.p, builder.release, before, requests[i]);
      if added.Err? {
        AddEachFails(builder.p, builder.release, requests, i + 1, added.error);
        return Some(added.error);
      }
    }
    assert requests[..|requests|] == requests;
    return None;
  }

  lemma AddEntryAsAdd(p: Primitives, r: Release, entries: seq<Entry>, req: AddRequest)
    ensures AddEntry(p, r, entries, req).Ok? <==> AddError(r, entries, req).None?
    ensures AddError(r, entries, req).Some? ==> AddEntry(p, r, entries, req) == Err(AddError(r, entries, req).value)
  {
    hide FormError, NewEntry;
  }

  /** `extract_proof_obligations_from_release`. */
  method ExtractProofObligations(p: Primitives, r: Release, given: Option<string>, w: Workflow, commit: string)
    returns (result: Result<Dict, ExtractionError>)
    ensures result.Ok? ==> Extracts(p, r, given, w, commit, result.value)
    ensures result.Err? ==> forall doc :: !Extracts(p, r, given, w, commit, doc)
  {
    hide ReadPlan, AddEntry, Manifest, ReplayOk, ProjectionHash, CheckedValue, Document, LoadDict, EntriesSound;
    var releaseId := ResolveReleaseId(p, r, given);
    if releaseId.Err? {
      return Err(releaseId.error);
    }
    ReleaseIdChecked(p, r, given);
    WorkflowIdChecked(w);
    var builder := new ProjectionManifestBuilder(p, r, releaseId.value, WorkflowId(w), None);
    var plan := ReadPlan(p, r, w);
    if plan.Err? {
      return Err(plan.error);
    }
    var failure := AddRequests(builder, plan.value.requests);
    if failure.Some? {
      return Err(failure.value);
    }
    var built := builder.Build();
    if built.Err? {
      return Err(built.error);
    }
    var manifest := built.value;
    var hash := ProjectionHash(p, manifest);
    var replay := ValidateAgainstRelease(p, r, manifest, Some(hash));
    if replay.Err? {
      return Err(replay.error);
    }
    if replay.value != [] {
      return Err(ReplayFailed);
    }
    return Ok(Document(p, releaseId.value, w, plan.value.obligations, manifest, commit));
  }

  lemma ReleaseIdChecked(p: Primitives, r: Release, given: Option<string>)
    requires ResolveReleaseId(p, r, given).Ok?
    ensures CheckedValue(ResolveReleaseId(p, r, given).value, "release_id").Ok?
  {
    hide LoadDict, HasUnknownWord, Strip;
  }
}
