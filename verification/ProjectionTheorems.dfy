/** What the builder accepts, the validators accept, up to the stricter "unknown" test. */
module ProjectionTheorems {
  import opened Wrappers
  import opened Text
  import opened Json
  import opened CanonicalJson
  import opened Primitives
  import opened Release
  import opened Projection
  import opened ProjectionValidation

  // ---------------------------------------------------------------- runs of the builder

  /** A run of `add` calls; refused requests leave the entries alone. */
  function AddAll(p: Primitives, r: Release, entries: seq<Entry>, requests: seq<AddRequest>): seq<Entry>
    decreases |requests|
  {
    if requests == [] then entries
    else
      match AddEntry(p, r, entries, requests[0])
      case Ok(more) => AddAll(p, r, more, requests[1..])
      case Err(_) => AddAll(p, r, entries, requests[1..])
  }

  lemma AddEntryKeepsSound(p: Primitives, r: Release, entries: seq<Entry>, req: AddRequest)
    requires EntriesSound(p, r, entries) && AddEntry(p, r, entries, req).Ok?
    ensures EntriesSound(p, r, AddEntry(p, r, entries, req).value) && entries <= AddEntry(p, r, entries, req).value
  {
    hide EntriesSound, FormError, NewEntry;
    AddKeepsSound(p, r, entries, req);
  }

  /** Over every run, accepted and refused calls alike, the entries stay sound and pairwise distinct,
      and nothing already there is lost. */
  lemma {:induction false} RunKeepsSound(p: Primitives, r: Release, entries: seq<Entry>, requests: seq<AddRequest>)
    requires EntriesSound(p, r, entries)
    ensures EntriesSound(p, r, AddAll(p, r, entries, requests))
    ensures entries <= AddAll(p, r, entries, requests)
    decreases |requests|
  {
    hide EntriesSound, AddEntry;
    if requests != [] {
      match AddEntry(p, r, entries, requests[0])
      case Ok(more) =>
        AddEntryKeepsSound(p, r, entries, requests[0]);
        RunKeepsSound(p, r, more, requests[1..]);
      case Err(_) =>
        RunKeepsSound(p, r, entries, requests[1..]);
    }
  }

  // ---------------------------------------------------------------- built manifests

  lemma ManifestNames()
    ensures "entries" !in {"schema_version", "artifact_type", "projection_id", "release_id", "workflow_id", SIGNATURE_FIELD}
    ensures "workflow_id" !in {"schema_version", "artifact_type", "projection_id", "release_id", SIGNATURE_FIELD}
    ensures "release_id" !in {"schema_version", "artifact_type", "projection_id", SIGNATURE_FIELD}
    ensures SIGNATURE_FIELD !in {"schema_version", "artifact_type", "projection_id", "release_id"}
  {
    assert |"entries"| == 7 && |"schema_version"| == 14 && |"artifact_type"| == 13 && |"projection_id"| == 13;
    assert |"release_id"| == 10 && |"workflow_id"| == 11 && |SIGNATURE_FIELD| == 19;
  }

  lemma ManifestFields(p: Primitives, projectionId: string, releaseId: string, workflowId: string, entries: seq<Entry>)
    ensures var m := Manifest(p, projectionId, releaseId, workflowId, entries);
            && Get(m, "entries") == Some(Arr(EntriesToJson(entries)))
            && Get(m, "release_id") == Some(Str(releaseId)) && Get(m, "workflow_id") == Some(Str(workflowId))
            && TextAt(m, SIGNATURE_FIELD) == Some(p.Hash(m))
  {
    var body := ManifestBody(projectionId, releaseId, workflowId, entries, PLACEHOLDER_DIGEST);
    var m := Manifest(p, projectionId, releaseId, workflowId, entries);
    var a, b := Member("schema_version", Str("v0")), Member("artifact_type", Str("PCSProjectionManifest.v0"));
    var c, d := Member("projection_id", Str(projectionId)), Member("release_id", Str(releaseId));
    var e1, e2 := Member("workflow_id", Str(workflowId)), Member("entries", Arr(EntriesToJson(entries)));
    var e3 := Member(SIGNATURE_FIELD, Str(PLACEHOLDER_DIGEST));
    ManifestNames();
    forall name ensures Get(body, name)
                     == if OneOfFour(a, b, c, d, name).Some? then OneOfFour(a, b, c, d, name)
                        else if name == "workflow_id" then Some(e1.value) else if name == "entries" then Some(e2.value)
                        else if name == SIGNATURE_FIELD then Some(e3.value) else None
    {
      GetConcat([a, b, c, d], [e1, e2, e3], name);
      FourFields(a, b, c, d, name);
      assert [e1, e2, e3][1..] == [e2, e3] && [e2, e3][1..] == [e3];
      assert Get([e3], name) == if name == SIGNATURE_FIELD then Some(e3.value) else None;
    }
    forall name ensures Get(m, name) == if name == SIGNATURE_FIELD then Some(Str(p.Hash(body))) else Get(body, name) {
      GetPut(body, SIGNATURE_FIELD, Str(p.Hash(body)), name);
    }
    WithoutPut(body, HASH_EXCLUDED_FIELDS, SIGNATURE_FIELD, Str(p.Hash(body)));
    assert StripExcluded(m) == StripExcluded(body);
  }

  /** No value and no identifier holds the word in any position. */
  predicate NoUnknown(e: Entry) {
    !ContainsUnknown(e.normalizedValue) && !ContainsUnknown(e.leanIdentifier)
  }

  lemma SoundEntryWellFormed(p: Primitives, r: Release, e: Entry)
    requires EntrySound(p, r, e)
    ensures EntryWellFormed(p, e) <==> NoUnknown(e)
  {
    hide LeanIdentifier, ContainsUnknown, Climbs, ResolverDigest, HasUnknownWord, Strip;
    assert IsDigest(e.artifactDigest) by {
      hide IsDigest;
    }
  }

  lemma BuiltItems(p: Primitives, r: Release, entries: seq<Entry>)
    requires EntriesSound(p, r, entries)
    ensures var items := EntriesToJson(entries);
            && DistinctItems(items, |items|)
            && forall i :: 0 <= i < |items| ==>
                 && ReadEntry(items[i]) == Some(entries[i]) && ReplayView(items[i]) == Some(entries[i])
                 && (ItemWellFormed(p, items[i]) <==> NoUnknown(entries[i]))
  {
    hide EntryToDict, EntryWellFormed, EntrySound, NoUnknown;
    var items := EntriesToJson(entries);
    forall i | 0 <= i < |items|
      ensures ReadEntry(items[i]) == Some(entries[i]) && ReplayView(items[i]) == Some(entries[i])
      ensures ItemWellFormed(p, items[i]) <==> NoUnknown(entries[i])
    {
      EntryRoundTrip(entries[i]);
      SoundEntryWellFormed(p, r, entries[i]);
    }
  }

  /** What `build` returns passes the structural validator exactly when the word "unknown" occurs in no
      value and no identifier: the builder only refuses it as a word of its own. */
  lemma BuiltManifestStructure(p: Primitives, r: Release, projectionId: string, releaseId: string, workflowId: string, entries: seq<Entry>)
    requires EntriesSound(p, r, entries) && entries != []
    ensures StructureOk(p, Manifest(p, projectionId, releaseId, workflowId, entries)) <==> forall e :: e in entries ==> NoUnknown(e)
  {
    hide Manifest, EntriesSound, ItemWellFormed, NoUnknown, DistinctItems;
    ManifestFields(p, projectionId, releaseId, workflowId, entries);
    BuiltItems(p, r, entries);
    assert |EntriesToJson(entries)| == |entries|;
  }

  /** A value the builder takes and the validator rejects. */
  lemma BuilderTakesHiddenUnknown()
    ensures !HasUnknownWord("myunknownid") && ContainsUnknown("myunknownid")
  {
    var s := "myunknownid";
    assert |s| == 11;
    assert s[0] == 'm' && s[1] == 'y' && s[2] == 'u' && s[3] == 'n' && s[4] == 'k';
    assert s[5] == 'n' && s[6] == 'o' && s[7] == 'w' && s[8] == 'n';
    assert UnknownAt(s, 2);
    forall i | 0 <= i < |s| ensures !UnknownWordAt(s, i) {
      if UnknownAt(s, i) {
        assert i == 2 && WordChar(s[1]);
      }
    }
  }

  // ---------------------------------------------------------------- replay of built manifests

  /** The value of an entry is still what its source says; the digest of a built entry always is. */
  predicate Fresh(p: Primitives, r: Release, e: Entry) {
    if Synthetic(e.artifactPath) then ResolvedIdentity(p, r, e.leanIdentifier) == Ok(e.normalizedValue)
    else if e.jsonPointer == PAYLOAD_SHA256_POINTER then
      Contained(r, e.artifactPath) && e.artifactPath in r.safe && e.normalizedValue == FileDigest(p, r, e.artifactPath)
    else Contained(r, e.artifactPath) && ResolvedField(p, r, e) == Some(Ok(e.normalizedValue))
  }

  lemma SoundEntryReplays(p: Primitives, r: Release, e: Entry)
    requires EntrySound(p, r, e)
    ensures EntryReplays(p, r, e) <==> Fresh(p, r, e)
  {
    hide CheckedValue, LeanIdentifier, ResolvedIdentity, ResolvedField, FileDigest, ResolverDigest, IsDigest;
  }

  /** A built manifest replays against its release, under its own hash, exactly when every value is
      fresh and none hides the word "unknown". */
  lemma BuiltManifestReplays(p: Primitives, r: Release, projectionId: string, releaseId: string, workflowId: string, entries: seq<Entry>)
    requires EntriesSound(p, r, entries) && entries != []
    ensures var m := Manifest(p, projectionId, releaseId, workflowId, entries);
            && ProjectionHash(p, m) == p.Hash(m)
            && (ReplayOk(p, r, m, Some(ProjectionHash(p, m))) <==> forall e :: e in entries ==> NoUnknown(e) && Fresh(p, r, e))
  {
    hide Manifest, NoUnknown, Fresh, StructureOk, EntrySound, EntryReplays, ReplayOk, EntriesSound;
    var m := Manifest(p, projectionId, releaseId, workflowId, entries);
    ManifestFields(p, projectionId, releaseId, workflowId, entries);
    BuiltManifestStructure(p, r, projectionId, releaseId, workflowId, entries);
    BuiltItems(p, r, entries);
    var items := EntriesToJson(entries);
    forall i | 0 <= i < |entries| ensures ItemReplays(p, r, items[i]) <==> Fresh(p, r, entries[i]) {
      SoundItem(p, r, entries, i);
      SoundEntryReplays(p, r, entries[i]);
    }
    ReplayOkParts(p, r, m, items);
    assert |items| == |entries|;
  }

  lemma SoundItem(p: Primitives, r: Release, entries: seq<Entry>, i: nat)
    requires EntriesSound(p, r, entries) && i < |entries|
    ensures EntrySound(p, r, entries[i])
  {
  }

  lemma ReplayOkParts(p: Primitives, r: Release, m: Dict, items: seq<Json>)
    requires Get(m, "entries") == Some(Arr(items)) && TextAt(m, SIGNATURE_FIELD) == Some(p.Hash(m))
    ensures ProjectionHash(p, m) == p.Hash(m)
    ensures ReplayOk(p, r, m, Some(p.Hash(m))) <==>
              StructureOk(p, m) && forall i :: 0 <= i < |items| ==> ItemReplays(p, r, items[i])
  {
    hide StructureOk, ItemReplays, IsDigest;
  }
}
