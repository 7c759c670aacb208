/** Byte-verified result artifacts (python/pcs_core/computation_validate.py:81-249). */
module Payloads {
  import opened Wrappers
  import opened Text
  import opened Json
  import opened Primitives
  import opened Release
  import opened Paths

  const RESULT_ARTIFACT_FILE := "result_artifact.json"

  datatype VerifiedPayload = VerifiedPayload(
    resultId: string, artifactPath: string, payloadPath: string, digest: string, size: nat)

  datatype PayloadError =
    | ResultIdRequired | PathRequired | DigestRequired | SizeRequired
    | PathUnsafe(path: string) | PayloadMissing(path: string) | DigestMismatch(path: string) | SizeMismatch(path: string)
    | NoResultArtifacts | DuplicateResultId(id: string) | DuplicatePayloadPath(path: string)

  // ---------------------------------------------------------------- one artifact

  /** `verify_result_artifact_payload`. */
  function VerifyPayload(p: Primitives, r: Release, result: Dict, artifactPath: string): Result<VerifiedPayload, PayloadError> {
    var id, path, digest, size := Get(result, "result_id"), Get(result, "path"), Get(result, "sha256"), Get(result, "size_bytes");
    if id.None? || !id.value.Str? || Strip(id.value.s) == "" then Err(ResultIdRequired)
    else if path.None? || !path.value.Str? || Strip(path.value.s) == "" then Err(PathRequired)
    else if digest.None? || !digest.value.Str? || !StartsWith(digest.value.s, "sha256:") then Err(DigestRequired)
    else if size.None? || !size.value.Int? || size.value.n < 0 then Err(SizeRequired)
    else
      var ref := path.value.s;
      if ref !in r.safe then Err(if ref in r.files then PathUnsafe(ref) else PayloadMissing(ref))
      else if r.safe[ref] !in r.files then Err(PayloadMissing(ref))
      else
        var content := r.files[r.safe[ref]];
        if p.DigestOf(content) != digest.value.s then Err(DigestMismatch(ref))
        else if |content| != size.value.n then Err(SizeMismatch(ref))
        else Ok(VerifiedPayload(Strip(id.value.s), Slashes(artifactPath), r.safe[ref], p.DigestOf(content), |content|))
  }

  /** A verified payload is bound to bytes in the release. */
  lemma VerifiedPayloadBound(p: Primitives, r: Release, result: Dict, artifactPath: string)
    requires VerifyPayload(p, r, result, artifactPath).Ok?
    ensures var v := VerifyPayload(p, r, result, artifactPath).value;
            && Get(result, "sha256") == Some(Str(v.digest)) && Get(result, "size_bytes") == Some(Int(v.size))
            && v.payloadPath in r.files && v.digest == p.DigestOf(r.files[v.payloadPath]) && v.size == |r.files[v.payloadPath]|
            && v.artifactPath == Slashes(artifactPath)
            && exists ref :: ref in r.safe && r.safe[ref] == v.payloadPath
  {
    assert r.safe[Get(result, "path").value.s] == VerifyPayload(p, r, result, artifactPath).value.payloadPath;
  }

  /** When an artifact verifies, and as what: it names an id and a reference that are not blank, the
      reference resolves to a file, and digest and size are those of its bytes. */
  lemma PayloadMeaning(p: Primitives, r: Release, result: Dict, artifactPath: string, v: VerifiedPayload)
    ensures VerifyPayload(p, r, result, artifactPath) == Ok(v) <==>
              && v.artifactPath == Slashes(artifactPath)
              && match (Get(result, "result_id"), Get(result, "path"))
                 case (Some(Str(id)), Some(Str(ref))) =>
                   && (exists i :: 0 <= i < |id| && !IsSpace(id[i])) && v.resultId == Strip(id)
                   && (exists i :: 0 <= i < |ref| && !IsSpace(ref[i]))
                   && ref in r.safe && v.payloadPath == r.safe[ref] && v.payloadPath in r.files
                   && v.digest == p.DigestOf(r.files[v.payloadPath]) && v.size == |r.files[v.payloadPath]|
                   && Get(result, "sha256") == Some(Str(v.digest)) && Get(result, "size_bytes") == Some(Int(v.size))
                 case _ => false
  {
    hide Get, Strip, IsSpace, Slashes;
    match (Get(result, "result_id"), Get(result, "path"))
    case (Some(Str(id)), Some(Str(ref))) =>
      StripEmpty(id);
      StripEmpty(ref);
    case _ =>
  }

  // ---------------------------------------------------------------- discovery

  /** `(root / name).relative_to(root).as_posix()`: "." and empty components go, ".." stays, and an absolute
      name counts only below the release directory. */
  function RelativePath(r: Release, name: string): Option<string> {
    var parts := Parts(name);
    if StartsWith(name, "//") && !StartsWith(name, "///") then None
    else if StartsWith(name, "/") then
      if r.root < parts then Some(Join(parts[|r.root|..], "/")) else None
    else if parts == [] then None
    else Some(Join(parts, "/"))
  }

  /** The document a candidate contributes, when it is a result artifact. */
  function ArtifactAt(p: Primitives, r: Release, path: string): Option<Dict> {
    if path !in r.files then None
    else
      match p.parseJson(r.files[path])
      case Some(Obj(doc)) =>
        if StartsWith(PathName(path), "result_artifact") || p.StrField(doc, "artifact_type") == "ResultArtifact.v0"
        then Some(doc) else None
      case _ => None
  }

  /** The names of the manifest's result artifacts, in order. */
  function ManifestNames(p: Primitives, artifacts: Dict): seq<string> {
    if artifacts == [] then []
    else
      var m := artifacts[0];
      var rest := ManifestNames(p, artifacts[1..]);
      if m.value.Obj? && (p.StrField(m.value.members, "artifact_type") == "ResultArtifact.v0" || StartsWith(m.key, "result_artifact"))
      then [m.key] + rest else rest
  }

  /** Every name discovery looks at, in order. */
  function CandidateNames(p: Primitives, r: Release): seq<string> {
    [RESULT_ARTIFACT_FILE] + r.listing +
    (if "release_manifest.v0.json" !in r.files then []
     else
       match p.parseJson(r.files["release_manifest.v0.json"])
       case Some(Obj(manifest)) =>
         (match Get(manifest, "artifacts")
          case Some(Obj(artifacts)) => ManifestNames(p, artifacts)
          case _ => [])
       case _ => [])
  }

  /** The release-relative paths of names that have one. */
  function RelativePaths(r: Release, names: seq<string>): seq<string> {
    if names == [] then []
    else
      var before := RelativePaths(r, names[..|names| - 1]);
      var last := RelativePath(r, names[|names| - 1]);
      if last.None? then before else before + [last.value]
  }

  function Candidates(p: Primitives, r: Release): seq<string> {
    RelativePaths(r, CandidateNames(p, r))
  }

  datatype Found = Found(path: string, doc: Dict)

  predicate Seen(found: seq<Found>, path: string) {
    exists f :: f in found && f.path == path
  }

  /** The artifacts among the candidates, each path once, in the order first met. */
  function Discovered(p: Primitives, r: Release, candidates: seq<string>): (found: seq<Found>)
    ensures forall f :: f in found <==> f.path in candidates && ArtifactAt(p, r, f.path) == Some(f.doc)
    ensures forall i, j :: 0 <= i < j < |found| ==> found[i].path != found[j].path
  {
    if candidates == [] then []
    else
      var before := Discovered(p, r, candidates[..|candidates| - 1]);
      var path := candidates[|candidates| - 1];
      var doc := ArtifactAt(p, r, path);
      assert candidates == candidates[..|candidates| - 1] + [path];
      if doc.None? || Seen(before, path) then before else before + [Found(path, doc.value)]
  }

  lemma NoNames(p: Primitives, r: Release)
    ensures Discovered(p, r, RelativePaths(r, [])) == []
  {
  }

  lemma OneMoreName(p: Primitives, r: Release, names: seq<string>, i: nat)
    requires i < |names|
    ensures var before, now := Discovered(p, r, RelativePaths(r, names[..i])), Discovered(p, r, RelativePaths(r, names[..i + 1]));
            match RelativePath(r, names[i])
            case None => now == before
            case Some(path) =>
              now == if ArtifactAt(p, r, path).None? || Seen(before, path) then before
                     else before + [Found(path, ArtifactAt(p, r, path).value)]
  {
    hide RelativePath, ArtifactAt;
    assert names[..i + 1][..i] == names[..i] && names[..i + 1][i] == names[i];
    var before := RelativePaths(r, names[..i]);
    if RelativePath(r, names[i]).Some? {
      assert (before + [RelativePath(r, names[i]).value])[..|before|] == before;
    }
  }

  /** `_iter_result_artifact_files`: one pass over the names with its `seen_paths` set of relative paths. */
  method IterResultArtifactFiles(p: Primitives, r: Release) returns (found: seq<Found>)
    ensures found == Discovered(p, r, Candidates(p, r))
  {
    hide RelativePath, ArtifactAt, CandidateNames, RelativePaths, Discovered;
    var names := CandidateNames(p, r);
    NoNames(p, r);
    found := [];
    var seenPaths: set<string> := {};
    for i := 0 to |names|
      invariant found == Discovered(p, r, RelativePaths(r, names[..i]))
      invariant seenPaths == set f | f in found :: f.path
    {
      OneMoreName(p, r, names, i);
      var rel := RelativePath(r, names[i]);
      if rel.None? {
        continue;
      }
      assert rel.value in seenPaths <==> Seen(found, rel.value);
      if rel.value !in seenPaths {
        var doc := ArtifactAt(p, r, rel.value);
        if doc.Some? {
          seenPaths := seenPaths + {rel.value};
          found := found + [Found(rel.value, doc.value)];
        }
      }
    }
    assert names[..|names|] == names;
  }

  // ---------------------------------------------------------------- all artifacts

  predicate EachVerifies(p: Primitives, r: Release, entries: seq<Found>) {
    forall i :: 0 <= i < |entries| ==> VerifyPayload(p, r, entries[i].doc, entries[i].path).Ok?
  }

  function VerifiedList(p: Primitives, r: Release, entries: seq<Found>): (v: seq<VerifiedPayload>)
    requires EachVerifies(p, r, entries)
    ensures |v| == |entries|
    ensures forall i :: 0 <= i < |entries| ==> v[i] == VerifyPayload(p, r, entries[i].doc, entries[i].path).value
  {
    seq(|entries|, i requires 0 <= i < |entries| => VerifyPayload(p, r, entries[i].doc, entries[i].path).value)
  }

  /** No two payloads share a result id or a path. */
  predicate NoDuplicates(v: seq<VerifiedPayload>) {
    forall i, j :: 0 <= i < j < |v| ==> v[i].resultId != v[j].resultId && v[i].payloadPath != v[j].payloadPath
  }

  predicate AllVerify(p: Primitives, r: Release, entries: seq<Found>) {
    entries != [] && EachVerifies(p, r, entries) && NoDuplicates(VerifiedList(p, r, entries))
  }

  lemma NothingVerifies(p: Primitives, r: Release)
    ensures !AllVerify(p, r, [])
  {
  }

  lemma RejectedPayload(p: Primitives, r: Release, entries: seq<Found>, i: nat)
    requires i < |entries| && VerifyPayload(p, r, entries[i].doc, entries[i].path).Err?
    ensures !AllVerify(p, r, entries)
  {
    hide VerifyPayload, VerifiedList;
  }

  lemma RepeatedPayload(p: Primitives, r: Release, entries: seq<Found>, i: nat, j: nat)
    requires i < j < |entries|
    requires VerifyPayload(p, r, entries[i].doc, entries[i].path).Ok? && VerifyPayload(p, r, entries[j].doc, entries[j].path).Ok?
    requires var a := VerifyPayload(p, r, entries[i].doc, entries[i].path).value;
             var b := VerifyPayload(p, r, entries[j].doc, entries[j].path).value;
             a.resultId == b.resultId || a.payloadPath == b.payloadPath
    ensures !AllVerify(p, r, entries)
  {
    hide VerifyPayload;
    if EachVerifies(p, r, entries) {
      var v := VerifiedList(p, r, entries);
      assert v[i].resultId == v[j].resultId || v[i].payloadPath == v[j].payloadPath;
    }
  }

  lemma AllVerified(p: Primitives, r: Release, entries: seq<Found>, verified: seq<VerifiedPayload>)
    requires entries != [] && |verified| == |entries| && NoDuplicates(verified)
    requires forall j :: 0 <= j < |entries| ==> VerifyPayload(p, r, entries[j].doc, entries[j].path) == Ok(verified[j])
    ensures AllVerify(p, r, entries) && verified == VerifiedList(p, r, entries)
  {
    hide VerifyPayload;
  }

  /** The loop over discovered artifacts with its dictionaries of seen ids and payload paths. */
  method VerifyEach(p: Primitives, r: Release, entries: seq<Found>) returns (result: Result<seq<VerifiedPayload>, PayloadError>)
    requires entries != []
    ensures result.Ok? <==> AllVerify(p, r, entries)
    ensures result.Ok? ==> result.value == VerifiedList(p, r, entries)
  {
    hide VerifyPayload, VerifiedList, AllVerify;
    var verified: seq<VerifiedPayload> := [];
    var seenIds: map<string, string> := map[];
    var seenPayloadPaths: map<string, string> := map[];
    for index := 0 to |entries|
      invariant |verified| == index
      invariant forall j :: 0 <= j < index ==> VerifyPayload(p, r, entries[j].doc, entries[j].path) == Ok(verified[j])
      invariant NoDuplicates(verified)
      invariant forall id :: id in seenIds <==> exists j :: 0 <= j < index && verified[j].resultId == id
      invariant forall path :: path in seenPayloadPaths <==> exists j :: 0 <= j < index && verified[j].payloadPath == path
    {
      var item := VerifyPayload(p, r, entries[index].doc, entries[index].path);
      if item.Err? {
        RejectedPayload(p, r, entries, index);
        return Err(item.error);
      }
      if item.value.resultId in seenIds {
        ghost var j :| 0 <= j < index && verified[j].resultId == item.value.resultId;
        RepeatedPayload(p, r, entries, j, index);
        return Err(DuplicateResultId(item.value.resultId));
      }
      if item.value.payloadPath in seenPayloadPaths {
        ghost var j :| 0 <= j < index && verified[j].payloadPath == item.value.payloadPath;
        RepeatedPayload(p, r, entries, j, index);
        return Err(DuplicatePayloadPath(item.value.payloadPath));
      }
      seenIds := seenIds[item.value.resultId := entries[index].path];
      seenPayloadPaths := seenPayloadPaths[item.value.payloadPath := entries[index].path];
      verified := verified + [item.value];
    }
    AllVerified(p, r, entries, verified);
    return Ok(verified);
  }

  /** `verify_all_result_artifact_payloads`: succeeds exactly when there is an artifact, each verifies
      alone, and no two share a stripped result id or a payload path. */
  method VerifyAllResultArtifactPayloads(p: Primitives, r: Release) returns (result: Result<seq<VerifiedPayload>, PayloadError>)
    ensures var entries := Discovered(p, r, Candidates(p, r));
            && (result.Ok? <==> AllVerify(p, r, entries))
            && (result.Ok? ==> result.value == VerifiedList(p, r, entries))
  {
    hide VerifyPayload, Discovered, Candidates, VerifiedList, AllVerify;
    var entries := IterResultArtifactFiles(p, r);
    if entries == [] {
      NothingVerifies(p, r);
      return Err(NoResultArtifacts);
    }
    result := VerifyEach(p, r, entries);
  }

  /** The release manifest lists a name, as a result artifact or under a name that begins like one. */
  ghost predicate ManifestLists(p: Primitives, r: Release, name: string) {
    && "release_manifest.v0.json" in r.files
    && match p.parseJson(r.files["release_manifest.v0.json"])
       case Some(Obj(manifest)) =>
         (match Get(manifest, "artifacts")
          case Some(Obj(artifacts)) =>
            exists entry :: Member(name, Obj(entry)) in artifacts
              && (p.StrField(entry, "artifact_type") == "ResultArtifact.v0" || "result_artifact" <= name)
          case _ => false)
       case _ => false
  }

  lemma {:induction false} NamesListed(p: Primitives, artifacts: Dict, name: string)
    ensures name in ManifestNames(p, artifacts) <==>
              exists entry :: Member(name, Obj(entry)) in artifacts
                && (p.StrField(entry, "artifact_type") == "ResultArtifact.v0" || "result_artifact" <= name)
  {
    if artifacts != [] {
      NamesListed(p, artifacts[1..], name);
      assert artifacts == [artifacts[0]] + artifacts[1..];
      if artifacts[0].key == name && artifacts[0].value.Obj? {
        assert artifacts[0] == Member(name, Obj(artifacts[0].value.members));
      }
    }
  }

  lemma {:induction false} PathsListed(r: Release, names: seq<string>, path: string)
    ensures path in RelativePaths(r, names) <==> exists name :: name in names && RelativePath(r, name) == Some(path)
    decreases |names|
  {
    hide RelativePath;
    if names != [] {
      var n := |names| - 1;
      PathsListed(r, names[..n], path);
      assert names == names[..n] + [names[n]];
    }
  }

  /** A document found at a path: the file is a JSON object that is typed as a result artifact or whose name
      begins like one. */
  ghost predicate ArtifactFound(p: Primitives, r: Release, path: string, doc: Dict) {
    && path in r.files && p.parseJson(r.files[path]) == Some(Obj(doc))
    && (p.StrField(doc, "artifact_type") == "ResultArtifact.v0" || "result_artifact" <= PathName(path))
  }

  /** What discovery finds: the artifacts at the paths of the primary file, of the listed files, and of what
      the release manifest lists. */
  lemma DiscoveryMeaning(p: Primitives, r: Release, path: string, doc: Dict)
    ensures Found(path, doc) in Discovered(p, r, Candidates(p, r)) <==>
              && ArtifactFound(p, r, path, doc)
              && exists name :: (name == "result_artifact.json" || name in r.listing || ManifestLists(p, r, name)) && RelativePath(r, name) == Some(path)
  {
    FoundAt(p, r, path, doc);
    PathsListed(r, CandidateNames(p, r), path);
    hide RelativePath, CandidateNames, RelativePaths, ManifestLists, ArtifactAt, ArtifactFound, Get, Discovered;
    forall name ensures name in CandidateNames(p, r) <==> name == "result_artifact.json" || name in r.listing || ManifestLists(p, r, name) {
      NameCandidate(p, r, name);
    }
    DiscoveredMembers(p, r, Candidates(p, r), path, doc);
  }

  lemma FoundAt(p: Primitives, r: Release, path: string, doc: Dict)
    ensures ArtifactAt(p, r, path) == Some(doc) <==> ArtifactFound(p, r, path, doc)
  {
    hide Get, PathName;
  }

  lemma DiscoveredMembers(p: Primitives, r: Release, candidates: seq<string>, path: string, doc: Dict)
    ensures Found(path, doc) in Discovered(p, r, candidates) <==> path in candidates && ArtifactAt(p, r, path) == Some(doc)
  {
    hide ArtifactAt;
  }

  lemma NameCandidate(p: Primitives, r: Release, name: string)
    ensures name in CandidateNames(p, r) <==> name == "result_artifact.json" || name in r.listing || ManifestLists(p, r, name)
  {
    hide ManifestNames, Get;
    if "release_manifest.v0.json" in r.files {
      match p.parseJson(r.files["release_manifest.v0.json"])
      case Some(Obj(manifest)) =>
        match Get(manifest, "artifacts") {
          case Some(Obj(artifacts)) => NamesListed(p, artifacts, name);
          case _ =>
        }
      case _ =>
    }
  }

  /** Nothing the release manifest lists is passed over: a manifest entry of type ResultArtifact.v0 whose
      file is a document of that type is among the verified payloads. */
  lemma ManifestArtifactVerified(p: Primitives, r: Release, manifest: Dict, artifacts: Dict, m: Member, path: string, doc: Dict)
    requires "release_manifest.v0.json" in r.files && p.parseJson(r.files["release_manifest.v0.json"]) == Some(Obj(manifest))
    requires Get(manifest, "artifacts") == Some(Obj(artifacts)) && m in artifacts && m.value.Obj?
    requires p.StrField(m.value.members, "artifact_type") == "ResultArtifact.v0"
    requires RelativePath(r, m.key) == Some(path) && path in r.files && p.parseJson(r.files[path]) == Some(Obj(doc))
    requires p.StrField(doc, "artifact_type") == "ResultArtifact.v0"
    ensures var entries := Discovered(p, r, Candidates(p, r));
            AllVerify(p, r, entries) ==>
              VerifyPayload(p, r, doc, path).Ok? && VerifyPayload(p, r, doc, path).value in VerifiedList(p, r, entries)
  {
    assert Member(m.key, Obj(m.value.members)) == m;
    assert ManifestLists(p, r, m.key);
    DiscoveryMeaning(p, r, path, doc);
    hide RelativePath, ArtifactAt, CandidateNames, RelativePaths, VerifyPayload, ManifestLists, PathName;
    var entries := Discovered(p, r, Candidates(p, r));
    assert Found(path, doc) in entries;
    var i :| 0 <= i < |entries| && entries[i] == Found(path, doc);
    if AllVerify(p, r, entries) {
      assert VerifiedList(p, r, entries)[i] == VerifyPayload(p, r, doc, path).value;
    }
  }

  /** The primary artifact, when the release has one, is always first. */
  lemma {:induction false} PrimaryFirst(p: Primitives, r: Release, candidates: seq<string>)
    requires candidates != [] && ArtifactAt(p, r, candidates[0]).Some?
    ensures Discovered(p, r, candidates) != []
    ensures Discovered(p, r, candidates)[0] == Found(candidates[0], ArtifactAt(p, r, candidates[0]).value)
  {
    if |candidates| > 1 {
      PrimaryFirst(p, r, candidates[..|candidates| - 1]);
    } else {
      assert candidates[..0] == [];
      assert Discovered(p, r, candidates[..0]) == [];
    }
  }
}
