/** Evidence copies in a bundle (python/pcs_core/pf_core_bundle.py:322-510, 1071-1099): fresh names, the
    digests recorded while copying, and the loop that checks them later. */
module EvidenceBundle {
  import opened Wrappers
  import opened Text
  import opened Json
  import opened CanonicalJson
  import opened Primitives
  import opened Sorting
  import opened Paths
  import opened BundlePaths

  const EVIDENCE_DIR_NAME := "evidence"

  // ---------------------------------------------------------------- fresh names

  function BaseName(preferred: string): string {
    if PathName(preferred) == "" then "artifact.json" else PathName(preferred)
  }

  function Candidate(base: string, index: nat): string {
    Stem(base) + "_" + Digits(index) + (if Suffix(base) == "" then ".json" else Suffix(base))
  }

  lemma CandidatesDiffer(base: string, i: nat, j: nat)
    requires Candidate(base, i) == Candidate(base, j)
    ensures i == j
  {
    var head, tail := Stem(base) + "_", if Suffix(base) == "" then ".json" else Suffix(base);
    var a, b := Candidate(base, i), Candidate(base, j);
    assert a == head + Digits(i) + tail && b == head + Digits(j) + tail;
    assert a[|head|..|a| - |tail|] == Digits(i) && b[|head|..|b| - |tail|] == Digits(j);
    DigitsInjective(i, j);
  }

  /** The first candidate from `index` on that is not taken; those below it no longer are. */
  function FirstFree(base: string, index: nat, taken: set<string>): string
    decreases |taken|
  {
    var candidate := Candidate(base, index);
    if candidate in taken then FirstFree(base, index + 1, taken - {candidate}) else candidate
  }

  /** The name the allocator hands out. */
  function FreshName(used: set<string>, preferred: string): string {
    if BaseName(preferred) in used then FirstFree(BaseName(preferred), 2, used) else BaseName(preferred)
  }

  /** The base name when it is free, else the first free candidate, found within one step more than there
      are used names. */
  ghost predicate Allocated(used: set<string>, preferred: string, name: string) {
    var base := BaseName(preferred);
    && name !in used
    && (if base !in used then name == base
        else exists k :: 2 <= k <= |used| + 2 && name == Candidate(base, k) && forall j :: 2 <= j < k ==> Candidate(base, j) in used)
  }

  lemma {:induction false} FirstFreeIsFree(base: string, index: nat, taken: set<string>) returns (k: nat)
    ensures index <= k <= index + |taken| && FirstFree(base, index, taken) == Candidate(base, k) && Candidate(base, k) !in taken
    ensures forall j :: index <= j < k ==> Candidate(base, j) in taken
    decreases |taken|
  {
    hide Candidate;
    var candidate := Candidate(base, index);
    if candidate in taken {
      k := FirstFreeIsFree(base, index + 1, taken - {candidate});
      if Candidate(base, k) == candidate {
        CandidatesDiffer(base, index, k);
      }
    } else {
      k := index;
    }
  }

  lemma FreshNameAllocated(used: set<string>, preferred: string)
    ensures Allocated(used, preferred, FreshName(used, preferred))
  {
    hide Candidate, BaseName;
    var base := BaseName(preferred);
    if base in used {
      var k := FirstFreeIsFree(base, 2, used);
      assert forall j :: 2 <= j < k ==> Candidate(base, j) in used;
    }
  }

  // ---------------------------------------------------------------- what a run of requests asks for

  /** One line of the evidence manifest. */
  datatype EvidenceEntry = EvidenceEntry(path: string, digest: string, role: string, artifactId: Option<string>, artifactType: Option<string>)

  /** What a caller asks to be added; `content` is the source file's bytes or the embedded payload's text. */
  datatype EvidenceRequest = EvidenceRequest(
    content: Option<seq<byte>>, role: string, artifactId: Option<string>, artifactType: Option<string>, preferredName: string)

  datatype EvidenceError = DestEscapes(rel: string)

  /** A copy to be written: a request with content and the name it got. */
  datatype Copy = Copy(name: string, content: seq<byte>, role: string, artifactId: Option<string>, artifactType: Option<string>)

  function NonEmpty(s: Option<string>): Option<string> {
    if s == Some("") then None else s
  }

  function CopyOf(req: EvidenceRequest, name: string): Copy
    requires req.content.Some?
  {
    Copy(name, req.content.value, req.role, NonEmpty(req.artifactId), NonEmpty(req.artifactType))
  }

  function NamesOf(copies: seq<Copy>): set<string> {
    set c | c in copies :: c.name
  }

  /** The copies a list of requests leads to, each under a name none before it has. */
  function Copies(requests: seq<EvidenceRequest>): seq<Copy> {
    if requests == [] then []
    else
      var before := Copies(requests[..|requests| - 1]);
      var last := requests[|requests| - 1];
      if last.content.None? then before else before + [CopyOf(last, FreshName(NamesOf(before), last.preferredName))]
  }

  function PathOfCopy(c: Copy): string {
    EVIDENCE_DIR_NAME + "/" + c.name
  }

  /** Where a copy is written, when that is inside the bundle. */
  function Place(root: Location, c: Copy): Option<Location> {
    SafeDest(root, PathOfCopy(c))
  }

  predicate Placed(root: Location, copies: seq<Copy>) {
    forall i :: 0 <= i < |copies| ==> Place(root, copies[i]).Some?
  }

  function EntryOf(p: Primitives, c: Copy): EvidenceEntry {
    EvidenceEntry(PathOfCopy(c), p.DigestOf(c.content), c.role, c.artifactId, c.artifactType)
  }

  function EntriesOf(p: Primitives, copies: seq<Copy>): (r: seq<EvidenceEntry>)
    ensures |r| == |copies| && forall i :: 0 <= i < |r| ==> r[i] == EntryOf(p, copies[i])
  {
    seq(|copies|, i requires 0 <= i < |copies| => EntryOf(p, copies[i]))
  }

  /** The files after all copies are written, in order. */
  function DiskAfter(root: Location, disk: Disk, copies: seq<Copy>): Disk
    requires Placed(root, copies)
  {
    if copies == [] then disk
    else
      var n := |copies| - 1;
      DiskAfter(root, disk, copies[..n])[Place(root, copies[n]).value := copies[n].content]
  }

  lemma OneMoreCopy(p: Primitives, root: Location, disk: Disk, before: seq<Copy>, c: Copy)
    requires Placed(root, before) && Place(root, c).Some?
    ensures NamesOf(before + [c]) == NamesOf(before) + {c.name} && EntriesOf(p, before + [c]) == EntriesOf(p, before) + [EntryOf(p, c)]
    ensures Placed(root, before + [c])
    ensures DiskAfter(root, disk, before + [c]) == DiskAfter(root, disk, before)[Place(root, c).value := c.content]
  {
    hide Place, EntryOf;
    assert (before + [c])[..|before|] == before;
  }

  // ---------------------------------------------------------------- the manifest

  const EVIDENCE_MANIFEST_NAME := "evidence_manifest.json"
  const MANIFEST_DIGEST_FIELD := "evidence_manifest_digest"

  /** The manifest item of an entry. */
  function EntryItem(e: EvidenceEntry): Json {
    Obj([Member("path", Str(e.path)), Member("sha256", Str(e.digest)), Member("role", Str(e.role))]
        + (Optional("artifact_id", StrOption(e.artifactId)) + Optional("artifact_type", StrOption(e.artifactType))))
  }

  function StrOption(s: Option<string>): Option<Json> {
    if s.None? then None else Some(Str(s.value))
  }

  function PathKey(e: EvidenceEntry): string { e.path }

  /** The manifest items of the entries, in path order. */
  function EntryItems(entries: seq<EvidenceEntry>): (items: seq<Json>)
    ensures |items| == |entries| && forall i :: 0 <= i < |items| ==> items[i] == EntryItem(SortBy(PathKey, entries)[i])
  {
    var sorted := SortBy(PathKey, entries);
    seq(|sorted|, i requires 0 <= i < |sorted| => EntryItem(sorted[i]))
  }

  /** `compute_evidence_manifest_digest`. */
  function EvidenceManifestDigest(p: Primitives, manifest: Dict): string {
    p.Hash(Pop(manifest, MANIFEST_DIGEST_FIELD))
  }

  function ManifestBody(entries: seq<EvidenceEntry>, policy: (string, string)): Dict {
    [Member("schema_version", Str("v0")), Member("artifact_type", Str("PFCoreEvidenceManifest.v0")),
     Member("canonicalization_version", Str("v1")), Member("evidence_selection_policy", Str(policy.0))]
    + [Member("evidence_selection_policy_version", Str(policy.1)), Member("files", Arr(EntryItems(entries))),
       Member(MANIFEST_DIGEST_FIELD, Str(PLACEHOLDER_DIGEST))]
  }

  /** `build_evidence_manifest`; `policy` is the selection policy with its version. */
  function EvidenceManifest(p: Primitives, entries: seq<EvidenceEntry>, policy: (string, string)): Dict {
    var body := ManifestBody(entries, policy);
    Put(body, MANIFEST_DIGEST_FIELD, Str(EvidenceManifestDigest(p, body)))
  }

  /** Where the manifest is written. */
  function ManifestPlace(root: Location): Location {
    root + [EVIDENCE_MANIFEST_NAME]
  }

  lemma ManifestDest(root: Location)
    ensures SafeDest(root, EVIDENCE_MANIFEST_NAME) == Some(ManifestPlace(root))
  {
    ManifestParts();
    ManifestNotDots();
    hide Parts, Slashes, SafeDest;
    WrittenWhereRead(root, EVIDENCE_MANIFEST_NAME);
  }

  lemma ManifestNotDots() ensures ".." !in [EVIDENCE_MANIFEST_NAME]
  {
    assert |EVIDENCE_MANIFEST_NAME| == 22;
  }

  lemma ManifestParts()
    ensures Parts(Slashes(EVIDENCE_MANIFEST_NAME)) == [EVIDENCE_MANIFEST_NAME]
  {
    hide Split, Slashes, Meaningful;
    SlashesPlain(EVIDENCE_MANIFEST_NAME);
    SplitNoSeparator(EVIDENCE_MANIFEST_NAME, '/');
    assert |EVIDENCE_MANIFEST_NAME| == 22;
    OneMeaningful(EVIDENCE_MANIFEST_NAME);
  }

  // ---------------------------------------------------------------- the writer

  class EvidenceWriter {
    const p: Primitives
    const root: Location
    ghost const initial: Disk
    ghost var copies: seq<Copy>
    var usedNames: set<string>
    var files: seq<EvidenceEntry>
    var disk: Disk

    /** Names, entries and files are those of the copies written so far. */
    ghost predicate Valid()
      reads this
    {
      && usedNames == NamesOf(copies) && files == EntriesOf(p, copies)
      && Placed(root, copies) && disk == DiskAfter(root, initial, copies)
    }

    constructor (p: Primitives, root: Location, disk: Disk)
      ensures Valid() && copies == [] && initial == disk
      ensures this.p == p && this.root == root && this.disk == disk && files == [] && usedNames == {}
    {
      this.p, this.root, this.disk, this.initial := p, root, disk, disk;
      usedNames, files, copies := {}, [], [];
    }

    /** `_unique_evidence_basename`: the search ends, on a name not used before. */
    method UniqueBasename(preferred: string) returns (name: string)
      modifies this`usedNames
      ensures name == FreshName(old(usedNames), preferred) && Allocated(old(usedNames), preferred, name)
      ensures usedNames == old(usedNames) + {name}
    {
      hide Candidate, BaseName, Allocated;
      FreshNameAllocated(usedNames, preferred);
      var base := BaseName(preferred);
      if base !in usedNames {
        usedNames := usedNames + {base};
        return base;
      }
      var index := 2;
      ghost var tried: set<string> := {};
      assert usedNames - tried == usedNames;
      while true
        invariant usedNames == old(usedNames)
        invariant 2 <= index && tried <= usedNames
        invariant forall name :: name in tried ==> exists j :: 2 <= j < index && Candidate(base, j) == name
        invariant FreshName(usedNames, preferred) == FirstFree(base, index, usedNames - tried)
        decreases |usedNames - tried|
      {
        var candidate := Candidate(base, index);
        if candidate !in usedNames {
          usedNames := usedNames + {candidate};
          return candidate;
        }
        if candidate in tried {
          ghost var j :| 2 <= j < index && Candidate(base, j) == candidate;
          CandidatesDiffer(base, j, index);
        }
        assert usedNames - (tried + {candidate}) == usedNames - tried - {candidate};
        tried := tried + {candidate};
        index := index + 1;
      }
    }

    /** `_add_file`: a request with content becomes one more copy, its bytes written at its place and their
        digest recorded; a request without content changes nothing. */
    method AddFile(req: EvidenceRequest) returns (r: Result<bool, EvidenceError>)
      requires Valid()
      modifies this
      ensures r.Ok? ==> Valid() && (r.value <==> req.content.Some?)
      ensures r.Err? <==> req.content.Some? && Place(root, CopyOf(req, FreshName(old(usedNames), req.preferredName))).None?
      ensures r.Ok? ==>
                copies == if req.content.None? then old(copies)
                          else old(copies) + [CopyOf(req, FreshName(old(usedNames), req.preferredName))]
    {
      hide Place, Allocated, FreshName, NamesOf, EntriesOf, DiskAfter, Placed;
      if req.content.None? {
        return Ok(false);
      }
      var name := UniqueBasename(req.preferredName);
      var copy := CopyOf(req, name);
      var dest := Place(root, copy);
      if dest.None? {
        return Err(DestEscapes(PathOfCopy(copy)));
      }
      OneMoreCopy(p, root, initial, copies, copy);
      disk := disk[dest.value := copy.content];
      files := files + [EvidenceEntry(PathOfCopy(copy), p.DigestOf(disk[dest.value]), copy.role, copy.artifactId, copy.artifactType)];
      copies := copies + [copy];
      return Ok(true);
    }

    /** The end of `_copy_evidence_into_bundle`: the manifest is written beside the copies, over one that
        has its place. */
    method WriteManifest(policy: (string, string), render: Dict -> seq<byte>) returns (manifest: Dict)
      modifies this`disk
      ensures manifest == EvidenceManifest(p, files, policy)
      ensures disk == old(disk)[ManifestPlace(root) := render(manifest)]
    {
      hide SafeDest, EvidenceManifest;
      manifest := EvidenceManifest(p, files, policy);
      ManifestDest(root);
      disk := disk[SafeDest(root, EVIDENCE_MANIFEST_NAME).value := render(manifest)];
    }
  }

  // ---------------------------------------------------------------- a whole copy

  /** The manifest a list of requests leads to. */
  function ManifestOf(p: Primitives, requests: seq<EvidenceRequest>, policy: (string, string)): Dict {
    EvidenceManifest(p, EntriesOf(p, Copies(requests)), policy)
  }

  /** The files after a whole run: the copies, then the manifest. */
  function FinalDisk(p: Primitives, root: Location, disk: Disk, requests: seq<EvidenceRequest>, policy: (string, string), render: Dict -> seq<byte>): Disk
    requires Placed(root, Copies(requests))
  {
    DiskAfter(root, disk, Copies(requests))[ManifestPlace(root) := render(ManifestOf(p, requests, policy))]
  }

  lemma {:induction false} EarlierPlaced(root: Location, requests: seq<EvidenceRequest>, n: nat)
    requires n <= |requests| && Placed(root, Copies(requests))
    ensures Placed(root, Copies(requests[..n]))
    decreases |requests|
  {
    hide Place, FreshName;
    if n < |requests| {
      var m := |requests| - 1;
      var before := Copies(requests[..m]);
      assert before <= Copies(requests);
      assert forall i :: 0 <= i < |before| ==> Copies(requests)[i] == before[i];
      assert requests[..m][..n] == requests[..n];
      EarlierPlaced(root, requests[..m], n);
    } else {
      assert requests[..n] == requests;
    }
  }

  /** `_copy_evidence_into_bundle`: it raises exactly when a copy's place is outside the bundle; else it
      leaves the copies the requests lead to, then the manifest of all their entries. */
  method CopyEvidence(p: Primitives, root: Location, disk: Disk, requests: seq<EvidenceRequest>, policy: (string, string), render: Dict -> seq<byte>)
    returns (r: Result<(Dict, Disk), EvidenceError>)
    ensures r.Ok? <==> Placed(root, Copies(requests))
    ensures r.Ok? ==> r.value == (ManifestOf(p, requests, policy), FinalDisk(p, root, disk, requests, policy, render))
  {
    hide Place, FreshName, EvidenceManifest, ManifestPlace, DiskAfter;
    var w := new EvidenceWriter(p, root, disk);
    for i := 0 to |requests|
      invariant w.Valid() && w.p == p && w.root == root && w.initial == disk && fresh(w)
      invariant w.copies == Copies(requests[..i])
    {
      ghost var upTo := requests[..i + 1];
      assert upTo[..i] == requests[..i] && upTo[i] == requests[i];
      var added := w.AddFile(requests[i]);
      if added.Err? {
        UnplacedLast(root, upTo);
        if Placed(root, Copies(requests)) {
          EarlierPlaced(root, requests, i + 1);
        }
        return Err(added.error);
      }
    }
    assert requests[..|requests|] == requests;
    var manifest := w.WriteManifest(policy, render);
    return Ok((manifest, w.disk));
  }

  lemma UnplacedLast(root: Location, requests: seq<EvidenceRequest>)
    requires requests != [] && requests[|requests| - 1].content.Some?
    requires var n := |requests| - 1;
             Place(root, CopyOf(requests[n], FreshName(NamesOf(Copies(requests[..n])), requests[n].preferredName))).None?
    ensures !Placed(root, Copies(requests))
  {
    var c := Copies(requests);
    var n := |requests| - 1;
    assert c == Copies(requests[..n]) + [CopyOf(requests[n], FreshName(NamesOf(Copies(requests[..n])), requests[n].preferredName))];
    hide Place, FreshName;
    assert Place(root, c[|c| - 1]).None?;
  }

  // ---------------------------------------------------------------- checking the copies

  datatype EvidenceIssue = EvidencePathUnsafe(index: int) | EvidenceFileHashMismatch(index: int)

  /** The path and digest the checking loop reads from a manifest item. */
  function PathOf(p: Primitives, item: Json): string {
    if item.Obj? then p.StrField(item.members, "path") else ""
  }

  function DigestIn(p: Primitives, item: Json): string {
    if item.Obj? then p.StrField(item.members, "sha256") else ""
  }

  predicate Unresolved(root: Location, disk: Disk, path: string) {
    path != "" && ResolveFile(root, disk, path, ".json").None?
  }

  predicate Mismatched(p: Primitives, root: Location, disk: Disk, path: string, digest: string) {
    && path != "" && ResolveFile(root, disk, path, ".json").Some?
    && StartsWith(digest, "sha256:") && p.DigestOf(disk[ResolveFile(root, disk, path, ".json").value]) != digest
  }

  predicate ItemHolds(p: Primitives, root: Location, disk: Disk, item: Json) {
    !Unresolved(root, disk, PathOf(p, item)) && !Mismatched(p, root, disk, PathOf(p, item), DigestIn(p, item))
  }

  predicate AllHold(p: Primitives, root: Location, disk: Disk, items: seq<Json>) {
    forall i :: 0 <= i < |items| ==> ItemHolds(p, root, disk, items[i])
  }

  /** The evidence loop of `validate_bundle`. */
  method EvidenceIssues(p: Primitives, root: Location, disk: Disk, items: seq<Json>) returns (issues: seq<EvidenceIssue>)
    ensures forall i :: EvidencePathUnsafe(i) in issues <==> 0 <= i < |items| && Unresolved(root, disk, PathOf(p, items[i]))
    ensures forall i :: EvidenceFileHashMismatch(i) in issues <==>
              0 <= i < |items| && Mismatched(p, root, disk, PathOf(p, items[i]), DigestIn(p, items[i]))
    ensures issues == [] <==> AllHold(p, root, disk, items)
  {
    hide ResolveFile;
    issues := [];
    for k := 0 to |items|
      invariant forall i :: EvidencePathUnsafe(i) in issues <==> 0 <= i < k && Unresolved(root, disk, PathOf(p, items[i]))
      invariant forall i :: EvidenceFileHashMismatch(i) in issues <==>
                  0 <= i < k && Mismatched(p, root, disk, PathOf(p, items[i]), DigestIn(p, items[i]))
      invariant issues == [] <==>
                  forall i :: 0 <= i < k ==> ItemHolds(p, root, disk, items[i])
    {
      if items[k].Obj? {
        var rel, expected := PathOf(p, items[k]), DigestIn(p, items[k]);
        if rel != "" {
          var at := ResolveFile(root, disk, rel, ".json");
          if at.None? {
            issues := issues + [EvidencePathUnsafe(k)];
          } else if StartsWith(expected, "sha256:") && p.DigestOf(disk[at.value]) != expected {
            issues := issues + [EvidenceFileHashMismatch(k)];
          }
        }
      }
    }
  }
}
