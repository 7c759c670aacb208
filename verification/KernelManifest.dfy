/** The kernel hash of a bundle (python/pcs_core/pf_core_bundle.py:112-128, 251-273): when it is defined,
    what it is, and that the order of the manifest's file list does not matter. */
module KernelManifest {
  import opened Wrappers
  import opened Text
  import opened Json
  import opened Primitives
  import opened BundlePaths
  import opened Sorting

  datatype KernelError =
    | FilesNotList | EntryNotObject | EntryPathMissing | DuplicateKernelPath(rel: string)
    | KernelPathUnsafe(rel: string) | KernelFileHashMismatch(rel: string)

  // ---------------------------------------------------------------- unique paths

  /** `str(entry.get("path") or "")`. */
  function EntryPath(p: Primitives, item: Json): string {
    if item.Obj? then p.StrField(item.members, "path") else ""
  }

  function EntryDigest(p: Primitives, item: Json): string {
    if item.Obj? then p.StrField(item.members, "sha256") else ""
  }

  ghost predicate UniquePaths(p: Primitives, items: seq<Json>) {
    && (forall i :: 0 <= i < |items| ==> items[i].Obj? && EntryPath(p, items[i]) != "")
    && (forall i, j :: 0 <= i < j < |items| ==> EntryPath(p, items[i]) != EntryPath(p, items[j]))
  }

  function PathsOf(p: Primitives, items: seq<Json>): (paths: seq<string>)
    ensures |paths| == |items| && forall i :: 0 <= i < |paths| ==> paths[i] == EntryPath(p, items[i])
  {
    seq(|items|, i requires 0 <= i < |items| => EntryPath(p, items[i]))
  }

  /** `_unique_kernel_paths`: raises exactly when the list is no list of objects with pairwise different,
      non-empty paths. */
  method UniqueKernelPaths(p: Primitives, manifest: Dict) returns (r: Result<seq<string>, KernelError>)
    ensures r.Ok? <==> Get(manifest, "files").Some? && Get(manifest, "files").value.Arr? && UniquePaths(p, Get(manifest, "files").value.items)
    ensures r.Ok? ==> r.value == PathsOf(p, Get(manifest, "files").value.items)
  {
    hide EntryPath;
    var raw := Get(manifest, "files");
    if raw.None? || !raw.value.Arr? {
      return Err(FilesNotList);
    }
    var entries := raw.value.items;
    var paths: seq<string> := [];
    var seen: set<string> := {};
    for i := 0 to |entries|
      invariant |paths| == i && forall k :: 0 <= k < i ==> paths[k] == EntryPath(p, entries[k])
      invariant UniquePaths(p, entries[..i])
      invariant seen == set k | 0 <= k < i :: paths[k]
    {
      if !entries[i].Obj? {
        return Err(EntryNotObject);
      }
      var rel := EntryPath(p, entries[i]);
      if rel == "" {
        return Err(EntryPathMissing);
      }
      if rel in seen {
        return Err(DuplicateKernelPath(rel));
      }
      seen := seen + {rel};
      paths := paths + [rel];
    }
    assert entries[..|entries|] == entries;
    return Ok(paths);
  }

  // ---------------------------------------------------------------- sorting by path

  /** `sorted(entries, key=path)`. */
  function ByPath(p: Primitives, items: seq<Json>): seq<Json> {
    SortBy(item => EntryPath(p, item), items)
  }

  lemma {:induction false} PermutedUnique(p: Primitives, a: seq<Json>, b: seq<Json>)
    requires UniquePaths(p, a) && multiset(a) == multiset(b)
    ensures UniquePaths(p, b)
  {
    hide EntryPath;
    SameMembers(a, b);
    forall i | 0 <= i < |b| ensures b[i].Obj? && EntryPath(p, b[i]) != "" {
      assert b[i] in b && b[i] in a;
    }
    forall i, j | 0 <= i < j < |b| ensures EntryPath(p, b[i]) != EntryPath(p, b[j]) {
      if b[i] == b[j] {
        TwiceInMultiset(b, i, j);
        OnceInUnique(p, a, b[i]);
      } else {
        assert b[i] in a && b[j] in a;
      }
    }
  }

  lemma TwiceInMultiset(b: seq<Json>, i: nat, j: nat)
    requires i < j < |b| && b[i] == b[j]
    ensures multiset(b)[b[i]] >= 2
  {
    assert b == b[..j] + ([b[j]] + b[j + 1..]);
    assert b[..j][i] == b[i];
  }

  lemma {:induction false} OnceInUnique(p: Primitives, a: seq<Json>, x: Json)
    requires UniquePaths(p, a)
    ensures multiset(a)[x] <= 1
  {
    hide EntryPath;
    if a != [] {
      OnceInUnique(p, a[1..], x);
      assert a == [a[0]] + a[1..];
      if a[0] == x {
        assert x !in a[1..];
      }
    }
  }

  // ---------------------------------------------------------------- the hash

  const SEPARATOR: seq<byte> := [10, 45, 45, 45, 10]

  function JoinBytes(parts: seq<seq<byte>>): seq<byte> {
    if parts == [] then [] else if |parts| == 1 then parts[0] else parts[0] + SEPARATOR + JoinBytes(parts[1..])
  }

  /** Where a part begins: after the parts before it and a separator of five bytes for each. */
  function Offset(parts: seq<seq<byte>>, i: nat): nat
    requires i < |parts|
  {
    if i == 0 then 0 else |parts[0]| + 5 + Offset(parts[1..], i - 1)
  }

  /** Each part stands at its offset, a line of three dashes after every part but the last. */
  lemma {:induction false} JoinForm(parts: seq<seq<byte>>, i: nat)
    requires i < |parts|
    ensures var joined, start := JoinBytes(parts), Offset(parts, i);
            && start + |parts[i]| <= |joined| && joined[start..start + |parts[i]|] == parts[i]
            && (i == |parts| - 1 ==> |joined| == start + |parts[i]|)
            && (i < |parts| - 1 ==>
                  && start + |parts[i]| + 5 <= |joined|
                  && joined[start + |parts[i]|..start + |parts[i]| + 5] == [10, 45, 45, 45, 10])
  {
    var joined := JoinBytes(parts);
    if |parts| > 1 {
      var rest := JoinBytes(parts[1..]);
      var head := |parts[0]| + 5;
      assert joined == parts[0] + SEPARATOR + rest && |SEPARATOR| == 5;
      assert joined[head..] == rest;
      if i > 0 {
        JoinForm(parts[1..], i - 1);
        var start := Offset(parts[1..], i - 1);
        assert joined[head + start..head + start + |parts[i]|] == rest[start..start + |parts[i]|];
        if i < |parts| - 1 {
          assert joined[head + start + |parts[i]|..head + start + |parts[i]| + 5] == rest[start + |parts[i]|..start + |parts[i]| + 5];
        }
      }
    }
  }

  /** The file an entry names can be read, and has the digest the entry records, when it records one. */
  predicate EntryLoads(p: Primitives, root: Location, disk: Disk, item: Json) {
    var at := ResolveFile(root, disk, EntryPath(p, item), ".lean");
    at.Some? && (EntryDigest(p, item) == "" || p.DigestOf(disk[at.value]) == EntryDigest(p, item))
  }

  function ContentOf(p: Primitives, root: Location, disk: Disk, item: Json): seq<byte>
    requires EntryLoads(p, root, disk, item)
  {
    disk[ResolveFile(root, disk, EntryPath(p, item), ".lean").value]
  }

  predicate AllLoad(p: Primitives, root: Location, disk: Disk, items: seq<Json>) {
    forall i :: 0 <= i < |items| ==> EntryLoads(p, root, disk, items[i])
  }

  function Contents(p: Primitives, root: Location, disk: Disk, items: seq<Json>): (c: seq<seq<byte>>)
    requires AllLoad(p, root, disk, items)
    ensures |c| == |items| && forall i :: 0 <= i < |c| ==> c[i] == ContentOf(p, root, disk, items[i])
  {
    seq(|items|, i requires 0 <= i < |items| => ContentOf(p, root, disk, items[i]))
  }

  ghost predicate KernelAccepted(p: Primitives, manifest: Dict, root: Location, disk: Disk) {
    match Get(manifest, "files")
    case Some(Arr(items)) => UniquePaths(p, items) && AllLoad(p, root, disk, items)
    case _ => false
  }

  lemma PermutedLoads(p: Primitives, root: Location, disk: Disk, a: seq<Json>, b: seq<Json>)
    requires multiset(a) == multiset(b)
    ensures AllLoad(p, root, disk, a) <==> AllLoad(p, root, disk, b)
  {
    hide EntryLoads;
    SameMembers(a, b);
    assert AllLoad(p, root, disk, a) <==> forall x :: x in a ==> EntryLoads(p, root, disk, x);
    assert AllLoad(p, root, disk, b) <==> forall x :: x in b ==> EntryLoads(p, root, disk, x);
  }

  /** The digest of the separated contents, in path order. */
  ghost function KernelDigest(p: Primitives, manifest: Dict, root: Location, disk: Disk): string
    requires KernelAccepted(p, manifest, root, disk)
  {
    var items := Get(manifest, "files").value.items;
    PermutedLoads(p, root, disk, items, ByPath(p, items));
    p.DigestOf(JoinBytes(Contents(p, root, disk, ByPath(p, items))))
  }

  method LoadEntry(p: Primitives, root: Location, disk: Disk, item: Json) returns (r: Result<seq<byte>, KernelError>)
    ensures r.Ok? <==> EntryLoads(p, root, disk, item)
    ensures r.Ok? ==> r.value == ContentOf(p, root, disk, item)
  {
    hide EntryPath, EntryDigest, ResolveFile;
    var rel, recorded := EntryPath(p, item), EntryDigest(p, item);
    var at := ResolveFile(root, disk, rel, ".lean");
    if at.None? {
      return Err(KernelPathUnsafe(rel));
    }
    if recorded != "" && p.DigestOf(disk[at.value]) != recorded {
      return Err(KernelFileHashMismatch(rel));
    }
    return Ok(disk[at.value]);
  }

  /** `compute_pfcore_kernel_hash_from_manifest`: raises exactly when a path is repeated, empty or does not
      resolve, or a recorded digest is not the file's. */
  method ComputeKernelHash(p: Primitives, manifest: Dict, root: Location, disk: Disk) returns (r: Result<string, KernelError>)
    ensures r.Ok? <==> KernelAccepted(p, manifest, root, disk)
    ensures r.Ok? ==> r.value == KernelDigest(p, manifest, root, disk)
  {
    hide UniquePaths, EntryLoads, ContentOf, ByPath;
    var paths := UniqueKernelPaths(p, manifest);
    if paths.Err? {
      return Err(paths.error);
    }
    var items := Get(manifest, "files").value.items;
    var entries := ByPath(p, items);
    ByPathPermutes(p, items);
    PermutedLoads(p, root, disk, items, entries);
    var parts: seq<seq<byte>> := [];
    for i := 0 to |entries|
      invariant AllLoad(p, root, disk, entries[..i]) && parts == Contents(p, root, disk, entries[..i])
    {
      var content := LoadEntry(p, root, disk, entries[i]);
      if content.Err? {
        return Err(content.error);
      }
      parts := parts + [content.value];
      assert forall k :: 0 <= k < i ==> entries[..i + 1][k] == entries[..i][k];
    }
    assert entries[..|entries|] == entries;
    return Ok(p.DigestOf(JoinBytes(parts)));
  }

  lemma ByPathPermutes(p: Primitives, items: seq<Json>)
    ensures multiset(items) == multiset(ByPath(p, items))
  {
  }

  /** Two lists of the same items with distinct paths sort alike. */
  lemma SamePathOrder(p: Primitives, a: seq<Json>, b: seq<Json>)
    requires UniquePaths(p, a) && UniquePaths(p, b) && multiset(a) == multiset(b)
    ensures ByPath(p, a) == ByPath(p, b)
  {
    hide EntryPath;
    var key := (item: Json) => EntryPath(p, item);
    SortByAscending(key, a);
    SortByAscending(key, b);
    SameMembers(a, b);
    AscendingUnique(key, SortBy(key, a), SortBy(key, b));
  }

  /** The entries are read where their paths lead, and their paths ascend character by character. */
  ghost predicate ReadInOrder(p: Primitives, root: Location, disk: Disk, entries: seq<Json>, parts: seq<seq<byte>>) {
    && |parts| == |entries|
    && (forall i :: 0 <= i < |entries| ==> entries[i].Obj?)
    && (forall i, j :: 0 <= i < j < |entries| ==>
          Precedes(p.StrField(entries[i].members, "path"), p.StrField(entries[j].members, "path")))
    && forall i :: 0 <= i < |parts| ==> ReadFrom(p, root, disk, entries[i], parts[i])
  }

  ghost predicate ReadFrom(p: Primitives, root: Location, disk: Disk, item: Json, part: seq<byte>) {
    && item.Obj?
    && var at := ResolveFile(root, disk, p.StrField(item.members, "path"), ".lean");
    && at.Some? && part == disk[at.value] && p.StrField(item.members, "sha256") in {"", p.DigestOf(part)}
  }

  /** What a kernel hash is the digest of: the contents of the listed files in the order of their paths,
      joined as `JoinForm` says. */
  lemma KernelDigestForm(p: Primitives, manifest: Dict, root: Location, disk: Disk) returns (entries: seq<Json>, parts: seq<seq<byte>>)
    requires KernelAccepted(p, manifest, root, disk)
    ensures multiset(entries) == multiset(Get(manifest, "files").value.items)
    ensures ReadInOrder(p, root, disk, entries, parts)
    ensures KernelDigest(p, manifest, root, disk) == p.DigestOf(JoinBytes(parts))
  {
    var items := Get(manifest, "files").value.items;
    entries := ByPath(p, items);
    ByPathPermutes(p, items);
    PermutedLoads(p, root, disk, items, entries);
    PermutedUnique(p, items, entries);
    parts := Contents(p, root, disk, entries);
    hide ResolveFile, JoinBytes, EntryLoads, ContentOf, ReadFrom, ByPath, Precedes;
    forall i, j | 0 <= i < j < |entries|
      ensures Precedes(p.StrField(entries[i].members, "path"), p.StrField(entries[j].members, "path"))
    {
      PathsAscend(p, items, i, j);
    }
    forall i | 0 <= i < |parts| ensures ReadFrom(p, root, disk, entries[i], parts[i]) {
      EntryForm(p, root, disk, entries[i]);
    }
  }

  lemma PathsAscend(p: Primitives, items: seq<Json>, i: nat, j: nat)
    requires UniquePaths(p, items) && i < j < |ByPath(p, items)|
    ensures Precedes(EntryPath(p, ByPath(p, items)[i]), EntryPath(p, ByPath(p, items)[j]))
  {
    hide EntryPath, Precedes, Ascending;
    var key := (item: Json) => EntryPath(p, item);
    SortByAscending(key, items);
    AscendingMeaning(key, SortBy(key, items), i, j);
  }

  lemma EntryForm(p: Primitives, root: Location, disk: Disk, item: Json)
    requires item.Obj? && EntryLoads(p, root, disk, item)
    ensures ReadFrom(p, root, disk, item, ContentOf(p, root, disk, item))
  {
    hide ResolveFile;
  }

  /** Every reordering of the file list is accepted alike and has the same hash. */
  lemma KernelHashIgnoresOrder(p: Primitives, a: Dict, b: Dict, root: Location, disk: Disk)
    requires KernelAccepted(p, a, root, disk)
    requires Get(b, "files").Some? && Get(b, "files").value.Arr?
    requires multiset(Get(a, "files").value.items) == multiset(Get(b, "files").value.items)
    ensures KernelAccepted(p, b, root, disk) && KernelDigest(p, b, root, disk) == KernelDigest(p, a, root, disk)
  {
    hide UniquePaths, EntryPath, AllLoad;
    var x, y := Get(a, "files").value.items, Get(b, "files").value.items;
    PermutedUnique(p, x, y);
    PermutedLoads(p, root, disk, x, y);
    SamePathOrder(p, x, y);
  }
}
