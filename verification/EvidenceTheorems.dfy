/** Recorded evidence digests: exactly when they still hold once the manifest is written, why plainly named
    copies never disturb each other, inputs for which they do, and what the checking loop then reports. */
module EvidenceTheorems {
  import opened Wrappers
  import opened Text
  import opened Json
  import opened CanonicalJson
  import opened Primitives
  import opened Sorting
  import opened Paths
  import opened BundlePaths
  import opened EvidenceBundle

  // ---------------------------------------------------------------- exactly when digests hold

  /** Every recorded digest is that of the bytes now at the copy's place. */
  ghost predicate DigestsHold(p: Primitives, root: Location, copies: seq<Copy>, disk: Disk)
    requires Placed(root, copies)
  {
    forall i :: 0 <= i < |copies| ==>
      var at := Place(root, copies[i]).value;
      at in disk && p.DigestOf(copies[i].content) == p.DigestOf(disk[at])
  }

  /** No two copies of different digests go to one place, and none of another digest to the manifest's. */
  ghost predicate Undisturbed(p: Primitives, root: Location, copies: seq<Copy>, manifest: seq<byte>) {
    && (forall i, j :: 0 <= i < j < |copies| && Place(root, copies[i]) == Place(root, copies[j]) ==>
          p.DigestOf(copies[i].content) == p.DigestOf(copies[j].content))
    && (forall i :: 0 <= i < |copies| && Place(root, copies[i]) == Some(ManifestPlace(root)) ==>
          p.DigestOf(copies[i].content) == p.DigestOf(manifest))
  }

  /** The bytes at a written place are those of the last copy that went there. */
  lemma {:induction false} LastWritten(root: Location, disk: Disk, copies: seq<Copy>, i: nat) returns (j: nat)
    requires Placed(root, copies) && i < |copies|
    ensures i <= j < |copies| && Place(root, copies[j]) == Place(root, copies[i])
    ensures var at := Place(root, copies[i]).value;
            at in DiskAfter(root, disk, copies) && DiskAfter(root, disk, copies)[at] == copies[j].content
    decreases |copies|
  {
    hide Place;
    var n := |copies| - 1;
    if Place(root, copies[n]) == Place(root, copies[i]) {
      j := n;
    } else {
      j := LastWritten(root, disk, copies[..n], i);
    }
  }

  /** The bytes at a copy's place at the end: the manifest's, or those of the last copy that went there. */
  ghost predicate EndsWith(root: Location, copies: seq<Copy>, manifest: seq<byte>, final: Disk, i: nat)
    requires i < |copies|
  {
    var at := Place(root, copies[i]);
    && at.Some? && at.value in final
    && (if at == Some(ManifestPlace(root)) then final[at.value] == manifest
        else exists j :: i <= j < |copies| && Place(root, copies[j]) == at && final[at.value] == copies[j].content)
  }

  lemma FinalBytes(p: Primitives, root: Location, disk: Disk, requests: seq<EvidenceRequest>, policy: (string, string), render: Dict -> seq<byte>, i: nat)
    requires Placed(root, Copies(requests)) && i < |Copies(requests)|
    ensures EndsWith(root, Copies(requests), render(ManifestOf(p, requests, policy)), FinalDisk(p, root, disk, requests, policy, render), i)
  {
    hide Place, Copies, ManifestOf, ManifestPlace, DiskAfter;
    var j := LastWritten(root, disk, Copies(requests), i);
  }

  /** After a run every recorded digest holds exactly when the copies its requests lead to are undisturbed:
      a condition on the requests alone. */
  lemma DigestsHoldIff(p: Primitives, root: Location, disk: Disk, requests: seq<EvidenceRequest>, policy: (string, string), render: Dict -> seq<byte>)
    requires Placed(root, Copies(requests))
    ensures DigestsHold(p, root, Copies(requests), FinalDisk(p, root, disk, requests, policy, render)) <==>
              Undisturbed(p, root, Copies(requests), render(ManifestOf(p, requests, policy)))
  {
    hide *;
    var copies, final := Copies(requests), FinalDisk(p, root, disk, requests, policy, render);
    forall i | 0 <= i < |copies|
      ensures EndsWith(root, copies, render(ManifestOf(p, requests, policy)), final, i)
    {
      FinalBytes(p, root, disk, requests, policy, render, i);
    }
    HeldIffUndisturbed(p, root, copies, final, render(ManifestOf(p, requests, policy)));
  }

  lemma HeldIffUndisturbed(p: Primitives, root: Location, copies: seq<Copy>, final: Disk, manifest: seq<byte>)
    requires Placed(root, copies) && forall i :: 0 <= i < |copies| ==> EndsWith(root, copies, manifest, final, i)
    ensures DigestsHold(p, root, copies, final) <==> Undisturbed(p, root, copies, manifest)
  {
    hide Place, ManifestPlace;
    if DigestsHold(p, root, copies, final) {
      forall i, j | 0 <= i < j < |copies| && Place(root, copies[i]) == Place(root, copies[j])
        ensures p.DigestOf(copies[i].content) == p.DigestOf(copies[j].content)
      {
        assert EndsWith(root, copies, manifest, final, i);
      }
      forall i | 0 <= i < |copies| && Place(root, copies[i]) == Some(ManifestPlace(root))
        ensures p.DigestOf(copies[i].content) == p.DigestOf(manifest)
      {
        assert EndsWith(root, copies, manifest, final, i);
      }
    }
    if Undisturbed(p, root, copies, manifest) {
      forall i | 0 <= i < |copies|
        ensures var at := Place(root, copies[i]).value;
                at in final && p.DigestOf(copies[i].content) == p.DigestOf(final[at])
      {
        assert EndsWith(root, copies, manifest, final, i);
      }
    }
  }

  /** A disturbed copy loses its bytes: when every digest holds although two different contents went to one
      place, or a content to the manifest's, they collide. */
  lemma DisturbedCollides(p: Primitives, root: Location, copies: seq<Copy>, manifest: seq<byte>, i: nat)
    requires Undisturbed(p, root, copies, manifest) && i < |copies|
    ensures forall j :: i < j < |copies| && Place(root, copies[i]) == Place(root, copies[j]) ==>
              copies[i].content == copies[j].content || Collision(p, copies[i].content, copies[j].content)
    ensures Place(root, copies[i]) == Some(ManifestPlace(root)) ==>
              copies[i].content == manifest || Collision(p, copies[i].content, manifest)
  {
    hide Place, ManifestPlace, Collision;
    forall j | i < j < |copies| && Place(root, copies[i]) == Place(root, copies[j])
      ensures copies[i].content == copies[j].content || Collision(p, copies[i].content, copies[j].content)
    {
      DigestEqualOrCollision(p, copies[i].content, copies[j].content);
    }
    if Place(root, copies[i]) == Some(ManifestPlace(root)) {
      DigestEqualOrCollision(p, copies[i].content, manifest);
    }
  }

  // ---------------------------------------------------------------- plain names

  predicate EndsInJson(s: string) {
    |s| >= 5 && s[|s| - 5..] == ".json"
  }

  /** A name ending in ".json" without separators. */
  predicate JsonName(name: string) {
    EndsInJson(name) && '/' !in name && '\\' !in name
  }

  lemma {:induction false} LastPartEnds(s: string)
    requires EndsInJson(s)
    ensures var parts := Split(s, '/'); EndsInJson(parts[|parts| - 1])
    decreases |s|
  {
    if |s| == 5 {
      assert s == ".json";
      SplitNoSeparator(s, '/');
    } else {
      assert s[1..][|s| - 6..] == s[|s| - 5..];
      LastPartEnds(s[1..]);
    }
  }

  lemma {:induction false} MeaningfulLast(parts: seq<string>)
    requires parts != [] && EndsInJson(parts[|parts| - 1])
    ensures var m := Meaningful(parts); m != [] && m[|m| - 1] == parts[|parts| - 1]
  {
    if |parts| > 1 {
      MeaningfulLast(parts[1..]);
    } else {
      assert parts[1..] == [];
    }
  }

  lemma BaseIsJsonName(preferred: string)
    requires EndsInJson(preferred) && '\\' !in preferred
    ensures JsonName(BaseName(preferred))
  {
    LastPartEnds(preferred);
    MeaningfulLast(Split(preferred, '/'));
    PathNameOneComponent(preferred);
  }

  lemma {:induction false} LastDotAt(name: string, i: nat)
    requires i < |name| && name[i] == '.' && forall k :: i < k < |name| ==> name[k] != '.'
    ensures LastDot(name) == i
    decreases |name|
  {
    if i < |name| - 1 {
      LastDotAt(name[..|name| - 1], i);
    }
  }

  lemma LastDotOfJson(name: string)
    requires EndsInJson(name)
    ensures LastDot(name) == |name| - 5
  {
    hide LastDot;
    var start := |name| - 5;
    var tail := name[start..];
    assert tail == ".json";
    forall k | start < k < |name| ensures name[k] != '.' {
      assert name[k] == tail[k - start];
    }
    assert name[start] == tail[0];
    LastDotAt(name, start);
  }

  lemma CandidateIsJsonName(base: string, index: nat)
    requires JsonName(base)
    ensures JsonName(Candidate(base, index))
  {
    LastDotOfJson(base);
    var suffix := if Suffix(base) == "" then ".json" else Suffix(base);
    assert suffix == ".json";
    var c := Candidate(base, index);
    assert c[|c| - 5..] == ".json";
    forall i | 0 <= i < |Digits(index)| ensures Digits(index)[i] != '/' && Digits(index)[i] != '\\' {
      assert IsDigit(Digits(index)[i]);
    }
  }

  lemma AllocatedIsJsonName(used: set<string>, preferred: string, name: string)
    requires Allocated(used, preferred, name) && EndsInJson(preferred) && '\\' !in preferred
    ensures JsonName(name)
  {
    hide Candidate, BaseName, JsonName;
    BaseIsJsonName(preferred);
    var base := BaseName(preferred);
    if base in used {
      var k :| 2 <= k <= |used| + 2 && name == Candidate(base, k);
      CandidateIsJsonName(base, k);
    }
  }

  /** What the callers of `_add_file` ask for, when no id holds a backslash. */
  ghost predicate PlainRequests(requests: seq<EvidenceRequest>) {
    forall req :: req in requests ==> EndsInJson(req.preferredName) && '\\' !in req.preferredName
  }

  /** Whatever the requests, no two copies get one name. */
  lemma {:induction false} NamesDiffer(requests: seq<EvidenceRequest>)
    ensures forall i, j :: 0 <= i < j < |Copies(requests)| ==> Copies(requests)[i].name != Copies(requests)[j].name
    decreases |requests|
  {
    hide FreshName, Allocated;
    if requests != [] {
      var n := |requests| - 1;
      NamesDiffer(requests[..n]);
      var before := Copies(requests[..n]);
      if requests[n].content.Some? {
        var name := FreshName(NamesOf(before), requests[n].preferredName);
        FreshNameAllocated(NamesOf(before), requests[n].preferredName);
        AllocatedIsNew(NamesOf(before), requests[n].preferredName, name);
        assert Copies(requests) == before + [CopyOf(requests[n], name)];
        assert forall i :: 0 <= i < |before| ==> before[i].name in NamesOf(before);
      }
    }
  }

  lemma AllocatedIsNew(used: set<string>, preferred: string, name: string)
    requires Allocated(used, preferred, name)
    ensures name !in used
  {
    hide BaseName, Candidate;
  }

  lemma {:induction false} PlainCopies(requests: seq<EvidenceRequest>)
    requires PlainRequests(requests)
    ensures forall c :: c in Copies(requests) ==> JsonName(c.name)
    decreases |requests|
  {
    hide FreshName, Allocated, JsonName, EndsInJson;
    if requests != [] {
      var n := |requests| - 1;
      PlainCopies(requests[..n]);
      var used, preferred := NamesOf(Copies(requests[..n])), requests[n].preferredName;
      FreshNameAllocated(used, preferred);
      assert requests[n] in requests;
      AllocatedIsJsonName(used, preferred, FreshName(used, preferred));
    }
  }

  /** A plainly named copy goes to its own place under the evidence directory. */
  lemma PlainPlace(root: Location, c: Copy)
    requires JsonName(c.name)
    ensures Place(root, c) == Some(root + [EVIDENCE_DIR_NAME, c.name])
    ensures Parts(Slashes(PathOfCopy(c))) == [EVIDENCE_DIR_NAME, c.name]
  {
    PlainParts(c);
    NameNotDots(c.name);
    hide JsonName, Parts, Slashes, SafeDest;
    WrittenWhereRead(root, PathOfCopy(c));
  }

  lemma PlainParts(c: Copy)
    requires JsonName(c.name)
    ensures Parts(Slashes(PathOfCopy(c))) == [EVIDENCE_DIR_NAME, c.name]
  {
    assert |c.name| >= 5;
    TwoParts(EVIDENCE_DIR_NAME, c.name);
  }

  lemma NameNotDots(name: string)
    requires JsonName(name)
    ensures ".." !in [EVIDENCE_DIR_NAME, name]
  {
    assert |name| >= 5 && |EVIDENCE_DIR_NAME| == 8;
  }

  /** With any number of requests without backslashes a run never raises, no copy overwrites another or meets
      the manifest, and every recorded digest holds at the end. */
  lemma PlainCopiesHold(p: Primitives, root: Location, disk: Disk, requests: seq<EvidenceRequest>, policy: (string, string), render: Dict -> seq<byte>)
    requires PlainRequests(requests)
    ensures Placed(root, Copies(requests))
    ensures forall i, j :: 0 <= i < j < |Copies(requests)| ==> Place(root, Copies(requests)[i]) != Place(root, Copies(requests)[j])
    ensures forall c :: c in Copies(requests) ==> Place(root, c) != Some(ManifestPlace(root))
    ensures DigestsHold(p, root, Copies(requests), FinalDisk(p, root, disk, requests, policy, render))
  {
    hide Place, Copies, PlainRequests, JsonName, FinalDisk;
    var copies := Copies(requests);
    PlainCopies(requests);
    NamesDiffer(requests);
    forall i | 0 <= i < |copies|
      ensures Place(root, copies[i]) == Some(root + [EVIDENCE_DIR_NAME, copies[i].name])
      ensures Place(root, copies[i]) != Some(ManifestPlace(root))
    {
      assert copies[i] in copies;
      PlainPlace(root, copies[i]);
      assert |root + [EVIDENCE_DIR_NAME, copies[i].name]| != |ManifestPlace(root)|;
    }
    forall i, j | 0 <= i < j < |copies| ensures Place(root, copies[i]) != Place(root, copies[j]) {
      assert copies[i].name != copies[j].name;
      assert (root + [EVIDENCE_DIR_NAME, copies[i].name])[|root| + 1] == copies[i].name;
      assert (root + [EVIDENCE_DIR_NAME, copies[j].name])[|root| + 1] == copies[j].name;
    }
    DigestsHoldIff(p, root, disk, requests, policy, render);
  }

  // ---------------------------------------------------------------- inputs that disturb

  /** A component that no separator splits. */
  predicate Component(s: string) {
    '/' !in s && '\\' !in s && s !in {"", ".", ".."}
  }

  lemma EvidenceDirComponent()
    ensures Component(EVIDENCE_DIR_NAME)
  {
    assert |EVIDENCE_DIR_NAME| == 8;
  }

  lemma SlashedOnce(head: string, b: string)
    requires '\\' !in head && '\\' !in b
    ensures Slashes(head + "\\" + b) == head + "/" + b
  {
    SlashesOfTwo(head, b);
    SlashesPlain(head);
    SlashesPlain(b);
  }

  lemma SlashedTwice(head: string, b: string)
    requires '\\' !in head && '\\' !in b
    ensures Slashes(head + "\\.\\" + b) == head + "/" + ("." + "/" + b)
  {
    hide Slashes;
    var mid := head + "\\" + ".";
    SlashesOfTwo(mid, b);
    SlashesPlain(b);
    SlashedOnce(head, ".");
    TwiceText(head, b);
  }

  lemma TwiceText(head: string, b: string)
    ensures head + "\\.\\" + b == head + "\\" + "." + "\\" + b
    ensures head + "/" + "." + "/" + b == head + "/" + ("." + "/" + b)
  {
  }

  lemma NoBackslashes(dir: string, a: string)
    requires '\\' !in dir && '\\' !in a
    ensures '\\' !in dir + "/" + a
  {
  }

  lemma PartsOfTail(dir: string, tail: string)
    requires Component(dir)
    ensures Parts(dir + "/" + tail) == [dir] + Parts(tail)
  {
    assert dir + "/" + tail == dir + ['/'] + tail;
    SplitAtSeparator(dir, '/', tail);
    MeaningfulConcat([dir], Split(tail, '/'));
    assert [dir][1..] == [];
    assert Meaningful([dir]) == [dir];
  }

  lemma PartsOfDot(tail: string)
    ensures Parts("." + "/" + tail) == Parts(tail)
  {
    assert "." + "/" + tail == "." + ['/'] + tail;
    SplitAtSeparator(".", '/', tail);
    MeaningfulConcat(["."], Split(tail, '/'));
    assert ["."][1..] == [];
    assert Meaningful(["."]) == [];
  }

  lemma Regroup(dir: string, a: string, separator: string, b: string)
    ensures dir + "/" + (a + separator + b) == dir + "/" + a + separator + b
  {
  }

  lemma PartsMeet(dir: string, a: string, b: string)
    requires Component(dir) && Component(a) && Component(b)
    ensures Parts(Slashes(dir + "/" + (a + "\\" + b))) == [dir, a, b] == Parts(Slashes(dir + "/" + (a + "\\.\\" + b)))
  {
    PartsOfComponent(b);
    var head := dir + "/" + a;
    NoBackslashes(dir, a);
    SlashedOnce(head, b);
    SlashedTwice(head, b);
    hide Parts, Component, Slashes;
    Regroup(dir, a, "\\", b);
    Regroup(dir, a, "\\.\\", b);
    Regroup(dir, a, "/", b);
    Regroup(dir, a, "/", "." + "/" + b);
    PartsOfTail(dir, a + "/" + b);
    PartsOfTail(dir, a + "/" + ("." + "/" + b));
    PartsOfTail(a, b);
    PartsOfTail(a, "." + "/" + b);
    PartsOfDot(b);
    assert [dir] + ([a] + [b]) == [dir, a, b];
  }

  lemma PartsOfComponent(b: string)
    requires Component(b)
    ensures Parts(b) == [b]
  {
    hide Split;
    SplitNoSeparator(b, '/');
    OneMeaningful(b);
  }

  lemma {:induction false} SlashesOfTwo(a: string, b: string)
    ensures Slashes(a + "\\" + b) == Slashes(a) + "/" + Slashes(b)
  {
    var whole := a + "\\" + b;
    if a == "" {
      assert whole[1..] == b;
    } else {
      assert whole[1..] == a[1..] + "\\" + b;
      SlashesOfTwo(a[1..], b);
    }
  }

  lemma {:induction false} MeaningfulConcat(a: seq<string>, b: seq<string>)
    ensures Meaningful(a + b) == Meaningful(a) + Meaningful(b)
  {
    if a == [] {
      assert a + b == b;
    } else {
      assert (a + b)[1..] == a[1..] + b;
      MeaningfulConcat(a[1..], b);
    }
  }

  /** A request whose preferred name has no slash asks for exactly that name. */
  lemma BaseIsWhole(preferred: string)
    requires '/' !in preferred && preferred != "" && preferred != "."
    ensures BaseName(preferred) == preferred
  {
    hide Split;
    SplitNoSeparator(preferred, '/');
    OneMeaningful(preferred);
  }

  lemma BackslashNames(a: string, b: string)
    requires Component(a) && Component(b)
    ensures var one, two := a + "\\" + b, a + "\\.\\" + b;
            BaseName(one) == one && BaseName(two) == two && one != two
  {
    assert |a + "\\" + b| >= 3 && |a + "\\.\\" + b| == |a + "\\" + b| + 2;
    hide BaseName;
    BaseIsWhole(a + "\\" + b);
    BaseIsWhole(a + "\\.\\" + b);
  }

  function Asked(content: seq<byte>, role: string, name: string): EvidenceRequest {
    EvidenceRequest(Some(content), role, None, None, name)
  }

  lemma TwoCopies(first: EvidenceRequest, second: EvidenceRequest)
    requires first.content.Some? && second.content.Some?
    requires BaseName(first.preferredName) != BaseName(second.preferredName)
    ensures Copies([first, second]) == [CopyOf(first, BaseName(first.preferredName)), CopyOf(second, BaseName(second.preferredName))]
  {
    hide BaseName, FirstFree;
    var both := [first, second];
    assert both[..1] == [first] && [first][..0] == [];
    assert Copies([first]) == [CopyOf(first, BaseName(first.preferredName))];
    assert NamesOf(Copies([first])) == {BaseName(first.preferredName)};
  }

  /** Two requests whose ids hold backslashes: both get the name they ask for, both go to one place, and the
      first one's digest no longer holds after the run, unless the two contents have one digest. */
  lemma BackslashesDisturb(p: Primitives, root: Location, disk: Disk, a: string, b: string, x: seq<byte>, y: seq<byte>, role: string,
                           policy: (string, string), render: Dict -> seq<byte>)
    requires Component(a) && Component(b) && p.DigestOf(x) != p.DigestOf(y)
    ensures var requests := [Asked(x, role, a + "\\" + b), Asked(y, role, a + "\\.\\" + b)];
            && Placed(root, Copies(requests))
            && !DigestsHold(p, root, Copies(requests), FinalDisk(p, root, disk, requests, policy, render))
  {
    var first, second := Asked(x, role, a + "\\" + b), Asked(y, role, a + "\\.\\" + b);
    BackslashNames(a, b);
    hide BaseName, Copies, SafeDest, FinalDisk, ManifestOf;
    TwoCopies(first, second);
    SamePlace(root, a, b);
    var copies := Copies([first, second]);
    assert copies[0].content == x && copies[1].content == y;
    assert Place(root, copies[0]) == Place(root, copies[1]);
    DigestsHoldIff(p, root, disk, [first, second], policy, render);
  }

  lemma SamePlace(root: Location, a: string, b: string)
    requires Component(a) && Component(b)
    ensures SafeDest(root, EVIDENCE_DIR_NAME + "/" + (a + "\\" + b)) == Some(root + [EVIDENCE_DIR_NAME, a, b])
         == SafeDest(root, EVIDENCE_DIR_NAME + "/" + (a + "\\.\\" + b))
  {
    EvidenceDirComponent();
    assert ".." !in [EVIDENCE_DIR_NAME, a, b];
    hide Parts, Slashes, Component, SafeDest;
    PartsMeet(EVIDENCE_DIR_NAME, a, b);
    WrittenWhereRead(root, EVIDENCE_DIR_NAME + "/" + (a + "\\" + b));
    WrittenWhereRead(root, EVIDENCE_DIR_NAME + "/" + (a + "\\.\\" + b));
  }

  /** The path of a copy named `a\..\..\evidence_manifest.json`. */
  lemma ClimbingPlace(root: Location, a: string)
    requires Component(a)
    ensures SafeDest(root, EVIDENCE_DIR_NAME + "/" + (a + "\\..\\..\\" + EVIDENCE_MANIFEST_NAME)) == Some(ManifestPlace(root))
  {
    ClimbingParts(a);
    EvidenceDirComponent();
    ManifestNotDots();
    hide Parts, Slashes;
    var rest := ["..", "..", EVIDENCE_MANIFEST_NAME];
    var inside := root + [EVIDENCE_DIR_NAME];
    assert [EVIDENCE_DIR_NAME, a] + rest == [EVIDENCE_DIR_NAME] + ([a] + rest);
    assert Climb(root, [EVIDENCE_DIR_NAME] + ([a] + rest)) == Climb(inside, [a] + rest);
    assert ([a] + rest)[1..] == rest;
    assert Climb(inside, [a] + rest) == Climb(inside + [a], rest);
    assert rest[1..] == ["..", EVIDENCE_MANIFEST_NAME] && rest[1..][1..] == [EVIDENCE_MANIFEST_NAME];
    assert (inside + [a])[..|inside + [a]| - 1] == inside && inside[..|inside| - 1] == root;
    assert Climb(inside + [a], rest) == Climb(inside, rest[1..]) == Climb(root, rest[1..][1..]);
    assert [EVIDENCE_MANIFEST_NAME][1..] == [];
    assert Climb(root, [EVIDENCE_MANIFEST_NAME]) == root + [EVIDENCE_MANIFEST_NAME];
  }

  lemma ClimbingParts(a: string)
    requires Component(a)
    ensures Parts(Slashes(EVIDENCE_DIR_NAME + "/" + (a + "\\..\\..\\" + EVIDENCE_MANIFEST_NAME)))
         == [EVIDENCE_DIR_NAME, a] + ["..", "..", EVIDENCE_MANIFEST_NAME]
  {
    hide *;
    ClimbingText(a);
    EvidenceDirComponent();
    var tail := ".." + "/" + (".." + "/" + EVIDENCE_MANIFEST_NAME);
    PartsOfTail(EVIDENCE_DIR_NAME, a + "/" + tail);
    PartsOfTail(a, tail);
    PartsOfUp(".." + "/" + EVIDENCE_MANIFEST_NAME);
    PartsOfUp(EVIDENCE_MANIFEST_NAME);
    ManifestNameParts();
    assert [EVIDENCE_DIR_NAME] + ([a] + ([".."] + ([".."] + [EVIDENCE_MANIFEST_NAME])))
        == [EVIDENCE_DIR_NAME, a] + ["..", "..", EVIDENCE_MANIFEST_NAME];
  }

  lemma ManifestNameParts()
    ensures Parts(EVIDENCE_MANIFEST_NAME) == [EVIDENCE_MANIFEST_NAME]
  {
    hide *;
    ManifestParts();
    ManifestPlain();
    SlashesPlain(EVIDENCE_MANIFEST_NAME);
  }

  lemma PartsOfUp(tail: string)
    ensures Parts(".." + "/" + tail) == [".."] + Parts(tail)
  {
    assert ".." + "/" + tail == ".." + ['/'] + tail;
    SplitAtSeparator("..", '/', tail);
    MeaningfulConcat([".."], Split(tail, '/'));
    OneMeaningful("..");
  }

  lemma ClimbingText(a: string)
    requires Component(a)
    ensures Slashes(EVIDENCE_DIR_NAME + "/" + (a + "\\..\\..\\" + EVIDENCE_MANIFEST_NAME))
         == EVIDENCE_DIR_NAME + "/" + (a + "/" + (".." + "/" + (".." + "/" + EVIDENCE_MANIFEST_NAME)))
  {
    NoBackslashes(EVIDENCE_DIR_NAME, a);
    ManifestPlain();
    var head := EVIDENCE_DIR_NAME + "/" + a;
    ClimbingGroups(head, EVIDENCE_MANIFEST_NAME);
    Regroup(EVIDENCE_DIR_NAME, a, "\\..\\..\\", EVIDENCE_MANIFEST_NAME);
    Regroup(EVIDENCE_DIR_NAME, a, "/", ".." + "/" + (".." + "/" + EVIDENCE_MANIFEST_NAME));
    hide Slashes;
    ClimbingSlashes(head, EVIDENCE_MANIFEST_NAME);
  }

  lemma ManifestPlain() ensures '\\' !in EVIDENCE_MANIFEST_NAME && '\\' !in EVIDENCE_DIR_NAME {}

  lemma ClimbingGroups(head: string, name: string)
    ensures head + "\\..\\..\\" + name == (head + "\\" + "..") + "\\" + ".." + "\\" + name
    ensures head + "/" + ".." + "/" + ".." + "/" + name == head + "/" + (".." + "/" + (".." + "/" + name))
  {
  }

  lemma ClimbingSlashes(head: string, name: string)
    requires '\\' !in head && '\\' !in name
    ensures Slashes((head + "\\" + "..") + "\\" + ".." + "\\" + name) == head + "/" + ".." + "/" + ".." + "/" + name
  {
    hide Slashes;
    SlashesOfTwo((head + "\\" + "..") + "\\" + "..", name);
    SlashesOfTwo(head + "\\" + "..", "..");
    SlashedOnce(head, "..");
    SlashesPlain("..");
    SlashesPlain(name);
  }

  lemma OneCopy(req: EvidenceRequest)
    requires req.content.Some?
    ensures Copies([req]) == [CopyOf(req, BaseName(req.preferredName))]
  {
    hide BaseName, FirstFree;
    assert [req][..0] == [];
  }

  lemma ClimbingName(a: string)
    requires Component(a)
    ensures var name := a + "\\..\\..\\" + EVIDENCE_MANIFEST_NAME; BaseName(name) == name
  {
    NoSlashInManifest();
    hide BaseName;
    assert |a + "\\..\\..\\" + EVIDENCE_MANIFEST_NAME| > 1;
    BaseIsWhole(a + "\\..\\..\\" + EVIDENCE_MANIFEST_NAME);
  }

  lemma NoSlashInManifest() ensures '/' !in EVIDENCE_MANIFEST_NAME {}

  /** One request whose id climbs out of the evidence directory: the run does not raise, the manifest is
      written over the copy, and its digest holds only if it is the manifest's own. */
  lemma ManifestOverwrites(p: Primitives, root: Location, disk: Disk, a: string, x: seq<byte>, role: string,
                           policy: (string, string), render: Dict -> seq<byte>)
    requires Component(a)
    ensures var requests := [Asked(x, role, a + "\\..\\..\\" + EVIDENCE_MANIFEST_NAME)];
            && Placed(root, Copies(requests))
            && (DigestsHold(p, root, Copies(requests), FinalDisk(p, root, disk, requests, policy, render)) <==>
                  p.DigestOf(x) == p.DigestOf(render(ManifestOf(p, requests, policy))))
  {
    var req := Asked(x, role, a + "\\..\\..\\" + EVIDENCE_MANIFEST_NAME);
    ClimbingName(a);
    ClimbingPlace(root, a);
    hide BaseName, Copies, SafeDest, FinalDisk, ManifestOf, Component, ManifestPlace;
    OneCopy(req);
    var copies := Copies([req]);
    assert Place(root, copies[0]) == Some(ManifestPlace(root)) && copies[0].content == x;
    DigestsHoldIff(p, root, disk, [req], policy, render);
  }

  // ---------------------------------------------------------------- what is written, spelt out

  /** A copy asks for the last meaningful component of its preferred name, or for "artifact.json". */
  lemma BaseMeaning(preferred: string)
    ensures (forall part :: part in Split(preferred, '/') ==> part == "" || part == ".") ==> BaseName(preferred) == "artifact.json"
    ensures Parts(preferred) != [] ==> BaseName(preferred) == Parts(preferred)[|Parts(preferred)| - 1]
  {
    var parts := Parts(preferred);
    if parts != [] {
      MeaningfulMembers(Split(preferred, '/'), parts[|parts| - 1]);
      assert parts[|parts| - 1] in parts;
    }
  }

  /** A manifest item holds path, digest and role, and an id and a type that are not empty. */
  lemma ItemFields(p: Primitives, req: EvidenceRequest, name: string)
    requires req.content.Some?
    ensures var item := EntryItem(EntryOf(p, CopyOf(req, name)));
            && item.Obj? && Get(item.members, "path") == Some(Str("evidence/" + name))
            && Get(item.members, "sha256") == Some(Str(p.DigestOf(req.content.value))) && Get(item.members, "role") == Some(Str(req.role))
            && Get(item.members, "artifact_id") == (if req.artifactId in {None, Some("")} then None else Some(Str(req.artifactId.value)))
            && Get(item.members, "artifact_type") == (if req.artifactType in {None, Some("")} then None else Some(Str(req.artifactType.value)))
  {
    ItemNames();
    var e := EntryOf(p, CopyOf(req, name));
    assert "evidence" + "/" == "evidence/";
    assert e.path == "evidence/" + name;
    var a, b, c := Member("path", Str(e.path)), Member("sha256", Str(e.digest)), Member("role", Str(e.role));
    var id, kind := Optional("artifact_id", StrOption(e.artifactId)), Optional("artifact_type", StrOption(e.artifactType));
    hide Get;
    forall key ensures Get(EntryItem(e).members, key) ==
                         if key == "path" then Some(a.value) else if key == "sha256" then Some(b.value)
                         else if key == "role" then Some(c.value)
                         else if Has(id, key) then Get(id, key) else Get(kind, key) {
      GetConcat([a, b, c], id + kind, key);
      GetConcat(id, kind, key);
      ThreeGet(a, b, c, key);
    }
    OptionalGet("artifact_id", StrOption(e.artifactId));
    OptionalGet("artifact_type", StrOption(e.artifactType));
  }

  lemma ItemNames()
    ensures "path" !in {"sha256", "role", "artifact_id", "artifact_type"} && "sha256" !in {"role", "artifact_id", "artifact_type"}
    ensures "role" !in {"artifact_id", "artifact_type"} && "artifact_id" != "artifact_type" && "path" != "role"
  {
    assert |"path"| == 4 && |"sha256"| == 6 && |"role"| == 4 && |"artifact_id"| == 11 && |"artifact_type"| == 13;
    assert "path"[0] != "role"[0];
  }

  lemma ThreeGet(a: Member, b: Member, c: Member, key: string)
    ensures Get([a, b, c], key) == if a.key == key then Some(a.value) else if b.key == key then Some(b.value)
                                   else if c.key == key then Some(c.value) else None
  {
    assert [a, b, c][1..] == [b, c] && [b, c][1..] == [c];
    assert Get([c], key) == if c.key == key then Some(c.value) else None;
    assert Get([b, c], key) == if b.key == key then Some(b.value) else Get([c], key);
  }

  lemma OptionalGet(name: string, value: Option<Json>)
    ensures forall key :: Get(Optional(name, value), key) == if key == name then value else None
  {
  }

  /** The fields of a written manifest. */
  lemma ManifestFields(p: Primitives, entries: seq<EvidenceEntry>, policy: (string, string))
    ensures var m := EvidenceManifest(p, entries, policy);
            && Get(m, "schema_version") == Some(Str("v0")) && Get(m, "artifact_type") == Some(Str("PFCoreEvidenceManifest.v0"))
            && Get(m, "canonicalization_version") == Some(Str("v1")) && Get(m, "evidence_selection_policy") == Some(Str(policy.0))
            && Get(m, "evidence_selection_policy_version") == Some(Str(policy.1)) && Get(m, "files") == Some(Arr(EntryItems(entries)))
  {
    ManifestNames();
    var body := ManifestBody(entries, policy);
    var digest := Str(EvidenceManifestDigest(p, body));
    var a, b := Member("schema_version", Str("v0")), Member("artifact_type", Str("PFCoreEvidenceManifest.v0"));
    var c, d := Member("canonicalization_version", Str("v1")), Member("evidence_selection_policy", Str(policy.0));
    var e, f := Member("evidence_selection_policy_version", Str(policy.1)), Member("files", Arr(EntryItems(entries)));
    var last := Member(MANIFEST_DIGEST_FIELD, Str(PLACEHOLDER_DIGEST));
    hide Get, Put, PLACEHOLDER_DIGEST, EvidenceManifestDigest, EntryItems;
    forall key ensures Get(EvidenceManifest(p, entries, policy), key) ==
                         if key == "evidence_manifest_digest" then Some(digest)
                         else if OneOfFour(a, b, c, d, key).Some? then OneOfFour(a, b, c, d, key)
                         else if key == e.key then Some(e.value) else if key == f.key then Some(f.value) else None {
      GetPut(body, MANIFEST_DIGEST_FIELD, digest, key);
      GetConcat([a, b, c, d], [e, f, last], key);
      FourFields(a, b, c, d, key);
      ThreeGet(e, f, last, key);
    }
  }

  lemma ManifestNames()
    ensures "evidence_manifest_digest" !in {"schema_version", "artifact_type", "canonicalization_version", "evidence_selection_policy",
                                            "evidence_selection_policy_version", "files"}
    ensures "artifact_type" != "schema_version" && "canonicalization_version" !in {"schema_version", "artifact_type"}
    ensures "evidence_selection_policy" !in {"schema_version", "artifact_type", "canonicalization_version"}
    ensures "evidence_selection_policy_version" !in {"schema_version", "artifact_type", "canonicalization_version", "evidence_selection_policy"}
    ensures "files" !in {"schema_version", "artifact_type", "canonicalization_version", "evidence_selection_policy", "evidence_selection_policy_version"}
  {
    assert |"schema_version"| == 14 && |"artifact_type"| == 13 && |"canonicalization_version"| == 24 && |"evidence_selection_policy"| == 25;
    assert |"evidence_selection_policy_version"| == 33 && |"files"| == 5 && |"evidence_manifest_digest"| == 24;
    assert "canonicalization_version"[0] != "evidence_manifest_digest"[0];
  }

  // ---------------------------------------------------------------- what the checking loop reports

  lemma EntryItemReads(p: Primitives, e: EvidenceEntry)
    ensures PathOf(p, EntryItem(e)) == e.path && DigestIn(p, EntryItem(e)) == e.digest
  {
    var head := [Member("path", Str(e.path)), Member("sha256", Str(e.digest)), Member("role", Str(e.role))];
    var tail := Optional("artifact_id", StrOption(e.artifactId)) + Optional("artifact_type", StrOption(e.artifactType));
    assert |"path"| == 4 && |"sha256"| == 6;
    assert head[1..][0] == Member("sha256", Str(e.digest));
    assert Get(head, "path") == Some(Str(e.path)) && Get(head, "sha256") == Get(head[1..], "sha256") == Some(Str(e.digest));
    GetConcat(head, tail, "path");
    GetConcat(head, tail, "sha256");
  }

  /** A path the checking loop can read back: no control character, not too long, and a name before the
      ".json". */
  predicate Readable(path: string) {
    |path| <= MAX_REF_LENGTH && (forall i :: 0 <= i < |path| ==> !IsControl(path[i])) && path != EVIDENCE_DIR_NAME + "/" + ".json"
  }

  lemma CopyPathSafe(c: Copy)
    requires JsonName(c.name)
    ensures var path := PathOfCopy(c);
            SafeRef(path) <==> |path| <= MAX_REF_LENGTH && forall i :: 0 <= i < |path| ==> !IsControl(path[i])
  {
    PlainParts(c);
    NameNotDots(c.name);
    CopyPathForm(c);
    hide JsonName, Parts, IsControl, Slashes, PathOfCopy;
    SlashesPlain(PathOfCopy(c));
  }

  lemma CopyPathForm(c: Copy)
    requires JsonName(c.name)
    ensures var path := PathOfCopy(c); |path| > 2 && path[0] == 'e' && path[1] == 'v' && '\\' !in path
  {
    hide EndsInJson;
  }

  lemma JsonSuffix(name: string)
    requires EndsInJson(name)
    ensures EqualsLower(Suffix(name), ".json") <==> name != ".json"
  {
    LastDotOfJson(name);
    if |name| == 5 {
      assert name == name[0..];
    }
  }

  lemma BareJsonName(c: Copy)
    ensures c.name == ".json" <==> PathOfCopy(c) == EVIDENCE_DIR_NAME + "/" + ".json"
    ensures PathOfCopy(c) != ""
  {
    var bare := EVIDENCE_DIR_NAME + "/" + ".json";
    assert PathOfCopy(c)[|EVIDENCE_DIR_NAME| + 1..] == c.name && bare[|EVIDENCE_DIR_NAME| + 1..] == ".json";
  }

  lemma NameEndsInJson(name: string)
    requires JsonName(name)
    ensures EndsInJson(name)
  {
    hide EndsInJson;
  }

  lemma CopyResolves(root: Location, disk: Disk, c: Copy)
    requires JsonName(c.name) && root + [EVIDENCE_DIR_NAME, c.name] in disk
    ensures ResolveFile(root, disk, PathOfCopy(c), ".json")
         == if Readable(PathOfCopy(c)) then Some(root + [EVIDENCE_DIR_NAME, c.name]) else None
  {
    hide SafeRef, IsControl, EqualsLower, Suffix, JsonName, SafeDest, Parts, Slashes, PathOfCopy;
    PlainPlace(root, c);
    CopyPathSafe(c);
    NameEndsInJson(c.name);
    JsonSuffix(c.name);
    BareJsonName(c);
    var at := root + Parts(Slashes(PathOfCopy(c)));
    assert at[|at| - 1] == c.name;
  }

  lemma CopyPasses(p: Primitives, root: Location, disk: Disk, c: Copy)
    requires JsonName(c.name) && root + [EVIDENCE_DIR_NAME, c.name] in disk
    requires p.DigestOf(disk[root + [EVIDENCE_DIR_NAME, c.name]]) == p.DigestOf(c.content)
    ensures var item := EntryItem(EntryOf(p, c));
            && !Mismatched(p, root, disk, PathOf(p, item), DigestIn(p, item))
            && (ItemHolds(p, root, disk, item) <==> Readable(PathOfCopy(c)))
  {
    hide JsonName, EntryItem, PathOf, DigestIn, ResolveFile, Readable, PathOfCopy;
    CopyResolves(root, disk, c);
    EntryItemReads(p, EntryOf(p, c));
    BareJsonName(c);
  }

  /** Every item of a written manifest is some copy's, and every copy has one. */
  lemma ManifestItems(p: Primitives, copies: seq<Copy>)
    ensures forall item :: item in EntryItems(EntriesOf(p, copies)) <==> exists c :: c in copies && item == EntryItem(EntryOf(p, c))
  {
    hide EntryItem, EntryOf;
    var entries := EntriesOf(p, copies);
    var sorted, items := SortBy(PathKey, entries), EntryItems(entries);
    forall item | item in items ensures exists c :: c in copies && item == EntryItem(EntryOf(p, c)) {
      var i :| 0 <= i < |items| && items[i] == item;
      assert sorted[i] in sorted && sorted[i] in entries;
      var k :| 0 <= k < |entries| && entries[k] == sorted[i];
      assert copies[k] in copies;
    }
    forall c | c in copies ensures EntryItem(EntryOf(p, c)) in items {
      var k :| 0 <= k < |copies| && copies[k] == c;
      assert entries[k] in entries && entries[k] in sorted;
      var i :| 0 <= i < |sorted| && sorted[i] == entries[k];
      assert items[i] == EntryItem(EntryOf(p, c));
    }
  }

  /** The items of a written manifest stand in the order of their paths, character by character. */
  lemma ManifestAscends(p: Primitives, requests: seq<EvidenceRequest>, i: nat, j: nat)
    requires i < j < |EntryItems(EntriesOf(p, Copies(requests)))|
    ensures var items := EntryItems(EntriesOf(p, Copies(requests)));
            Precedes(PathOf(p, items[i]), PathOf(p, items[j]))
  {
    hide Precedes, Copies, EntryItem, PathOf, DigestIn, Ascending;
    NamesDiffer(requests);
    var copies, entries := Copies(requests), EntriesOf(p, Copies(requests));
    forall a, b | 0 <= a < b < |entries| ensures PathKey(entries[a]) != PathKey(entries[b]) {
      assert PathOfCopy(copies[a])[|EVIDENCE_DIR_NAME| + 1..] == copies[a].name;
      assert PathOfCopy(copies[b])[|EVIDENCE_DIR_NAME| + 1..] == copies[b].name;
    }
    SortByAscending(PathKey, entries);
    var sorted := SortBy(PathKey, entries);
    AscendingMeaning(PathKey, sorted, i, j);
    EntryItemReads(p, sorted[i]);
    EntryItemReads(p, sorted[j]);
  }

  /** What the checking loop finds for one copy: no mismatch, and nothing at all when its path reads back. */
  ghost predicate Passes(p: Primitives, root: Location, disk: Disk, c: Copy) {
    var item := EntryItem(EntryOf(p, c));
    && !Mismatched(p, root, disk, PathOf(p, item), DigestIn(p, item))
    && (ItemHolds(p, root, disk, item) <==> Readable(PathOfCopy(c)))
  }

  lemma HeldCopyPasses(p: Primitives, root: Location, disk: Disk, copies: seq<Copy>, c: Copy)
    requires Placed(root, copies) && DigestsHold(p, root, copies, disk) && c in copies && JsonName(c.name)
    ensures Passes(p, root, disk, c)
  {
    hide Place, JsonName, EntryItem, EntryOf, PathOf, DigestIn, Mismatched, ItemHolds, Readable;
    var i :| 0 <= i < |copies| && copies[i] == c;
    PlainPlace(root, c);
    CopyPasses(p, root, disk, c);
  }

  lemma ItemsPass(p: Primitives, root: Location, disk: Disk, copies: seq<Copy>)
    requires forall c :: c in copies ==> Passes(p, root, disk, c)
    ensures var items := EntryItems(EntriesOf(p, copies));
            && (forall i :: 0 <= i < |items| ==> !Mismatched(p, root, disk, PathOf(p, items[i]), DigestIn(p, items[i])))
            && (AllHold(p, root, disk, items) <==> forall c :: c in copies ==> Readable(PathOfCopy(c)))
  {
    hide EntryItem, EntryOf, EntriesOf, EntryItems, PathOfCopy, PathOf, DigestIn, Mismatched, ItemHolds, Readable, Passes;
    ManifestItems(p, copies);
    var items := EntryItems(EntriesOf(p, copies));
    forall i | 0 <= i < |items|
      ensures !Mismatched(p, root, disk, PathOf(p, items[i]), DigestIn(p, items[i]))
    {
      assert items[i] in items;
      var c :| c in copies && items[i] == EntryItem(EntryOf(p, c));
      PassesParts(p, root, disk, c);
    }
    if forall c :: c in copies ==> Readable(PathOfCopy(c)) {
      forall i | 0 <= i < |items| ensures ItemHolds(p, root, disk, items[i]) {
        assert items[i] in items;
        var c :| c in copies && items[i] == EntryItem(EntryOf(p, c));
        PassesParts(p, root, disk, c);
      }
    }
    if AllHold(p, root, disk, items) {
      forall c | c in copies ensures Readable(PathOfCopy(c)) {
        assert EntryItem(EntryOf(p, c)) in items;
        var i :| 0 <= i < |items| && items[i] == EntryItem(EntryOf(p, c));
        PassesParts(p, root, disk, c);
      }
    }
  }

  lemma PassesParts(p: Primitives, root: Location, disk: Disk, c: Copy)
    requires Passes(p, root, disk, c)
    ensures !Mismatched(p, root, disk, PathOf(p, EntryItem(EntryOf(p, c))), DigestIn(p, EntryItem(EntryOf(p, c))))
    ensures ItemHolds(p, root, disk, EntryItem(EntryOf(p, c))) <==> Readable(PathOfCopy(c))
  {
    hide EntryItem, EntryOf, PathOf, DigestIn, Mismatched, ItemHolds, Readable;
  }

  /** Right after a run without backslashes the checking loop, over the whole manifest, finds no mismatch,
      and it finds nothing at all exactly when every written path can be read back. */
  lemma FreshManifestPasses(p: Primitives, root: Location, disk: Disk, requests: seq<EvidenceRequest>, policy: (string, string), render: Dict -> seq<byte>)
    requires PlainRequests(requests)
    ensures Placed(root, Copies(requests))
    ensures var items := EntryItems(EntriesOf(p, Copies(requests)));
            var final := FinalDisk(p, root, disk, requests, policy, render);
            && (forall i :: 0 <= i < |items| ==> !Mismatched(p, root, final, PathOf(p, items[i]), DigestIn(p, items[i])))
            && (AllHold(p, root, final, items) <==> forall c :: c in Copies(requests) ==> Readable(PathOfCopy(c)))
  {
    hide *;
    PlainCopiesHold(p, root, disk, requests, policy, render);
    PlainCopies(requests);
    var copies, final := Copies(requests), FinalDisk(p, root, disk, requests, policy, render);
    forall c | c in copies ensures Passes(p, root, final, c) {
      HeldCopyPasses(p, root, final, copies, c);
    }
    ItemsPass(p, root, final, copies);
  }

  /** The digest a manifest declares is the one recomputed from it. */
  lemma ManifestDigestHolds(p: Primitives, entries: seq<EvidenceEntry>, policy: (string, string))
    ensures var m := EvidenceManifest(p, entries, policy); Get(m, MANIFEST_DIGEST_FIELD) == Some(Str(EvidenceManifestDigest(p, m)))
  {
    hide ManifestBody, MANIFEST_DIGEST_FIELD;
    var body := ManifestBody(entries, policy);
    var digest := Str(EvidenceManifestDigest(p, body));
    GetPut(body, MANIFEST_DIGEST_FIELD, digest, MANIFEST_DIGEST_FIELD);
    WithoutPut(body, {MANIFEST_DIGEST_FIELD}, MANIFEST_DIGEST_FIELD, digest);
  }

  /** A later change of the bytes behind a listed entry is reported, unless the two contents collide. */
  lemma ChangeReported(p: Primitives, root: Location, disk: Disk, later: Disk, item: Json)
    requires ItemHolds(p, root, disk, item) && PathOf(p, item) != "" && StartsWith(DigestIn(p, item), "sha256:")
    requires var at := ResolveFile(root, disk, PathOf(p, item), ".json").value; at in later ==> later[at] != disk[at]
    ensures var at := ResolveFile(root, disk, PathOf(p, item), ".json").value;
            || !ItemHolds(p, root, later, item)
            || (at in later && Collision(p, disk[at], later[at]))
  {
    hide SafeRef, PathOf, DigestIn, Suffix, EqualsLower;
    var at := ResolveFile(root, disk, PathOf(p, item), ".json").value;
    if at in later && ItemHolds(p, root, later, item) {
      assert p.DigestOf(disk[at]) == DigestIn(p, item) == p.DigestOf(later[at]);
      DigestEqualOrCollision(p, disk[at], later[at]);
    }
  }
}
