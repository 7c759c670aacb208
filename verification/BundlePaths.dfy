/** Paths inside a bundle: where a bundle-relative reference is written, and which references resolve (python/pcs_core/pf_core_bundle.py:155-163, safe_paths.py:86-173). */
module BundlePaths {
  import opened Wrappers
  import opened Text
  import opened Paths

  /** A location as its components from the file-system root. */
  type Location = seq<string>

  /** The contents of every regular file. */
  type Disk = map<Location, seq<byte>>

  // ---------------------------------------------------------------- writing

  /** `resolve()`: ".." goes up, and stays at the file-system root. */
  function Climb(at: Location, parts: seq<string>): Location
    decreases |parts|
  {
    if parts == [] then at
    else if parts[0] == ".." then Climb(if at == [] then [] else at[..|at| - 1], parts[1..])
    else Climb(at + [parts[0]], parts[1..])
  }

  /** `_safe_bundle_dest`: where a reference is written, when that is inside the bundle. */
  function SafeDest(root: Location, rel: string): Option<Location> {
    var dest := Climb(root, Parts(Slashes(rel)));
    if root <= dest then Some(dest) else None
  }

  // ---------------------------------------------------------------- reading

  const MAX_REF_LENGTH := 4096

  predicate IsControl(c: char) {
    c < ' ' || c == '\U{7f}'
  }

  predicate WindowsDrive(ref: string) {
    (|ref| >= 2 && ref[1] == ':') || StartsWith(ref, "\\\\") || StartsWith(ref, "//")
  }

  /** A character equal to another, or its ASCII capital. */
  predicate Same(c: char, lower: char) {
    c == lower || ('A' <= c <= 'Z' && c as int + 32 == lower as int)
  }

  /** Equal but for the case of ASCII letters. */
  predicate EqualsLower(s: string, lower: string) {
    |s| == |lower| && forall i :: 0 <= i < |s| ==> Same(s[i], lower[i])
  }

  /** A reference with no form the resolver rejects. */
  predicate SafeRef(ref: string) {
    && ref != "" && |ref| <= MAX_REF_LENGTH
    && (forall i :: 0 <= i < |ref| ==> !IsControl(ref[i]))
    && !WindowsDrive(ref) && !StartsWith(Slashes(ref), "/")
    && ".." !in Parts(Slashes(ref))
  }

  /** `resolve_contained_file` in a directory without symbolic links: the file a reference names. */
  function ResolveFile(root: Location, disk: Disk, ref: string, suffix: string): (r: Option<Location>)
    ensures r.Some? ==> r.value in disk
  {
    if !SafeRef(ref) then None
    else
      var at := root + Parts(Slashes(ref));
      if at !in disk || at == [] || !EqualsLower(Suffix(at[|at| - 1]), suffix) then None else Some(at)
  }

  lemma DotDotKept(path: string)
    ensures ".." in Parts(path) <==> ".." in Split(path, '/')
  {
    assert |".."| == 2 && |"."| == 1;
    MeaningfulMembers(Split(path, '/'), "..");
  }

  lemma SlashedHead(path: string)
    ensures path != "" ==> (StartsWith(Slashes(path), "/") <==> path[0] == '/' || path[0] == '\\')
  {
    if path != "" {
      assert Slashes(path)[0] == if path[0] == '\\' then '/' else path[0];
    }
  }

  lemma SafeMeaning(ref: string)
    ensures SafeRef(ref) <==>
              && 0 < |ref| <= 4096 && (forall i :: 0 <= i < |ref| ==> ref[i] as int >= 32 && ref[i] as int != 127)
              && ref[0] != '/' && ref[0] != '\\' && (|ref| > 1 ==> ref[1] != ':')
              && ".." !in Split(Slashes(ref), '/')
  {
    SlashedHead(ref);
    DotDotKept(Slashes(ref));
    hide Parts, Slashes, Split;
  }

  /** When a reference resolves, and to what: it is not empty nor too long, holds no control character,
      starts with no slash of either kind and no drive, climbs nowhere, and names a file with the suffix. */
  lemma ResolveMeaning(root: Location, disk: Disk, ref: string, suffix: string, at: Location)
    ensures ResolveFile(root, disk, ref, suffix) == Some(at) <==>
              && 0 < |ref| <= 4096 && (forall i :: 0 <= i < |ref| ==> ref[i] as int >= 32 && ref[i] as int != 127)
              && ref[0] != '/' && ref[0] != '\\' && (|ref| > 1 ==> ref[1] != ':')
              && ".." !in Split(Slashes(ref), '/')
              && at == root + Parts(Slashes(ref)) && at in disk && at != [] && EqualsLower(Suffix(at[|at| - 1]), suffix)
  {
    SafeMeaning(ref);
    hide SafeRef, Suffix, EqualsLower, Parts, Slashes, Split;
  }

  /** The two suffixes the bundle asks for, in letters of either case. */
  lemma SuffixLetters(s: string)
    ensures EqualsLower(s, ".json") <==> |s| == 5 && s[0] == '.' && s[1] in "jJ" && s[2] in "sS" && s[3] in "oO" && s[4] in "nN"
    ensures EqualsLower(s, ".lean") <==> |s| == 5 && s[0] == '.' && s[1] in "lL" && s[2] in "eE" && s[3] in "aA" && s[4] in "nN"
  {
    var json, lean := ".json", ".lean";
    assert |json| == 5 && json[0] == '.' && json[1] == 'j' && json[2] == 's' && json[3] == 'o' && json[4] == 'n';
    assert |lean| == 5 && lean[0] == '.' && lean[1] == 'l' && lean[2] == 'e' && lean[3] == 'a' && lean[4] == 'n';
    if |s| == 5 {
      assert EqualsLower(s, json) <==> Same(s[0], '.') && Same(s[1], 'j') && Same(s[2], 's') && Same(s[3], 'o') && Same(s[4], 'n');
      assert EqualsLower(s, lean) <==> Same(s[0], '.') && Same(s[1], 'l') && Same(s[2], 'e') && Same(s[3], 'a') && Same(s[4], 'n');
    }
  }

  lemma {:induction false} ClimbPlain(at: Location, parts: seq<string>)
    requires ".." !in parts
    ensures Climb(at, parts) == at + parts
    decreases |parts|
  {
    if parts != [] {
      ClimbPlain(at + [parts[0]], parts[1..]);
      assert at + parts == at + [parts[0]] + parts[1..];
    } else {
      assert at + parts == at;
    }
  }

  /** A safe reference is written where it is later read. */
  lemma WrittenWhereRead(root: Location, rel: string)
    requires ".." !in Parts(Slashes(rel))
    ensures SafeDest(root, rel) == Some(root + Parts(Slashes(rel)))
  {
    ClimbPlain(root, Parts(Slashes(rel)));
  }

  /** Two components without separators. */
  lemma TwoParts(dir: string, name: string)
    requires '/' !in dir && '/' !in name && '\\' !in dir && '\\' !in name
    requires dir !in {"", ".", ".."} && name !in {"", ".", ".."}
    ensures Parts(Slashes(dir + "/" + name)) == [dir, name]
  {
    var rel := dir + "/" + name;
    assert '\\' !in rel;
    SlashesPlain(rel);
    assert rel == dir + ['/'] + name;
    SplitAtSeparator(dir, '/', name);
    SplitNoSeparator(name, '/');
    assert [dir] + [name] == [dir, name] && [dir, name][1..] == [name] && [name][1..] == [];
    assert Meaningful([name]) == [name] + Meaningful([]) == [name];
  }
}
