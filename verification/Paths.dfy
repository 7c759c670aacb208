/** The pieces of a `pathlib` path: components, name, stem and suffix. */
module Paths {
  import opened Text

  function Meaningful(parts: seq<string>): (r: seq<string>)
    ensures forall part :: part in r ==> part in parts && part != "" && part != "."
  {
    if parts == [] then []
    else if parts[0] == "" || parts[0] == "." then Meaningful(parts[1..])
    else [parts[0]] + Meaningful(parts[1..])
  }

  /** `Path(s).parts` of a relative path. */
  function Parts(s: string): seq<string> {
    Meaningful(Split(s, '/'))
  }

  /** `Path(s).name`. */
  function PathName(s: string): string {
    var parts := Parts(s);
    if parts == [] then "" else parts[|parts| - 1]
  }

  /** The position of the last '.', or -1. */
  function LastDot(name: string): (i: int)
    ensures -1 <= i < |name|
    ensures i >= 0 ==> name[i] == '.'
    ensures forall k :: i < k < |name| ==> name[k] != '.'
  {
    if name == "" then -1 else if name[|name| - 1] == '.' then |name| - 1 else LastDot(name[..|name| - 1])
  }

  /** `Path(name).suffix`: nothing for a leading or a trailing dot. */
  function Suffix(name: string): string {
    var i := LastDot(name);
    if 0 < i < |name| - 1 then name[i..] else ""
  }

  /** `Path(name).stem`. */
  function Stem(name: string): string {
    var i := LastDot(name);
    if 0 < i < |name| - 1 then name[..i] else name
  }

  /** Stem and suffix make the name; a suffix is a dot with a text free of dots behind it, and has something
      before it. */
  lemma StemSuffix(name: string)
    ensures Stem(name) + Suffix(name) == name
    ensures Suffix(name) != "" ==> Stem(name) != "" && |Suffix(name)| > 1 && Suffix(name)[0] == '.' && '.' !in Suffix(name)[1..]
  {
  }

  /** Whatever stands between something and a text free of dots is where a name divides. */
  lemma SuffixOf(stem: string, ending: string)
    requires stem != "" && ending != "" && '.' !in ending
    ensures Stem(stem + "." + ending) == stem && Suffix(stem + "." + ending) == "." + ending
  {
    var name := stem + "." + ending;
    assert name[|stem|] == '.';
    assert forall k :: 0 <= k < |ending| ==> name[|stem| + 1 + k] == ending[k];
    assert forall k :: |stem| < k < |name| ==> name[k] == ending[k - |stem| - 1];
  }

  /** The meaningful components are those that are neither empty nor ".". */
  lemma {:induction false} MeaningfulMembers(parts: seq<string>, part: string)
    ensures part in Meaningful(parts) <==> part in parts && part != "" && part != "."
  {
    if parts != [] {
      MeaningfulMembers(parts[1..], part);
      assert parts == [parts[0]] + parts[1..];
    }
  }

  lemma {:induction false} SplitParts(s: string, sep: char)
    ensures forall part :: part in Split(s, sep) ==> sep !in part && forall c :: c in part ==> c in s
    decreases |s|
  {
    if s != "" {
      SplitParts(s[1..], sep);
    }
  }

  /** A file name has no slash, and only characters of the path it came from. */
  lemma PathNameOneComponent(s: string)
    ensures '/' !in PathName(s) && PathName(s) != "." && forall c :: c in PathName(s) ==> c in s
  {
    SplitParts(s, '/');
  }

  lemma OneMeaningful(part: string)
    requires part != "" && part != "."
    ensures Meaningful([part]) == [part]
  {
    assert [part][1..] == [];
    assert Meaningful([part]) == [part] + Meaningful([]);
  }
}
