/** Resource patterns of capabilities (python/pcs_core/pf_core_runtime.py:386-433): the matcher with its
    fuel, what it matches, and the check of an action's resources. */
module ResourceScope {
  import opened Wrappers
  import opened Json
  import opened Primitives

  // ---------------------------------------------------------------- patterns

  /** `_glob_match_chars_fuel`. */
  predicate GlobFuel(fuel: nat, pattern: string, uri: string) {
    if fuel == 0 then false
    else if pattern == "" then uri == ""
    else if pattern[0] == '*' then
      GlobFuel(fuel - 1, pattern[1..], uri) || (uri != "" && GlobFuel(fuel - 1, pattern, uri[1..]))
    else uri != "" && pattern[0] == uri[0] && GlobFuel(fuel - 1, pattern[1..], uri[1..])
  }

  /** `resource_matches_pattern`. */
  predicate Matches(uri: string, pattern: string) {
    pattern == "*" || GlobFuel(|pattern| + |uri| + 1, pattern, uri)
  }

  function Stars(pattern: string): nat {
    if pattern == "" then 0 else (if pattern[0] == '*' then 1 else 0) + Stars(pattern[1..])
  }

  /** The pattern with a text in the place of each star. */
  function Fill(pattern: string, gaps: seq<string>): string
    requires |gaps| == Stars(pattern)
  {
    if pattern == "" then ""
    else if pattern[0] == '*' then gaps[0] + Fill(pattern[1..], gaps[1..])
    else [pattern[0]] + Fill(pattern[1..], gaps)
  }

  lemma {:induction false} GlobFills(fuel: nat, pattern: string, uri: string) returns (gaps: seq<string>)
    requires GlobFuel(fuel, pattern, uri)
    ensures |gaps| == Stars(pattern) && Fill(pattern, gaps) == uri
  {
    if pattern == "" {
      gaps := [];
    } else if pattern[0] != '*' {
      gaps := GlobFills(fuel - 1, pattern[1..], uri[1..]);
    } else if GlobFuel(fuel - 1, pattern[1..], uri) {
      var rest := GlobFills(fuel - 1, pattern[1..], uri);
      gaps := [""] + rest;
    } else {
      var more := GlobFills(fuel - 1, pattern, uri[1..]);
      gaps := [[uri[0]] + more[0]] + more[1..];
      assert gaps[1..] == more[1..];
      assert Fill(pattern, gaps) == [uri[0]] + Fill(pattern, more);
    }
  }

  lemma {:induction false} FilledGlobs(fuel: nat, pattern: string, gaps: seq<string>)
    requires |gaps| == Stars(pattern) && fuel > |pattern| + |Fill(pattern, gaps)|
    ensures GlobFuel(fuel, pattern, Fill(pattern, gaps))
    decreases fuel
  {
    if pattern == "" {
    } else if pattern[0] != '*' {
      assert Fill(pattern, gaps)[1..] == Fill(pattern[1..], gaps);
      FilledGlobs(fuel - 1, pattern[1..], gaps);
    } else if gaps[0] == "" {
      assert Fill(pattern, gaps) == Fill(pattern[1..], gaps[1..]);
      FilledGlobs(fuel - 1, pattern[1..], gaps[1..]);
    } else {
      var less := [gaps[0][1..]] + gaps[1..];
      assert less[1..] == gaps[1..];
      assert Fill(pattern, gaps)[1..] == Fill(pattern, less);
      FilledGlobs(fuel - 1, pattern, less);
    }
  }

  /** The fuel always suffices: a resource matches exactly when the pattern becomes it with some text for
      each star. */
  lemma MatchesIff(uri: string, pattern: string)
    ensures Matches(uri, pattern) <==> exists gaps: seq<string> :: |gaps| == Stars(pattern) && Fill(pattern, gaps) == uri
  {
    if pattern == "*" {
      assert pattern[1..] == "" && Stars(pattern) == 1 && [uri][1..] == [];
      assert Fill(pattern, [uri]) == uri + Fill("", []);
      assert Fill(pattern, [uri]) == uri;
    } else if Matches(uri, pattern) {
      var gaps := GlobFills(|pattern| + |uri| + 1, pattern, uri);
    } else if exists gaps: seq<string> :: |gaps| == Stars(pattern) && Fill(pattern, gaps) == uri {
      var gaps: seq<string> :| |gaps| == Stars(pattern) && Fill(pattern, gaps) == uri;
      FilledGlobs(|pattern| + |uri| + 1, pattern, gaps);
    }
  }

  // ---------------------------------------------------------------- the resources of an action

  /** A listed resource with a location outside the pattern is a violation. */
  predicate Within(p: Primitives, pattern: string, item: Json) {
    item.Obj? ==> p.StrField(item.members, "uri") == "" || Matches(p.StrField(item.members, "uri"), pattern)
  }

  /** The resources an action reads or writes, when they are a list. */
  function Resources(action: Dict, key: string): seq<Json> {
    match Get(action, key)
    case Some(Arr(items)) => items
    case _ => []
  }

  predicate AllWithin(p: Primitives, pattern: string, items: seq<Json>) {
    forall i :: 0 <= i < |items| ==> Within(p, pattern, items[i])
  }

  /** The pattern an action's capability states, empty when there is none. */
  function PatternOf(p: Primitives, action: Dict): string {
    match ObjectAt(action, "capability")
    case Some(capability) => p.StrField(capability, "resource_pattern")
    case None => ""
  }

  /** No pattern, or every resource read and written is within it. */
  predicate InScope(p: Primitives, action: Dict) {
    var pattern := PatternOf(p, action);
    pattern == "" || (AllWithin(p, pattern, Resources(action, "reads")) && AllWithin(p, pattern, Resources(action, "writes")))
  }

  /** The capability states a pattern that is empty, or becomes the location of each resource read and
      written with some text for each star. */
  ghost predicate FitsPattern(p: Primitives, action: Dict) {
    match Get(action, "capability")
    case Some(Obj(capability)) =>
      var pattern := p.StrField(capability, "resource_pattern");
      pattern == "" || (ListFits(p, pattern, Get(action, "reads")) && ListFits(p, pattern, Get(action, "writes")))
    case _ => true
  }

  ghost predicate ListFits(p: Primitives, pattern: string, list: Option<Json>) {
    list.Some? && list.value.Arr? ==>
      forall i :: 0 <= i < |list.value.items| && list.value.items[i].Obj? ==>
        var uri := p.StrField(list.value.items[i].members, "uri");
        uri == "" || exists gaps: seq<string> :: |gaps| == Stars(pattern) && Fill(pattern, gaps) == uri
  }

  lemma ListFitsIff(p: Primitives, pattern: string, action: Dict, key: string)
    ensures AllWithin(p, pattern, Resources(action, key)) <==> ListFits(p, pattern, Get(action, key))
  {
    hide Matches, Get;
    var items := Resources(action, key);
    forall i | 0 <= i < |items| && items[i].Obj?
      ensures Within(p, pattern, items[i]) <==>
                var uri := p.StrField(items[i].members, "uri");
                uri == "" || exists gaps: seq<string> :: |gaps| == Stars(pattern) && Fill(pattern, gaps) == uri
    {
      MatchesIff(p.StrField(items[i].members, "uri"), pattern);
    }
    if AllWithin(p, pattern, items) {
      forall i | 0 <= i < |items| ensures Within(p, pattern, items[i]) {
      }
    }
  }

  /** An action is in scope exactly when its resources fit the pattern its capability states. */
  lemma InScopeMeaning(p: Primitives, action: Dict)
    ensures InScope(p, action) <==> FitsPattern(p, action)
  {
    hide AllWithin, ListFits, Resources, Get;
    ListFitsIff(p, PatternOf(p, action), action, "reads");
    ListFitsIff(p, PatternOf(p, action), action, "writes");
  }

  datatype ScopeViolation = ScopeViolation(key: string, index: nat)

  /** The first resource outside the pattern, reads before writes. */
  ghost predicate FirstOutside(p: Primitives, action: Dict, v: ScopeViolation) {
    var pattern, items := PatternOf(p, action), Resources(action, v.key);
    && v.index < |items| && !Within(p, pattern, items[v.index]) && AllWithin(p, pattern, items[..v.index])
    && (v.key == "reads" || (v.key == "writes" && AllWithin(p, pattern, Resources(action, "reads"))))
  }

  /** `validate_resource_scope`, with the violation it raises. */
  method ValidateResourceScope(p: Primitives, action: Dict) returns (r: Option<ScopeViolation>)
    ensures r.None? <==> FitsPattern(p, action)
    ensures r.None? <==> InScope(p, action)
    ensures r.Some? ==> FirstOutside(p, action, r.value)
  {
    InScopeMeaning(p, action);
    hide Within, PatternOf, Resources, FitsPattern;
    var pattern := PatternOf(p, action);
    if pattern == "" {
      return None;
    }
    var keys := ["reads", "writes"];
    for k := 0 to 2
      invariant forall j :: 0 <= j < k ==> AllWithin(p, pattern, Resources(action, keys[j]))
    {
      var items := Resources(action, keys[k]);
      for index := 0 to |items|
        invariant AllWithin(p, pattern, items[..index])
      {
        if !Within(p, pattern, items[index]) {
          assert k == 1 ==> keys[0] == "reads" && AllWithin(p, pattern, Resources(action, keys[0]));
          return Some(ScopeViolation(keys[k], index));
        }
        assert items[..index + 1] == items[..index] + [items[index]];
      }
      assert items[..|items|] == items;
    }
    assert keys[0] == "reads" && keys[1] == "writes";
    return None;
  }
}
