/** The PF-Core lean check (python/pcs_core/lean_check.py:136-149, 563-689, 936-1216): the decision flow
    from trace issues to the claim class of the certificate. The Lean toolchain, the generated file and
    the checks of other modules are outcomes the run is given. */
module PfCoreCheck {
  import opened Wrappers
  import opened Text
  import opened Json
  import opened Primitives
  import opened Sorting
  import opened ResourceScope
  import opened Traces
  import opened Deciders

  // ---------------------------------------------------------------- trace semantics

  datatype CheckIssue =
    | SchemaInvalid | HashChainInvalid | SequenceOutOfOrder | PrincipalCapabilityMismatch(index: int) | EventUnsafe(index: int) | TraceUnsafe
    | IssuanceDenied | PolicyViolation | EvidenceResolutionFailed | ContractViolation | CodegenFailed | EvidenceMissing
    | LeanBuildFailed | LeanProofFailed | TraceSafeRMissing | CertificateInvalid

  /** What the rest of the schema reports, and whether a principal lists every capability its roles give. */
  datatype TraceChecks = TraceChecks(otherSchemaErrors: nat, explicit: Dict -> bool)

  function SchemaErrors(checks: TraceChecks, trace: Dict): nat {
    checks.otherSchemaErrors + (if Shaped(trace) then 0 else 1)
  }

  predicate EventClean(p: Primitives, catalog: Catalog, checks: TraceChecks, event: Dict) {
    && (ObjectAt(event, "principal").Some? ==> checks.explicit(ObjectAt(event, "principal").value))
    && EventSafe(p, catalog, event)
  }

  predicate TraceClean(p: Primitives, catalog: Catalog, checks: TraceChecks, trace: Dict) {
    && SchemaErrors(checks, trace) == 0 && ChainHolds(p, trace) && InOrder(TraceEvents(trace))
    && forall i :: 0 <= i < |TraceEvents(trace)| ==> EventClean(p, catalog, checks, TraceEvents(trace)[i])
  }

  function Repeat(issue: CheckIssue, n: nat): (r: seq<CheckIssue>)
    ensures |r| == n
  {
    seq(n, _ => issue)
  }

  /** `check_pfcore_trace_lean_semantics`. */
  method TraceIssues(p: Primitives, catalog: Catalog, checks: TraceChecks, trace: Dict) returns (issues: seq<CheckIssue>)
    ensures issues == [] <==> TraceClean(p, catalog, checks, trace)
  {
    hide EventSafe, ObjectAt, ChainHolds, InOrder, Shaped, TraceEvents;
    if SchemaErrors(checks, trace) > 0 {
      return Repeat(SchemaInvalid, SchemaErrors(checks, trace));
    }
    var events := TraceEvents(trace);
    var chain := ChainErrors(p, trace);
    var order := OrderErrors(events);
    issues := Repeat(HashChainInvalid, |chain|) + Repeat(SequenceOutOfOrder, |order|);
    ghost var header := issues == [];
    for index := 0 to |events|
      invariant issues == [] <==> header && forall j :: 0 <= j < index ==> EventClean(p, catalog, checks, events[j])
    {
      var principal := ObjectAt(events[index], "principal");
      if principal.Some? && !checks.explicit(principal.value) {
        issues := issues + [PrincipalCapabilityMismatch(index)];
      }
      if !EventSafe(p, catalog, events[index]) {
        issues := issues + [EventUnsafe(index)];
      }
    }
    if events != [] && !TraceSafe(p, catalog, events) {
      issues := issues + [TraceUnsafe];
    }
  }

  // ---------------------------------------------------------------- obligations and certificate

  /** One row of the obligation list. */
  datatype Obligation = Obligation(theorem: string, passed: bool, proofRef: Option<string>)

  function DeciderTheorem(kind: DeciderKind): string {
    match kind
    case TraceSafeD => "traceSafeD_sound"
    case TraceSafeRD => "traceSafeRD_sound"
    case TenantIsolationD => "tenantIsolationD_sound"
    case CrossTenantD => "traceCrossTenantSafeD_sound"
    case NonInterferenceD => "nonInterferenceD_sound"
    case EventSafeD => "eventSafeD_sound"
    case ActionResourcesD => "actionResourcesWithinCapabilityPatternD_sound"
  }

  /** The soundness theorem of each decider. */
  lemma DeciderTheorems()
    ensures DeciderTheorem(TraceSafeD) == "traceSafeD_sound" && DeciderTheorem(TraceSafeRD) == "traceSafeRD_sound"
    ensures DeciderTheorem(TenantIsolationD) == "tenantIsolationD_sound" && DeciderTheorem(CrossTenantD) == "traceCrossTenantSafeD_sound"
    ensures DeciderTheorem(NonInterferenceD) == "nonInterferenceD_sound" && DeciderTheorem(EventSafeD) == "eventSafeD_sound"
    ensures DeciderTheorem(ActionResourcesD) == "actionResourcesWithinCapabilityPatternD_sound"
  {
  }

  /** A row keeps its verdict, and its reference when it has one. */
  lemma RowKept(kind: DeciderKind, passed: bool, proofRef: string)
    ensures FromRow(DeciderRow(kind, passed, "")) == Obligation(DeciderTheorem(kind), passed, None)
    ensures proofRef != "" ==> FromRow(DeciderRow(kind, passed, proofRef)) == Obligation(DeciderTheorem(kind), passed, Some(proofRef))
  {
    hide DeciderTheorem;
  }

  function FromRow(row: DeciderRow): Obligation {
    Obligation(DeciderTheorem(row.kind), row.passed, if row.proofRef == "" then None else Some(row.proofRef))
  }

  const BASE_THEOREMS: seq<string> := ["concrete_trace_safe", "concrete_trace_safe_prop", "concrete_allowed_events_allowed"]
  const TRACE_SAFE_R_THEOREMS: set<string> := {"concrete_trace_safe_r", "concrete_trace_safe_r_prop"}

  function PassedTheorems(obligations: seq<Obligation>): set<string> {
    set o | o in obligations && o.passed :: o.theorem
  }

  /** The theorems of the rows that are not passed. */
  function OpenTheorems(obligations: seq<Obligation>): set<string> {
    set o | o in obligations && !o.passed :: o.theorem
  }

  datatype Certificate = Certificate(
    claimClass: string, leanProofChecked: bool, generated: seq<string>, compiled: seq<string>, obligations: seq<Obligation>,
    proofRef: Option<string>)

  /** The claim-class and theorem-status part of `build_pfcore_certificate`. `compiled` is nothing when the
      run compiled no theorem. */
  method BuildCertificate(leanProofOk: bool, skipBuild: bool, skipLeanProof: bool, obligations: seq<Obligation>, proofTermRef: Option<string>,
                          inventory: set<string>, compiled: Option<set<string>>)
    returns (c: Certificate)
    ensures c.leanProofChecked <==> leanProofOk && !skipBuild && !skipLeanProof
    ensures c.claimClass == if c.leanProofChecked then "LeanKernelChecked" else "RuntimeChecked"
    ensures Ascending(Self, c.generated) && AsSet(c.generated) == inventory
    ensures Ascending(Self, c.compiled)
    ensures AsSet(c.compiled) == if !c.leanProofChecked then {} else if compiled.Some? then compiled.value else inventory
    ensures c.proofRef == if c.leanProofChecked then proofTermRef else None
    ensures c.obligations == obligations
  {
    hide Less;
    var leanProofChecked := leanProofOk && !skipBuild && !skipLeanProof;
    var claimClass, proofRef := "RuntimeChecked", None;
    if leanProofChecked {
      claimClass, proofRef := "LeanKernelChecked", proofTermRef;
    }
    var inventoryList := SortSet(inventory);
    var compiledList := inventoryList;
    if compiled.Some? {
      compiledList := SortSet(compiled.value);
    } else if !leanProofChecked {
      compiledList := [];
    }
    c := Certificate(claimClass, leanProofChecked, inventoryList, if leanProofChecked then compiledList else [], obligations, proofRef);
  }

  // ---------------------------------------------------------------- a run

  /** The generated Lean module: the theorems it declares, the ones its certificate mode requires, and the
      ones its text is later found to declare. */
  datatype Generated = Generated(theorems: set<string>, required: set<string>, inSource: set<string>, proofRef: string)

  datatype Options = Options(skipBuild: bool, skipLeanProof: bool, releaseGrade: bool)

  /** What other modules and the toolchain answer during a run. */
  datatype World = World(
    checks: TraceChecks, issuanceDenied: bool, policyViolated: bool, evidenceResolved: bool, contractErrors: nat, sorryErrors: nat,
    libraryBuilds: bool, generated: Option<Generated>, proofCompiles: bool, toolUseTrace: bool, certificateValid: bool)

  datatype LeanCheckResult = LeanCheckResult(
    status: string, claimClass: string, issues: seq<CheckIssue>, obligations: seq<Obligation>, generated: seq<string>, compiled: seq<string>,
    leanProofChecked: bool, certificate: Option<Certificate>)

  /** `build_lean_check_result`. */
  function ResultOf(issues: seq<CheckIssue>, obligations: seq<Obligation>, c: Option<Certificate>): LeanCheckResult {
    match c
    case None => LeanCheckResult("Rejected", "OutOfScope", issues, obligations, [], [], false, None)
    case Some(cert) =>
      LeanCheckResult(if cert.leanProofChecked then "LeanProofChecked" else "DecidersPassed", cert.claimClass, issues, obligations,
                      cert.generated, if cert.leanProofChecked then cert.compiled else [], cert.leanProofChecked, c)
  }

  /** Nothing is wrong before code generation. */
  predicate Clean(p: Primitives, catalog: Catalog, trace: Dict, w: World) {
    && TraceClean(p, catalog, w.checks, trace)
    && !w.issuanceDenied && !w.policyViolated && w.evidenceResolved && w.contractErrors == 0 && w.sorryErrors == 0
  }

  /** The generated module declares every theorem its mode requires. */
  predicate Covered(w: World) {
    w.generated.Some? && w.generated.value.required <= w.generated.value.theorems
  }

  /** The generated module compiles, still declares what is required, and has the resource-scoped theorems
      a release of a tool-use trace needs. */
  predicate Proved(o: Options, w: World) {
    && Covered(w) && w.proofCompiles && w.generated.value.required <= w.generated.value.inSource
    && (o.releaseGrade && w.toolUseTrace ==> {"concrete_trace_safe_r", "concrete_trace_safe_r_prop"} <= w.generated.value.theorems)
  }

  predicate Accepts(p: Primitives, catalog: Catalog, trace: Dict, o: Options, w: World) {
    && Clean(p, catalog, trace, w)
    && (o.skipBuild || w.libraryBuilds)
    && (!o.skipLeanProof ==> if o.skipBuild then Covered(w) else Proved(o, w))
    && w.certificateValid
  }

  method GatherIssues(p: Primitives, catalog: Catalog, trace: Dict, w: World) returns (issues: seq<CheckIssue>)
    ensures issues == [] && w.sorryErrors == 0 <==> Clean(p, catalog, trace, w)
  {
    hide TraceClean;
    issues := TraceIssues(p, catalog, w.checks, trace);
    if w.issuanceDenied {
      issues := issues + [IssuanceDenied];
    }
    if w.policyViolated {
      issues := issues + [PolicyViolation];
    }
    if !w.evidenceResolved {
      issues := issues + [EvidenceResolutionFailed];
    }
    issues := issues + Repeat(ContractViolation, w.contractErrors);
  }

  /** The base theorems enter the table as not passed, and are marked in place once the proof compiled. */
  method AddBase(obligations0: seq<Obligation>, g: Generated, compile: bool, compiles: bool) returns (obligations: seq<Obligation>)
    ensures |obligations| == |obligations0| + 3 && obligations[..|obligations0|] == obligations0
    ensures forall k :: 0 <= k < 3 ==>
              obligations[|obligations0| + k] == Obligation(BASE_THEOREMS[k], compile && compiles && BASE_THEOREMS[k] in g.theorems, Some(g.proofRef))
  {
    obligations := obligations0;
    for k := 0 to 3
      invariant |obligations| == |obligations0| + k && obligations[..|obligations0|] == obligations0
      invariant forall j :: 0 <= j < k ==> obligations[|obligations0| + j] == Obligation(BASE_THEOREMS[j], false, Some(g.proofRef))
    {
      obligations := obligations + [Obligation(BASE_THEOREMS[k], false, Some(g.proofRef))];
    }
    if compile {
      var first := |obligations| - 3;
      for k := 0 to 3
        invariant |obligations| == |obligations0| + 3 && obligations[..|obligations0|] == obligations0
        invariant forall j :: 0 <= j < 3 ==>
                    obligations[first + j] == Obligation(BASE_THEOREMS[j], j < k && compiles && BASE_THEOREMS[j] in g.theorems, Some(g.proofRef))
      {
        if obligations[first + k].theorem in g.theorems {
          obligations := obligations[first + k := obligations[first + k].(passed := compiles)];
        }
      }
    }
  }

  /** The remaining theorems of the inventory, in order, as passed rows. */
  method AddInventory(obligations0: seq<Obligation>, g: Generated) returns (obligations: seq<Obligation>)
    ensures PassedTheorems(obligations) == PassedTheorems(obligations0) + (g.theorems - AsSet(BASE_THEOREMS))
    ensures OpenTheorems(obligations) == OpenTheorems(obligations0)
  {
    obligations := obligations0;
    var names := SortSet(g.theorems);
    for k := 0 to |names|
      invariant PassedTheorems(obligations) == PassedTheorems(obligations0) + (AsSet(names[..k]) - AsSet(BASE_THEOREMS))
      invariant OpenTheorems(obligations) == OpenTheorems(obligations0)
    {
      assert names[..k + 1] == names[..k] + [names[k]];
      assert AsSet(names[..k + 1]) == AsSet(names[..k]) + {names[k]};
      if names[k] in BASE_THEOREMS {
        continue;
      }
      PassedAppend(obligations, Obligation(names[k], true, Some(g.proofRef)));
      obligations := obligations + [Obligation(names[k], true, Some(g.proofRef))];
    }
    assert names[..|names|] == names;
  }

  lemma PassedAppend(obligations: seq<Obligation>, o: Obligation)
    ensures PassedTheorems(obligations + [o]) == PassedTheorems(obligations) + (if o.passed then {o.theorem} else {})
    ensures OpenTheorems(obligations + [o]) == OpenTheorems(obligations) + (if o.passed then {} else {o.theorem})
  {
  }

  lemma PassedBase(obligations0: seq<Obligation>, obligations: seq<Obligation>, g: Generated, passed: bool)
    requires |obligations| == |obligations0| + 3 && obligations[..|obligations0|] == obligations0
    requires forall k :: 0 <= k < 3 ==>
               obligations[|obligations0| + k] == Obligation(BASE_THEOREMS[k], passed && BASE_THEOREMS[k] in g.theorems, Some(g.proofRef))
    ensures PassedTheorems(obligations) == PassedTheorems(obligations0) + (if passed then AsSet(BASE_THEOREMS) * g.theorems else {})
    ensures OpenTheorems(obligations) == OpenTheorems(obligations0) + (AsSet(BASE_THEOREMS) - (if passed then g.theorems else {}))
  {
    var base := obligations[|obligations0|..];
    BaseNames();
    hide PassedTheorems, OpenTheorems, AsSet, BASE_THEOREMS;
    var one := obligations0 + [base[0]];
    var two := one + [base[1]];
    assert obligations == two + [base[2]];
    PassedAppend(obligations0, base[0]);
    PassedAppend(one, base[1]);
    PassedAppend(two, base[2]);
    ThreeNames(PassedTheorems(obligations0), base[0].theorem, base[1].theorem, base[2].theorem, if passed then g.theorems else {});
    ThreeNames(OpenTheorems(obligations0), base[0].theorem, base[1].theorem, base[2].theorem, if passed then g.theorems else {});
  }

  lemma ThreeNames(start: set<string>, a: string, b: string, c: string, names: set<string>)
    ensures start + (if a in names then {a} else {}) + (if b in names then {b} else {}) + (if c in names then {c} else {})
         == start + {a, b, c} * names
    ensures start + (if a in names then {} else {a}) + (if b in names then {} else {b}) + (if c in names then {} else {c})
         == start + ({a, b, c} - names)
  {
  }

  lemma BaseNames()
    ensures |BASE_THEOREMS| == 3 && AsSet(BASE_THEOREMS) == {BASE_THEOREMS[0], BASE_THEOREMS[1], BASE_THEOREMS[2]}
    ensures AsSet(BASE_THEOREMS) == {"concrete_trace_safe", "concrete_trace_safe_prop", "concrete_allowed_events_allowed"}
  {
  }

  function FromRows(rows: seq<DeciderRow>): (r: seq<Obligation>)
    ensures |r| == |rows| && forall i :: 0 <= i < |r| ==> r[i] == FromRow(rows[i])
  {
    seq(|rows|, i requires 0 <= i < |rows| => FromRow(rows[i]))
  }

  lemma DeciderNamesApart(kind: DeciderKind)
    ensures DeciderTheorem(kind) !in TRACE_SAFE_R_THEOREMS
  {
    assert |"concrete_trace_safe_r"| == 21 && |"concrete_trace_safe_r_prop"| == 26;
    assert |"traceSafeD_sound"| == 16 && |"traceSafeRD_sound"| == 17 && |"tenantIsolationD_sound"| == 22;
    assert |"traceCrossTenantSafeD_sound"| == 27 && |"nonInterferenceD_sound"| == 22 && |"eventSafeD_sound"| == 16;
    assert |"actionResourcesWithinCapabilityPatternD_sound"| == 45;
  }

  lemma DecidersPassNoRTheorem(rows: seq<DeciderRow>)
    ensures PassedTheorems(FromRows(rows)) !! TRACE_SAFE_R_THEOREMS
  {
    hide DeciderTheorem;
    forall o | o in FromRows(rows) ensures o.theorem !in TRACE_SAFE_R_THEOREMS {
      var i :| 0 <= i < |rows| && FromRows(rows)[i] == o;
      DeciderNamesApart(rows[i].kind);
    }
  }

  /** What the code generation step leaves behind. */
  datatype Stage = Stage(obligations: seq<Obligation>, failure: Option<CheckIssue>, proofOk: bool, inventory: set<string>,
                         compiled: set<string>, proofRef: Option<string>)

  /** Code generation, compilation and the marking of compiled theorems; a failure ends it early. */
  method GenerateAndProve(obligations0: seq<Obligation>, skipBuild: bool, w: World) returns (s: Stage)
    ensures s.failure.None? <==> Covered(w) && (!skipBuild && w.proofCompiles ==> w.generated.value.required <= w.generated.value.inSource)
    ensures s.failure.None? ==>
              && s.proofOk == (!skipBuild && w.proofCompiles)
              && s.inventory == w.generated.value.theorems && s.proofRef == Some(w.generated.value.proofRef)
              && s.compiled == (if s.proofOk then s.inventory else {})
              && PassedTheorems(s.obligations) == PassedTheorems(obligations0) + (if s.proofOk then s.inventory else {})
              && OpenTheorems(s.obligations) == OpenTheorems(obligations0) + (AsSet(BASE_THEOREMS) - (if s.proofOk then s.inventory else {}))
  {
    hide PassedTheorems, OpenTheorems, AsSet;
    if w.generated.None? {
      return Stage(obligations0, Some(CodegenFailed), false, {}, {}, None);
    }
    var g := w.generated.value;
    if !(g.required <= g.theorems) {
      return Stage(obligations0, Some(EvidenceMissing), false, g.theorems, {}, None);
    }
    var obligations := AddBase(obligations0, g, !skipBuild, w.proofCompiles);
    PassedBase(obligations0, obligations, g, !skipBuild && w.proofCompiles);
    if skipBuild || !w.proofCompiles {
      return Stage(obligations, None, false, g.theorems, {}, Some(g.proofRef));
    }
    if !(g.required <= g.inSource) {
      return Stage(obligations, Some(EvidenceMissing), true, g.theorems, {}, Some(g.proofRef));
    }
    obligations := AddInventory(obligations, g);
    assert PassedTheorems(obligations) == PassedTheorems(obligations0) + g.theorems;
    return Stage(obligations, None, true, g.theorems, PassedTheorems(obligations) * g.theorems, Some(g.proofRef));
  }

  /** The table of decider rows has no open row exactly when every row passes. */
  lemma NoOpenRow(rows: seq<DeciderRow>)
    ensures OpenTheorems(FromRows(rows)) == {} <==> AllPass(rows)
  {
    hide DeciderTheorem;
    if AllPass(rows) {
      forall o | o in FromRows(rows) ensures o.passed {
        var i :| 0 <= i < |rows| && FromRows(rows)[i] == o;
      }
    } else {
      var i :| 0 <= i < |rows| && !rows[i].passed;
      assert FromRows(rows)[i] in FromRows(rows);
      assert FromRows(rows)[i].theorem in OpenTheorems(FromRows(rows));
    }
  }

  // ---------------------------------------------------------------- what a clean trace is

  lemma CleanEventInPattern(p: Primitives, catalog: Catalog, event: Dict)
    requires EventSafe(p, catalog, event) && Formed(event) && InScope(p, ObjectAt(event, "action").value)
    ensures EventSafeInPattern(p, catalog, event)
  {
    hide ActionAdmissible, InScope;
  }

  /** A trace without trace issues is safe inside its resource patterns, and every event is formed. */
  lemma CleanTraceInPattern(p: Primitives, catalog: Catalog, trace: Dict, w: World)
    requires Clean(p, catalog, trace, w)
    ensures TraceSafeInPattern(p, catalog, TraceEvents(trace)) && forall i :: 0 <= i < |TraceEvents(trace)| ==> Formed(TraceEvents(trace)[i])
  {
    hide ChainHolds, EventSafe, EventSafeInPattern, InScope, InOrder, DigestText, ObjectAt, EventItems, Linked, TraceHashHolds;
    ShapedChain(p, trace);
    var items, events := EventItems(trace), TraceEvents(trace);
    AllObjects(items);
    forall i | 0 <= i < |events| ensures EventSafeInPattern(p, catalog, events[i]) && Formed(events[i]) {
      assert EventShaped(items[i]) && !Outside(p, items[i]) && EventClean(p, catalog, w.checks, events[i]);
      CleanEventInPattern(p, catalog, events[i]);
    }
  }

  lemma CleanTraceAdmitted(p: Primitives, catalog: Catalog, trace: Dict, w: World)
    requires Clean(p, catalog, trace, w)
    ensures var events := TraceEvents(trace);
            AllAdmittedInPattern(p, catalog, events) && AllHaveObjects(events) && AllTenantSafe(p, events)
  {
    hide *;
    CleanTraceInPattern(p, catalog, trace, w);
    TraceVerdicts(p, catalog, TraceEvents(trace));
    TableDecidesSafety(p, catalog, TraceEvents(trace));
  }

  /** `run_pfcore_lean_check`: the run exits 0 exactly when it accepts; then a run that skipped nothing
      claims `LeanKernelChecked` with exactly the generated theorems compiled, every theorem its mode
      requires among them, and a run that skipped the build or the proof claims `RuntimeChecked` with no
      compiled theorem. A run that does not exit 0 has no certificate and claims nothing. */
  method RunLeanCheck(p: Primitives, catalog: Catalog, trace: Dict, o: Options, w: World)
    returns (code: int, result: LeanCheckResult)
    ensures code == 0 <==> Accepts(p, catalog, trace, o, w)
    ensures code == 0 <==> result.certificate.Some?
    ensures result.leanProofChecked <==> code == 0 && !o.skipBuild && !o.skipLeanProof
    ensures code == 0 && !o.skipBuild && !o.skipLeanProof ==>
              && result.claimClass == "LeanKernelChecked" && result.status == "LeanProofChecked"
              && result.compiled == result.generated && AsSet(result.compiled) == w.generated.value.theorems
              && w.generated.value.required <= AsSet(result.compiled)
              && result.certificate.value.proofRef == Some(w.generated.value.proofRef)
    ensures code == 0 && (o.skipBuild || o.skipLeanProof) ==>
              && result.claimClass == "RuntimeChecked" && result.status == "DecidersPassed"
              && result.compiled == [] && result.certificate.value.proofRef == None
    ensures code != 0 ==> result.claimClass == "OutOfScope" && result.status == "Rejected" && result.compiled == []
    ensures code == 0 ==>
              var base := {"concrete_trace_safe", "concrete_trace_safe_prop", "concrete_allowed_events_allowed"};
              OpenTheorems(result.obligations) == if o.skipLeanProof then {} else if o.skipBuild then base else base - w.generated.value.theorems
  {
    hide Clean, PassedTheorems, OpenTheorems, Less, TraceClean, AsSet, BASE_THEOREMS, AllAdmitted, AllAdmittedInPattern, AllIsolated, AllTenantSafe,
         AllHaveObjects, Admitted, HasObjects, ResourceRow;
    BaseNames();
    assert TRACE_SAFE_R_THEOREMS == {"concrete_trace_safe_r", "concrete_trace_safe_r_prop"};
    var rows := BuildDeciderObligations(p, catalog, TraceEvents(trace));
    var obligations := FromRows(rows);
    DecidersPassNoRTheorem(rows);
    NoOpenRow(rows);
    if Clean(p, catalog, trace, w) {
      CleanTraceAdmitted(p, catalog, trace, w);
    }
    var issues := GatherIssues(p, catalog, trace, w);
    var proofOk, inventory, compiled, proofRef := false, {}, {}, None;
    if issues == [] && w.sorryErrors == 0 && !o.skipLeanProof {
      var stage := GenerateAndProve(obligations, o.skipBuild, w);
      obligations := stage.obligations;
      proofOk, inventory, compiled, proofRef := stage.proofOk, stage.inventory, stage.compiled, stage.proofRef;
      if stage.failure.Some? {
        issues := issues + [stage.failure.value];
      }
    }
    if issues != [] || w.sorryErrors > 0 {
      return 1, ResultOf(issues, obligations, None);
    }
    if !o.skipBuild && !w.libraryBuilds {
      return 1, ResultOf(issues + [LeanBuildFailed], obligations, None);
    }
    if !o.skipLeanProof && !o.skipBuild && !proofOk {
      return 1, ResultOf(issues + [LeanProofFailed], obligations, None);
    }
    if proofOk && o.releaseGrade && w.toolUseTrace && !o.skipLeanProof && !o.skipBuild {
      if !(TRACE_SAFE_R_THEOREMS <= PassedTheorems(obligations)) {
        return 1, ResultOf(issues + [TraceSafeRMissing], obligations, None);
      }
    }
    var c := BuildCertificate(proofOk, o.skipBuild, o.skipLeanProof, obligations, proofRef, inventory,
                              if compiled == {} then None else Some(compiled));
    if !w.certificateValid {
      return 1, ResultOf(issues + [CertificateInvalid], obligations, None);
    }
    if c.leanProofChecked {
      SetUnique(c.compiled, c.generated);
    }
    return 0, ResultOf([], obligations, Some(c));
  }

  // ---------------------------------------------------------------- what exit 0 says of the trace

  /** Every accepted trace, with or without the skip flags, is linked by its hashes from the first event on,
      numbered without gaps, safe with every resource inside its capability's pattern, isolated and safe
      across tenants; so each row of the decider table passes. */
  lemma AcceptedTraceSafe(p: Primitives, catalog: Catalog, trace: Dict, o: Options, w: World)
    requires Accepts(p, catalog, trace, o, w)
    ensures Linked(p, EventItems(trace)) && TraceHashHolds(p, trace) && InOrder(TraceEvents(trace))
    ensures AllAdmittedInPattern(p, catalog, TraceEvents(trace)) && AllTenantSafe(p, TraceEvents(trace))
  {
    hide TraceClean, ChainHolds, InOrder, TraceEvents, EventItems, Linked, TraceHashHolds, AllAdmittedInPattern, AllTenantSafe;
    CleanTraceAdmitted(p, catalog, trace, w);
    AcceptedChain(p, catalog, trace, w);
  }

  lemma AcceptedChain(p: Primitives, catalog: Catalog, trace: Dict, w: World)
    requires TraceClean(p, catalog, w.checks, trace)
    ensures Linked(p, EventItems(trace)) && TraceHashHolds(p, trace) && InOrder(TraceEvents(trace))
  {
    hide ChainHolds, InOrder, Linked, TraceHashHolds, EventClean;
    ShapedChain(p, trace);
  }
}
