/** Trace deciders and the table of decider obligations (python/pcs_core/lean_check.py:294-514). */
module Deciders {
  import opened Wrappers
  import opened Text
  import opened Json
  import opened Primitives
  import opened ResourceScope

  /** The effect kind of each known capability, and the known effect kinds. */
  datatype Catalog = Catalog(effectOf: map<string, string>, effectKinds: set<string>)

  // ---------------------------------------------------------------- fields

  function Decision(p: Primitives, event: Dict): string {
    p.StrField(event, "decision")
  }

  function Tenant(p: Primitives, holder: Dict): string {
    p.StrField(holder, "tenant")
  }

  predicate Allowed(p: Primitives, event: Dict) {
    Decision(p, event) == "allow"
  }

  /** The tenant of an event's principal, when there is a principal. */
  function PrincipalTenant(p: Primitives, event: Dict): Option<string> {
    match ObjectAt(event, "principal")
    case Some(principal) => Some(Tenant(p, principal))
    case None => None
  }

  // ---------------------------------------------------------------- actions

  function EffectKind(p: Primitives, holder: Dict): string {
    p.StrField(holder, "effect_kind")
  }

  /** The capability is in the catalog under its effect kind, every effect has a known kind, and one of
      them is the capability's. */
  predicate ActionKnown(p: Primitives, catalog: Catalog, action: Dict) {
    match (ObjectAt(action, "capability"), Get(action, "effects"))
    case (Some(capability), Some(Arr(effects))) =>
      var id := p.StrField(capability, "capability_id");
      && id in catalog.effectOf && EffectKind(p, capability) in catalog.effectKinds && catalog.effectOf[id] == EffectKind(p, capability)
      && (forall i :: 0 <= i < |effects| ==> effects[i].Obj? && EffectKind(p, effects[i].members) in catalog.effectKinds)
      && exists i :: 0 <= i < |effects| && effects[i].Obj? && EffectKind(p, effects[i].members) == EffectKind(p, capability)
    case _ => false
  }

  /** `_allowed_capability_ids`. */
  function CapabilityIds(p: Primitives, principal: Dict): set<string> {
    match Get(principal, "capabilities")
    case Some(Arr(items)) => set i | 0 <= i < |items| :: p.StrOf(items[i])
    case Some(Obj(members)) => set i | 0 <= i < |members| :: members[i].key
    case Some(Str(s)) => set i | 0 <= i < |s| :: [s[i]]
    case _ => {}
  }

  predicate ResourcesOf(p: Primitives, tenant: string, action: Dict, key: string) {
    match Get(action, key)
    case Some(Arr(items)) => forall i :: 0 <= i < |items| && items[i].Obj? ==> Tenant(p, items[i].members) == tenant
    case _ => false
  }

  /** `action_within_tenant_d`. */
  predicate ActionWithinTenant(p: Primitives, principal: Dict, action: Dict) {
    ResourcesOf(p, Tenant(p, principal), action, "reads") && ResourcesOf(p, Tenant(p, principal), action, "writes")
  }

  /** `action_admissible_d`. */
  predicate ActionAdmissible(p: Primitives, catalog: Catalog, principal: Dict, action: Dict) {
    match ObjectAt(action, "capability")
    case None => false
    case Some(capability) =>
      && ActionKnown(p, catalog, action)
      && p.StrField(capability, "capability_id") in CapabilityIds(p, principal)
      && ActionWithinTenant(p, principal, action)
  }

  /** `action_admissible_with_resource_pattern_d`; the pattern is the one the action itself states. */
  predicate ActionAdmissibleInPattern(p: Primitives, catalog: Catalog, principal: Dict, action: Dict) {
    ActionAdmissible(p, catalog, principal, action) && InScope(p, action)
  }

  // ---------------------------------------------------------------- events and traces

  /** `event_safe_d`. */
  predicate EventSafe(p: Primitives, catalog: Catalog, event: Dict) {
    || Decision(p, event) == "deny"
    || (Allowed(p, event)
        && ObjectAt(event, "principal").Some? && ObjectAt(event, "action").Some?
        && ActionAdmissible(p, catalog, ObjectAt(event, "principal").value, ObjectAt(event, "action").value))
  }

  /** `event_safe_rd`. */
  predicate EventSafeInPattern(p: Primitives, catalog: Catalog, event: Dict) {
    || Decision(p, event) == "deny"
    || (Allowed(p, event)
        && ObjectAt(event, "principal").Some? && ObjectAt(event, "action").Some?
        && ActionAdmissibleInPattern(p, catalog, ObjectAt(event, "principal").value, ObjectAt(event, "action").value))
  }

  predicate TraceSafe(p: Primitives, catalog: Catalog, events: seq<Dict>) {
    forall i :: 0 <= i < |events| ==> EventSafe(p, catalog, events[i])
  }

  predicate TraceSafeInPattern(p: Primitives, catalog: Catalog, events: seq<Dict>) {
    forall i :: 0 <= i < |events| ==> EventSafeInPattern(p, catalog, events[i])
  }

  predicate EventIsolated(p: Primitives, event: Dict) {
    Allowed(p, event) ==>
      && ObjectAt(event, "principal").Some? && ObjectAt(event, "action").Some?
      && ActionWithinTenant(p, ObjectAt(event, "principal").value, ObjectAt(event, "action").value)
  }

  /** An event with an object principal and an object action. */
  predicate Formed(event: Dict) {
    ObjectAt(event, "principal").Some? && ObjectAt(event, "action").Some?
  }

  predicate EventCrossTenantSafe(p: Primitives, event: Dict) {
    && Formed(event)
    && (Decision(p, event) != "deny" ==>
          ActionWithinTenant(p, ObjectAt(event, "principal").value, ObjectAt(event, "action").value))
  }

  // ---------------------------------------------------------------- what the deciders decide

  /** Every object resource of a list belongs to the tenant. */
  ghost predicate ListOfTenant(p: Primitives, tenant: string, list: Option<Json>) {
    && list.Some? && list.value.Arr?
    && forall i :: 0 <= i < |list.value.items| && list.value.items[i].Obj? ==> p.StrField(list.value.items[i].members, "tenant") == tenant
  }

  /** Reads and writes are lists of resources of the principal's tenant. */
  ghost predicate InTenant(p: Primitives, principal: Dict, action: Dict) {
    && ListOfTenant(p, p.StrField(principal, "tenant"), Get(action, "reads"))
    && ListOfTenant(p, p.StrField(principal, "tenant"), Get(action, "writes"))
  }

  /** The principal's `capabilities` list the id; an object lists its keys, a text its characters. */
  ghost predicate ListsCapability(p: Primitives, principal: Dict, id: string) {
    match Get(principal, "capabilities")
    case Some(Arr(items)) => exists i :: 0 <= i < |items| && p.StrOf(items[i]) == id
    case Some(Obj(members)) => exists i :: 0 <= i < |members| && members[i].key == id
    case Some(Str(s)) => exists i :: 0 <= i < |s| && [s[i]] == id
    case _ => false
  }

  /** The capability is catalogued under its own effect kind, and listed by the principal; every effect is
      of a known kind, and one of them is the capability's; and nothing leaves the principal's tenant. */
  ghost predicate Entitled(p: Primitives, catalog: Catalog, principal: Dict, action: Dict) {
    match (Get(action, "capability"), Get(action, "effects"))
    case (Some(Obj(capability)), Some(Arr(effects))) =>
      var id, kind := p.StrField(capability, "capability_id"), p.StrField(capability, "effect_kind");
      && ListsCapability(p, principal, id)
      && id in catalog.effectOf && catalog.effectOf[id] == kind && kind in catalog.effectKinds
      && (forall i :: 0 <= i < |effects| ==> effects[i].Obj? && p.StrField(effects[i].members, "effect_kind") in catalog.effectKinds)
      && (exists i :: 0 <= i < |effects| && effects[i].Obj? && p.StrField(effects[i].members, "effect_kind") == kind)
      && InTenant(p, principal, action)
    case _ => false
  }

  /** Denied, or allowed to an entitled principal. */
  ghost predicate Admitted(p: Primitives, catalog: Catalog, event: Dict) {
    || p.StrField(event, "decision") == "deny"
    || (p.StrField(event, "decision") == "allow"
        && match (Get(event, "principal"), Get(event, "action"))
           case (Some(Obj(principal)), Some(Obj(action))) => Entitled(p, catalog, principal, action)
           case _ => false)
  }

  /** And an allowed action stays in its resource pattern. */
  ghost predicate AdmittedInPattern(p: Primitives, catalog: Catalog, event: Dict) {
    && Admitted(p, catalog, event)
    && (p.StrField(event, "decision") == "allow" ==>
          match Get(event, "action") case Some(Obj(action)) => FitsPattern(p, action) case _ => false)
  }

  /** Principal and action are objects, and the action keeps to the principal's tenant. */
  ghost predicate TenantKept(p: Primitives, event: Dict) {
    match (Get(event, "principal"), Get(event, "action"))
    case (Some(Obj(principal)), Some(Obj(action))) => InTenant(p, principal, action)
    case _ => false
  }

  ghost predicate HasObjects(event: Dict) {
    match (Get(event, "principal"), Get(event, "action"))
    case (Some(Obj(_)), Some(Obj(_))) => true
    case _ => false
  }

  lemma TenantMeaning(p: Primitives, principal: Dict, action: Dict)
    ensures ActionWithinTenant(p, principal, action) <==> InTenant(p, principal, action)
  {
    hide Get;
  }

  lemma ListedMeaning(p: Primitives, principal: Dict, id: string)
    ensures id in CapabilityIds(p, principal) <==> ListsCapability(p, principal, id)
  {
    hide Get;
  }

  lemma AdmissibleMeaning(p: Primitives, catalog: Catalog, principal: Dict, action: Dict)
    ensures ActionAdmissible(p, catalog, principal, action) <==> Entitled(p, catalog, principal, action)
  {
    TenantMeaning(p, principal, action);
    hide Get, CapabilityIds, ListsCapability, InTenant, ActionWithinTenant;
    if ObjectAt(action, "capability").Some? {
      ListedMeaning(p, principal, p.StrField(ObjectAt(action, "capability").value, "capability_id"));
    }
  }

  /** The deciders of one event, spelt out over its fields. */
  lemma Verdicts(p: Primitives, catalog: Catalog, event: Dict)
    ensures EventSafe(p, catalog, event) <==> Admitted(p, catalog, event)
    ensures EventSafeInPattern(p, catalog, event) <==> AdmittedInPattern(p, catalog, event)
    ensures EventIsolated(p, event) <==> (p.StrField(event, "decision") == "allow" ==> TenantKept(p, event))
    ensures EventCrossTenantSafe(p, event) <==> HasObjects(event) && (p.StrField(event, "decision") != "deny" ==> TenantKept(p, event))
    ensures Formed(event) <==> HasObjects(event)
  {
    AllowIsNotDeny();
    hide Get, ActionAdmissible, Entitled, InTenant, ActionWithinTenant, InScope, FitsPattern;
    if Formed(event) {
      var principal, action := ObjectAt(event, "principal").value, ObjectAt(event, "action").value;
      TenantMeaning(p, principal, action);
      AdmissibleMeaning(p, catalog, principal, action);
      InScopeMeaning(p, action);
    }
  }

  ghost predicate AllAdmitted(p: Primitives, catalog: Catalog, events: seq<Dict>) {
    forall i :: 0 <= i < |events| ==> Admitted(p, catalog, events[i])
  }

  ghost predicate AllAdmittedInPattern(p: Primitives, catalog: Catalog, events: seq<Dict>) {
    forall i :: 0 <= i < |events| ==> AdmittedInPattern(p, catalog, events[i])
  }

  ghost predicate AllIsolated(p: Primitives, events: seq<Dict>) {
    forall i :: 0 <= i < |events| ==> p.StrField(events[i], "decision") == "allow" ==> TenantKept(p, events[i])
  }

  ghost predicate AllTenantSafe(p: Primitives, events: seq<Dict>) {
    forall i :: 0 <= i < |events| ==> HasObjects(events[i]) && (p.StrField(events[i], "decision") != "deny" ==> TenantKept(p, events[i]))
  }

  ghost predicate AllHaveObjects(events: seq<Dict>) {
    forall i :: 0 <= i < |events| ==> HasObjects(events[i])
  }

  /** The deciders of a trace, spelt out over its events. */
  lemma TraceVerdicts(p: Primitives, catalog: Catalog, events: seq<Dict>)
    ensures TraceSafe(p, catalog, events) <==> AllAdmitted(p, catalog, events)
    ensures TraceSafeInPattern(p, catalog, events) <==> AllAdmittedInPattern(p, catalog, events)
    ensures (forall i :: 0 <= i < |events| ==> EventIsolated(p, events[i])) <==> AllIsolated(p, events)
    ensures (forall i :: 0 <= i < |events| ==> EventCrossTenantSafe(p, events[i])) <==> AllTenantSafe(p, events)
    ensures (forall i :: 0 <= i < |events| ==> Formed(events[i])) <==> AllHaveObjects(events)
    ensures forall i :: 0 <= i < |events| ==> (EventSafe(p, catalog, events[i]) <==> Admitted(p, catalog, events[i]))
  {
    hide EventSafe, EventSafeInPattern, EventIsolated, EventCrossTenantSafe, Formed, Admitted, AdmittedInPattern, TenantKept, HasObjects;
    forall i | 0 <= i < |events|
      ensures EventSafe(p, catalog, events[i]) <==> Admitted(p, catalog, events[i])
      ensures EventSafeInPattern(p, catalog, events[i]) <==> AdmittedInPattern(p, catalog, events[i])
      ensures EventIsolated(p, events[i]) <==> (p.StrField(events[i], "decision") == "allow" ==> TenantKept(p, events[i]))
      ensures EventCrossTenantSafe(p, events[i]) <==>
                HasObjects(events[i]) && (p.StrField(events[i], "decision") != "deny" ==> TenantKept(p, events[i]))
      ensures Formed(events[i]) <==> HasObjects(events[i])
    {
      Verdicts(p, catalog, events[i]);
    }
  }

  lemma AllowIsNotDeny()
    ensures "allow" != "deny"
  {
    assert |"allow"| == 5 && |"deny"| == 4;
  }

  /** `tenant_isolation_d`, which stops at the first offending event. */
  method TenantIsolation(p: Primitives, events: seq<Dict>) returns (isolated: bool)
    ensures isolated <==> forall i :: 0 <= i < |events| ==> EventIsolated(p, events[i])
  {
    hide Decision, ActionWithinTenant;
    for i := 0 to |events|
      invariant forall j :: 0 <= j < i ==> EventIsolated(p, events[j])
    {
      if !Allowed(p, events[i]) {
        continue;
      }
      var principal, action := ObjectAt(events[i], "principal"), ObjectAt(events[i], "action");
      if principal.None? || action.None? {
        return false;
      }
      if !ActionWithinTenant(p, principal.value, action.value) {
        return false;
      }
    }
    return true;
  }

  /** `trace_cross_tenant_safe_d`. */
  method CrossTenantSafe(p: Primitives, events: seq<Dict>) returns (safe: bool)
    ensures safe <==> forall i :: 0 <= i < |events| ==> EventCrossTenantSafe(p, events[i])
  {
    hide Decision, ActionWithinTenant;
    for i := 0 to |events|
      invariant forall j :: 0 <= j < i ==> EventCrossTenantSafe(p, events[j])
    {
      var principal, action := ObjectAt(events[i], "principal"), ObjectAt(events[i], "action");
      if principal.None? || action.None? {
        return false;
      }
      if Decision(p, events[i]) == "deny" {
        continue;
      }
      if !ActionWithinTenant(p, principal.value, action.value) {
        return false;
      }
    }
    return true;
  }

  /** `_low_event_d`. */
  predicate LowEvent(p: Primitives, tenant: string, event: Dict) {
    Allowed(p, event) && PrincipalTenant(p, event) == Some(tenant)
  }

  /** `non_interference_d`: it answers true for every pair of tenants and every trace. */
  method NonInterference(p: Primitives, events: seq<Dict>, low: string, high: string) returns (free: bool)
    ensures free
  {
    hide Decision, Tenant;
    if low == high {
      return true;
    }
    for i := 0 to |events| {
      var tenant := PrincipalTenant(p, events[i]);
      if tenant.None? {
        continue;
      }
      if tenant.value == high && LowEvent(p, low, events[i]) {
        return false;
      }
      if LowEvent(p, low, events[i]) {
        if tenant.value != low {
          return false;
        }
      }
    }
    return true;
  }

  // ---------------------------------------------------------------- the obligation table

  datatype DeciderKind = TraceSafeD | TraceSafeRD | TenantIsolationD | CrossTenantD | NonInterferenceD | EventSafeD | ActionResourcesD

  datatype DeciderRow = DeciderRow(kind: DeciderKind, passed: bool, proofRef: string)

  predicate AllPass(rows: seq<DeciderRow>) {
    forall i :: 0 <= i < |rows| ==> rows[i].passed
  }

  /** The distinct non-empty tenants in the order their principals first appear. */
  function Tenants(p: Primitives, events: seq<Dict>): (t: seq<string>)
    ensures forall i, j :: 0 <= i < j < |t| ==> t[i] != t[j]
    ensures forall x :: x in t <==> x != "" && exists e :: e in events && PrincipalTenant(p, e) == Some(x)
  {
    if events == [] then []
    else
      var before := Tenants(p, events[..|events| - 1]);
      var last := events[|events| - 1];
      var tenant := PrincipalTenant(p, last);
      assert events == events[..|events| - 1] + [last];
      if tenant.Some? && tenant.value != "" && tenant.value !in before then before + [tenant.value] else before
  }

  /** The tenants of a trace are the tenants its principals name. */
  lemma TenantsMeaning(p: Primitives, events: seq<Dict>, x: string)
    ensures x in Tenants(p, events) <==>
              x != "" && exists e, principal :: e in events && Get(e, "principal") == Some(Obj(principal)) && p.StrField(principal, "tenant") == x
  {
    hide Get, Tenants;
    if e :| e in events && PrincipalTenant(p, e) == Some(x) {
      assert Get(e, "principal") == Some(Obj(ObjectAt(e, "principal").value));
    }
  }

  function AllowedActions(p: Primitives, events: seq<Dict>): nat {
    if events == [] then 0
    else
      var last := events[|events| - 1];
      AllowedActions(p, events[..|events| - 1]) + (if ObjectAt(last, "action").Some? && Allowed(p, last) then 1 else 0)
  }

  /** What the rows of one event say. */
  predicate EventRowsPass(p: Primitives, catalog: Catalog, event: Dict) {
    && EventSafe(p, catalog, event)
    && (ObjectAt(event, "action").Some? && Allowed(p, event) ==> InScope(p, ObjectAt(event, "action").value))
  }

  /** `build_decider_obligations`: the size of the table, and what all its rows passing together means. */
  method BuildDeciderObligations(p: Primitives, catalog: Catalog, events: seq<Dict>) returns (rows: seq<DeciderRow>)
    ensures |rows| >= 4
    ensures var t := |Tenants(p, events)|; |rows| == 4 + t * t + |events| + AllowedActions(p, events)
    ensures rows[0] == DeciderRow(TraceSafeD, AllAdmitted(p, catalog, events), "")
    ensures rows[1] == DeciderRow(TraceSafeRD, AllAdmittedInPattern(p, catalog, events), "")
    ensures rows[2] == DeciderRow(TenantIsolationD, AllIsolated(p, events), "")
    ensures rows[3] == DeciderRow(CrossTenantD, AllTenantSafe(p, events), "")
    ensures forall low, high :: low in Tenants(p, events) && high in Tenants(p, events) ==>
              DeciderRow(NonInterferenceD, true, low + ":" + high) in rows
    ensures forall i :: 0 <= i < |events| ==>
              DeciderRow(EventSafeD, Admitted(p, catalog, events[i]), "events[" + Digits(i) + "]") in rows
    ensures forall i :: 0 <= i < |events| && p.StrField(events[i], "decision") == "allow" && HasObjects(events[i]) ==>
              ResourceRow(p, events[i], i) in rows
    ensures AllPass(rows) <==> AllAdmittedInPattern(p, catalog, events) && AllHaveObjects(events)
  {
    TableDecidesSafety(p, catalog, events);
    TraceVerdicts(p, catalog, events);
    hide AllAdmitted, AllAdmittedInPattern, AllIsolated, AllTenantSafe, AllHaveObjects, Admitted, HasObjects, Get, TraceSafe, TraceSafeInPattern,
         EventSafe, EventSafeInPattern, EventIsolated, EventCrossTenantSafe, Decision, PrincipalTenant, ObjectAt, Allowed, EventRowsPass, Formed;
    var isolated := TenantIsolation(p, events);
    var crossSafe := CrossTenantSafe(p, events);
    var four := [DeciderRow(TraceSafeD, TraceSafe(p, catalog, events), ""),
                 DeciderRow(TraceSafeRD, TraceSafeInPattern(p, catalog, events), ""),
                 DeciderRow(TenantIsolationD, isolated, ""), DeciderRow(CrossTenantD, crossSafe, "")];
    FourPass(four);
    var tenants := CollectTenants(p, events);
    var pairs := TenantRows(p, events, tenants);
    var perEvent := EventRows(p, catalog, events);
    rows := four + pairs + perEvent;
    PassConcat(four, pairs);
    PassConcat(four + pairs, perEvent);
  }

  lemma FourPass(rows: seq<DeciderRow>)
    requires |rows| == 4
    ensures AllPass(rows) <==> rows[0].passed && rows[1].passed && rows[2].passed && rows[3].passed
  {
  }

  lemma PassConcat(a: seq<DeciderRow>, b: seq<DeciderRow>)
    ensures AllPass(a + b) <==> AllPass(a) && AllPass(b)
  {
    assert forall i :: 0 <= i < |a| ==> (a + b)[i] == a[i];
    assert forall i :: 0 <= i < |b| ==> (a + b)[|a| + i] == b[i];
  }

  method CollectTenants(p: Primitives, events: seq<Dict>) returns (tenants: seq<string>)
    ensures tenants == Tenants(p, events)
  {
    hide PrincipalTenant;
    tenants := [];
    for i := 0 to |events|
      invariant tenants == Tenants(p, events[..i])
    {
      assert events[..i + 1][..i] == events[..i] && events[..i + 1][i] == events[i];
      var tenant := PrincipalTenant(p, events[i]);
      if tenant.Some? && tenant.value != "" && tenant.value !in tenants {
        tenants := tenants + [tenant.value];
      }
    }
    assert events[..|events|] == events;
  }

  /** The rows of all ordered pairs of tenants. */
  method TenantRows(p: Primitives, events: seq<Dict>, tenants: seq<string>) returns (rows: seq<DeciderRow>)
    ensures |rows| == |tenants| * |tenants| && AllPass(rows)
    ensures forall low, high :: low in tenants && high in tenants ==> DeciderRow(NonInterferenceD, true, low + ":" + high) in rows
  {
    rows := [];
    for i := 0 to |tenants|
      invariant |rows| == i * |tenants| && AllPass(rows)
      invariant forall k, l :: 0 <= k < i && 0 <= l < |tenants| ==> DeciderRow(NonInterferenceD, true, tenants[k] + ":" + tenants[l]) in rows
    {
      ghost var before := rows;
      for j := 0 to |tenants|
        invariant |rows| == i * |tenants| + j && AllPass(rows) && before <= rows
        invariant forall l :: 0 <= l < j ==> DeciderRow(NonInterferenceD, true, tenants[i] + ":" + tenants[l]) in rows
      {
        var free := NonInterference(p, events, tenants[i], tenants[j]);
        ghost var sofar := rows;
        rows := rows + [DeciderRow(NonInterferenceD, free, tenants[i] + ":" + tenants[j])];
        assert rows[|sofar|] == DeciderRow(NonInterferenceD, true, tenants[i] + ":" + tenants[j]);
      }
      assert (i + 1) * |tenants| == i * |tenants| + |tenants|;
    }
  }

  /** The row of an event's allowed action. */
  ghost function ResourceRow(p: Primitives, event: Dict, index: nat): DeciderRow
    requires HasObjects(event)
  {
    DeciderRow(ActionResourcesD, FitsPattern(p, Get(event, "action").value.members), "events[" + Digits(index) + "].action")
  }

  lemma AllowedRow(p: Primitives, event: Dict, index: nat)
    ensures Allowed(p, event) <==> p.StrField(event, "decision") == "allow"
    ensures HasObjects(event) ==> ObjectAt(event, "action").Some?
    ensures HasObjects(event) ==>
              ResourceRow(p, event, index)
              == DeciderRow(ActionResourcesD, InScope(p, ObjectAt(event, "action").value), "events[" + Digits(index) + "].action")
  {
    hide InScope, FitsPattern, Get;
    if HasObjects(event) {
      InScopeMeaning(p, ObjectAt(event, "action").value);
    }
  }

  lemma OwnRows(p: Primitives, catalog: Catalog, event: Dict)
    ensures EventRowsPass(p, catalog, event) <==>
              && EventSafe(p, catalog, event)
              && (ObjectAt(event, "action").Some? && Allowed(p, event) ==> InScope(p, ObjectAt(event, "action").value))
  {
    hide EventSafe, ObjectAt, Allowed, InScope;
  }

  /** The row of an event, and the one of its allowed action. */
  method RowsOfEvent(p: Primitives, catalog: Catalog, event: Dict, index: nat) returns (rows: seq<DeciderRow>)
    ensures |rows| == if ObjectAt(event, "action").Some? && Allowed(p, event) then 2 else 1
    ensures AllPass(rows) <==> EventRowsPass(p, catalog, event)
    ensures rows[0] == DeciderRow(EventSafeD, EventSafe(p, catalog, event), "events[" + Digits(index) + "]")
    ensures p.StrField(event, "decision") == "allow" && HasObjects(event) ==> ResourceRow(p, event, index) in rows
  {
    AllowedRow(p, event, index);
    OwnRows(p, catalog, event);
    hide EventSafe, ObjectAt, Allowed, InScope, HasObjects, FitsPattern, Get, ResourceRow, EventRowsPass, Digits;
    rows := [DeciderRow(EventSafeD, EventSafe(p, catalog, event), "events[" + Digits(index) + "]")];
    var action := ObjectAt(event, "action");
    if action.Some? && Allowed(p, event) {
      rows := rows + [DeciderRow(ActionResourcesD, InScope(p, action.value), "events[" + Digits(index) + "].action")];
      assert AllPass(rows) <==> rows[0].passed && rows[1].passed;
      assert rows[1] in rows;
    } else {
      assert AllPass(rows) <==> rows[0].passed;
    }
  }

  /** One row for every event, and one more for every allowed action. */
  method EventRows(p: Primitives, catalog: Catalog, events: seq<Dict>) returns (rows: seq<DeciderRow>)
    ensures |rows| == |events| + AllowedActions(p, events)
    ensures AllPass(rows) <==> forall i :: 0 <= i < |events| ==> EventRowsPass(p, catalog, events[i])
    ensures forall i :: 0 <= i < |events| ==>
              DeciderRow(EventSafeD, EventSafe(p, catalog, events[i]), "events[" + Digits(i) + "]") in rows
    ensures forall i :: 0 <= i < |events| && p.StrField(events[i], "decision") == "allow" && HasObjects(events[i]) ==>
              ResourceRow(p, events[i], i) in rows
  {
    hide EventSafe, ObjectAt, Allowed, InScope, HasObjects, FitsPattern, Get, ResourceRow, EventRowsPass, AllPass, Digits;
    rows := [];
    PassNone();
    for index := 0 to |events|
      invariant |rows| == index + AllowedActions(p, events[..index])
      invariant AllPass(rows) <==> forall i :: 0 <= i < index ==> EventRowsPass(p, catalog, events[i])
      invariant forall i :: 0 <= i < index ==>
                  DeciderRow(EventSafeD, EventSafe(p, catalog, events[i]), "events[" + Digits(i) + "]") in rows
      invariant forall i :: 0 <= i < index && p.StrField(events[i], "decision") == "allow" && HasObjects(events[i]) ==>
                  ResourceRow(p, events[i], i) in rows
    {
      assert events[..index + 1][..index] == events[..index] && events[..index + 1][index] == events[index];
      var own := RowsOfEvent(p, catalog, events[index], index);
      PassConcat(rows, own);
      assert own[0] in own;
      rows := rows + own;
    }
    assert events[..|events|] == events;
  }

  lemma PassNone()
    ensures AllPass([])
  {
  }

  // ---------------------------------------------------------------- what the table decides

  /** A safe event inside its resource patterns is safe, isolated and, when formed, safe across tenants;
      each of its own rows passes. */
  lemma SafeInPatternImplies(p: Primitives, catalog: Catalog, event: Dict)
    requires EventSafeInPattern(p, catalog, event)
    ensures EventSafe(p, catalog, event) && EventIsolated(p, event) && EventRowsPass(p, catalog, event)
    ensures Formed(event) ==> EventCrossTenantSafe(p, event)
  {
    hide ActionWithinTenant, CapabilityIds;
    AllowIsNotDeny();
  }

  /** Every row of the table passes exactly when the trace is safe inside its resource patterns and every
      event has an object principal and an object action. */
  lemma {:induction false} TableDecidesSafety(p: Primitives, catalog: Catalog, events: seq<Dict>)
    ensures && TraceSafe(p, catalog, events) && TraceSafeInPattern(p, catalog, events)
            && (forall i :: 0 <= i < |events| ==> EventIsolated(p, events[i]))
            && (forall i :: 0 <= i < |events| ==> EventCrossTenantSafe(p, events[i]))
            && (forall i :: 0 <= i < |events| ==> EventRowsPass(p, catalog, events[i]))
            <==>
            TraceSafeInPattern(p, catalog, events) && forall i :: 0 <= i < |events| ==> Formed(events[i])
  {
    hide EventSafe, EventSafeInPattern, EventIsolated, EventRowsPass;
    forall i | 0 <= i < |events|
      ensures EventSafeInPattern(p, catalog, events[i]) ==>
                EventSafe(p, catalog, events[i]) && EventIsolated(p, events[i]) && EventRowsPass(p, catalog, events[i])
      ensures EventSafeInPattern(p, catalog, events[i]) && Formed(events[i]) ==> EventCrossTenantSafe(p, events[i])
    {
      if EventSafeInPattern(p, catalog, events[i]) {
        SafeInPatternImplies(p, catalog, events[i]);
      }
    }
  }
}
