/** Events and traces checked against contracts (python/pcs_core/pf_core_contract.py:154-374) and the
    summary of checked fields (pf_core_contract_semantics.py:280-335). */
module ContractChecks {
  import opened Wrappers
  import opened Text
  import opened Json
  import opened Primitives
  import opened ContractLayers

  /** `expand_principal_capabilities`, which another module of the program answers. */
  type Expansion = Dict -> set<string>

  datatype ContractIssue =
    | EventInvalid | TenantMismatch | CapabilityRequired | EffectRequired | RoleRequired | PolicyRefRequired | EvidenceRefRequired
    | DecisionMismatch | EventUnsafe | RefMissing(refIndex: int) | TraceInvalid

  // ---------------------------------------------------------------- membership

  /** The text elements of a list field as `[str(x) for x in ...]`; nothing for another value. */
  predicate Lists(p: Primitives, d: Dict, key: string, wanted: string) {
    match Get(d, key)
    case Some(Arr(items)) => exists i :: 0 <= i < |items| && p.StrOf(items[i]) == wanted
    case _ => false
  }

  predicate HasEffect(p: Primitives, action: Dict, kind: string) {
    match Get(action, "effects")
    case Some(Arr(items)) => exists i :: 0 <= i < |items| && items[i].Obj? && p.StrField(items[i].members, "effect_kind") == kind
    case _ => false
  }

  predicate SideMatches(p: Primitives, tenant: string, action: Dict, key: string) {
    match Get(action, key)
    case Some(Arr(items)) => forall i :: 0 <= i < |items| && items[i].Obj? ==> p.StrField(items[i].members, "tenant") == tenant
    case _ => true
  }

  /** `_tenant_matches`. */
  predicate TenantMatches(p: Primitives, principal: Dict, action: Dict) {
    var tenant := p.StrField(principal, "tenant");
    SideMatches(p, tenant, action, "reads") && SideMatches(p, tenant, action, "writes")
  }

  function CapabilityId(p: Primitives, action: Dict): string {
    match ObjectAt(action, "capability")
    case Some(capability) => p.StrField(capability, "capability_id")
    case None => ""
  }

  // ---------------------------------------------------------------- one event, one contract

  /** A text requirement, when it is set and its layer discharges it. */
  function Required(block: Dict, contract: Dict, name: string): Option<string> {
    match Get(block, name)
    case Some(Str(s)) => if s != "" && FieldLayer(contract, name) != OUT_OF_SCOPE then Some(s) else None
    case _ => None
  }

  function When(violated: bool, issue: ContractIssue): seq<ContractIssue> {
    if violated then [issue] else []
  }

  predicate WantsTenantMatch(block: Dict, contract: Dict) {
    var wanted := Get(block, "require_tenant_match");
    wanted.Some? && !Falsy(wanted.value) && FieldLayer(contract, "require_tenant_match") != OUT_OF_SCOPE
  }

  function ReferenceIssues(p: Primitives, event: Dict, principal: Dict, contract: Dict, pre: Dict): seq<ContractIssue> {
    var role, policy := Required(pre, contract, "require_role"), Required(pre, contract, "require_policy_ref");
    var evidence := Required(pre, contract, "require_evidence_ref");
    When(role.Some? && !Lists(p, principal, "roles", role.value), RoleRequired)
    + When(policy.Some? && !Lists(p, event, "contract_refs", policy.value), PolicyRefRequired)
    + When(evidence.Some? && !Lists(p, event, "evidence_refs", evidence.value), EvidenceRefRequired)
  }

  function PreIssues(p: Primitives, expand: Expansion, event: Dict, principal: Dict, action: Dict, contract: Dict, pre: Dict): seq<ContractIssue> {
    var capability, effect := Required(pre, contract, "require_capability"), Required(pre, contract, "require_effect");
    When(WantsTenantMatch(pre, contract) && !TenantMatches(p, principal, action), TenantMismatch)
    + When(capability.Some? && capability.value !in expand(principal), CapabilityRequired)
    + When(effect.Some? && !HasEffect(p, action, effect.value), EffectRequired)
    + ReferenceIssues(p, event, principal, contract, pre)
  }

  predicate WantsEventSafe(block: Dict, contract: Dict) {
    Get(block, "require_event_safe") == Some(Bool(true)) && FieldLayer(contract, "require_event_safe") != OUT_OF_SCOPE
  }

  predicate UnsafeWhenAllowed(p: Primitives, expand: Expansion, event: Dict, principal: Dict, action: Dict) {
    var decision := p.StrField(event, "decision");
    var id := CapabilityId(p, action);
    (decision == "" || decision == "allow") && (id == "" || id !in expand(principal) || !TenantMatches(p, principal, action))
  }

  function PostIssues(p: Primitives, expand: Expansion, event: Dict, principal: Dict, action: Dict, contract: Dict, post: Dict): seq<ContractIssue> {
    var decision := Required(post, contract, "require_decision");
    When(decision.Some? && p.StrField(event, "decision") != decision.value, DecisionMismatch)
    + When(WantsEventSafe(post, contract) && UnsafeWhenAllowed(p, expand, event, principal, action), EventUnsafe)
  }

  /** What `validate_event_against_contract` reports. */
  function EventIssues(p: Primitives, expand: Expansion, event: Dict, contract: Dict): seq<ContractIssue> {
    var principal, action := ObjectAt(event, "principal"), ObjectAt(event, "action");
    if principal.None? || action.None? then [EventInvalid]
    else
      var pre, post := ObjectAt(contract, "pre"), ObjectAt(contract, "post");
      (if pre.None? then [] else PreIssues(p, expand, event, principal.value, action.value, contract, pre.value))
      + (if post.None? then [] else PostIssues(p, expand, event, principal.value, action.value, contract, post.value))
  }

  method CheckPre(p: Primitives, expand: Expansion, event: Dict, principal: Dict, action: Dict, contract: Dict, pre: Dict)
    returns (issues: seq<ContractIssue>)
    ensures issues == PreIssues(p, expand, event, principal, action, contract, pre)
  {
    hide Required, WantsTenantMatch, TenantMatches, HasEffect, Lists;
    issues := [];
    if WantsTenantMatch(pre, contract) {
      if !TenantMatches(p, principal, action) {
        issues := issues + [TenantMismatch];
      }
    }
    var capability := Required(pre, contract, "require_capability");
    if capability.Some? && capability.value !in expand(principal) {
      issues := issues + [CapabilityRequired];
    }
    var effect := Required(pre, contract, "require_effect");
    if effect.Some? && !HasEffect(p, action, effect.value) {
      issues := issues + [EffectRequired];
    }
    var references := CheckReferences(p, event, principal, contract, pre);
    issues := issues + references;
  }

  method CheckReferences(p: Primitives, event: Dict, principal: Dict, contract: Dict, pre: Dict) returns (issues: seq<ContractIssue>)
    ensures issues == ReferenceIssues(p, event, principal, contract, pre)
  {
    hide Required, Lists;
    issues := [];
    var role := Required(pre, contract, "require_role");
    if role.Some? && !Lists(p, principal, "roles", role.value) {
      issues := issues + [RoleRequired];
    }
    var policy := Required(pre, contract, "require_policy_ref");
    if policy.Some? && !Lists(p, event, "contract_refs", policy.value) {
      issues := issues + [PolicyRefRequired];
    }
    var evidence := Required(pre, contract, "require_evidence_ref");
    if evidence.Some? && !Lists(p, event, "evidence_refs", evidence.value) {
      issues := issues + [EvidenceRefRequired];
    }
  }

  method CheckPost(p: Primitives, expand: Expansion, event: Dict, principal: Dict, action: Dict, contract: Dict, post: Dict)
    returns (issues: seq<ContractIssue>)
    ensures issues == PostIssues(p, expand, event, principal, action, contract, post)
  {
    hide Required, WantsEventSafe, TenantMatches;
    issues := [];
    var wanted := Required(post, contract, "require_decision");
    if wanted.Some? && p.StrField(event, "decision") != wanted.value {
      issues := issues + [DecisionMismatch];
    }
    if WantsEventSafe(post, contract) {
      var decision := p.StrField(event, "decision");
      if decision == "" || decision == "allow" {
        var id := CapabilityId(p, action);
        if id == "" || id !in expand(principal) {
          issues := issues + [EventUnsafe];
        } else if !TenantMatches(p, principal, action) {
          issues := issues + [EventUnsafe];
        }
      }
    }
  }

  /** `validate_event_against_contract`. */
  method ValidateEventAgainstContract(p: Primitives, expand: Expansion, event: Dict, contract: Dict) returns (issues: seq<ContractIssue>)
    ensures issues == EventIssues(p, expand, event, contract)
  {
    hide PreIssues, PostIssues;
    var principal, action := ObjectAt(event, "principal"), ObjectAt(event, "action");
    if principal.None? || action.None? {
      return [EventInvalid];
    }
    issues := [];
    var pre := ObjectAt(contract, "pre");
    if pre.Some? {
      var own := CheckPre(p, expand, event, principal.value, action.value, contract, pre.value);
      issues := issues + own;
    }
    var post := ObjectAt(contract, "post");
    if post.Some? {
      var own := CheckPost(p, expand, event, principal.value, action.value, contract, post.value);
      issues := issues + own;
    }
  }

  // ---------------------------------------------------------------- what no issues means

  /** The block sets this text requirement, and its layer is in scope. */
  predicate Demands(block: Dict, contract: Dict, name: string, wanted: string) {
    Get(block, name) == Some(Str(wanted)) && wanted != "" && FieldLayer(contract, name) != OUT_OF_SCOPE
  }

  ghost predicate PreMet(p: Primitives, expand: Expansion, event: Dict, principal: Dict, action: Dict, contract: Dict, pre: Dict) {
    && (WantsTenantMatch(pre, contract) ==> TenantMatches(p, principal, action))
    && (forall s :: Demands(pre, contract, "require_capability", s) ==> s in expand(principal))
    && (forall s :: Demands(pre, contract, "require_effect", s) ==> HasEffect(p, action, s))
    && (forall s :: Demands(pre, contract, "require_role", s) ==> Lists(p, principal, "roles", s))
    && (forall s :: Demands(pre, contract, "require_policy_ref", s) ==> Lists(p, event, "contract_refs", s))
    && (forall s :: Demands(pre, contract, "require_evidence_ref", s) ==> Lists(p, event, "evidence_refs", s))
  }

  /** An allowed event, or one without a decision, uses a capability of its principal inside its tenant. */
  predicate SafeWhenAllowed(p: Primitives, expand: Expansion, event: Dict, principal: Dict, action: Dict) {
    p.StrField(event, "decision") in {"", "allow"} ==>
      CapabilityId(p, action) != "" && CapabilityId(p, action) in expand(principal) && TenantMatches(p, principal, action)
  }

  ghost predicate PostMet(p: Primitives, expand: Expansion, event: Dict, principal: Dict, action: Dict, contract: Dict, post: Dict) {
    && (forall s :: Demands(post, contract, "require_decision", s) ==> p.StrField(event, "decision") == s)
    && (WantsEventSafe(post, contract) ==> SafeWhenAllowed(p, expand, event, principal, action))
  }

  /** The event has a principal and an action and meets every requirement of the contract that is in scope. */
  ghost predicate Satisfies(p: Primitives, expand: Expansion, event: Dict, contract: Dict) {
    var principal, action := ObjectAt(event, "principal"), ObjectAt(event, "action");
    var pre, post := ObjectAt(contract, "pre"), ObjectAt(contract, "post");
    && principal.Some? && action.Some?
    && (pre.Some? ==> PreMet(p, expand, event, principal.value, action.value, contract, pre.value))
    && (post.Some? ==> PostMet(p, expand, event, principal.value, action.value, contract, post.value))
  }

  lemma RequiredDemands(block: Dict, contract: Dict, name: string)
    ensures forall s :: Demands(block, contract, name, s) <==> Required(block, contract, name) == Some(s)
  {
    hide FieldLayer;
  }

  lemma NoPreIssues(p: Primitives, expand: Expansion, event: Dict, principal: Dict, action: Dict, contract: Dict, pre: Dict)
    ensures PreIssues(p, expand, event, principal, action, contract, pre) == [] <==>
              PreMet(p, expand, event, principal, action, contract, pre)
  {
    hide Demands, Required, WantsTenantMatch, TenantMatches, HasEffect, Lists;
    RequiredDemands(pre, contract, "require_capability");
    RequiredDemands(pre, contract, "require_effect");
    RequiredDemands(pre, contract, "require_role");
    RequiredDemands(pre, contract, "require_policy_ref");
    RequiredDemands(pre, contract, "require_evidence_ref");
  }

  lemma NoPostIssues(p: Primitives, expand: Expansion, event: Dict, principal: Dict, action: Dict, contract: Dict, post: Dict)
    ensures PostIssues(p, expand, event, principal, action, contract, post) == [] <==>
              PostMet(p, expand, event, principal, action, contract, post)
  {
    hide Demands, Required, WantsEventSafe, TenantMatches;
    RequiredDemands(post, contract, "require_decision");
  }

  /** Nothing is reported for an event exactly when it satisfies the contract. */
  lemma NoIssuesMeansSatisfied(p: Primitives, expand: Expansion, event: Dict, contract: Dict)
    ensures EventIssues(p, expand, event, contract) == [] <==> Satisfies(p, expand, event, contract)
  {
    hide PreIssues, PostIssues, PreMet, PostMet;
    var principal, action := ObjectAt(event, "principal"), ObjectAt(event, "action");
    var pre, post := ObjectAt(contract, "pre"), ObjectAt(contract, "post");
    if principal.Some? && action.Some? {
      if pre.Some? {
        NoPreIssues(p, expand, event, principal.value, action.value, contract, pre.value);
      }
      if post.Some? {
        NoPostIssues(p, expand, event, principal.value, action.value, contract, post.value);
      }
    }
  }

  // ---------------------------------------------------------------- each issue, spelt out

  /** A list field holds an element that reads as the text. */
  ghost predicate TextListed(p: Primitives, list: Option<Json>, wanted: string) {
    list.Some? && list.value.Arr? && exists i :: 0 <= i < |list.value.items| && p.StrOf(list.value.items[i]) == wanted
  }

  /** Every object resource read or written belongs to the principal's tenant. */
  ghost predicate KeepsTenant(p: Primitives, principal: Dict, list: Option<Json>) {
    list.Some? && list.value.Arr? ==>
      forall i :: 0 <= i < |list.value.items| && list.value.items[i].Obj? ==>
        p.StrField(list.value.items[i].members, "tenant") == p.StrField(principal, "tenant")
  }

  ghost predicate OneTenant(p: Primitives, principal: Dict, action: Dict) {
    KeepsTenant(p, principal, Get(action, "reads")) && KeepsTenant(p, principal, Get(action, "writes"))
  }

  ghost predicate EffectListed(p: Primitives, list: Option<Json>, kind: string) {
    && list.Some? && list.value.Arr?
    && exists i :: 0 <= i < |list.value.items| && list.value.items[i].Obj? && p.StrField(list.value.items[i].members, "effect_kind") == kind
  }

  /** A section of the contract asks for this text, in a layer that is in scope. */
  ghost predicate Asks(contract: Dict, section: string, name: string, wanted: string) {
    match Get(contract, section)
    case Some(Obj(block)) => Get(block, name) == Some(Str(wanted)) && wanted != "" && FieldLayer(contract, name) != "out_of_scope"
    case _ => false
  }

  ghost predicate AsksTenant(contract: Dict) {
    match Get(contract, "pre")
    case Some(Obj(block)) =>
      && Get(block, "require_tenant_match").Some? && !Falsy(Get(block, "require_tenant_match").value)
      && FieldLayer(contract, "require_tenant_match") != "out_of_scope"
    case _ => false
  }

  ghost predicate AsksSafety(contract: Dict) {
    match Get(contract, "post")
    case Some(Obj(block)) =>
      Get(block, "require_event_safe") == Some(Bool(true)) && FieldLayer(contract, "require_event_safe") != "out_of_scope"
    case _ => false
  }

  /** The action's capability has an id the principal holds, and no resource leaves the tenant. */
  ghost predicate Safe(p: Primitives, expand: Expansion, principal: Dict, action: Dict) {
    && OneTenant(p, principal, action)
    && match Get(action, "capability")
       case Some(Obj(capability)) => p.StrField(capability, "capability_id") in expand(principal) - {""}
       case _ => false
  }

  ghost predicate Violated(p: Primitives, expand: Expansion, event: Dict, principal: Dict, action: Dict, contract: Dict, issue: ContractIssue) {
    match issue
    case TenantMismatch => AsksTenant(contract) && !OneTenant(p, principal, action)
    case CapabilityRequired => exists s :: Asks(contract, "pre", "require_capability", s) && s !in expand(principal)
    case EffectRequired => exists s :: Asks(contract, "pre", "require_effect", s) && !EffectListed(p, Get(action, "effects"), s)
    case RoleRequired => exists s :: Asks(contract, "pre", "require_role", s) && !TextListed(p, Get(principal, "roles"), s)
    case PolicyRefRequired => exists s :: Asks(contract, "pre", "require_policy_ref", s) && !TextListed(p, Get(event, "contract_refs"), s)
    case EvidenceRefRequired => exists s :: Asks(contract, "pre", "require_evidence_ref", s) && !TextListed(p, Get(event, "evidence_refs"), s)
    case DecisionMismatch => exists s :: Asks(contract, "post", "require_decision", s) && p.StrField(event, "decision") != s
    case EventUnsafe => AsksSafety(contract) && p.StrField(event, "decision") in {"", "allow"} && !Safe(p, expand, principal, action)
    case _ => false
  }

  /** What an issue says about event and contract. */
  ghost predicate Applies(p: Primitives, expand: Expansion, event: Dict, contract: Dict, issue: ContractIssue) {
    match (Get(event, "principal"), Get(event, "action"))
    case (Some(Obj(principal)), Some(Obj(action))) => Violated(p, expand, event, principal, action, contract, issue)
    case _ => issue == EventInvalid
  }

  lemma LeavesMean(p: Primitives, principal: Dict, action: Dict)
    ensures TenantMatches(p, principal, action) <==> OneTenant(p, principal, action)
    ensures forall s :: HasEffect(p, action, s) <==> EffectListed(p, Get(action, "effects"), s)
  {
    hide Get;
  }

  lemma ListsMean(p: Primitives, d: Dict, key: string)
    ensures forall s :: Lists(p, d, key, s) <==> TextListed(p, Get(d, key), s)
  {
    hide Get;
  }

  lemma AsksMeans(contract: Dict, section: string, name: string)
    ensures forall s :: Asks(contract, section, name, s) <==>
              ObjectAt(contract, section).Some? && Required(ObjectAt(contract, section).value, contract, name) == Some(s)
  {
    hide Get, FieldLayer;
  }

  lemma FlagsMean(contract: Dict)
    ensures AsksTenant(contract) <==> ObjectAt(contract, "pre").Some? && WantsTenantMatch(ObjectAt(contract, "pre").value, contract)
    ensures AsksSafety(contract) <==> ObjectAt(contract, "post").Some? && WantsEventSafe(ObjectAt(contract, "post").value, contract)
  {
    hide Get, FieldLayer, Falsy;
  }

  lemma UnsafeMeans(p: Primitives, expand: Expansion, event: Dict, principal: Dict, action: Dict)
    ensures UnsafeWhenAllowed(p, expand, event, principal, action) <==>
              p.StrField(event, "decision") in {"", "allow"} && !Safe(p, expand, principal, action)
  {
    LeavesMean(p, principal, action);
    hide Get, TenantMatches, OneTenant;
  }

  lemma PreMembers(p: Primitives, expand: Expansion, event: Dict, principal: Dict, action: Dict, contract: Dict, pre: Dict, issue: ContractIssue)
    requires Get(contract, "pre") == Some(Obj(pre))
    ensures issue in PreIssues(p, expand, event, principal, action, contract, pre) <==>
              !issue.DecisionMismatch? && !issue.EventUnsafe? && Violated(p, expand, event, principal, action, contract, issue)
  {
    LeavesMean(p, principal, action);
    ListsMean(p, principal, "roles");
    ListsMean(p, event, "contract_refs");
    ListsMean(p, event, "evidence_refs");
    FlagsMean(contract);
    AsksMeans(contract, "pre", "require_capability");
    AsksMeans(contract, "pre", "require_effect");
    AsksMeans(contract, "pre", "require_role");
    AsksMeans(contract, "pre", "require_policy_ref");
    AsksMeans(contract, "pre", "require_evidence_ref");
    hide Get, Asks, AsksTenant, Required, WantsTenantMatch, TenantMatches, OneTenant, HasEffect, EffectListed, Lists, TextListed, AsksSafety, Safe;
  }

  lemma PostMembers(p: Primitives, expand: Expansion, event: Dict, principal: Dict, action: Dict, contract: Dict, post: Dict, issue: ContractIssue)
    requires Get(contract, "post") == Some(Obj(post))
    ensures issue in PostIssues(p, expand, event, principal, action, contract, post) <==>
              (issue.DecisionMismatch? || issue.EventUnsafe?) && Violated(p, expand, event, principal, action, contract, issue)
  {
    UnsafeMeans(p, expand, event, principal, action);
    FlagsMean(contract);
    AsksMeans(contract, "post", "require_decision");
    hide Get, Asks, AsksTenant, AsksSafety, Required, WantsEventSafe, UnsafeWhenAllowed, Safe, OneTenant, EffectListed, TextListed;
  }

  lemma NoSection(p: Primitives, expand: Expansion, event: Dict, principal: Dict, action: Dict, contract: Dict, issue: ContractIssue)
    requires Violated(p, expand, event, principal, action, contract, issue)
    ensures if issue.DecisionMismatch? || issue.EventUnsafe? then ObjectAt(contract, "post").Some? else ObjectAt(contract, "pre").Some?
  {
    hide Get, FieldLayer, Safe, OneTenant, EffectListed, TextListed;
  }

  /** Each issue is reported for an event exactly when what it says applies. */
  lemma IssuesMean(p: Primitives, expand: Expansion, event: Dict, contract: Dict, issue: ContractIssue)
    ensures issue in EventIssues(p, expand, event, contract) <==> Applies(p, expand, event, contract, issue)
  {
    hide PreIssues, PostIssues, Violated, Get;
    var principal, action := ObjectAt(event, "principal"), ObjectAt(event, "action");
    var pre, post := ObjectAt(contract, "pre"), ObjectAt(contract, "post");
    if principal.Some? && action.Some? {
      if pre.Some? {
        PreMembers(p, expand, event, principal.value, action.value, contract, pre.value, issue);
      }
      if post.Some? {
        PostMembers(p, expand, event, principal.value, action.value, contract, post.value, issue);
      }
      if Violated(p, expand, event, principal.value, action.value, contract, issue) {
        NoSection(p, expand, event, principal.value, action.value, contract, issue);
      }
    }
  }

  /** Deleting the explicit layers of a contract without layer issues changes no verdict on any event. */
  lemma DroppedLayersKeepVerdict(p: Primitives, expand: Expansion, event: Dict, contract: Dict)
    requires LayersCanonical(contract)
    ensures EventIssues(p, expand, event, Pop(contract, LAYER_FIELD)) == EventIssues(p, expand, event, contract)
  {
    var bare := Pop(contract, LAYER_FIELD);
    DroppedLayers(contract);
    SameBlocks(contract);
    hide FieldLayer, LayersCanonical, PreIssues, PostIssues, ObjectAt;
    var principal, action := ObjectAt(event, "principal"), ObjectAt(event, "action");
    var pre, post := ObjectAt(contract, "pre"), ObjectAt(contract, "post");
    if principal.Some? && action.Some? {
      if pre.Some? {
        SamePre(p, expand, event, principal.value, action.value, bare, contract, pre.value);
      }
      if post.Some? {
        SamePost(p, expand, event, principal.value, action.value, bare, contract, post.value);
      }
    }
  }

  lemma SameBlocks(contract: Dict)
    ensures ObjectAt(Pop(contract, LAYER_FIELD), "pre") == ObjectAt(contract, "pre")
    ensures ObjectAt(Pop(contract, LAYER_FIELD), "post") == ObjectAt(contract, "post")
  {
    LayerFieldApart();
    GetWithout(contract, {LAYER_FIELD}, "pre");
    GetWithout(contract, {LAYER_FIELD}, "post");
  }

  lemma SameRequired(a: Dict, b: Dict, block: Dict, name: string)
    requires FieldLayer(a, name) == FieldLayer(b, name)
    ensures Required(block, a, name) == Required(block, b, name)
  {
    hide FieldLayer;
  }

  lemma SamePre(p: Primitives, expand: Expansion, event: Dict, principal: Dict, action: Dict, a: Dict, b: Dict, pre: Dict)
    requires forall name :: FieldLayer(a, name) == FieldLayer(b, name)
    ensures PreIssues(p, expand, event, principal, action, a, pre) == PreIssues(p, expand, event, principal, action, b, pre)
  {
    hide FieldLayer, Get, When, TenantMatches, HasEffect, Lists, Required;
    SameRequired(a, b, pre, "require_capability");
    SameRequired(a, b, pre, "require_effect");
    SameRequired(a, b, pre, "require_role");
    SameRequired(a, b, pre, "require_policy_ref");
    SameRequired(a, b, pre, "require_evidence_ref");
  }

  lemma SamePost(p: Primitives, expand: Expansion, event: Dict, principal: Dict, action: Dict, a: Dict, b: Dict, post: Dict)
    requires forall name :: FieldLayer(a, name) == FieldLayer(b, name)
    ensures PostIssues(p, expand, event, principal, action, a, post) == PostIssues(p, expand, event, principal, action, b, post)
  {
    hide FieldLayer, Get, When, UnsafeWhenAllowed, Required;
    SameRequired(a, b, post, "require_decision");
  }

  // ---------------------------------------------------------------- a trace

  datatype TraceIssue = TraceIssue(eventIndex: int, issue: ContractIssue)

  function At(index: int, issues: seq<ContractIssue>): seq<TraceIssue> {
    seq(|issues|, i requires 0 <= i < |issues| => TraceIssue(index, issues[i]))
  }

  function RefIssues(p: Primitives, expand: Expansion, contracts: map<string, Dict>, index: int, event: Dict, refs: seq<Json>): seq<TraceIssue>
    decreases |refs|
  {
    if refs == [] then []
    else
      var n := |refs| - 1;
      var id := p.StrOf(refs[n]);
      RefIssues(p, expand, contracts, index, event, refs[..n])
      + (if id !in contracts then [TraceIssue(index, RefMissing(n))] else At(index, EventIssues(p, expand, event, contracts[id])))
  }

  function RefsOf(item: Json): seq<Json> {
    if !item.Obj? then []
    else
      match Get(item.members, "contract_refs")
      case Some(Arr(refs)) => refs
      case _ => []
  }

  function TraceEventIssues(p: Primitives, expand: Expansion, contracts: map<string, Dict>, events: seq<Json>): seq<TraceIssue>
    decreases |events|
  {
    if events == [] then []
    else
      var n := |events| - 1;
      TraceEventIssues(p, expand, contracts, events[..n])
      + (if events[n].Obj? then RefIssues(p, expand, contracts, n, events[n].members, RefsOf(events[n])) else [])
  }

  /** What `validate_trace_contracts` reports. */
  function TraceIssues(p: Primitives, expand: Expansion, contracts: map<string, Dict>, trace: Dict): seq<TraceIssue> {
    match Get(trace, "events")
    case Some(Arr(events)) => TraceEventIssues(p, expand, contracts, events)
    case _ => [TraceIssue(-1, TraceInvalid)]
  }

  /** `validate_trace_contracts`. */
  method ValidateTraceContracts(p: Primitives, expand: Expansion, contracts: map<string, Dict>, trace: Dict) returns (issues: seq<TraceIssue>)
    ensures issues == TraceIssues(p, expand, contracts, trace)
  {
    hide EventIssues, RefIssues, RefsOf;
    var raw := Get(trace, "events");
    if raw.None? || !raw.value.Arr? {
      return [TraceIssue(-1, TraceInvalid)];
    }
    var events := raw.value.items;
    issues := [];
    for index := 0 to |events|
      invariant issues == TraceEventIssues(p, expand, contracts, events[..index])
    {
      assert events[..index + 1][..index] == events[..index] && events[..index + 1][index] == events[index];
      if events[index].Obj? {
        var own := ValidateReferences(p, expand, contracts, index, events[index].members, RefsOf(events[index]));
        issues := issues + own;
      }
    }
    assert events[..|events|] == events;
  }

  /** The loop over the contracts one event refers to. */
  method ValidateReferences(p: Primitives, expand: Expansion, contracts: map<string, Dict>, index: int, event: Dict, refs: seq<Json>)
    returns (issues: seq<TraceIssue>)
    ensures issues == RefIssues(p, expand, contracts, index, event, refs)
  {
    hide EventIssues;
    issues := [];
    for k := 0 to |refs|
      invariant issues == RefIssues(p, expand, contracts, index, event, refs[..k])
    {
      assert refs[..k + 1][..k] == refs[..k] && refs[..k + 1][k] == refs[k];
      var id := p.StrOf(refs[k]);
      if id !in contracts {
        issues := issues + [TraceIssue(index, RefMissing(k))];
      } else {
        var own := ValidateEventAgainstContract(p, expand, event, contracts[id]);
        issues := issues + At(index, own);
      }
    }
    assert refs[..|refs|] == refs;
  }

  /** Every contract an event refers to is known and satisfied. */
  ghost predicate EventConforms(p: Primitives, expand: Expansion, contracts: map<string, Dict>, item: Json) {
    item.Obj? ==>
      match Get(item.members, "contract_refs")
      case Some(Arr(refs)) =>
        forall ref :: ref in refs ==> p.StrOf(ref) in contracts && Satisfies(p, expand, item.members, contracts[p.StrOf(ref)])
      case _ => true
  }

  lemma {:induction false} NoRefIssues(p: Primitives, expand: Expansion, contracts: map<string, Dict>, index: int, event: Dict, refs: seq<Json>)
    ensures RefIssues(p, expand, contracts, index, event, refs) == [] <==>
              forall ref :: ref in refs ==> p.StrOf(ref) in contracts && Satisfies(p, expand, event, contracts[p.StrOf(ref)])
    decreases |refs|
  {
    hide EventIssues, Satisfies;
    if refs != [] {
      var n := |refs| - 1;
      NoRefIssues(p, expand, contracts, index, event, refs[..n]);
      assert refs == refs[..n] + [refs[n]];
      var id := p.StrOf(refs[n]);
      if id in contracts {
        NoIssuesMeansSatisfied(p, expand, event, contracts[id]);
      }
    }
  }

  lemma {:induction false} NoEventIssues(p: Primitives, expand: Expansion, contracts: map<string, Dict>, events: seq<Json>)
    ensures TraceEventIssues(p, expand, contracts, events) == [] <==>
              forall item :: item in events ==> EventConforms(p, expand, contracts, item)
    decreases |events|
  {
    hide RefIssues, EventConforms;
    if events != [] {
      var n := |events| - 1;
      NoEventIssues(p, expand, contracts, events[..n]);
      assert events == events[..n] + [events[n]];
      ConformsMeans(p, expand, contracts, n, events[n]);
      assert TraceEventIssues(p, expand, contracts, events) == [] <==>
             TraceEventIssues(p, expand, contracts, events[..n]) == [] && EventConforms(p, expand, contracts, events[n]);
    }
  }

  lemma ConformsMeans(p: Primitives, expand: Expansion, contracts: map<string, Dict>, index: int, item: Json)
    ensures EventConforms(p, expand, contracts, item) <==>
              (item.Obj? ==> RefIssues(p, expand, contracts, index, item.members, RefsOf(item)) == [])
  {
    hide RefIssues, Satisfies, Get;
    if item.Obj? {
      NoRefIssues(p, expand, contracts, index, item.members, RefsOf(item));
    }
  }

  /** Nothing is reported for a trace exactly when its events are a list and every contract an event refers
      to is known and satisfied by it. */
  lemma NoIssuesMeansConforming(p: Primitives, expand: Expansion, contracts: map<string, Dict>, trace: Dict)
    ensures TraceIssues(p, expand, contracts, trace) == [] <==>
              && Get(trace, "events").Some? && Get(trace, "events").value.Arr?
              && forall item :: item in Get(trace, "events").value.items ==> EventConforms(p, expand, contracts, item)
  {
    hide TraceEventIssues, EventConforms;
    match Get(trace, "events")
    case Some(Arr(events)) => NoEventIssues(p, expand, contracts, events);
    case _ =>
  }

  /** What the reference at `n` leads to: a missing contract, or what its contract says of the event. */
  ghost predicate RefSays(p: Primitives, expand: Expansion, contracts: map<string, Dict>, event: Dict, refs: seq<Json>, n: int, issue: ContractIssue)
    requires 0 <= n < |refs|
  {
    var id := p.StrOf(refs[n]);
    if id in contracts then Applies(p, expand, event, contracts[id], issue) else issue == RefMissing(n)
  }

  lemma AtMembers(index: int, issues: seq<ContractIssue>, t: TraceIssue)
    ensures t in At(index, issues) <==> t.eventIndex == index && t.issue in issues
  {
    if t.eventIndex == index && t.issue in issues {
      var i :| 0 <= i < |issues| && issues[i] == t.issue;
      assert At(index, issues)[i] == t;
    }
  }

  lemma {:induction false} RefMembers(p: Primitives, expand: Expansion, contracts: map<string, Dict>, index: int, event: Dict, refs: seq<Json>,
                                      t: TraceIssue)
    ensures t in RefIssues(p, expand, contracts, index, event, refs) <==>
              t.eventIndex == index && exists n :: 0 <= n < |refs| && RefSays(p, expand, contracts, event, refs, n, t.issue)
    decreases |refs|
  {
    hide EventIssues, Applies, At;
    if refs != [] {
      var n := |refs| - 1;
      RefMembers(p, expand, contracts, index, event, refs[..n], t);
      assert forall i :: 0 <= i < n ==>
               RefSays(p, expand, contracts, event, refs, i, t.issue) == RefSays(p, expand, contracts, event, refs[..n], i, t.issue);
      var id := p.StrOf(refs[n]);
      if id in contracts {
        AtMembers(index, EventIssues(p, expand, event, contracts[id]), t);
        IssuesMean(p, expand, event, contracts[id], t.issue);
      }
      assert t.eventIndex == index ==>
               (RefSays(p, expand, contracts, event, refs, n, t.issue) <==>
                  t in (if id !in contracts then [TraceIssue(index, RefMissing(n))] else At(index, EventIssues(p, expand, event, contracts[id]))));
    }
  }

  /** What is said of the event at an index. */
  ghost predicate EventSays(p: Primitives, expand: Expansion, contracts: map<string, Dict>, item: Json, issue: ContractIssue) {
    && item.Obj?
    && match Get(item.members, "contract_refs")
       case Some(Arr(refs)) => exists n :: 0 <= n < |refs| && RefSays(p, expand, contracts, item.members, refs, n, issue)
       case _ => false
  }

  lemma {:induction false} EventMembers(p: Primitives, expand: Expansion, contracts: map<string, Dict>, events: seq<Json>, t: TraceIssue)
    ensures t in TraceEventIssues(p, expand, contracts, events) <==>
              0 <= t.eventIndex < |events| && EventSays(p, expand, contracts, events[t.eventIndex], t.issue)
    decreases |events|
  {
    hide RefIssues, RefSays, Get;
    if events != [] {
      var n := |events| - 1;
      EventMembers(p, expand, contracts, events[..n], t);
      if events[n].Obj? {
        RefMembers(p, expand, contracts, n, events[n].members, RefsOf(events[n]), t);
      }
    }
  }

  /** Each issue is reported for a trace at an index exactly when it is said of the event there. */
  lemma TraceIssuesMean(p: Primitives, expand: Expansion, contracts: map<string, Dict>, trace: Dict, t: TraceIssue)
    ensures t in TraceIssues(p, expand, contracts, trace) <==>
              match Get(trace, "events")
              case Some(Arr(events)) => 0 <= t.eventIndex < |events| && EventSays(p, expand, contracts, events[t.eventIndex], t.issue)
              case _ => t == TraceIssue(-1, TraceInvalid)
  {
    hide TraceEventIssues, EventSays;
    match Get(trace, "events")
    case Some(Arr(events)) => EventMembers(p, expand, contracts, events, t);
    case _ =>
  }

  function Bare(contracts: map<string, Dict>): map<string, Dict> {
    map id | id in contracts :: Pop(contracts[id], LAYER_FIELD)
  }

  lemma {:induction false} BareRefs(p: Primitives, expand: Expansion, contracts: map<string, Dict>, index: int, event: Dict, refs: seq<Json>)
    requires forall id :: id in contracts ==> LayersCanonical(contracts[id])
    ensures RefIssues(p, expand, Bare(contracts), index, event, refs) == RefIssues(p, expand, contracts, index, event, refs)
    decreases |refs|
  {
    hide EventIssues, LayersCanonical;
    if refs != [] {
      var n := |refs| - 1;
      BareRefs(p, expand, contracts, index, event, refs[..n]);
      var id := p.StrOf(refs[n]);
      if id in contracts {
        DroppedLayersKeepVerdict(p, expand, event, contracts[id]);
      }
    }
  }

  lemma {:induction false} BareEvents(p: Primitives, expand: Expansion, contracts: map<string, Dict>, events: seq<Json>)
    requires forall id :: id in contracts ==> LayersCanonical(contracts[id])
    ensures TraceEventIssues(p, expand, Bare(contracts), events) == TraceEventIssues(p, expand, contracts, events)
    decreases |events|
  {
    hide RefIssues, LayersCanonical, Bare;
    if events != [] {
      var n := |events| - 1;
      BareEvents(p, expand, contracts, events[..n]);
      if events[n].Obj? {
        BareRefs(p, expand, contracts, n, events[n].members, RefsOf(events[n]));
      }
    }
  }

  /** Dropping the explicit layers of every loaded contract changes nothing that is reported for any trace. */
  lemma BareContractsKeepTraceVerdict(p: Primitives, expand: Expansion, contracts: map<string, Dict>, trace: Dict)
    requires forall id :: id in contracts ==> LayersCanonical(contracts[id])
    ensures TraceIssues(p, expand, Bare(contracts), trace) == TraceIssues(p, expand, contracts, trace)
  {
    hide TraceEventIssues, LayersCanonical, Bare;
    match Get(trace, "events")
    case Some(Arr(events)) => BareEvents(p, expand, contracts, events);
    case _ =>
  }
}
