/** Contract field semantics layers (python/pcs_core/pf_core_contract_semantics.py:11-174): which fields a
    contract uses, which layer discharges each, and what a contract without layer issues looks like. */
module ContractLayers {
  import opened Wrappers
  import opened Text
  import opened Json
  import opened Primitives

  // ---------------------------------------------------------------- the canonical table

  datatype Field = Field(section: string, name: string)

  /** `CONTRACT_SECTION_FIELDS`, in order. */
  const ALL_FIELDS: seq<Field> := [
    Field("pre", "require_capability"), Field("pre", "require_effect"), Field("pre", "require_tenant_match"),
    Field("pre", "require_role"), Field("pre", "require_policy_ref"), Field("pre", "require_evidence_ref"),
    Field("post", "require_decision"), Field("post", "require_event_safe"), Field("invariant", "require_trace_safe")]

  /** Fields the runtime checks; every other field of the table is Lean's. */
  const RUNTIME_FIELDS: set<string> := {"require_role", "require_policy_ref", "require_evidence_ref"}

  const LEAN := "lean"
  const RUNTIME := "runtime"
  const OUT_OF_SCOPE := "out_of_scope"
  const SEMANTICS_LAYERS: set<string> := {LEAN, RUNTIME, OUT_OF_SCOPE}

  predicate Known(name: string) {
    exists i :: 0 <= i < |ALL_FIELDS| && ALL_FIELDS[i].name == name
  }

  /** `DEFAULT_FIELD_LAYERS.get(name, "runtime")`. */
  function DefaultLayer(name: string): string {
    if Known(name) && name !in RUNTIME_FIELDS then LEAN else RUNTIME
  }

  lemma DefaultInScope(name: string)
    ensures DefaultLayer(name) != OUT_OF_SCOPE && DefaultLayer(name) in SEMANTICS_LAYERS
  {
    assert |LEAN| == 4 && |RUNTIME| == 7 && |OUT_OF_SCOPE| == 12;
    hide Known;
  }

  // ---------------------------------------------------------------- fields in use

  /** `_field_active`. */
  predicate FieldActive(contract: Dict, field: Field) {
    match Get(contract, field.section)
    case Some(Obj(block)) =>
      (match Get(block, field.name)
       case None => false
       case Some(Null) => false
       case Some(Bool(b)) => b
       case Some(Str(s)) => Strip(s) != ""
       case Some(_) => true)
    case _ => false
  }

  function ActiveAmong(contract: Dict, fields: seq<Field>): (r: seq<Field>)
    ensures forall f :: f in r <==> f in fields && FieldActive(contract, f)
  {
    if fields == [] then []
    else
      var before := ActiveAmong(contract, fields[..|fields| - 1]);
      var last := fields[|fields| - 1];
      assert fields == fields[..|fields| - 1] + [last];
      if FieldActive(contract, last) then before + [last] else before
  }

  /** `contract_fields_in_use`. */
  function FieldsInUse(contract: Dict): seq<Field> {
    ActiveAmong(contract, ALL_FIELDS)
  }

  predicate Active(contract: Dict, name: string) {
    exists f :: f in FieldsInUse(contract) && f.name == name
  }

  lemma ActiveKnown(contract: Dict, name: string)
    requires Active(contract, name)
    ensures Known(name)
  {
    hide FieldActive;
    var f :| f in FieldsInUse(contract) && f.name == name;
    var i :| 0 <= i < |ALL_FIELDS| && ALL_FIELDS[i] == f;
  }

  // ---------------------------------------------------------------- layers

  function Canonical(fields: seq<Field>): map<string, string> {
    map f | f in fields :: f.name := DefaultLayer(f.name)
  }

  /** The text entries of an explicit layer object, written over a map in order. */
  function Override(layers: map<string, string>, entries: Dict): map<string, string>
    decreases |entries|
  {
    if entries == [] then layers
    else
      var before := Override(layers, entries[..|entries| - 1]);
      var last := entries[|entries| - 1];
      if last.value.Str? then before[last.key := last.value.s] else before
  }

  function ExplicitEntries(contract: Dict): Dict {
    match Get(contract, "semantics_layer")
    case Some(Obj(entries)) => entries
    case _ => []
  }

  function Resolved(contract: Dict): map<string, string> {
    Override(Canonical(FieldsInUse(contract)), ExplicitEntries(contract))
  }

  /** `resolve_semantics_layer`. */
  method ResolveSemanticsLayer(contract: Dict) returns (resolved: map<string, string>)
    ensures resolved == Resolved(contract)
  {
    hide FieldsInUse, Canonical;
    resolved := Canonical(FieldsInUse(contract));
    var explicit := Get(contract, "semantics_layer");
    if explicit.Some? && explicit.value.Obj? {
      var entries := explicit.value.members;
      for i := 0 to |entries|
        invariant resolved == Override(Canonical(FieldsInUse(contract)), entries[..i])
      {
        assert entries[..i + 1][..i] == entries[..i] && entries[..i + 1][i] == entries[i];
        if entries[i].value.Str? {
          resolved := resolved[entries[i].key := entries[i].value.s];
        }
      }
      assert entries[..|entries|] == entries;
    }
  }

  /** `field_semantics_layer`. */
  function FieldLayer(contract: Dict, name: string): string {
    if name in Resolved(contract) then Resolved(contract)[name] else DefaultLayer(name)
  }

  // ---------------------------------------------------------------- validation

  datatype LayerIssue =
    | LayerInvalid(key: string) | LayerUnknownField(key: string) | LayerMismatch(key: string) | LayerOrphanField(key: string)
    | LayerOutOfScopeFieldSet(key: string)

  /** An explicit entry repeats the canonical layer of a field in use. */
  predicate EntryCanonical(contract: Dict, m: Member) {
    Active(contract, m.key) && m.value == Str(DefaultLayer(m.key))
  }

  /** The explicit layers, if any, are canonical ones of fields in use. */
  predicate LayersCanonical(contract: Dict) {
    match Get(contract, "semantics_layer")
    case None => true
    case Some(Null) => true
    case Some(Obj(entries)) => forall i :: 0 <= i < |entries| ==> EntryCanonical(contract, entries[i])
    case Some(_) => false
  }

  method EntryIssues(contract: Dict, m: Member) returns (issues: seq<LayerIssue>)
    ensures issues == [] <==> EntryCanonical(contract, m)
  {
    hide DefaultLayer, Known, FieldsInUse;
    if !m.value.Str? {
      return [LayerInvalid(m.key)];
    }
    var active := Active(contract, m.key);
    DefaultInScope(m.key);
    if active {
      ActiveKnown(contract, m.key);
    }
    issues := [];
    if m.value.s !in SEMANTICS_LAYERS {
      issues := issues + [LayerInvalid(m.key)];
    }
    if !Known(m.key) {
      issues := issues + [LayerUnknownField(m.key)];
    } else if active && m.value.s != DefaultLayer(m.key) {
      issues := issues + [LayerMismatch(m.key)];
    } else if !active {
      issues := issues + [LayerOrphanField(m.key)];
    }
  }

  /** `validate_semantics_layer`: nothing is reported exactly when every explicit entry repeats the
      canonical layer of a field in use. */
  method ValidateSemanticsLayer(contract: Dict) returns (issues: seq<LayerIssue>)
    ensures issues == [] <==> LayersCanonical(contract)
  {
    hide EntryCanonical, FieldsInUse, Resolved, DefaultLayer;
    var explicit := Get(contract, "semantics_layer");
    if explicit.Some? && !explicit.value.Null? && !explicit.value.Obj? {
      return [LayerInvalid("")];
    }
    issues := [];
    if explicit.Some? && explicit.value.Obj? {
      var entries := explicit.value.members;
      for i := 0 to |entries|
        invariant issues == [] <==> forall j :: 0 <= j < i ==> EntryCanonical(contract, entries[j])
      {
        var own := EntryIssues(contract, entries[i]);
        issues := issues + own;
      }
    }
    assert issues == [] <==> LayersCanonical(contract);
    var active := FieldsInUse(contract);
    var resolved := ResolveSemanticsLayer(contract);
    if issues == [] {
      CanonicalLayers(contract);
    }
    for i := 0 to |active|
      invariant LayersCanonical(contract) ==> issues == []
      invariant !LayersCanonical(contract) ==> issues != []
    {
      if active[i].name in resolved && resolved[active[i].name] == OUT_OF_SCOPE {
        if LayersCanonical(contract) {
          DefaultInScope(active[i].name);
        }
        issues := issues + [LayerOutOfScopeFieldSet(active[i].name)];
      }
    }
  }

  // ---------------------------------------------------------------- valid contracts resolve canonically

  lemma {:induction false} OverrideCanonical(contract: Dict, entries: Dict)
    requires forall i :: 0 <= i < |entries| ==> EntryCanonical(contract, entries[i])
    ensures Override(Canonical(FieldsInUse(contract)), entries) == Canonical(FieldsInUse(contract))
    decreases |entries|
  {
    hide FieldsInUse, DefaultLayer;
    if entries != [] {
      OverrideCanonical(contract, entries[..|entries| - 1]);
      assert EntryCanonical(contract, entries[|entries| - 1]);
    }
  }

  /** A contract without layer issues resolves to exactly the canonical map restricted to fields in use,
      whatever its explicit entries, and every field has its canonical layer. */
  lemma CanonicalLayers(contract: Dict)
    requires LayersCanonical(contract)
    ensures Resolved(contract) == Canonical(FieldsInUse(contract))
    ensures forall name :: FieldLayer(contract, name) == DefaultLayer(name)
  {
    hide FieldsInUse, EntryCanonical, DefaultLayer;
    OverrideCanonical(contract, ExplicitEntries(contract));
  }

  // ---------------------------------------------------------------- layers and fields, spelt out

  /** The layer of every field name without an explicit entry. */
  lemma DefaultLayers(name: string)
    ensures DefaultLayer(name) ==
              if name in {"require_capability", "require_effect", "require_tenant_match", "require_decision", "require_event_safe", "require_trace_safe"}
              then "lean" else "runtime"
  {
    TableNames(name);
    RuntimeNames(name);
    hide Known, RUNTIME_FIELDS;
  }

  lemma TableNames(name: string)
    ensures Known(name) <==>
              || name == "require_capability" || name == "require_effect" || name == "require_tenant_match" || name == "require_role"
              || name == "require_policy_ref" || name == "require_evidence_ref" || name == "require_decision" || name == "require_event_safe"
              || name == "require_trace_safe"
  {
    var f := ALL_FIELDS;
    assert |f| == 9;
    assert Known(name) <==>
             || f[0].name == name || f[1].name == name || f[2].name == name || f[3].name == name || f[4].name == name
             || f[5].name == name || f[6].name == name || f[7].name == name || f[8].name == name;
  }

  lemma RuntimeNames(name: string)
    ensures name in RUNTIME_FIELDS <==> name == "require_role" || name == "require_policy_ref" || name == "require_evidence_ref"
    ensures "require_role" !in {"require_capability", "require_effect", "require_tenant_match", "require_decision", "require_event_safe", "require_trace_safe"}
    ensures "require_policy_ref" !in {"require_capability", "require_effect", "require_tenant_match", "require_decision", "require_event_safe", "require_trace_safe"}
    ensures "require_evidence_ref" !in {"require_capability", "require_effect", "require_tenant_match", "require_decision", "require_event_safe", "require_trace_safe"}
  {
    assert |"require_role"| == 12 && |"require_policy_ref"| == 18 && |"require_evidence_ref"| == 20;
    assert |"require_capability"| == 18 && |"require_effect"| == 14 && |"require_tenant_match"| == 20 && |"require_decision"| == 16;
    assert |"require_event_safe"| == 18 && |"require_trace_safe"| == 18;
    assert "require_policy_ref"[8] == 'p' && "require_capability"[8] == 'c' && "require_event_safe"[8] == 'e' && "require_trace_safe"[8] == 't';
    assert "require_evidence_ref"[8] == 'e' && "require_tenant_match"[8] == 't';
  }

  /** The last text entry under a name. */
  ghost predicate LastEntry(entries: Dict, name: string, i: int) {
    && 0 <= i < |entries| && entries[i].key == name && entries[i].value.Str?
    && forall j :: i < j < |entries| ==> !(entries[j].key == name && entries[j].value.Str?)
  }

  lemma {:induction false} OverrideGet(layers: map<string, string>, entries: Dict, name: string)
    ensures forall i :: LastEntry(entries, name, i) ==>
              name in Override(layers, entries) && Override(layers, entries)[name] == entries[i].value.s
    ensures (forall i :: !LastEntry(entries, name, i)) ==>
              (name in Override(layers, entries) <==> name in layers)
              && (name in layers ==> Override(layers, entries)[name] == layers[name])
    decreases |entries|
  {
    if entries != [] {
      var n := |entries| - 1;
      OverrideGet(layers, entries[..n], name);
      if entries[n].key == name && entries[n].value.Str? {
        assert LastEntry(entries, name, n);
      } else {
        assert forall i :: LastEntry(entries, name, i) <==> LastEntry(entries[..n], name, i);
      }
    }
  }

  /** A field's layer is what the last text entry under its name says, else its default. */
  lemma FieldLayerMeaning(contract: Dict, name: string)
    ensures match Get(contract, "semantics_layer")
            case Some(Obj(entries)) =>
              && (forall i :: LastEntry(entries, name, i) ==> FieldLayer(contract, name) == entries[i].value.s)
              && ((forall i :: !LastEntry(entries, name, i)) ==> FieldLayer(contract, name) == DefaultLayer(name))
            case _ => FieldLayer(contract, name) == DefaultLayer(name)
  {
    hide DefaultLayer, FieldsInUse, LastEntry, Get;
    OverrideGet(Canonical(FieldsInUse(contract)), ExplicitEntries(contract), name);
  }

  /** The block of a field's section sets it to something that counts: anything but null, false and blank
      text. */
  ghost predicate SetsField(contract: Dict, field: Field) {
    match Get(contract, field.section)
    case Some(Obj(block)) =>
      (match Get(block, field.name)
       case Some(Str(s)) => exists i :: 0 <= i < |s| && !IsSpace(s[i])
       case Some(value) => value != Null && value != Bool(false)
       case None => false)
    case _ => false
  }

  lemma {:induction false} ActiveMembers(contract: Dict, fields: seq<Field>, field: Field)
    ensures field in ActiveAmong(contract, fields) <==> field in fields && FieldActive(contract, field)
    decreases |fields|
  {
    hide FieldActive;
    if fields != [] {
      var n := |fields| - 1;
      assert fields == fields[..n] + [fields[n]];
      ActiveMembers(contract, fields[..n], field);
    }
  }

  /** The fields in use are those of the table that the contract sets. */
  lemma InUseMeaning(contract: Dict, field: Field)
    ensures field in FieldsInUse(contract) <==>
              && SetsField(contract, field)
              && field in [Field("pre", "require_capability"), Field("pre", "require_effect"), Field("pre", "require_tenant_match"),
                           Field("pre", "require_role"), Field("pre", "require_policy_ref"), Field("pre", "require_evidence_ref"),
                           Field("post", "require_decision"), Field("post", "require_event_safe"), Field("invariant", "require_trace_safe")]
  {
    ActiveMembers(contract, ALL_FIELDS, field);
    ActiveMeans(contract, field);
    hide FieldActive, SetsField, ActiveAmong;
  }

  lemma ActiveMeans(contract: Dict, field: Field)
    ensures FieldActive(contract, field) <==> SetsField(contract, field)
  {
    hide Get, Strip, IsSpace;
    match Get(contract, field.section)
    case Some(Obj(block)) =>
      match Get(block, field.name) {
        case Some(Str(s)) => StripEmpty(s);
        case _ =>
      }
    case _ =>
  }

  const LAYER_FIELD := "semantics_layer"

  lemma LayerFieldApart()
    ensures forall i :: 0 <= i < |ALL_FIELDS| ==> ALL_FIELDS[i].section != LAYER_FIELD
    ensures LAYER_FIELD != "pre" && LAYER_FIELD != "post"
  {
    assert |LAYER_FIELD| == 15 && |"pre"| == 3 && |"post"| == 4 && |"invariant"| == 9;
  }

  lemma {:induction false} SameActive(a: Dict, b: Dict, fields: seq<Field>)
    requires forall i :: 0 <= i < |fields| ==> Get(a, fields[i].section) == Get(b, fields[i].section)
    ensures ActiveAmong(a, fields) == ActiveAmong(b, fields)
  {
    hide Get;
    if fields != [] {
      SameActive(a, b, fields[..|fields| - 1]);
      assert Get(a, fields[|fields| - 1].section) == Get(b, fields[|fields| - 1].section);
    }
  }

  /** Dropping the explicit layers of a contract without layer issues leaves a contract without layer
      issues, with the same fields in use and the same layer for every field. */
  lemma DroppedLayers(contract: Dict)
    requires LayersCanonical(contract)
    ensures var bare := Pop(contract, LAYER_FIELD);
            && LayersCanonical(bare) && FieldsInUse(bare) == FieldsInUse(contract)
            && Resolved(bare) == Resolved(contract) && forall name :: FieldLayer(bare, name) == FieldLayer(contract, name)
  {
    var bare := Pop(contract, LAYER_FIELD);
    LayerFieldApart();
    hide Get, EntryCanonical, DefaultLayer, ActiveAmong;
    forall name ensures Get(bare, name) == if name == LAYER_FIELD then None else Get(contract, name) {
      GetWithout(contract, {LAYER_FIELD}, name);
    }
    SameActive(bare, contract, ALL_FIELDS);
    CanonicalLayers(contract);
    CanonicalLayers(bare);
  }
}
