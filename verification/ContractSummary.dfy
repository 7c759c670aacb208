/** The summary of contract fields checked per layer (python/pcs_core/pf_core_contract_semantics.py:280-335):
    it depends only on the set of contracts a trace refers to. */
module ContractSummary {
  import opened Wrappers
  import opened Text
  import opened Json
  import opened Primitives
  import opened Traces
  import opened Sorting
  import opened ContractLayers

  // ---------------------------------------------------------------- certificate keys

  function CertKey(id: string, f: Field): string {
    id + "." + f.section + "." + f.name
  }

  lemma DotsSplit(a: string, s: string, b: string, t: string)
    requires a + "." + s == b + "." + t && '.' !in s && '.' !in t
    ensures a == b && s == t
  {
    var x, y := a + "." + s, b + "." + t;
    assert x[|a|] == '.' && y[|b|] == '.';
    assert forall i :: |a| < i < |x| ==> x[i] == s[i - |a| - 1];
    assert forall i :: |b| < i < |y| ==> y[i] == t[i - |b| - 1];
    assert |a| == |b|;
    assert x[..|a|] == a && y[..|b|] == b && x[|a| + 1..] == s && y[|b| + 1..] == t;
  }

  predicate NoDots(f: Field) {
    '.' !in f.section && '.' !in f.name
  }

  lemma TableNoDots()
    ensures forall f :: f in ALL_FIELDS ==> NoDots(f)
  {
    hide NoDots;
    CapabilityNoDots();
    EffectNoDots();
    TenantMatchNoDots();
    RoleNoDots();
    PolicyRefNoDots();
    EvidenceRefNoDots();
    DecisionNoDots();
    EventSafeNoDots();
    TraceSafeNoDots();
  }

  lemma CapabilityNoDots() ensures NoDots(ALL_FIELDS[0]) {}

  lemma EffectNoDots() ensures NoDots(ALL_FIELDS[1]) {}

  lemma TenantMatchNoDots() ensures NoDots(ALL_FIELDS[2]) {}

  lemma RoleNoDots() ensures NoDots(ALL_FIELDS[3]) {}

  lemma PolicyRefNoDots() ensures NoDots(ALL_FIELDS[4]) {}

  lemma EvidenceRefNoDots() ensures NoDots(ALL_FIELDS[5]) {}

  lemma DecisionNoDots() ensures NoDots(ALL_FIELDS[6]) {}

  lemma EventSafeNoDots() ensures NoDots(ALL_FIELDS[7]) {}

  lemma TraceSafeNoDots() ensures NoDots(ALL_FIELDS[8]) {}

  /** A key names one contract and one field, whatever dots the contract id holds. */
  lemma KeyInjective(a: string, f: Field, b: string, g: Field)
    requires f in ALL_FIELDS && g in ALL_FIELDS && CertKey(a, f) == CertKey(b, g)
    ensures a == b && f == g
  {
    TableNoDots();
    assert NoDots(f) && NoDots(g);
    assert CertKey(a, f) == (a + "." + f.section) + "." + f.name && CertKey(b, g) == (b + "." + g.section) + "." + g.name;
    DotsSplit(a + "." + f.section, f.name, b + "." + g.section, g.name);
    DotsSplit(a, f.section, b, g.section);
  }

  // ---------------------------------------------------------------- what a set of references means

  function KeysOf(contracts: map<string, Dict>, ids: set<string>): set<string> {
    set id, f | id in ids && id in contracts && f in FieldsInUse(contracts[id]) :: CertKey(id, f)
  }

  function LayerKeys(contracts: map<string, Dict>, ids: set<string>, layer: string): set<string> {
    set id, f | id in ids && id in contracts && f in FieldsInUse(contracts[id]) && FieldLayer(contracts[id], f.name) == layer :: CertKey(id, f)
  }

  function MissingKeys(contracts: map<string, Dict>, ids: set<string>): set<string> {
    set id | id in ids && id !in contracts :: "missing_contract:" + id
  }

  ghost predicate Summarised(contracts: map<string, Dict>, ids: set<string>, lean: seq<string>, runtime: seq<string>, seen: set<string>) {
    && seen == KeysOf(contracts, ids)
    && AsSet(lean) == LayerKeys(contracts, ids, LEAN)
    && AsSet(runtime) == LayerKeys(contracts, ids, RUNTIME) + MissingKeys(contracts, ids)
  }

  // ---------------------------------------------------------------- one reference

  function FieldKeys(id: string, fields: seq<Field>): set<string> {
    set f | f in fields :: CertKey(id, f)
  }

  function FieldLayerKeys(id: string, contract: Dict, fields: seq<Field>, layer: string): set<string> {
    set f | f in fields && FieldLayer(contract, f.name) == layer :: CertKey(id, f)
  }

  lemma LayersApart() ensures LEAN != RUNTIME
  {
    assert |LEAN| == 4 && |RUNTIME| == 7;
  }

  lemma AsSetAppend(s: seq<string>, x: string)
    ensures AsSet(s + [x]) == AsSet(s) + {x}
  {
  }

  lemma NoFields(id: string, contract: Dict)
    ensures FieldKeys(id, []) == {} && forall layer :: FieldLayerKeys(id, contract, [], layer) == {}
  {
  }

  lemma KeysGrow(id: string, contract: Dict, fields: seq<Field>, f: Field, layer: string)
    ensures FieldKeys(id, fields + [f]) == FieldKeys(id, fields) + {CertKey(id, f)}
    ensures FieldLayerKeys(id, contract, fields + [f], layer)
         == FieldLayerKeys(id, contract, fields, layer) + (if FieldLayer(contract, f.name) == layer then {CertKey(id, f)} else {})
  {
    hide FieldLayer, CertKey;
  }

  /** A key seen before has been counted before, under the same layer. */
  lemma SeenCounted(contracts: map<string, Dict>, ids: set<string>, id: string, fields: seq<Field>, f: Field)
    requires id in contracts && f in FieldsInUse(contracts[id]) && (forall g :: g in fields ==> g in FieldsInUse(contracts[id]))
    requires CertKey(id, f) in KeysOf(contracts, ids) + FieldKeys(id, fields)
    ensures CertKey(id, f) in LayerKeys(contracts, ids, FieldLayer(contracts[id], f.name))
                            + FieldLayerKeys(id, contracts[id], fields, FieldLayer(contracts[id], f.name))
  {
    hide FieldLayer, CertKey;
    assert f in ALL_FIELDS;
    if CertKey(id, f) in KeysOf(contracts, ids) {
      var other, g :| other in ids && other in contracts && g in FieldsInUse(contracts[other]) && CertKey(other, g) == CertKey(id, f);
      KeyInjective(id, f, other, g);
    } else {
      var g :| g in fields && CertKey(id, g) == CertKey(id, f);
      KeyInjective(id, f, id, g);
    }
  }

  /** The loop over the fields of one referenced contract. */
  method CheckContract(contracts: map<string, Dict>, ghost ids: set<string>, id: string, lean0: seq<string>, runtime0: seq<string>, seen0: set<string>)
    returns (lean: seq<string>, runtime: seq<string>, seen: set<string>)
    requires id in contracts && Summarised(contracts, ids, lean0, runtime0, seen0)
    ensures Summarised(contracts, ids + {id}, lean, runtime, seen)
  {
    hide FieldLayer, CertKey, FieldsInUse, KeysOf, LayerKeys, MissingKeys, FieldKeys, FieldLayerKeys, AsSet;
    var contract := contracts[id];
    var fields := FieldsInUse(contract);
    lean, runtime, seen := lean0, runtime0, seen0;
    NoFields(id, contract);
    for k := 0 to |fields|
      invariant seen == seen0 + FieldKeys(id, fields[..k])
      invariant AsSet(lean) == AsSet(lean0) + FieldLayerKeys(id, contract, fields[..k], LEAN)
      invariant AsSet(runtime) == AsSet(runtime0) + FieldLayerKeys(id, contract, fields[..k], RUNTIME)
    {
      assert fields[..k + 1] == fields[..k] + [fields[k]];
      KeysGrow(id, contract, fields[..k], fields[k], LEAN);
      KeysGrow(id, contract, fields[..k], fields[k], RUNTIME);
      LayersApart();
      var key := CertKey(id, fields[k]);
      if key in seen {
        SeenCounted(contracts, ids, id, fields[..k], fields[k]);
        continue;
      }
      seen := seen + {key};
      var layer := FieldLayer(contract, fields[k].name);
      if layer == LEAN {
        AsSetAppend(lean, key);
        lean := lean + [key];
      } else if layer == RUNTIME {
        AsSetAppend(runtime, key);
        runtime := runtime + [key];
      }
    }
    assert fields[..|fields|] == fields;
    AddReference(contracts, ids, id);
  }

  lemma AddReference(contracts: map<string, Dict>, ids: set<string>, id: string)
    requires id in contracts
    ensures KeysOf(contracts, ids + {id}) == KeysOf(contracts, ids) + FieldKeys(id, FieldsInUse(contracts[id]))
    ensures LayerKeys(contracts, ids + {id}, LEAN)
         == LayerKeys(contracts, ids, LEAN) + FieldLayerKeys(id, contracts[id], FieldsInUse(contracts[id]), LEAN)
    ensures LayerKeys(contracts, ids + {id}, RUNTIME)
         == LayerKeys(contracts, ids, RUNTIME) + FieldLayerKeys(id, contracts[id], FieldsInUse(contracts[id]), RUNTIME)
    ensures MissingKeys(contracts, ids + {id}) == MissingKeys(contracts, ids)
  {
    hide FieldLayer, CertKey, FieldsInUse;
  }

  lemma AddMissing(contracts: map<string, Dict>, ids: set<string>, id: string)
    requires id !in contracts
    ensures KeysOf(contracts, ids + {id}) == KeysOf(contracts, ids)
    ensures LayerKeys(contracts, ids + {id}, LEAN) == LayerKeys(contracts, ids, LEAN)
    ensures LayerKeys(contracts, ids + {id}, RUNTIME) == LayerKeys(contracts, ids, RUNTIME)
    ensures MissingKeys(contracts, ids + {id}) == MissingKeys(contracts, ids) + {"missing_contract:" + id}
  {
    hide FieldLayer, CertKey, FieldsInUse;
  }

  // ---------------------------------------------------------------- a trace

  datatype Raised = SequenceNotInteger

  /** `int(event.get("sequence") or 0)`, which may raise. */
  type SequenceOf = Dict -> Option<int>

  function PlaceEvent(order: SequenceOf, e: Dict, sorted: seq<Dict>): (r: seq<Dict>)
    requires order(e).Some? && forall x :: x in sorted ==> order(x).Some?
    ensures forall x :: x in r <==> x == e || x in sorted
  {
    if sorted == [] || order(e).value <= order(sorted[0]).value then [e] + sorted
    else
      assert sorted == [sorted[0]] + sorted[1..];
      [sorted[0]] + PlaceEvent(order, e, sorted[1..])
  }

  function BySequence(order: SequenceOf, events: seq<Dict>): (r: seq<Dict>)
    requires forall x :: x in events ==> order(x).Some?
    ensures forall x :: x in r <==> x in events
  {
    if events == [] then []
    else
      assert events == [events[0]] + events[1..];
      PlaceEvent(order, events[0], BySequence(order, events[1..]))
  }

  function RefsOfEvent(event: Dict): seq<Json> {
    match Get(event, "contract_refs")
    case Some(Arr(refs)) => refs
    case _ => []
  }

  function IdsOf(p: Primitives, refs: seq<Json>): set<string> {
    set ref | ref in refs :: p.StrOf(ref)
  }

  function ReferencedIn(p: Primitives, events: seq<Dict>): set<string> {
    set e, ref | e in events && ref in RefsOfEvent(e) :: p.StrOf(ref)
  }

  /** The contracts a trace refers to. */
  function ReferencedIds(p: Primitives, trace: Dict): set<string> {
    ReferencedIn(p, TraceEvents(trace))
  }

  /** A contract is referred to when an object event's list of references holds something that reads as its id. */
  lemma ReferencedMeaning(p: Primitives, trace: Dict, id: string)
    ensures id in ReferencedIds(p, trace) <==>
              match Get(trace, "events")
              case Some(Arr(events)) =>
                exists e, refs, ref :: Obj(e) in events && Get(e, "contract_refs") == Some(Arr(refs)) && ref in refs && p.StrOf(ref) == id
              case _ => false
  {
    hide Get;
    if e, ref :| e in TraceEvents(trace) && ref in RefsOfEvent(e) && p.StrOf(ref) == id {
      assert Get(e, "contract_refs") == Some(Arr(RefsOfEvent(e)));
    }
  }

  datatype CheckedSummary = CheckedSummary(lean: seq<string>, runtime: seq<string>)

  /** The summary a set of references has: both lists sorted, without repetitions. */
  ghost predicate SummaryOf(contracts: map<string, Dict>, ids: set<string>, s: CheckedSummary) {
    && Ascending(Self, s.lean) && AsSet(s.lean) == LayerKeys(contracts, ids, LEAN)
    && Ascending(Self, s.runtime) && AsSet(s.runtime) == LayerKeys(contracts, ids, RUNTIME) + MissingKeys(contracts, ids)
  }

  lemma ReferencedGrow(p: Primitives, events: seq<Dict>, e: Dict)
    ensures ReferencedIn(p, events + [e]) == ReferencedIn(p, events) + IdsOf(p, RefsOfEvent(e))
  {
    hide RefsOfEvent;
    var all := events + [e];
    forall x | x in ReferencedIn(p, events) + IdsOf(p, RefsOfEvent(e)) ensures x in ReferencedIn(p, all) {
      if x in IdsOf(p, RefsOfEvent(e)) {
        assert e in all;
      }
    }
  }

  lemma IdsGrow(p: Primitives, refs: seq<Json>, ref: Json)
    ensures IdsOf(p, refs + [ref]) == IdsOf(p, refs) + {p.StrOf(ref)}
  {
  }

  /** The loop over the references of one event. */
  method CheckReferences(p: Primitives, contracts: map<string, Dict>, ghost ids: set<string>, refs: seq<Json>,
                         lean0: seq<string>, runtime0: seq<string>, seen0: set<string>)
    returns (lean: seq<string>, runtime: seq<string>, seen: set<string>)
    requires Summarised(contracts, ids, lean0, runtime0, seen0)
    ensures Summarised(contracts, ids + IdsOf(p, refs), lean, runtime, seen)
  {
    hide KeysOf, LayerKeys, MissingKeys;
    lean, runtime, seen := lean0, runtime0, seen0;
    assert ids + IdsOf(p, refs[..0]) == ids;
    for k := 0 to |refs|
      invariant Summarised(contracts, ids + IdsOf(p, refs[..k]), lean, runtime, seen)
    {
      assert refs[..k + 1] == refs[..k] + [refs[k]];
      IdsGrow(p, refs[..k], refs[k]);
      ghost var before := ids + IdsOf(p, refs[..k]);
      assert ids + IdsOf(p, refs[..k + 1]) == before + {p.StrOf(refs[k])};
      var id := p.StrOf(refs[k]);
      if id !in contracts {
        AddMissing(contracts, before, id);
        AsSetAppend(runtime, "missing_contract:" + id);
        runtime := runtime + ["missing_contract:" + id];
        continue;
      }
      lean, runtime, seen := CheckContract(contracts, before, id, lean, runtime, seen);
    }
    assert refs[..|refs|] == refs;
  }

  /** `build_contract_semantics_checked`. */
  method BuildContractSemanticsChecked(p: Primitives, order: SequenceOf, trace: Dict, contracts: map<string, Dict>)
    returns (r: Result<CheckedSummary, Raised>)
    ensures r.Ok? <==> forall e :: e in TraceEvents(trace) ==> order(e).Some?
    ensures r.Ok? ==> SummaryOf(contracts, ReferencedIds(p, trace), r.value)
  {
    hide KeysOf, LayerKeys, MissingKeys, Less, TraceEvents, RefsOfEvent;
    var events := TraceEvents(trace);
    if exists e :: e in events && order(e).None? {
      return Err(SequenceNotInteger);
    }
    var sorted := BySequence(order, events);
    var lean: seq<string>, runtime: seq<string>, seen: set<string> := [], [], {};
    NoReferences(p, contracts);
    if forall e :: e in sorted ==> RefsOfEvent(e) == [] {
      SameReferenced(p, sorted, events);
      assert ReferencedIn(p, sorted) == {} == ReferencedIn(p, []);
      return Ok(CheckedSummary([], []));
    }
    for i := 0 to |sorted|
      invariant Summarised(contracts, ReferencedIn(p, sorted[..i]), lean, runtime, seen)
    {
      assert sorted[..i + 1] == sorted[..i] + [sorted[i]];
      ReferencedGrow(p, sorted[..i], sorted[i]);
      lean, runtime, seen := CheckReferences(p, contracts, ReferencedIn(p, sorted[..i]), RefsOfEvent(sorted[i]), lean, runtime, seen);
    }
    assert sorted[..|sorted|] == sorted;
    SameReferenced(p, sorted, events);
    var leanList := SortSet(AsSet(lean));
    var runtimeList := SortSet(AsSet(runtime));
    return Ok(CheckedSummary(leanList, runtimeList));
  }

  lemma NoReferences(p: Primitives, contracts: map<string, Dict>)
    ensures Summarised(contracts, ReferencedIn(p, []), [], [], {})
  {
    hide FieldLayer, CertKey, FieldsInUse;
  }

  lemma SameReferenced(p: Primitives, a: seq<Dict>, b: seq<Dict>)
    requires forall e :: e in a <==> e in b
    ensures ReferencedIn(p, a) == ReferencedIn(p, b)
  {
    hide RefsOfEvent;
  }

  /** Traces that refer to the same set of contracts have the same summary: event order, repetition and
      everything else in them is invisible. */
  lemma SummaryDependsOnReferences(contracts: map<string, Dict>, ids: set<string>, a: CheckedSummary, b: CheckedSummary)
    requires SummaryOf(contracts, ids, a) && SummaryOf(contracts, ids, b)
    ensures a == b
  {
    hide LayerKeys, MissingKeys, Ascending;
    SetUnique(a.lean, b.lean);
    SetUnique(a.runtime, b.runtime);
  }
}
