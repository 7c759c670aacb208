/** Compiling a tool-use trace into a chained trace (python/pcs_core/pf_core_runtime.py:344-383, 1000-1096). */
module TraceCompile {
  import opened Wrappers
  import opened Json
  import opened CanonicalJson
  import opened Primitives
  import opened ResourceScope
  import opened Traces

  /** What a tool call or a handoff contributes to its event: the action, and the fields no chain check reads. */
  datatype Draft = Draft(action: Dict, rest: Dict)

  /** An event before its own hash is known. */
  function Unhashed(d: Draft, sequence: int, previous: string): Dict {
    var numbered := Put(Put(d.rest, "action", Obj(d.action)), "sequence", Int(sequence));
    Put(Put(Put(numbered, "previous_event_hash", Str(previous)), "event_hash", Str(GENESIS_HASH)), SIGNATURE_FIELD, Str(GENESIS_HASH))
  }

  /** `_finalize_event`. */
  function Finalize(p: Primitives, d: Draft, sequence: int, previous: string): Dict {
    var event := Unhashed(d, sequence, previous);
    var hash := EventHash(p, event);
    Put(Put(event, "event_hash", Str(hash)), SIGNATURE_FIELD, Str(hash))
  }

  /** The hash the next event names: the last event's, or the first predecessor's. */
  function LastHash(p: Primitives, events: seq<Dict>): string {
    if events == [] then GENESIS_HASH else p.StrField(events[|events| - 1], "event_hash")
  }

  function Next(p: Primitives, events: seq<Dict>, d: Draft, sequence: int): seq<Dict> {
    events + [Finalize(p, d, sequence, LastHash(p, events))]
  }

  /** The events of tool calls, numbered by position. */
  function CallEvents(p: Primitives, calls: seq<Draft>): (events: seq<Dict>)
    ensures |events| == |calls|
  {
    if calls == [] then []
    else
      var n := |calls| - 1;
      Next(p, CallEvents(p, calls[..n]), calls[n], n)
  }

  /** The events of handoffs after `before`, each numbered by how many events there are plus its own
      position, so that the numbers grow by two. */
  function HandoffEvents(p: Primitives, before: seq<Dict>, handoffs: seq<Draft>): (events: seq<Dict>)
    ensures |events| == |before| + |handoffs|
  {
    if handoffs == [] then before
    else
      var n := |handoffs| - 1;
      var events := HandoffEvents(p, before, handoffs[..n]);
      Next(p, events, handoffs[n], |events| + n)
  }

  function AsObjects(events: seq<Dict>): (items: seq<Json>)
    ensures |items| == |events| && forall i :: 0 <= i < |items| ==> items[i] == Obj(events[i])
  {
    seq(|events|, i requires 0 <= i < |events| => Obj(events[i]))
  }

  /** The trace around its events, under its own hash; `header` holds the fields copied from the source. */
  function SealTrace(p: Primitives, header: Dict, events: seq<Dict>): Dict {
    var body := Put(Put(header, "events", Arr(AsObjects(events))), "claim_class", Str("RuntimeChecked"));
    var unsealed := Put(Put(body, "trace_hash", Str(GENESIS_HASH)), SIGNATURE_FIELD, Str(GENESIS_HASH));
    var hash := TraceHash(p, unsealed);
    Put(Put(unsealed, "trace_hash", Str(hash)), SIGNATURE_FIELD, Str(hash))
  }

  datatype CompileError = NoToolCalls | ScopeViolated(violation: ScopeViolation)

  predicate AllInScope(p: Primitives, drafts: seq<Draft>) {
    forall i :: 0 <= i < |drafts| ==> InScope(p, drafts[i].action)
  }

  /** The part of `compile_tool_use_trace_to_pfcore_trace` from the drafts on: it raises exactly without
      tool calls or at an action outside its pattern. */
  method CompileTrace(p: Primitives, header: Dict, calls: seq<Draft>, handoffs: seq<Draft>) returns (r: Result<Dict, CompileError>)
    ensures r.Ok? <==> calls != [] && AllInScope(p, calls) && AllInScope(p, handoffs)
    ensures r.Ok? ==> r.value == SealTrace(p, header, HandoffEvents(p, CallEvents(p, calls), handoffs))
  {
    hide Finalize, InScope, SealTrace, LastHash;
    if calls == [] {
      return Err(NoToolCalls);
    }
    var events: seq<Dict> := [];
    for index := 0 to |calls|
      invariant events == CallEvents(p, calls[..index]) && AllInScope(p, calls[..index])
    {
      assert calls[..index + 1][..index] == calls[..index];
      var violation := ValidateResourceScope(p, calls[index].action);
      if violation.Some? {
        return Err(ScopeViolated(violation.value));
      }
      events := events + [Finalize(p, calls[index], index, LastHash(p, events))];
    }
    assert calls[..|calls|] == calls;
    for offset := 0 to |handoffs|
      invariant events == HandoffEvents(p, CallEvents(p, calls), handoffs[..offset]) && AllInScope(p, handoffs[..offset])
    {
      assert handoffs[..offset + 1][..offset] == handoffs[..offset];
      var violation := ValidateResourceScope(p, handoffs[offset].action);
      if violation.Some? {
        return Err(ScopeViolated(violation.value));
      }
      events := events + [Finalize(p, handoffs[offset], |events| + offset, LastHash(p, events))];
    }
    assert handoffs[..|handoffs|] == handoffs;
    return Ok(SealTrace(p, header, events));
  }
}
