/** Traces and their hash chain (python/pcs_core/pf_core_runtime.py:179-198, 306-313, 1115-1227): what the
    chain check and the order check report, and when they report nothing. */
module Traces {
  import opened Wrappers
  import opened Text
  import opened Json
  import opened CanonicalJson
  import opened Primitives
  import opened ResourceScope

  // ---------------------------------------------------------------- events

  function EventItems(trace: Dict): seq<Json> {
    match Get(trace, "events")
    case Some(Arr(items)) => items
    case _ => []
  }

  /** The object events of a trace. */
  function ObjectEvents(items: seq<Json>): (r: seq<Dict>)
    ensures forall e :: e in r <==> Obj(e) in items
  {
    if items == [] then []
    else
      assert items == [items[0]] + items[1..];
      if items[0].Obj? then [items[0].members] + ObjectEvents(items[1..]) else ObjectEvents(items[1..])
  }

  function TraceEvents(trace: Dict): seq<Dict> {
    ObjectEvents(EventItems(trace))
  }

  lemma {:induction false} AllObjects(items: seq<Json>)
    requires forall i :: 0 <= i < |items| ==> items[i].Obj?
    ensures |ObjectEvents(items)| == |items| && forall i :: 0 <= i < |items| ==> ObjectEvents(items)[i] == items[i].members
  {
    if items != [] {
      AllObjects(items[1..]);
    }
  }

  // ---------------------------------------------------------------- hashes

  const GENESIS_HASH := PLACEHOLDER_DIGEST

  /** `normalize_hash`; nothing where it raises. */
  function NormalizeHash(value: string): Option<string> {
    if StartsWith(value, "sha256:") && |value| == 71 then Some(value)
    else if |value| == 64 && forall i :: 0 <= i < 64 ==> IsLowerHex(value[i]) then Some("sha256:" + value)
    else None
  }

  /** A hash is a text of 71 characters with its prefix, or 64 hexadecimal digits that get one. */
  lemma NormalizeMeaning(value: string, h: string)
    ensures NormalizeHash(value) == Some(h) <==>
              || (h == value && "sha256:" <= value && |value| == 71)
              || (h == "sha256:" + value && |value| == 64 && forall i :: 0 <= i < 64 ==> value[i] in "0123456789abcdef")
  {
    assert forall c :: IsLowerHex(c) <==> c in "0123456789abcdef";
    hide IsLowerHex;
  }

  /** The part of an event its hash covers. */
  function Hashed(event: Dict): Dict {
    Without(event, {"event_hash", SIGNATURE_FIELD})
  }

  /** `compute_event_hash`. */
  function EventHash(p: Primitives, event: Dict): (h: string)
    ensures IsDigest(h) && NormalizeHash(h) == Some(h)
  {
    p.Hash(Hashed(event))
  }

  /** `compute_trace_hash`. */
  function TraceHash(p: Primitives, trace: Dict): (h: string)
    ensures IsDigest(h) && NormalizeHash(h) == Some(h)
  {
    p.Hash(Without(trace, {"trace_hash", SIGNATURE_FIELD}))
  }

  function PreviousOf(p: Primitives, event: Dict): Option<string> {
    NormalizeHash(p.StrField(event, "previous_event_hash"))
  }

  function OwnHashOf(p: Primitives, event: Dict): Option<string> {
    NormalizeHash(p.StrField(event, "event_hash"))
  }

  // ---------------------------------------------------------------- the chain

  /** What the event at `i` has to name as its predecessor. */
  function Before(p: Primitives, items: seq<Json>, i: nat): Option<string>
    requires i <= |items|
  {
    if i == 0 then Some(GENESIS_HASH) else if items[i - 1].Obj? then Some(EventHash(p, items[i - 1].members)) else None
  }

  /** The event names the hash of the one before it, and its own. */
  predicate EventLinked(p: Primitives, items: seq<Json>, i: nat)
    requires i < |items|
  {
    && items[i].Obj? && Before(p, items, i).Some? && PreviousOf(p, items[i].members) == Before(p, items, i)
    && OwnHashOf(p, items[i].members) == Some(EventHash(p, items[i].members))
  }

  predicate Linked(p: Primitives, items: seq<Json>) {
    forall i :: 0 <= i < |items| ==> EventLinked(p, items, i)
  }

  datatype ChainError =
    | EventsNotList | EventNotObject(index: int) | PreviousUnreadable(index: int) | PreviousMismatch(index: int)
    | EventHashUnreadable(index: int) | EventHashMismatch(index: int) | TraceHashNotText | TraceHashUnreadable | TraceHashMismatch
    | ClaimOverclaim | OutsidePattern(index: int)

  /** The loop over the events; after an error it goes on from the last readable event hash. */
  method LinkErrors(p: Primitives, items: seq<Json>) returns (errors: seq<ChainError>)
    ensures errors == [] <==> Linked(p, items)
    ensures forall i :: OutsidePattern(i) !in errors
  {
    hide EventHash, PreviousOf, OwnHashOf, GENESIS_HASH;
    errors := [];
    var previous := GENESIS_HASH;
    for index := 0 to |items|
      invariant errors == [] <==> forall i :: 0 <= i < index ==> EventLinked(p, items, i)
      invariant errors == [] ==> Before(p, items, index) == Some(previous)
      invariant forall i :: OutsidePattern(i) !in errors
    {
      if !items[index].Obj? {
        errors := errors + [EventNotObject(index)];
        assert !EventLinked(p, items, index);
        continue;
      }
      var event := items[index].members;
      var named := PreviousOf(p, event);
      ghost var clean := errors == [];
      assert clean ==> (EventLinked(p, items, index) <==> named == Some(previous) && OwnHashOf(p, event) == Some(EventHash(p, event)));
      if named.None? {
        errors := errors + [PreviousUnreadable(index)];
        continue;
      }
      if named.value != previous {
        errors := errors + [PreviousMismatch(index)];
      }
      var own := OwnHashOf(p, event);
      if own.None? {
        errors := errors + [EventHashUnreadable(index)];
        continue;
      }
      if own.value != EventHash(p, event) {
        errors := errors + [EventHashMismatch(index)];
      }
      previous := own.value;
    }
  }

  /** The trace names its own hash; a trace without one is not checked further. */
  predicate TraceHashHolds(p: Primitives, trace: Dict) {
    match Get(trace, "trace_hash")
    case Some(Str(s)) => NormalizeHash(s) == Some(TraceHash(p, trace))
    case _ => false
  }

  // ---------------------------------------------------------------- claim classes

  const TRACE_CLAIM_CLASSES: set<string> := {"SchemaValidated", "RuntimeChecked", "ReplayValidated", "AssumptionDeclared", "OutOfScope"}

  /** `_assert_claim_class_allowed`, without and with a proof reference: its last two guards never decide. */
  method ClaimAllowed(claim: string, proofRef: bool) returns (allowed: bool)
    ensures allowed <==> claim in {"SchemaValidated", "RuntimeChecked", "ReplayValidated", "AssumptionDeclared", "OutOfScope"}
  {
    if claim !in TRACE_CLAIM_CLASSES {
      return false;
    }
    assert |"LeanKernelChecked"| == 17 && |"CertificateChecked"| == 18 && |"SchemaValidated"| == 15 && |"RuntimeChecked"| == 14;
    assert |"ReplayValidated"| == 15 && |"AssumptionDeclared"| == 18 && |"OutOfScope"| == 10;
    assert "CertificateChecked"[0] != "AssumptionDeclared"[0];
    if claim == "LeanKernelChecked" && !proofRef {
      return false;
    }
    if claim == "CertificateChecked" {
      return false;
    }
    return true;
  }

  predicate ClaimHolds(trace: Dict) {
    match Get(trace, "claim_class")
    case Some(Str(claim)) => claim in {"SchemaValidated", "RuntimeChecked", "ReplayValidated", "AssumptionDeclared", "OutOfScope"}
    case _ => true
  }

  predicate Truthy(v: Option<Json>) {
    v.Some? && !Falsy(v.value)
  }

  // ---------------------------------------------------------------- resources along a trace

  /** An object event whose object action leaves its capability's pattern. */
  predicate Outside(p: Primitives, item: Json) {
    item.Obj? && ObjectAt(item.members, "action").Some? && !InScope(p, ObjectAt(item.members, "action").value)
  }

  /** The last loop: one error for each action outside its pattern. */
  method ScopeErrors(p: Primitives, items: seq<Json>) returns (errors: seq<ChainError>)
    ensures forall i :: OutsidePattern(i) in errors <==> 0 <= i < |items| && Outside(p, items[i])
    ensures forall e :: e in errors ==> e.OutsidePattern?
    ensures forall i, j :: 0 <= i < j < |errors| ==> errors[i] != errors[j]
  {
    hide InScope, FitsPattern, ObjectAt;
    errors := [];
    for index := 0 to |items|
      invariant forall i :: OutsidePattern(i) in errors <==> 0 <= i < index && Outside(p, items[i])
      invariant forall e :: e in errors ==> e.OutsidePattern?
      invariant forall i, j :: 0 <= i < j < |errors| ==> errors[i] != errors[j]
    {
      if items[index].Obj? && ObjectAt(items[index].members, "action").Some? {
        var violation := ValidateResourceScope(p, ObjectAt(items[index].members, "action").value);
        if violation.Some? {
          assert OutsidePattern(index) !in errors;
          errors := errors + [OutsidePattern(index)];
        }
      }
    }
  }

  predicate AllInPattern(p: Primitives, items: seq<Json>) {
    forall i :: 0 <= i < |items| ==> !Outside(p, items[i])
  }

  /** What a trace without chain errors satisfies. */
  predicate ChainHolds(p: Primitives, trace: Dict) {
    match Get(trace, "events")
    case Some(Arr(items)) =>
      && Linked(p, items)
      && (match Get(trace, "trace_hash")
          case None => true
          case Some(Null) => true
          case _ => TraceHashHolds(p, trace) && ClaimHolds(trace) && AllInPattern(p, items))
    case _ => false
  }

  /** `validate_pfcore_trace_hash_chain`: nothing exactly for a chain that holds; and past the trace hash
      one error for each action outside its pattern, whatever else is wrong. */
  method ChainErrors(p: Primitives, trace: Dict) returns (errors: seq<ChainError>)
    ensures errors == [] <==> ChainHolds(p, trace)
    ensures Get(trace, "events").Some? && Get(trace, "events").value.Arr? && Get(trace, "trace_hash") !in {None, Some(Null)} ==>
              forall i :: OutsidePattern(i) in errors <==> 0 <= i < |EventItems(trace)| && Outside(p, EventItems(trace)[i])
  {
    hide Linked, TraceHash, InScope, TRACE_CLAIM_CLASSES;
    var events := Get(trace, "events");
    if events.None? || !events.value.Arr? {
      return [EventsNotList];
    }
    var items := events.value.items;
    errors := LinkErrors(p, items);
    var traceHash := Get(trace, "trace_hash");
    if traceHash.None? || traceHash.value.Null? {
      return errors;
    }
    if !traceHash.value.Str? {
      errors := errors + [TraceHashNotText];
    } else if NormalizeHash(traceHash.value.s).None? {
      errors := errors + [TraceHashUnreadable];
    } else if NormalizeHash(traceHash.value.s).value != TraceHash(p, trace) {
      errors := errors + [TraceHashMismatch];
    }
    assert errors == [] <==> Linked(p, items) && TraceHashHolds(p, trace);
    var claim := Get(trace, "claim_class");
    if claim.Some? && claim.value.Str? {
      var allowed := ClaimAllowed(claim.value.s, Truthy(Get(trace, "proof_ref")) || Truthy(Get(trace, "proof_term_ref")));
      if !allowed {
        errors := errors + [ClaimOverclaim];
      }
    }
    assert errors == [] <==> Linked(p, items) && TraceHashHolds(p, trace) && ClaimHolds(trace);
    var outside := ScopeErrors(p, items);
    NoneOutside(p, items, outside);
    errors := errors + outside;
  }

  lemma NoneOutside(p: Primitives, items: seq<Json>, errors: seq<ChainError>)
    requires forall i :: OutsidePattern(i) in errors <==> 0 <= i < |items| && Outside(p, items[i])
    requires forall e :: e in errors ==> e.OutsidePattern?
    ensures errors == [] <==> AllInPattern(p, items)
  {
    hide Outside;
    if errors != [] {
      assert errors[0] in errors;
    }
  }

  // ---------------------------------------------------------------- the order of events

  /** An event's sequence number; a truth value counts as 0 or 1, as `isinstance(…, int)` lets it. */
  function SequenceIn(event: Dict): Option<int> {
    match Get(event, "sequence")
    case Some(Int(n)) => Some(n)
    case Some(Bool(b)) => Some(if b then 1 else 0)
    case _ => None
  }

  /** Every event is numbered, each one above the event before it by one. */
  predicate InOrder(events: seq<Dict>) {
    events == [] || (SequenceIn(events[0]).Some?
                     && forall i :: 0 <= i < |events| ==> SequenceIn(events[i]) == Some(SequenceIn(events[0]).value + i))
  }

  datatype OrderError = SequenceInvalid | SequenceDuplicate | SequenceMismatch | SequenceGap

  /** `validate_event_sequence_order` over the object events: nothing exactly for consecutive numbers. */
  method OrderErrors(events: seq<Dict>) returns (errors: seq<OrderError>)
    ensures errors == [] <==> InOrder(events)
  {
    hide SequenceIn;
    errors := [];
    var seen: set<int>, last: Option<int> := {}, None;
    for index := 0 to |events|
      invariant errors == [] <==> InOrder(events[..index])
      invariant errors == [] ==>
                  && (if index == 0 then last.None? else last == Some(SequenceIn(events[0]).value + (index - 1)))
                  && forall n :: n in seen ==> last.Some? && n <= last.value
    {
      ghost var upTo := events[..index + 1];
      assert upTo[..index] == events[..index] && upTo[index] == events[index] && upTo[0] == events[0];
      assert InOrder(upTo) ==> InOrder(events[..index]);
      var sequence := SequenceIn(events[index]);
      if sequence.None? {
        errors := errors + [SequenceInvalid];
        continue;
      }
      if sequence.value in seen {
        errors := errors + [SequenceDuplicate];
      }
      seen := seen + {sequence.value};
      if last.Some? && sequence.value < last.value {
        errors := errors + [SequenceMismatch];
      }
      if last.Some? && sequence.value != last.value + 1 {
        errors := errors + [SequenceGap];
      }
      last := sequence;
    }
    assert events[..|events|] == events;
  }

  // ---------------------------------------------------------------- what the schema demands

  predicate DigestText(v: Option<Json>) {
    v.Some? && v.value.Str? && IsDigest(v.value.s)
  }

  /** An event with object principal and action and both hashes. */
  predicate EventShaped(item: Json) {
    && item.Obj? && ObjectAt(item.members, "principal").Some? && ObjectAt(item.members, "action").Some?
    && DigestText(Get(item.members, "previous_event_hash")) && DigestText(Get(item.members, "event_hash"))
  }

  /** The part of the schema of a trace that the checks after it rely on. */
  predicate Shaped(trace: Dict) {
    && DigestText(Get(trace, "trace_hash")) && Get(trace, "events").Some? && Get(trace, "events").value.Arr?
    && forall i :: 0 <= i < |EventItems(trace)| ==> EventShaped(EventItems(trace)[i])
  }

  ghost predicate HoldsDigest(d: Dict, name: string) {
    exists s :: Get(d, name) == Some(Str(s)) && IsDigest(s)
  }

  /** An object with both hashes and with objects for principal and action. */
  ghost predicate HasShape(item: Json) {
    && item.Obj? && HoldsDigest(item.members, "previous_event_hash") && HoldsDigest(item.members, "event_hash")
    && (exists d :: Get(item.members, "principal") == Some(Obj(d))) && exists d :: Get(item.members, "action") == Some(Obj(d))
  }

  lemma EventShapeMeans(item: Json)
    ensures EventShaped(item) <==> HasShape(item)
  {
    hide Get, IsDigest;
  }

  /** What the later checks rely on, over the fields of trace and events. */
  lemma ShapedMeaning(trace: Dict)
    ensures Shaped(trace) <==>
              && HoldsDigest(trace, "trace_hash")
              && match Get(trace, "events")
                 case Some(Arr(items)) => forall i :: 0 <= i < |items| ==> HasShape(items[i])
                 case _ => false
  {
    hide Get, IsDigest, HasShape, EventShaped;
    match Get(trace, "events")
    case Some(Arr(items)) =>
      assert EventItems(trace) == items;
      forall i | 0 <= i < |items| ensures EventShaped(items[i]) <==> HasShape(items[i]) {
        EventShapeMeans(items[i]);
      }
    case _ =>
  }

  /** A trace of the schema's shape without chain errors has every event linked and in its pattern. */
  lemma ShapedChain(p: Primitives, trace: Dict)
    requires Shaped(trace) && ChainHolds(p, trace)
    ensures Linked(p, EventItems(trace)) && TraceHashHolds(p, trace) && AllInPattern(p, EventItems(trace))
  {
    hide Linked, AllInPattern, TraceHashHolds;
  }
}
