/** What the hash chain pins, and which compiled traces the checks accept. */
module TraceTheorems {
  import opened Wrappers
  import opened Text
  import opened Json
  import opened CanonicalJson
  import opened CanonicalMeaning
  import opened Primitives
  import opened ResourceScope
  import opened Traces
  import opened TraceCompile
  import opened Deciders
  import opened PfCoreCheck
  import Utf8

  // ---------------------------------------------------------------- one hash, one history

  /** Two events that agree on every field but the four their hashes never cover. */
  ghost predicate SameEvent(a: Dict, b: Dict) {
    var dropped := {"event_hash", "signature_or_digest", "artifact_digest", "signature"};
    Fields(a) - dropped == Fields(b) - dropped
  }

  /** Two traces that agree on every field but the four the trace hash never covers. */
  ghost predicate SameTrace(a: Dict, b: Dict) {
    var dropped := {"trace_hash", "signature_or_digest", "artifact_digest", "signature"};
    Fields(a) - dropped == Fields(b) - dropped
  }

  /** Two different texts under one hash. */
  ghost predicate TextsCollide(p: Primitives, a: Dict, b: Dict) {
    Collision(p, Utf8.Encode(CanonicalText(a)), Utf8.Encode(CanonicalText(b)))
  }

  ghost predicate EventsCollide(p: Primitives, a: Dict, b: Dict) {
    TextsCollide(p, Hashed(a), Hashed(b))
  }

  lemma {:induction false} WithoutFloatFree(d: Dict, keys: set<string>)
    requires FloatFreeMembers(d)
    ensures FloatFreeMembers(Without(d, keys))
  {
    if d != [] {
      WithoutFloatFree(d[1..], keys);
    }
  }

  lemma HashMeansBody(p: Primitives, a: Dict, b: Dict)
    requires FloatFreeMembers(a) && FloatFreeMembers(b)
    ensures SameBody(a, b) ==> p.Hash(a) == p.Hash(b)
    ensures p.Hash(a) == p.Hash(b) ==> SameBody(a, b) || TextsCollide(p, a, b)
  {
    WithoutFloatFree(a, HASH_EXCLUDED_FIELDS);
    WithoutFloatFree(b, HASH_EXCLUDED_FIELDS);
    hide CanonicalText, SameBody;
    CanonicalBytesIffSameBody(a, b);
    if p.Hash(a) == p.Hash(b) {
      DigestEqualOrCollision(p, Utf8.Encode(CanonicalText(a)), Utf8.Encode(CanonicalText(b)));
    }
  }

  lemma SameHashed(a: Dict, b: Dict)
    ensures SameEvent(a, b) <==> SameBody(Hashed(a), Hashed(b))
  {
    FieldsWithout(a, {"event_hash", SIGNATURE_FIELD});
    FieldsWithout(b, {"event_hash", SIGNATURE_FIELD});
    var four, three := {"event_hash", "signature_or_digest", "artifact_digest", "signature"}, {"signature_or_digest", "artifact_digest", "signature"};
    assert {"event_hash", SIGNATURE_FIELD} + three == four;
    hide Fields;
    assert Fields(Hashed(a)) - three == Fields(a) - four && Fields(Hashed(b)) - three == Fields(b) - four;
  }

  /** Two events have one hash exactly when they agree on every field but the four, collisions aside. */
  lemma EventHashCovers(p: Primitives, a: Dict, b: Dict)
    requires FloatFreeMembers(a) && FloatFreeMembers(b)
    ensures SameEvent(a, b) ==> EventHash(p, a) == EventHash(p, b)
    ensures EventHash(p, a) == EventHash(p, b) ==> SameEvent(a, b) || EventsCollide(p, a, b)
  {
    WithoutFloatFree(a, {"event_hash", SIGNATURE_FIELD});
    WithoutFloatFree(b, {"event_hash", SIGNATURE_FIELD});
    SameHashed(a, b);
    HashMeansBody(p, Hashed(a), Hashed(b));
  }

  /** Two traces have one trace hash exactly when they agree on every field but the four, collisions aside. */
  lemma TraceHashCovers(p: Primitives, a: Dict, b: Dict)
    requires FloatFreeMembers(a) && FloatFreeMembers(b)
    ensures SameTrace(a, b) ==> TraceHash(p, a) == TraceHash(p, b)
    ensures TraceHash(p, a) == TraceHash(p, b) ==>
              SameTrace(a, b) || TextsCollide(p, Pop(Pop(a, "trace_hash"), SIGNATURE_FIELD), Pop(Pop(b, "trace_hash"), SIGNATURE_FIELD))
  {
    var own := {"trace_hash", SIGNATURE_FIELD};
    FieldsWithout(a, own);
    FieldsWithout(b, own);
    WithoutFloatFree(a, own);
    WithoutFloatFree(b, own);
    WithoutBoth(a, "trace_hash", SIGNATURE_FIELD);
    WithoutBoth(b, "trace_hash", SIGNATURE_FIELD);
    var x, y := Without(a, own), Without(b, own);
    var four, three := {"trace_hash", "signature_or_digest", "artifact_digest", "signature"}, {"signature_or_digest", "artifact_digest", "signature"};
    assert own + three == four;
    hide Fields, TextsCollide;
    assert Fields(x) - three == Fields(a) - four && Fields(y) - three == Fields(b) - four;
    HashMeansBody(p, x, y);
  }

  lemma {:induction false} WithoutBoth(d: Dict, a: string, b: string)
    ensures Pop(Pop(d, a), b) == Without(d, {a, b})
  {
    if d != [] {
      WithoutBoth(d[1..], a, b);
    }
  }

  /** Events that mean the same name the same predecessor. */
  lemma SamePrevious(p: Primitives, a: Dict, b: Dict)
    requires SameEvent(a, b) && DigestText(Get(a, "previous_event_hash")) && DigestText(Get(b, "previous_event_hash"))
    ensures PreviousOf(p, a) == PreviousOf(p, b)
  {
    var dropped := {"event_hash", "signature_or_digest", "artifact_digest", "signature"};
    PreviousNotExcluded();
    FieldsGet(a, "previous_event_hash");
    FieldsGet(b, "previous_event_hash");
    hide NormalizeHash, IsDigest, Fields;
    assert (Fields(a) - dropped)["previous_event_hash"] == (Fields(b) - dropped)["previous_event_hash"];
  }

  lemma PreviousNotExcluded()
    ensures "previous_event_hash" !in {"event_hash", "signature_or_digest", "artifact_digest", "signature"}
  {
    assert |"previous_event_hash"| == 19 && |"event_hash"| == 10 && |"artifact_digest"| == 15 && |"signature"| == 9;
    assert "previous_event_hash"[0] == 'p' && "signature_or_digest"[0] == 's';
  }

  /** A linked list of events as the schema shapes them, without floating-point numbers. */
  ghost predicate History(p: Primitives, events: seq<Dict>) {
    && EventsLinked(p, events)
    && forall i :: 0 <= i < |events| ==> FloatFreeMembers(events[i]) && DigestText(Get(events[i], "previous_event_hash"))
  }

  /** The hash an event after the first `i` names. */
  function Predecessor(p: Primitives, events: seq<Dict>, i: nat): string
    requires i <= |events|
  {
    if i == 0 then GENESIS_HASH else EventHash(p, events[i - 1])
  }

  predicate Chained(p: Primitives, events: seq<Dict>, i: nat)
    requires i < |events|
  {
    PreviousOf(p, events[i]) == Some(Predecessor(p, events, i)) && OwnHashOf(p, events[i]) == Some(EventHash(p, events[i]))
  }

  predicate EventsLinked(p: Primitives, events: seq<Dict>) {
    forall i :: 0 <= i < |events| ==> Chained(p, events, i)
  }

  lemma PrefixHistory(p: Primitives, events: seq<Dict>, n: nat)
    requires History(p, events) && n <= |events|
    ensures History(p, events[..n])
  {
    hide EventHash, PreviousOf, OwnHashOf, GENESIS_HASH, FloatFreeMembers, DigestText;
    forall i | 0 <= i < n ensures Chained(p, events[..n], i) {
      assert Chained(p, events, i);
    }
  }

  lemma LinkedEvents(p: Primitives, events: seq<Dict>)
    ensures Linked(p, AsObjects(events)) <==> EventsLinked(p, events)
  {
    hide EventHash, PreviousOf, OwnHashOf, GENESIS_HASH;
    var items := AsObjects(events);
    forall i | 0 <= i < |events| ensures EventLinked(p, items, i) <==> Chained(p, events, i) {
      assert i > 0 ==> items[i - 1] == Obj(events[i - 1]);
      assert items[i] == Obj(events[i]);
    }
  }

  ghost predicate SameEvents(a: seq<Dict>, b: seq<Dict>) {
    |a| == |b| && forall i :: 0 <= i < |a| ==> SameEvent(a[i], b[i])
  }

  ghost predicate SomeCollide(p: Primitives, a: seq<Dict>, b: seq<Dict>) {
    exists i, j :: 0 <= i < |a| && 0 <= j < |b| && EventsCollide(p, a[i], b[j])
  }

  /** An event whose hash is the value the first event names. */
  ghost predicate GenesisHit(p: Primitives, events: seq<Dict>) {
    exists i :: 0 <= i < |events| && EventHash(p, events[i]) == GENESIS_HASH
  }

  lemma LastStep(p: Primitives, a: seq<Dict>, b: seq<Dict>)
    requires History(p, a) && History(p, b) && a != [] && b != []
    requires EventHash(p, a[|a| - 1]) == EventHash(p, b[|b| - 1])
    ensures EventsCollide(p, a[|a| - 1], b[|b| - 1])
            || (SameEvent(a[|a| - 1], b[|b| - 1]) && Predecessor(p, a, |a| - 1) == Predecessor(p, b, |b| - 1))
  {
    hide SameEvent, EventsCollide, EventHash, PreviousOf, OwnHashOf, FloatFreeMembers, DigestText, Predecessor;
    var x, y := a[|a| - 1], b[|b| - 1];
    EventHashCovers(p, x, y);
    if SameEvent(x, y) {
      SamePrevious(p, x, y);
      assert Chained(p, a, |a| - 1) && Chained(p, b, |b| - 1);
    }
  }

  /** Two histories whose last events have one hash are the same event for event, unless two of their
      events collide or the genesis value is some event's hash. */
  lemma {:induction false} SameHistory(p: Primitives, a: seq<Dict>, b: seq<Dict>)
    requires History(p, a) && History(p, b) && a != [] && b != []
    requires EventHash(p, a[|a| - 1]) == EventHash(p, b[|b| - 1])
    ensures SameEvents(a, b) || SomeCollide(p, a, b) || GenesisHit(p, a) || GenesisHit(p, b)
    decreases |a|
  {
    hide SameEvent, EventsCollide, EventHash, GENESIS_HASH, History;
    LastStep(p, a, b);
    var n, m := |a| - 1, |b| - 1;
    if !EventsCollide(p, a[n], b[m]) && n > 0 && m > 0 {
      var x, y := a[..n], b[..m];
      PrefixHistory(p, a, n);
      PrefixHistory(p, b, m);
      SameHistory(p, x, y);
      EarlierOutcome(p, a, b, n, m);
    }
  }

  lemma EarlierOutcome(p: Primitives, a: seq<Dict>, b: seq<Dict>, n: nat, m: nat)
    requires n <= |a| && m <= |b|
    ensures SomeCollide(p, a[..n], b[..m]) ==> SomeCollide(p, a, b)
    ensures GenesisHit(p, a[..n]) ==> GenesisHit(p, a)
    ensures GenesisHit(p, b[..m]) ==> GenesisHit(p, b)
  {
    hide EventsCollide, EventHash, GENESIS_HASH;
    if SomeCollide(p, a[..n], b[..m]) {
      var i, j :| 0 <= i < n && 0 <= j < m && EventsCollide(p, a[..n][i], b[..m][j]);
      assert EventsCollide(p, a[i], b[j]);
    }
  }

  // ---------------------------------------------------------------- compiled events

  lemma FinalizeGet(p: Primitives, d: Draft, sequence: int, previous: string, key: string)
    ensures var event := Unhashed(d, sequence, previous);
            var hash := Some(Str(EventHash(p, event)));
            Get(Finalize(p, d, sequence, previous), key) ==
              if key == SIGNATURE_FIELD || key == "event_hash" then hash
              else if key == "previous_event_hash" then Some(Str(previous))
              else if key == "sequence" then Some(Int(sequence))
              else if key == "action" then Some(Obj(d.action))
              else Get(d.rest, key)
  {
    hide EventHash, GENESIS_HASH;
    var acted := Put(d.rest, "action", Obj(d.action));
    var numbered := Put(acted, "sequence", Int(sequence));
    var linked := Put(numbered, "previous_event_hash", Str(previous));
    var open := Put(linked, "event_hash", Str(GENESIS_HASH));
    var event := Put(open, SIGNATURE_FIELD, Str(GENESIS_HASH));
    var hash := EventHash(p, event);
    var closed := Put(event, "event_hash", Str(hash));
    GetPut(d.rest, "action", Obj(d.action), key);
    GetPut(acted, "sequence", Int(sequence), key);
    GetPut(numbered, "previous_event_hash", Str(previous), key);
    GetPut(linked, "event_hash", Str(GENESIS_HASH), key);
    GetPut(open, SIGNATURE_FIELD, Str(GENESIS_HASH), key);
    GetPut(event, "event_hash", Str(hash), key);
    GetPut(closed, SIGNATURE_FIELD, Str(hash), key);
  }

  lemma FinalizeHash(p: Primitives, d: Draft, sequence: int, previous: string)
    ensures EventHash(p, Finalize(p, d, sequence, previous)) == EventHash(p, Unhashed(d, sequence, previous))
  {
    var event := Unhashed(d, sequence, previous);
    hide Unhashed;
    var hash := EventHash(p, event);
    WithoutPut(event, {"event_hash", SIGNATURE_FIELD}, "event_hash", Str(hash));
    WithoutPut(Put(event, "event_hash", Str(hash)), {"event_hash", SIGNATURE_FIELD}, SIGNATURE_FIELD, Str(hash));
  }

  /** A finalised event carries what it was given and its own hash. */
  lemma FinalizeFields(p: Primitives, d: Draft, sequence: int, previous: string)
    requires previous != "" && NormalizeHash(previous) == Some(previous)
    ensures var e := Finalize(p, d, sequence, previous);
            && PreviousOf(p, e) == Some(previous) && OwnHashOf(p, e) == Some(EventHash(p, e))
            && p.StrField(e, "event_hash") == EventHash(p, e)
            && SequenceIn(e) == Some(sequence) && ObjectAt(e, "action") == Some(d.action)
  {
    EventKeysApart();
    hide NormalizeHash, Finalize, Unhashed, GENESIS_HASH;
    FinalizeHash(p, d, sequence, previous);
    FinalizeGet(p, d, sequence, previous, "previous_event_hash");
    FinalizeGet(p, d, sequence, previous, "event_hash");
    FinalizeGet(p, d, sequence, previous, "sequence");
    FinalizeGet(p, d, sequence, previous, "action");
  }

  lemma EventKeysApart()
    ensures "previous_event_hash" !in {SIGNATURE_FIELD, "event_hash"}
    ensures "sequence" !in {SIGNATURE_FIELD, "event_hash", "previous_event_hash"}
    ensures "action" !in {SIGNATURE_FIELD, "event_hash", "previous_event_hash", "sequence"}
  {
    assert |"previous_event_hash"| == 19 && |"event_hash"| == 10 && |"sequence"| == 8 && |"action"| == 6 && |SIGNATURE_FIELD| == 19;
    assert "previous_event_hash"[0] == 'p' && SIGNATURE_FIELD[0] == 's';
  }

  /** A list of linked events with these numbers, each acting in scope. */
  ghost predicate Compiled(p: Primitives, events: seq<Dict>, numbers: int -> int) {
    && EventsLinked(p, events)
    && (forall i :: 0 <= i < |events| ==> SequenceIn(events[i]) == Some(numbers(i)))
    && (forall i :: 0 <= i < |events| ==> ObjectAt(events[i], "action").Some? && InScope(p, ObjectAt(events[i], "action").value))
    && (forall i :: 0 <= i < |events| ==> p.StrField(events[i], "event_hash") == EventHash(p, events[i]))
  }

  lemma NextCompiled(p: Primitives, events: seq<Dict>, d: Draft, numbers: int -> int)
    requires Compiled(p, events, numbers) && InScope(p, d.action)
    ensures Compiled(p, Next(p, events, d, numbers(|events|)), numbers)
  {
    GenesisReadable();
    hide NormalizeHash, Finalize, EventHash, PreviousOf, OwnHashOf, SequenceIn, InScope, ObjectAt, GENESIS_HASH;
    var n := |events|;
    assert LastHash(p, events) == Predecessor(p, events, n);
    FinalizeFields(p, d, numbers(n), LastHash(p, events));
    var all := Next(p, events, d, numbers(n));
    forall i | 0 <= i < |all| ensures Chained(p, all, i) {
      if i < n {
        assert Chained(p, events, i);
      }
    }
  }

  /** The hash the first event names: 64 zeros. */
  lemma GenesisReadable()
    ensures NormalizeHash(GENESIS_HASH) == Some(GENESIS_HASH) && GENESIS_HASH != ""
    ensures |GENESIS_HASH| == 71 && "sha256:" <= GENESIS_HASH && forall i :: 7 <= i < 71 ==> GENESIS_HASH[i] == '0'
  {
  }

  lemma {:induction false} CallsCompiled(p: Primitives, calls: seq<Draft>, numbers: int -> int)
    requires AllInScope(p, calls) && forall i :: 0 <= i < |calls| ==> numbers(i) == i
    ensures Compiled(p, CallEvents(p, calls), numbers)
    decreases |calls|
  {
    hide Next, InScope, Compiled;
    if calls == [] {
      NothingCompiled(p, numbers);
    } else {
      var n := |calls| - 1;
      CallsCompiled(p, calls[..n], numbers);
      NextCompiled(p, CallEvents(p, calls[..n]), calls[n], numbers);
    }
  }

  lemma NothingCompiled(p: Primitives, numbers: int -> int)
    ensures Compiled(p, [], numbers)
  {
  }

  lemma {:induction false} HandoffsCompiled(p: Primitives, before: seq<Dict>, handoffs: seq<Draft>, numbers: int -> int)
    requires Compiled(p, before, numbers) && AllInScope(p, handoffs)
    requires forall k :: 0 <= k < |handoffs| ==> numbers(|before| + k) == |before| + 2 * k
    ensures Compiled(p, HandoffEvents(p, before, handoffs), numbers)
    decreases |handoffs|
  {
    hide Next, InScope, Compiled;
    if handoffs != [] {
      var n := |handoffs| - 1;
      HandoffsCompiled(p, before, handoffs[..n], numbers);
      var events := HandoffEvents(p, before, handoffs[..n]);
      assert |events| == |before| + n && numbers(|before| + n) == |before| + 2 * n;
      NextCompiled(p, events, handoffs[n], numbers);
    }
  }

  // ---------------------------------------------------------------- compiled traces

  function NumberOf(calls: nat): int -> int {
    i => if i < calls then i else 2 * i - calls
  }

  lemma CompiledEvents(p: Primitives, calls: seq<Draft>, handoffs: seq<Draft>)
    requires AllInScope(p, calls) && AllInScope(p, handoffs)
    ensures Compiled(p, HandoffEvents(p, CallEvents(p, calls), handoffs), NumberOf(|calls|))
  {
    hide Compiled, InScope, CallEvents, HandoffEvents, AllInScope;
    CallsCompiled(p, calls, NumberOf(|calls|));
    HandoffsCompiled(p, CallEvents(p, calls), handoffs, NumberOf(|calls|));
  }

  /** A sealed trace holds its events, its own hash and an allowed claim. */
  lemma SealedFields(p: Primitives, header: Dict, events: seq<Dict>)
    ensures var t := SealTrace(p, header, events);
            && Get(t, "events") == Some(Arr(AsObjects(events))) && Get(t, "claim_class") == Some(Str("RuntimeChecked"))
            && Get(t, "trace_hash") == Some(Str(TraceHash(p, t)))
  {
    TraceKeysApart();
    hide TraceHash, GENESIS_HASH;
    var filled := Put(header, "events", Arr(AsObjects(events)));
    var body := Put(filled, "claim_class", Str("RuntimeChecked"));
    var open := Put(body, "trace_hash", Str(GENESIS_HASH));
    var unsealed := Put(open, SIGNATURE_FIELD, Str(GENESIS_HASH));
    var hash := TraceHash(p, unsealed);
    var closed := Put(unsealed, "trace_hash", Str(hash));
    SealedHash(p, unsealed, hash);
    forall key ensures Get(SealTrace(p, header, events), key) ==
                         if key == SIGNATURE_FIELD || key == "trace_hash" then Some(Str(hash))
                         else if key == "claim_class" then Some(Str("RuntimeChecked"))
                         else if key == "events" then Some(Arr(AsObjects(events))) else Get(header, key) {
      GetPut(header, "events", Arr(AsObjects(events)), key);
      GetPut(filled, "claim_class", Str("RuntimeChecked"), key);
      GetPut(body, "trace_hash", Str(GENESIS_HASH), key);
      GetPut(open, SIGNATURE_FIELD, Str(GENESIS_HASH), key);
      GetPut(unsealed, "trace_hash", Str(hash), key);
      GetPut(closed, SIGNATURE_FIELD, Str(hash), key);
    }
  }

  lemma SealedHash(p: Primitives, trace: Dict, hash: string)
    ensures TraceHash(p, Put(Put(trace, "trace_hash", Str(hash)), SIGNATURE_FIELD, Str(hash))) == TraceHash(p, trace)
  {
    WithoutPut(trace, {"trace_hash", SIGNATURE_FIELD}, "trace_hash", Str(hash));
    WithoutPut(Put(trace, "trace_hash", Str(hash)), {"trace_hash", SIGNATURE_FIELD}, SIGNATURE_FIELD, Str(hash));
  }

  lemma TraceKeysApart()
    ensures "events" !in {SIGNATURE_FIELD, "trace_hash", "claim_class"} && "claim_class" !in {SIGNATURE_FIELD, "trace_hash"}
    ensures "trace_hash" != SIGNATURE_FIELD
  {
    assert |"events"| == 6 && |"trace_hash"| == 10 && |"claim_class"| == 11 && |SIGNATURE_FIELD| == 19;
  }

  lemma RuntimeCheckedAllowed()
    ensures "RuntimeChecked" in TRACE_CLAIM_CLASSES
  {
  }

  lemma CompiledInPattern(p: Primitives, events: seq<Dict>, numbers: int -> int)
    requires Compiled(p, events, numbers)
    ensures AllInPattern(p, AsObjects(events)) && Linked(p, AsObjects(events))
  {
    hide InScope, EventsLinked, Linked, SequenceIn, EventHash;
    LinkedEvents(p, events);
  }

  /** Every trace the compiler returns passes the chain check, resources and claim class included. */
  lemma CompiledChainHolds(p: Primitives, header: Dict, calls: seq<Draft>, handoffs: seq<Draft>)
    requires AllInScope(p, calls) && AllInScope(p, handoffs)
    ensures ChainHolds(p, SealTrace(p, header, HandoffEvents(p, CallEvents(p, calls), handoffs)))
  {
    hide *;
    var events := HandoffEvents(p, CallEvents(p, calls), handoffs);
    CompiledEvents(p, calls, handoffs);
    CompiledInPattern(p, events, NumberOf(|calls|));
    SealedHolds(p, header, events);
  }

  lemma SealedHolds(p: Primitives, header: Dict, events: seq<Dict>)
    requires AllInPattern(p, AsObjects(events)) && Linked(p, AsObjects(events))
    ensures ChainHolds(p, SealTrace(p, header, events))
  {
    RuntimeCheckedAllowed();
    SealedFields(p, header, events);
    hide SealTrace, Linked, AllInPattern, TraceHash, NormalizeHash, TRACE_CLAIM_CLASSES, Get;
  }

  /** Its events are numbered without gaps exactly when it had at most one handoff: the numbers of later
      handoffs skip one each, so the order check rejects what the compiler made. */
  lemma CompiledOrder(p: Primitives, header: Dict, calls: seq<Draft>, handoffs: seq<Draft>)
    requires AllInScope(p, calls) && AllInScope(p, handoffs)
    ensures InOrder(TraceEvents(SealTrace(p, header, HandoffEvents(p, CallEvents(p, calls), handoffs)))) <==> |handoffs| <= 1
  {
    hide *;
    var events := HandoffEvents(p, CallEvents(p, calls), handoffs);
    CompiledEvents(p, calls, handoffs);
    SealedEvents(p, header, events);
    NumbersInOrder(p, events, |calls|);
  }

  lemma SealedEvents(p: Primitives, header: Dict, events: seq<Dict>)
    ensures TraceEvents(SealTrace(p, header, events)) == events
  {
    SealedFields(p, header, events);
    hide SealTrace, ObjectEvents, Get;
    AllObjects(AsObjects(events));
  }

  lemma NumbersInOrder(p: Primitives, events: seq<Dict>, calls: nat)
    requires Compiled(p, events, NumberOf(calls)) && calls <= |events|
    ensures InOrder(events) <==> |events| <= calls + 1
  {
    hide SequenceIn, InScope, EventsLinked, EventHash;
    if |events| >= calls + 2 {
      assert SequenceIn(events[calls + 1]) == Some(calls + 2) && SequenceIn(events[0]) == Some(0);
    }
  }

  /** The trace check accepts a compiled trace exactly when it had at most one handoff, the schema has no
      other complaint, and its events are safe with their capabilities spelt out. */
  lemma CompiledClean(p: Primitives, catalog: Catalog, checks: TraceChecks, header: Dict, calls: seq<Draft>, handoffs: seq<Draft>)
    requires AllInScope(p, calls) && AllInScope(p, handoffs)
    ensures var events := HandoffEvents(p, CallEvents(p, calls), handoffs);
            var trace := SealTrace(p, header, events);
            TraceClean(p, catalog, checks, trace) <==>
              && |handoffs| <= 1 && SchemaErrors(checks, trace) == 0
              && forall i :: 0 <= i < |events| ==> EventClean(p, catalog, checks, events[i])
  {
    hide ChainHolds, InOrder, TraceEvents, SchemaErrors, EventClean, SealTrace, AllInScope, HandoffEvents;
    CompiledChainHolds(p, header, calls, handoffs);
    CompiledOrder(p, header, calls, handoffs);
    SealedEvents(p, header, HandoffEvents(p, CallEvents(p, calls), handoffs));
  }
}
