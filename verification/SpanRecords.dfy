/**
 The normalised trace records of a synthetic run.  The timestamp table is a
 parameter of any length.
 */
module SpanRecords {
  import opened JsonValues
  import opened Outcomes
  import opened SpanRefs

  datatype TracePayload = TracePayload(
    objectType: Json, workflowName: Json, id: Json, groupId: Json, metadata: Json)

  datatype SpanData = SpanData(kind: string, name: Json, tools: Json, handoffs: Json, outputType: Json)

  /** A span without its ids; `error` is Null when the member is absent or null. */
  datatype SpanContent = SpanContent(traceId: Json, objectType: Json, data: SpanData, error: Json)

  /** `parentId` is None when the member is absent or null. */
  datatype SpanPayload = SpanPayload(id: string, parentId: Option<string>, content: SpanContent)

  datatype Event =
    | TraceStart(trace: TracePayload)
    | TraceEnd(trace: TracePayload)
    | SpanStart(span: SpanPayload)
    | SpanEnd(span: SpanPayload)
    | Unsupported(kind: string)

  datatype AgentFields = AgentFields(name: Json, tools: Json, handoffs: Json, outputType: Json)

  /** The members of a span record other than its two references. */
  datatype SpanBody = SpanBody(
    scenario: string, phase: string, objectType: Json, traceId: Json, sequence: nat, timestamp: string,
    spanType: string, spanName: Json, observedStatus: string,
    agent: Option<AgentFields>, toolName: Option<Json>, error: Option<Json>)

  datatype Record =
    | TraceRecord(scenario: string, phase: string, payload: TracePayload, sequence: nat, timestamp: string)
    | SpanRecord(body: SpanBody, spanId: string, parentSpanId: Option<string>)

  /** Python truth of a JSON value. */
  predicate Truthy(v: Json): (t: bool)
    ensures t <==> v !in {Null, Bool(false), Int(0), Str(""), Arr([]), Obj(map[])}
  {
    match v
    case Null => false
    case Bool(b) => b
    case Int(n) => n != 0
    case Str(s) => s != ""
    case Arr(items) => items != []
    case Obj(members) => members != map[]
  }

  predicate HasParent(p: SpanPayload) {
    p.parentId.Some? && p.parentId.value != ""
  }

  /** `_build_span_record`, but for the two references. */
  function BodyOf(c: SpanContent, scenario: string, phase: string, sequence: nat, timestamp: string): SpanBody {
    SpanBody(
      scenario, phase, c.objectType, c.traceId, sequence, timestamp, c.data.kind, c.data.name,
      if phase == "start" then "started" else if Truthy(c.error) then "failed" else "ok",
      if c.data.kind == "agent"
      then Some(AgentFields(c.data.name, c.data.tools, c.data.handoffs, c.data.outputType)) else None,
      if c.data.kind == "function" then Some(c.data.name) else None,
      if c.error != Null then Some(c.error) else None)
  }

  function Phase(e: Event): string {
    if e.TraceStart? || e.SpanStart? then "start" else "finish"
  }

  predicate IsSpan(e: Event) {
    e.SpanStart? || e.SpanEnd?
  }

  // --------------------------------------------------------- the whole run at once

  /** The raw ids that one event looks up, in order. */
  function IdsOf(e: Event): seq<string> {
    if IsSpan(e) then SpanIds(e.span) else []
  }

  function SpanIds(p: SpanPayload): seq<string> {
    if HasParent(p) then [p.id, p.parentId.value] else [p.id]
  }

  /** The raw ids looked up by the first n events. */
  ghost function Lookups(es: seq<Event>, n: nat): seq<string>
    requires n <= |es|
  {
    if n == 0 then [] else Lookups(es, n - 1) + IdsOf(es[n - 1])
  }

  ghost function AllLookups(es: seq<Event>): seq<string> {
    Lookups(es, |es|)
  }

  ghost predicate Supported(es: seq<Event>) {
    forall i :: 0 <= i < |es| ==> !es[i].Unsupported?
  }

  /** The record of one event, given the ids looked up before it. */
  ghost function RecordAfter(e: Event, k: nat, timestamp: string, scenario: string, seen: seq<string>): Record
    requires !e.Unsupported?
  {
    if !IsSpan(e) then TraceRecord(scenario, Phase(e), e.trace, k + 1, timestamp)
    else
      SpanRecord(
        BodyOf(e.span.content, scenario, Phase(e), k + 1, timestamp),
        Name(CanonAt(seen + IdsOf(e), |seen|)),
        if HasParent(e.span) then Some(Name(CanonAt(seen + IdsOf(e), |seen| + 1))) else None)
  }

  /** The record of event k, with every id named by its canonical index among the lookups. */
  ghost function RecordAt(es: seq<Event>, k: nat, timestamps: seq<string>, scenario: string): Record
    requires k < |es| == |timestamps| && !es[k].Unsupported?
  {
    RecordAfter(es[k], k, timestamps[k], scenario, Lookups(es, k))
  }

  ghost function Records(es: seq<Event>, timestamps: seq<string>, scenario: string): (rs: seq<Record>)
    requires |es| == |timestamps| && Supported(es)
    ensures |rs| == |es| && forall k :: 0 <= k < |es| ==> rs[k] == RecordAt(es, k, timestamps, scenario)
  {
    seq(|es|, k requires 0 <= k < |es| => RecordAt(es, k, timestamps, scenario))
  }

  lemma CanonOfPush(ids: seq<string>, id: string)
    ensures Dedupe(ids + [id]) == Push(Dedupe(ids), id)
    ensures CanonAt(ids + [id], |ids|) == IndexOf(Push(Dedupe(ids), id), id)
  {
    assert (ids + [id])[..|ids|] == ids && (ids + [id])[..|ids| + 1] == ids + [id];
  }

  lemma CanonPrefix(ids: seq<string>, more: seq<string>, p: nat)
    requires p < |ids|
    ensures CanonAt(ids + more, p) == CanonAt(ids, p)
  {
    assert (ids + more)[..p + 1] == ids[..p + 1];
  }

  /** What looking up one event's ids does to the order, and the indices it gives. */
  lemma CanonOfEvent(seen: seq<string>, id: string, parent: string)
    ensures var own := Push(Dedupe(seen), id);
            && Dedupe(seen + [id] + [parent]) == Push(own, parent)
            && CanonAt(seen + [id] + [parent], |seen|) == IndexOf(own, id)
            && CanonAt(seen + [id] + [parent], |seen| + 1) == IndexOf(Push(own, parent), parent)
  {
    CanonOfPush(seen, id);
    CanonOfPush(seen + [id], parent);
    CanonPrefix(seen + [id], [parent], |seen|);
  }

  lemma CanonOfSpan(p: SpanPayload, seen: seq<string>, ids: seq<string>)
    requires HasParent(p) && ids == seen + SpanIds(p)
    ensures var own := Push(Dedupe(seen), p.id);
            && Dedupe(ids) == Push(own, p.parentId.value)
            && CanonAt(ids, |seen|) == IndexOf(own, p.id)
            && CanonAt(ids, |seen| + 1) == IndexOf(Push(own, p.parentId.value), p.parentId.value)
  {
    assert ids == seen + [p.id] + [p.parentId.value];
    CanonOfEvent(seen, p.id, p.parentId.value);
  }

  lemma LookupsNext(es: seq<Event>, k: nat)
    requires k < |es|
    ensures Lookups(es, k + 1) == Lookups(es, k) + IdsOf(es[k])
  {
  }

  /** The records of the first events, where those are supported. */
  ghost predicate Built(records: seq<Record>, es: seq<Event>, timestamps: seq<string>, scenario: string) {
    && |records| <= |es| == |timestamps|
    && forall i {:trigger records[i]} :: 0 <= i < |records| ==>
                     && !es[i].Unsupported?
                     && records[i] == RecordAt(es, i, timestamps, scenario)
  }

  lemma BuiltNext(records: seq<Record>, es: seq<Event>, timestamps: seq<string>, scenario: string, record: Record)
    requires Built(records, es, timestamps, scenario) && |records| < |es| && !es[|records|].Unsupported?
    requires record == RecordAt(es, |records|, timestamps, scenario)
    ensures Built(records + [record], es, timestamps, scenario)
  {
    var next := records + [record];
    forall i | 0 <= i < |next|
      ensures !es[i].Unsupported? && next[i] == RecordAt(es, i, timestamps, scenario)
    {
      if i < |records| {
        assert next[i] == records[i];
      }
    }
  }

  lemma BuiltAll(records: seq<Record>, es: seq<Event>, timestamps: seq<string>, scenario: string)
    requires Built(records, es, timestamps, scenario) && |records| == |es|
    ensures Supported(es) && records == Records(es, timestamps, scenario)
  {
    forall i | 0 <= i < |es| ensures !es[i].Unsupported? {
      var _ := records[i];
    }
    forall i | 0 <= i < |es|
      ensures records[i] == Records(es, timestamps, scenario)[i]
    {
      assert records[i] == RecordAt(es, i, timestamps, scenario);
    }
  }

  /** A span record says failed exactly when it is not a start and carries an error that Python takes
      for true; so an error of another kind goes with ok.  Agent and tool fields exclude each other. */
  ghost predicate Consistent(r: Record) {
    r.SpanRecord? ==>
      && (r.body.observedStatus == "started" <==> r.body.phase == "start")
      && (r.body.observedStatus == "failed" <==>
          r.body.phase != "start" && r.body.error.Some? && Truthy(r.body.error.value))
      && (r.body.observedStatus == "ok" <==>
          r.body.phase != "start" && (r.body.error.Some? ==> !Truthy(r.body.error.value)))
      && (r.body.agent.Some? <==> r.body.spanType == "agent")
      && (r.body.toolName.Some? <==> r.body.spanType == "function")
      && (r.body.agent.None? || r.body.toolName.None?)
  }

  lemma BodyConsistent(c: SpanContent, scenario: string, phase: string, sequence: nat, timestamp: string,
                       spanId: string, parentSpanId: Option<string>)
    ensures Consistent(SpanRecord(BodyOf(c, scenario, phase, sequence, timestamp), spanId, parentSpanId))
  {
    assert "started"[0] != "failed"[0] && "started"[0] != "ok"[0] && "failed"[0] != "ok"[0];
    assert "agent"[0] != "function"[0];
  }

  lemma RecordConsistent(es: seq<Event>, k: nat, timestamps: seq<string>, scenario: string)
    requires k < |es| == |timestamps| && !es[k].Unsupported?
    ensures Consistent(RecordAt(es, k, timestamps, scenario))
  {
    var r := RecordAt(es, k, timestamps, scenario);
    if r.SpanRecord? {
      BodyConsistent(es[k].span.content, scenario, Phase(es[k]), k + 1, timestamps[k], r.spanId, r.parentSpanId);
    }
  }

  /** The record is that of this event, in this place of the run. */
  ghost predicate Describes(r: Record, e: Event, place: nat, timestamp: string, scenario: string) {
    match e
    case TraceStart(p) => DescribesTrace(r, p, "start", place, timestamp, scenario)
    case TraceEnd(p) => DescribesTrace(r, p, "finish", place, timestamp, scenario)
    case SpanStart(p) => DescribesSpan(r, p.content, "start", place, timestamp, scenario)
    case SpanEnd(p) => DescribesSpan(r, p.content, "finish", place, timestamp, scenario)
    case Unsupported(_) => false
  }

  ghost predicate DescribesTrace(
    r: Record, p: TracePayload, phase: string, place: nat, timestamp: string, scenario: string)
  {
    && r.TraceRecord? && r.payload == p && r.phase == phase
    && r.sequence == place + 1 && r.timestamp == timestamp && r.scenario == scenario
  }

  ghost predicate DescribesSpan(
    r: Record, c: SpanContent, phase: string, place: nat, timestamp: string, scenario: string)
  {
    && r.SpanRecord? && r.body.phase == phase
    && r.body.sequence == place + 1 && r.body.timestamp == timestamp && r.body.scenario == scenario
    && r.body.objectType == c.objectType && r.body.traceId == c.traceId
    && r.body.spanType == c.data.kind && r.body.spanName == c.data.name
    && (r.body.agent.Some? ==>
          && r.body.agent.value.name == c.data.name && r.body.agent.value.tools == c.data.tools
          && r.body.agent.value.handoffs == c.data.handoffs && r.body.agent.value.outputType == c.data.outputType)
    && (r.body.toolName.Some? ==> r.body.toolName.value == c.data.name)
    && (r.body.error.Some? <==> c.error != Null) && (r.body.error.Some? ==> r.body.error.value == c.error)
  }

  lemma RecordDescribes(es: seq<Event>, k: nat, timestamps: seq<string>, scenario: string)
    requires k < |es| == |timestamps| && !es[k].Unsupported?
    ensures Describes(RecordAt(es, k, timestamps, scenario), es[k], k, timestamps[k], scenario)
  {
  }

  lemma RecordsConsistent(es: seq<Event>, timestamps: seq<string>, scenario: string)
    requires |es| == |timestamps| && Supported(es)
    ensures forall k :: 0 <= k < |es| ==> Consistent(Records(es, timestamps, scenario)[k])
    ensures forall k :: 0 <= k < |es| ==>
              Describes(Records(es, timestamps, scenario)[k], es[k], k, timestamps[k], scenario)
  {
    forall k | 0 <= k < |es|
      ensures Consistent(Records(es, timestamps, scenario)[k])
      ensures Describes(Records(es, timestamps, scenario)[k], es[k], k, timestamps[k], scenario)
    {
      RecordConsistent(es, k, timestamps, scenario);
      RecordDescribes(es, k, timestamps, scenario);
    }
  }

  /** `_normalize_records`. */
  method NormalizeRecords(es: seq<Event>, timestamps: seq<string>, scenario: string) returns (r: Result<seq<Record>>)
    ensures r.Ok? <==> |es| == |timestamps| && Supported(es)
    ensures r.Ok? ==> r.value == Records(es, timestamps, scenario)
    ensures r.Ok? ==> forall k :: 0 <= k < |r.value| ==> Consistent(r.value[k])
    ensures r.Ok? ==> |r.value| == |es|
    ensures r.Ok? ==> forall k :: 0 <= k < |es| ==> Describes(r.value[k], es[k], k, timestamps[k], scenario)
    ensures r.Raised? ==> r.error == "ValueError"
  {
    if |es| != |timestamps| {
      return Raised("ValueError");
    }
    var spanRefs := new Refs();
    var records: seq<Record> := [];
    for k := 0 to |es|
      invariant spanRefs.Valid() && fresh(spanRefs)
      invariant spanRefs.order == Dedupe(Lookups(es, k))
      invariant |records| == k
      invariant Built(records, es, timestamps, scenario)
    {
      if es[k].Unsupported? {
        return Raised("ValueError");
      }
      LookupsNext(es, k);
      var record := BuildRecord(es[k], k, timestamps[k], scenario, spanRefs, Lookups(es, k));
      BuiltNext(records, es, timestamps, scenario, record);
      records := records + [record];
    }
    BuiltAll(records, es, timestamps, scenario);
    RecordsConsistent(es, timestamps, scenario);
    return Ok(records);
  }

  /** `_build_trace_record` and `_build_span_record`. */
  method BuildRecord(e: Event, k: nat, timestamp: string, scenario: string, spanRefs: Refs, ghost seen: seq<string>)
    returns (record: Record)
    requires !e.Unsupported? && spanRefs.Valid() && spanRefs.order == Dedupe(seen)
    modifies spanRefs
    ensures spanRefs.Valid() && spanRefs.order == Dedupe(seen + IdsOf(e))
    ensures record == RecordAfter(e, k, timestamp, scenario, seen)
  {
    if !IsSpan(e) {
      assert seen + [] == seen;
      return TraceRecord(scenario, Phase(e), e.trace, k + 1, timestamp);
    }
    var spanId, parentSpanId := LookUp(e.span, spanRefs, seen);
    record := SpanRecord(BodyOf(e.span.content, scenario, Phase(e), k + 1, timestamp), spanId, parentSpanId);
  }

  /** The span's own id is looked up before its parent's. */
  method LookUp(p: SpanPayload, spanRefs: Refs, ghost seen: seq<string>)
    returns (spanId: string, parentSpanId: Option<string>)
    requires spanRefs.Valid() && spanRefs.order == Dedupe(seen)
    modifies spanRefs
    ensures spanRefs.Valid() && spanRefs.order == Dedupe(seen + SpanIds(p))
    ensures spanId == Name(CanonAt(seen + SpanIds(p), |seen|))
    ensures parentSpanId
         == if HasParent(p) then Some(Name(CanonAt(seen + SpanIds(p), |seen| + 1))) else None
  {
    spanId := spanRefs.SpanRef(p.id);
    if HasParent(p) {
      CanonOfSpan(p, seen, seen + SpanIds(p));
      var ref := spanRefs.SpanRef(p.parentId.value);
      parentSpanId := Some(ref);
    } else {
      CanonOfPush(seen, p.id);
      parentSpanId := None;
    }
  }

  // ------------------------------------------------------------- a canonical form

  /** Everything in a record except which ids it names. */
  ghost function Skeleton(r: Record): Record {
    if r.TraceRecord? then r
    else r.(spanId := "", parentSpanId := if r.parentSpanId.Some? then Some("") else None)
  }

  ghost predicate SameSkeletons(rs: seq<Record>, qs: seq<Record>) {
    |rs| == |qs| && forall k :: 0 <= k < |rs| ==> Skeleton(rs[k]) == Skeleton(qs[k])
  }

  lemma {:induction false} LookupsPrefix(es: seq<Event>, n: nat, m: nat)
    requires n <= m <= |es|
    ensures Lookups(es, n) <= Lookups(es, m)
    decreases m
  {
    if n < m {
      LookupsPrefix(es, n, m - 1);
    }
  }

  ghost predicate SameShape(e: Event, f: Event) {
    IsSpan(e) == IsSpan(f) && |IdsOf(e)| == |IdsOf(f)|
  }

  lemma {:induction false} SameLengths(es: seq<Event>, fs: seq<Event>, n: nat)
    requires n <= |es| == |fs| && forall k :: 0 <= k < n ==> SameShape(es[k], fs[k])
    ensures |Lookups(es, n)| == |Lookups(fs, n)|
  {
    if n > 0 {
      SameLengths(es, fs, n - 1);
    }
  }

  lemma ShapeOfRecord(e: Event, f: Event, k: nat, timestamp: string, scenario: string, xs: seq<string>, ys: seq<string>)
    requires !e.Unsupported? && !f.Unsupported?
    requires Skeleton(RecordAfter(e, k, timestamp, scenario, xs)) == Skeleton(RecordAfter(f, k, timestamp, scenario, ys))
    ensures SameShape(e, f)
  {
  }

  /** Records with the same skeletons look up ids at the same places. */
  lemma SamePlaces(es: seq<Event>, fs: seq<Event>, timestamps: seq<string>, scenario: string, n: nat)
    requires n <= |es| == |fs| == |timestamps| && Supported(es) && Supported(fs)
    requires SameSkeletons(Records(es, timestamps, scenario), Records(fs, timestamps, scenario))
    ensures forall k :: 0 <= k < |es| ==> SameShape(es[k], fs[k])
    ensures |Lookups(es, n)| == |Lookups(fs, n)|
  {
    forall k | 0 <= k < |es| ensures SameShape(es[k], fs[k]) {
      assert Skeleton(RecordAt(es, k, timestamps, scenario)) == Skeleton(RecordAt(fs, k, timestamps, scenario));
      ShapeOfRecord(es[k], fs[k], k, timestamps[k], scenario, Lookups(es, k), Lookups(fs, k));
    }
    SameLengths(es, fs, n);
  }

  /** Later lookups do not change the index of an earlier one. */
  lemma CanonAmongAll(es: seq<Event>, n: nat, p: nat)
    requires n <= |es| && p < |Lookups(es, n)|
    ensures |Lookups(es, n)| <= |AllLookups(es)|
    ensures CanonAt(AllLookups(es), p) == CanonAt(Lookups(es, n), p)
  {
    LookupsPrefix(es, n, |es|);
    var rest := AllLookups(es)[|Lookups(es, n)|..];
    assert AllLookups(es) == Lookups(es, n) + rest;
    CanonPrefix(Lookups(es, n), rest, p);
  }

  lemma RefsAfter(e: Event, k: nat, timestamp: string, scenario: string, seen: seq<string>, ids: seq<string>)
    requires IsSpan(e) && ids == seen + IdsOf(e)
    ensures var r := RecordAfter(e, k, timestamp, scenario, seen);
            && r.SpanRecord? && r.spanId == Name(CanonAt(ids, |seen|))
            && (HasParent(e.span) <==> r.parentSpanId.Some?)
            && (HasParent(e.span) ==> r.parentSpanId == Some(Name(CanonAt(ids, |seen| + 1))))
  {
  }

  /** The references of event k, as canonical indices among all lookups. */
  lemma RefsOfEvent(es: seq<Event>, k: nat, timestamps: seq<string>, scenario: string)
    requires k < |es| == |timestamps| && Supported(es) && IsSpan(es[k])
    ensures var ids, p := AllLookups(es), |Lookups(es, k)|;
            var r := RecordAt(es, k, timestamps, scenario);
            && p + |IdsOf(es[k])| <= |ids|
            && r.SpanRecord? && r.spanId == Name(CanonAt(ids, p))
            && (HasParent(es[k].span) <==> r.parentSpanId.Some?)
            && (HasParent(es[k].span) ==> r.parentSpanId == Some(Name(CanonAt(ids, p + 1))))
  {
    LookupsNext(es, k);
    RefsAfter(es[k], k, timestamps[k], scenario, Lookups(es, k), Lookups(es, k + 1));
    CanonAmongAll(es, k + 1, |Lookups(es, k)|);
    if HasParent(es[k].span) {
      CanonAmongAll(es, k + 1, |Lookups(es, k)| + 1);
    }
  }

  ghost function Reference(r: Record, j: nat): string {
    if r.SpanRecord? && j == 0 then r.spanId
    else if r.SpanRecord? && r.parentSpanId.Some? then r.parentSpanId.value
    else ""
  }

  lemma ReferenceAfter(
    e: Event, k: nat, timestamp: string, scenario: string, seen: seq<string>, ids: seq<string>, j: nat)
    requires !e.Unsupported? && ids == seen + IdsOf(e) && j < |IdsOf(e)|
    ensures Reference(RecordAfter(e, k, timestamp, scenario, seen), j) == Name(CanonAt(ids, |seen| + j))
  {
    RefsAfter(e, k, timestamp, scenario, seen, ids);
    assert j == 0 || (j == 1 && HasParent(e.span));
  }

  lemma RefAtPlace(es: seq<Event>, k: nat, timestamps: seq<string>, scenario: string, p: nat, r: Record) returns (c: nat)
    requires k < |es| == |timestamps| && Supported(es)
    requires |Lookups(es, k)| <= p < |Lookups(es, k)| + |IdsOf(es[k])| && r == RecordAt(es, k, timestamps, scenario)
    ensures p < |AllLookups(es)|
    ensures c == CanonAt(AllLookups(es), p) && Name(c) == Reference(r, p - |Lookups(es, k)|)
  {
    LookupsNext(es, k);
    var seen := Lookups(es, k);
    ReferenceAfter(es[k], k, timestamps[k], scenario, seen, Lookups(es, k + 1), p - |seen|);
    CanonAmongAll(es, k + 1, p);
    c := CanonAt(AllLookups(es), p);
  }

  /** With the same pattern of ids, and the same skeletons, the records are the same. */
  lemma SamePatternSameRecords(es: seq<Event>, fs: seq<Event>, timestamps: seq<string>, scenario: string)
    requires |es| == |fs| == |timestamps| && Supported(es) && Supported(fs)
    requires SameSkeletons(Records(es, timestamps, scenario), Records(fs, timestamps, scenario))
    requires SamePattern(AllLookups(es), AllLookups(fs))
    ensures Records(es, timestamps, scenario) == Records(fs, timestamps, scenario)
  {
    CanonExact(AllLookups(es), AllLookups(fs));
    forall k | 0 <= k < |es|
      ensures RecordAt(es, k, timestamps, scenario) == RecordAt(fs, k, timestamps, scenario)
    {
      SamePlaces(es, fs, timestamps, scenario, k);
      var r, q := RecordAt(es, k, timestamps, scenario), RecordAt(fs, k, timestamps, scenario);
      assert Skeleton(r) == Skeleton(q);
      if IsSpan(es[k]) {
        RefsOfEvent(es, k, timestamps, scenario);
        RefsOfEvent(fs, k, timestamps, scenario);
        assert r == Skeleton(r).(spanId := r.spanId, parentSpanId := r.parentSpanId);
        assert q == Skeleton(q).(spanId := q.spanId, parentSpanId := q.parentSpanId);
      }
    }
  }

  /** The same record gives each lookup of its event the same canonical index. */
  lemma SameRecordSameCanon(es: seq<Event>, fs: seq<Event>, timestamps: seq<string>, scenario: string, k: nat, p: nat)
    requires k < |es| == |fs| == |timestamps| && Supported(es) && Supported(fs)
    requires SameShape(es[k], fs[k]) && |Lookups(es, k)| == |Lookups(fs, k)|
    requires |Lookups(es, k)| <= p < |Lookups(es, k)| + |IdsOf(es[k])|
    requires RecordAt(es, k, timestamps, scenario) == RecordAt(fs, k, timestamps, scenario)
    ensures p < |AllLookups(es)| && p < |AllLookups(fs)|
    ensures CanonAt(AllLookups(es), p) == CanonAt(AllLookups(fs), p)
  {
    var c := RefAtPlace(es, k, timestamps, scenario, p, RecordAt(es, k, timestamps, scenario));
    var d := RefAtPlace(fs, k, timestamps, scenario, p, RecordAt(es, k, timestamps, scenario));
    NameInjective(c, d);
  }

  /** The same records give every lookup the same canonical index. */
  lemma {:induction false} SameRecordsSameCanon(
    es: seq<Event>, fs: seq<Event>, timestamps: seq<string>, scenario: string, n: nat)
    requires |es| == |fs| == |timestamps| && Supported(es) && Supported(fs) && n <= |es|
    requires Records(es, timestamps, scenario) == Records(fs, timestamps, scenario)
    ensures |Lookups(es, n)| == |Lookups(fs, n)|
    ensures SameCanon(AllLookups(es), AllLookups(fs), |Lookups(es, n)|)
  {
    SamePlaces(es, fs, timestamps, scenario, n);
    LookupsPrefix(es, n, |es|);
    LookupsPrefix(fs, n, |fs|);
    if n > 0 {
      var k := n - 1;
      SameRecordsSameCanon(es, fs, timestamps, scenario, k);
      LookupsNext(es, k);
      assert Records(es, timestamps, scenario)[k] == Records(fs, timestamps, scenario)[k];
      forall p | |Lookups(es, k)| <= p < |Lookups(es, n)|
        ensures CanonAt(AllLookups(es), p) == CanonAt(AllLookups(fs), p)
      {
        SameRecordSameCanon(es, fs, timestamps, scenario, k, p);
      }
    }
  }

  /** Two runs give the same records exactly when the records agree but for the references, and the
      raw ids are equal at the same places. */
  lemma SkeletonsCanonical(es: seq<Event>, fs: seq<Event>, timestamps: seq<string>, scenario: string)
    requires |es| == |fs| == |timestamps| && Supported(es) && Supported(fs)
    ensures Records(es, timestamps, scenario) == Records(fs, timestamps, scenario)
       <==> SameSkeletons(Records(es, timestamps, scenario), Records(fs, timestamps, scenario))
            && SamePattern(AllLookups(es), AllLookups(fs))
  {
    if Records(es, timestamps, scenario) == Records(fs, timestamps, scenario) {
      SameRecordsSameCanon(es, fs, timestamps, scenario, |es|);
      CanonExact(AllLookups(es), AllLookups(fs));
    } else if SameSkeletons(Records(es, timestamps, scenario), Records(fs, timestamps, scenario))
              && SamePattern(AllLookups(es), AllLookups(fs)) {
      SamePatternSameRecords(es, fs, timestamps, scenario);
    }
  }

  /** The part of a span's content that reaches its record: the agent fields only for agents. */
  ghost function Recorded(c: SpanContent): SpanContent {
    if c.data.kind == "agent" then c
    else c.(data := SpanData(c.data.kind, c.data.name, Null, Null, Null))
  }

  /** Two events of the same kind that differ in their raw ids and in unrecorded content only. */
  ghost predicate SameButIds(e: Event, f: Event) {
    match e
    case TraceStart(_) => e == f
    case TraceEnd(_) => e == f
    case SpanStart(span) => f.SpanStart? && SameSpanButIds(span, f.span)
    case SpanEnd(span) => f.SpanEnd? && SameSpanButIds(span, f.span)
    case Unsupported(_) => false
  }

  ghost predicate SameSpanButIds(p: SpanPayload, q: SpanPayload) {
    Recorded(p.content) == Recorded(q.content) && HasParent(p) == HasParent(q)
  }

  lemma BodyIdentifies(c: SpanContent, d: SpanContent, scenario: string, phase: string, sequence: nat, timestamp: string)
    ensures BodyOf(c, scenario, phase, sequence, timestamp) == BodyOf(d, scenario, phase, sequence, timestamp)
       <==> Recorded(c) == Recorded(d)
  {
    var b, b' := BodyOf(c, scenario, phase, sequence, timestamp), BodyOf(d, scenario, phase, sequence, timestamp);
    if b == b' {
      assert c.error == d.error by {
        assert b.error == b'.error;
      }
      assert c.data.kind == b.spanType == d.data.kind;
      if c.data.kind == "agent" {
        assert b.agent.value == b'.agent.value;
      }
    }
  }

  lemma PhasesDiffer(e: Event, f: Event)
    requires !e.Unsupported? && !f.Unsupported? && Phase(e) == Phase(f)
    ensures (e.TraceStart? || e.SpanStart?) == (f.TraceStart? || f.SpanStart?)
  {
    assert "start"[0] != "finish"[0];
  }

  lemma SpanSkeletons(
    e: Event, f: Event, k: nat, timestamp: string, scenario: string, xs: seq<string>, ys: seq<string>)
    requires IsSpan(e) && IsSpan(f)
    ensures Skeleton(RecordAfter(e, k, timestamp, scenario, xs)) == Skeleton(RecordAfter(f, k, timestamp, scenario, ys))
       <==> BodyOf(e.span.content, scenario, Phase(e), k + 1, timestamp)
            == BodyOf(f.span.content, scenario, Phase(f), k + 1, timestamp)
            && HasParent(e.span) == HasParent(f.span)
  {
  }

  lemma SpansIdentify(e: Event, f: Event, k: nat, timestamp: string, scenario: string)
    requires IsSpan(e) && IsSpan(f)
    ensures BodyOf(e.span.content, scenario, Phase(e), k + 1, timestamp)
         == BodyOf(f.span.content, scenario, Phase(f), k + 1, timestamp)
            && HasParent(e.span) == HasParent(f.span)
       <==> SameButIds(e, f)
  {
    if Phase(e) == Phase(f) {
      PhasesDiffer(e, f);
      BodyIdentifies(e.span.content, f.span.content, scenario, Phase(e), k + 1, timestamp);
    } else {
      assert BodyOf(e.span.content, scenario, Phase(e), k + 1, timestamp).phase == Phase(e);
      assert BodyOf(f.span.content, scenario, Phase(f), k + 1, timestamp).phase == Phase(f);
    }
  }

  lemma TracesIdentify(
    e: Event, f: Event, k: nat, timestamp: string, scenario: string, xs: seq<string>, ys: seq<string>)
    requires !e.Unsupported? && !f.Unsupported? && !(IsSpan(e) && IsSpan(f))
    ensures Skeleton(RecordAfter(e, k, timestamp, scenario, xs)) == Skeleton(RecordAfter(f, k, timestamp, scenario, ys))
       <==> SameButIds(e, f)
  {
    if Phase(e) == Phase(f) {
      PhasesDiffer(e, f);
    }
  }

  lemma SkeletonIdentifies(
    e: Event, f: Event, k: nat, timestamp: string, scenario: string, xs: seq<string>, ys: seq<string>)
    requires !e.Unsupported? && !f.Unsupported?
    ensures Skeleton(RecordAfter(e, k, timestamp, scenario, xs)) == Skeleton(RecordAfter(f, k, timestamp, scenario, ys))
       <==> SameButIds(e, f)
  {
    if IsSpan(e) && IsSpan(f) {
      SpanSkeletons(e, f, k, timestamp, scenario, xs, ys);
      SpansIdentify(e, f, k, timestamp, scenario);
    } else {
      TracesIdentify(e, f, k, timestamp, scenario, xs, ys);
    }
  }

  /** Two runs give the same records exactly when their events are the same but for raw ids and
      unrecorded content, and their raw ids are equal at the same places. */
  lemma RecordsCanonical(es: seq<Event>, fs: seq<Event>, timestamps: seq<string>, scenario: string)
    requires |es| == |fs| == |timestamps| && Supported(es) && Supported(fs)
    ensures Records(es, timestamps, scenario) == Records(fs, timestamps, scenario)
       <==> (forall k :: 0 <= k < |es| ==> SameButIds(es[k], fs[k]))
            && SamePattern(AllLookups(es), AllLookups(fs))
  {
    var rs, qs := Records(es, timestamps, scenario), Records(fs, timestamps, scenario);
    forall k | 0 <= k < |es|
      ensures Skeleton(rs[k]) == Skeleton(qs[k]) <==> SameButIds(es[k], fs[k])
    {
      SkeletonIdentifies(es[k], fs[k], k, timestamps[k], scenario, Lookups(es, k), Lookups(fs, k));
    }
    SkeletonsCanonical(es, fs, timestamps, scenario);
  }

  // ------------------------------------------------------------------- renaming

  ghost function RenameEvent(e: Event, f: string -> string): Event {
    if !IsSpan(e) then e
    else
      var parent := if HasParent(e.span) then Some(f(e.span.parentId.value)) else e.span.parentId;
      var span := e.span.(id := f(e.span.id), parentId := parent);
      if e.SpanStart? then SpanStart(span) else SpanEnd(span)
  }

  ghost function Rename(es: seq<Event>, f: string -> string): (fs: seq<Event>)
    ensures |fs| == |es| && forall i :: 0 <= i < |es| ==> fs[i] == RenameEvent(es[i], f)
  {
    seq(|es|, i requires 0 <= i < |es| => RenameEvent(es[i], f))
  }

  /** The renaming keeps ids apart, and keeps parent ids non-empty. */
  ghost predicate Faithful(es: seq<Event>, f: string -> string) {
    && (forall x, y :: x in AllLookups(es) && y in AllLookups(es) && f(x) == f(y) ==> x == y)
    && (forall i :: 0 <= i < |es| && IsSpan(es[i]) && HasParent(es[i].span) ==> f(es[i].span.parentId.value) != "")
  }

  lemma RenamedIds(e: Event, f: string -> string)
    requires IsSpan(e) && HasParent(e.span) ==> f(e.span.parentId.value) != ""
    ensures |IdsOf(RenameEvent(e, f))| == |IdsOf(e)|
    ensures forall j :: 0 <= j < |IdsOf(e)| ==> IdsOf(RenameEvent(e, f))[j] == f(IdsOf(e)[j])
  {
  }

  lemma {:induction false} RenamedLookups(es: seq<Event>, f: string -> string, n: nat)
    requires n <= |es| && Faithful(es, f)
    ensures |Lookups(Rename(es, f), n)| == |Lookups(es, n)|
    ensures forall p :: 0 <= p < |Lookups(es, n)| ==> Lookups(Rename(es, f), n)[p] == f(Lookups(es, n)[p])
  {
    if n > 0 {
      var k := n - 1;
      RenamedLookups(es, f, k);
      LookupsNext(es, k);
      LookupsNext(Rename(es, f), k);
      RenamedIds(es[k], f);
    }
  }

  lemma RenamedSkeleton(
    e: Event, f: string -> string, k: nat, timestamp: string, scenario: string, xs: seq<string>, ys: seq<string>)
    requires !e.Unsupported? && (IsSpan(e) && HasParent(e.span) ==> f(e.span.parentId.value) != "")
    ensures !RenameEvent(e, f).Unsupported?
    ensures Skeleton(RecordAfter(e, k, timestamp, scenario, xs))
         == Skeleton(RecordAfter(RenameEvent(e, f), k, timestamp, scenario, ys))
  {
  }

  lemma RenamedSkeletons(es: seq<Event>, f: string -> string, timestamps: seq<string>, scenario: string)
    requires |es| == |timestamps| && Supported(es) && Faithful(es, f)
    ensures Supported(Rename(es, f))
    ensures SameSkeletons(Records(es, timestamps, scenario), Records(Rename(es, f), timestamps, scenario))
  {
    var fs := Rename(es, f);
    assert Supported(fs);
    forall k | 0 <= k < |es|
      ensures Skeleton(RecordAt(es, k, timestamps, scenario)) == Skeleton(RecordAt(fs, k, timestamps, scenario))
    {
      RenamedSkeleton(es[k], f, k, timestamps[k], scenario, Lookups(es, k), Lookups(fs, k));
    }
  }

  /** Renaming the raw ids faithfully leaves the records as they are. */
  lemma RenamingInvariant(es: seq<Event>, f: string -> string, timestamps: seq<string>, scenario: string)
    requires |es| == |timestamps| && Supported(es) && Faithful(es, f)
    ensures Supported(Rename(es, f))
    ensures Records(Rename(es, f), timestamps, scenario) == Records(es, timestamps, scenario)
  {
    RenamedSkeletons(es, f, timestamps, scenario);
    RenamedLookups(es, f, |es|);
    var xs, ys := AllLookups(es), AllLookups(Rename(es, f));
    forall p, q | 0 <= p < |xs| && 0 <= q < |xs|
      ensures xs[p] == xs[q] <==> ys[p] == ys[q]
    {
      assert xs[p] in xs && xs[q] in xs;
    }
    SamePatternSameRecords(es, Rename(es, f), timestamps, scenario);
  }
}
