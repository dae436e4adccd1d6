/**
 The three normalized artifacts of one measured run, and how the two diff
 projectors read them.
 */
module RunnerEvidence {
  import opened JsonValues
  import opened Outcomes

  const OBSERVATION_HEALTH_SCHEMA := "assay.runner.observation_health.v0"
  const CAPABILITY_SURFACE_SCHEMA := "assay.runner.capability_surface.v0"
  const CORRELATION_REPORT_SCHEMA := "assay.runner.correlation_report.v0"

  const FILESYSTEM_PATHS := "filesystem_paths"

  const SURFACE_CATEGORIES: set<string> :=
    {FILESYSTEM_PATHS, "network_endpoints", "process_execs", "mcp_tools", "policy_decisions"}

  datatype Evidence = Evidence(health: Dict, surface: Dict, correlation: Dict)

  predicate NonEmptyStr(v: Json) {
    v.Str? && v.s != ""
  }

  /** `require_schema` does not raise. */
  predicate HasSchema(data: Dict, schema: string) {
    Get(data, "schema") == Str(schema) && NonEmptyStr(Get(data, "run_id"))
  }

  predicate IsStringList(v: Json) {
    v.Arr? && forall i :: 0 <= i < |v.items| ==> v.items[i].Str?
  }

  /** The values of a list of strings, as a set. */
  function StringSet(v: Json): (r: set<string>)
    requires IsStringList(v)
    ensures forall x :: x in r <==> Str(x) in v.items
  {
    var r := set i | 0 <= i < |v.items| :: v.items[i].s;
    assert forall x :: x in r <==> Str(x) in v.items by {
      forall x | Str(x) in v.items
        ensures x in r
      {
        var i :| 0 <= i < |v.items| && v.items[i] == Str(x);
        assert v.items[i].s in r;
      }
    }
    r
  }

  /** A list of strings with a function applied to each of them. */
  function MapStrings(v: Json, f: string -> string): (r: Json)
    requires IsStringList(v)
    ensures IsStringList(r)
  {
    Arr(seq(|v.items|, i requires 0 <= i < |v.items| => Str(f(v.items[i].s))))
  }

  lemma MapStringsSet(v: Json, f: string -> string)
    requires IsStringList(v)
    ensures StringSet(MapStrings(v, f)) == set x | x in StringSet(v) :: f(x)
  {
    var items, mapped := v.items, MapStrings(v, f).items;
    forall y | y in StringSet(MapStrings(v, f))
      ensures y in set x | x in StringSet(v) :: f(x)
    {
      var i :| 0 <= i < |mapped| && mapped[i] == Str(y);
      assert Str(items[i].s) in items;
      assert items[i].s in StringSet(v) && f(items[i].s) == y;
    }
    forall x | x in StringSet(v)
      ensures f(x) in StringSet(MapStrings(v, f))
    {
      var i :| 0 <= i < |items| && items[i] == Str(x);
      assert mapped[i] == Str(f(x));
    }
  }

  /** A surface with another list of paths is readable, and keeps every other category. */
  lemma ReplacePaths(e: Evidence, paths: Json)
    requires Readable(e) && IsStringList(paths)
    ensures Readable(e.(surface := e.surface[FILESYSTEM_PATHS := paths]))
    ensures forall c :: c in SURFACE_CATEGORIES && c != FILESYSTEM_PATHS ==>
              Get(e.surface[FILESYSTEM_PATHS := paths], c) == Get(e.surface, c)
  {
    var surface := e.surface[FILESYSTEM_PATHS := paths];
    assert Get(surface, "schema") == Get(e.surface, "schema");
    assert Get(surface, "run_id") == Get(e.surface, "run_id");
  }

  /** A string stands in the list of a category. */
  ghost predicate Holds(surface: Dict, category: string, x: string) {
    Get(surface, category).Arr? && Str(x) in Get(surface, category).items
  }

  /** `surface_values`, on a surface whose categories are all lists of strings. */
  function SurfaceValues(surface: Dict, category: string): (r: set<string>)
    requires IsStringList(Get(surface, category))
    ensures forall x :: x in r <==> Holds(surface, category, x)
  {
    StringSet(Get(surface, category))
  }

  predicate SurfaceReadable(surface: Dict) {
    forall c :: c in SURFACE_CATEGORIES ==> IsStringList(Get(surface, c))
  }

  /** Every check on one side's artifacts that comes before the bindings. */
  predicate Readable(e: Evidence) {
    && HasSchema(e.health, OBSERVATION_HEALTH_SCHEMA)
    && HasSchema(e.surface, CAPABILITY_SURFACE_SCHEMA)
    && HasSchema(e.correlation, CORRELATION_REPORT_SCHEMA)
    && Get(e.surface, "run_id") == Get(e.health, "run_id")
    && Get(e.correlation, "run_id") == Get(e.health, "run_id")
    && SurfaceReadable(e.surface)
  }

  /** `require_schema`. */
  method RequireSchema(data: Dict, schema: string) returns (ok: bool)
    ensures ok <==> HasSchema(data, schema)
  {
    if Get(data, "schema") != Str(schema) {
      return false;
    }
    var id := Get(data, "run_id");
    ok := id.Str? && |id.s| > 0;
  }

  method CheckStringList(v: Json) returns (ok: bool)
    ensures ok <==> IsStringList(v)
  {
    if !v.Arr? {
      return false;
    }
    for i := 0 to |v.items|
      invariant forall j :: 0 <= j < i ==> v.items[j].Str?
    {
      if !v.items[i].Str? {
        return false;
      }
    }
    return true;
  }

  method CategoryOrder() returns (order: seq<string>)
    ensures forall c :: c in order <==> c in SURFACE_CATEGORIES
  {
    order := ["filesystem_paths", "network_endpoints", "process_execs", "mcp_tools", "policy_decisions"];
  }

  method CheckSurface(surface: Dict) returns (ok: bool)
    ensures ok <==> SurfaceReadable(surface)
  {
    var order := CategoryOrder();
    for i := 0 to |order|
      invariant forall j :: 0 <= j < i ==> IsStringList(Get(surface, order[j]))
    {
      ok := CheckStringList(Get(surface, order[i]));
      if !ok {
        assert order[i] in order;
        return false;
      }
    }
    return true;
  }

  /** The checks on one side's artifacts, up to its bindings. */
  method CheckEvidence(e: Evidence) returns (ok: bool)
    ensures ok <==> Readable(e)
  {
    ok := RequireSchema(e.health, "assay.runner.observation_health.v0");
    if ok {
      ok := RequireSchema(e.surface, "assay.runner.capability_surface.v0");
    }
    if ok {
      ok := RequireSchema(e.correlation, "assay.runner.correlation_report.v0");
    }
    if !ok {
      return;
    }
    var runId := Get(e.health, "run_id");
    if Get(e.surface, "run_id") != runId || Get(e.correlation, "run_id") != runId {
      return false;
    }
    ok := CheckSurface(e.surface);
  }

  function RunId(e: Evidence): string
    requires Readable(e)
  {
    Get(e.health, "run_id").s
  }

  /** Python's `v == 0`, which also holds of `False`. */
  predicate EqualsZero(v: Json) {
    v == Int(0) || v == Bool(false)
  }

  lemma ZeroExact(v: Json)
    ensures EqualsZero(v) <==> PythonEqual(v, Int(0))
  {
  }

  // ----------------------------------------------------------------- bindings

  predicate IdentifiedBinding(item: Json) {
    item.Obj? && NonEmptyStr(Get(item.members, "tool_call_id"))
  }

  function BindingId(item: Json): string
    requires IdentifiedBinding(item)
  {
    Get(item.members, "tool_call_id").s
  }

  /** Every binding has a stable id, and no two have the same. */
  ghost predicate StableIds(items: seq<Json>) {
    && (forall i :: 0 <= i < |items| ==> IdentifiedBinding(items[i]))
    && (forall i, j :: 0 <= i < j < |items| ==> BindingId(items[i]) != BindingId(items[j]))
  }

  ghost predicate BindingsIdentified(correlation: Dict) {
    Get(correlation, "bindings").Arr? && StableIds(Get(correlation, "bindings").items)
  }

  ghost function IdsOf(items: seq<Json>): set<string>
    requires StableIds(items)
  {
    set i | 0 <= i < |items| :: BindingId(items[i])
  }

  /** Some binding of the report has this id. */
  ghost predicate HasBinding(correlation: Dict, id: string) {
    var bindings := Get(correlation, "bindings");
    && bindings.Arr?
    && exists i :: 0 <= i < |bindings.items| && IsBindingOf(bindings.items[i], id)
  }

  ghost predicate IsBindingOf(item: Json, id: string) {
    item.Obj? && Get(item.members, "tool_call_id") == Str(id)
  }

  /** Some binding of the report has this id and this decision, null being none. */
  ghost predicate HasDecision(correlation: Dict, id: string, decision: Option<string>) {
    var bindings := Get(correlation, "bindings");
    && bindings.Arr?
    && exists i :: 0 <= i < |bindings.items| && IsBindingOf(bindings.items[i], id)
                   && Get(bindings.items[i].members, "policy_decision")
                      == if decision.Some? then Str(decision.value) else Null
  }

  lemma IdsExact(correlation: Dict, id: string)
    requires BindingsIdentified(correlation)
    ensures id in IdsOf(Get(correlation, "bindings").items) <==> HasBinding(correlation, id)
  {
    var items := Get(correlation, "bindings").items;
    if id in IdsOf(items) {
      var i :| 0 <= i < |items| && BindingId(items[i]) == id;
      assert IsBindingOf(items[i], id);
    }
    if HasBinding(correlation, id) {
      var i :| 0 <= i < |items| && IsBindingOf(items[i], id);
      assert BindingId(items[i]) == id;
    }
  }

  lemma DecisionsExact(correlation: Dict, id: string, decision: Option<string>)
    requires BindingsReadable(correlation)
    ensures var d := BindingMap(correlation);
            && (id in d <==> HasBinding(correlation, id))
            && (id in d && d[id] == decision <==> HasDecision(correlation, id, decision))
  {
    var items, d := Get(correlation, "bindings").items, BindingMap(correlation);
    IdsExact(correlation, id);
    if id in d {
      var i :| 0 <= i < |items| && BindingId(items[i]) == id;
      assert d[BindingId(items[i])] == Decision(items[i]);
      assert IsBindingOf(items[i], id);
    }
    if HasDecision(correlation, id, decision) {
      var j :| 0 <= j < |items| && IsBindingOf(items[j], id)
               && Get(items[j].members, "policy_decision") == if decision.Some? then Str(decision.value) else Null;
      assert BindingId(items[j]) == id && Decision(items[j]) == decision;
    }
  }

  /** The checks on one binding: its id, or a raised error. */
  method ReadId(item: Json) returns (r: Result<string>)
    ensures r.Ok? <==> IdentifiedBinding(item)
    ensures r.Ok? ==> r.value == BindingId(item)
    ensures r.Raised? ==> r.error == "ValidationError"
  {
    if !item.Obj? {
      return Raised("ValidationError");
    }
    var id := Get(item.members, "tool_call_id");
    if !id.Str? || id.s == "" {
      return Raised("ValidationError");
    }
    return Ok(id.s);
  }

  /** `binding_ids_set`. */
  method BindingIdsSet(correlation: Dict) returns (r: Result<set<string>>)
    ensures r.Ok? <==> BindingsIdentified(correlation)
    ensures r.Ok? ==> r.value == IdsOf(Get(correlation, "bindings").items)
    ensures r.Raised? ==> r.error == "ValidationError"
  {
    var bindings := Get(correlation, "bindings");
    if !bindings.Arr? {
      return Raised("ValidationError");
    }
    var items := bindings.items;
    var ids := {};
    for i := 0 to |items|
      invariant StableIds(items[..i])
      invariant ids == IdsOf(items[..i])
    {
      var read := ReadId(items[i]);
      if read.Raised? {
        return Raised("ValidationError");
      }
      var id := read.value;
      if id in ids {
        ghost var j :| 0 <= j < i && BindingId(items[..i][j]) == id;
        assert BindingId(items[j]) == BindingId(items[i]);
        return Raised("ValidationError");
      }
      IdsStep(items, i);
      ids := ids + {id};
    }
    assert items[..|items|] == items;
    return Ok(ids);
  }

  lemma IdsStep(items: seq<Json>, i: nat)
    requires i < |items| && StableIds(items[..i]) && IdentifiedBinding(items[i])
    requires BindingId(items[i]) !in IdsOf(items[..i])
    ensures StableIds(items[..i + 1])
    ensures IdsOf(items[..i + 1]) == IdsOf(items[..i]) + {BindingId(items[i])}
  {
    var front, more := items[..i], items[..i + 1];
    assert forall j :: 0 <= j < i ==> more[j] == front[j] && BindingId(front[j]) in IdsOf(front);
    assert more[i] == items[i];
    forall x | x in IdsOf(front) + {BindingId(items[i])}
      ensures x in IdsOf(more)
    {
      if x in IdsOf(front) {
        ghost var j :| 0 <= j < i && BindingId(front[j]) == x;
        assert BindingId(more[j]) == x;
      } else {
        assert BindingId(more[i]) == x;
      }
    }
  }

  // ---------------------------------------------------------- policy decisions

  predicate DecisionReadable(item: Json)
    requires item.Obj?
  {
    Get(item.members, "policy_decision").Null? || Get(item.members, "policy_decision").Str?
  }

  function Decision(item: Json): Option<string>
    requires item.Obj? && DecisionReadable(item)
  {
    match Get(item.members, "policy_decision")
    case Str(s) => Some(s)
    case _ => None
  }

  type Decisions = map<string, Option<string>>

  ghost predicate DecisionsReadable(items: seq<Json>)
    requires StableIds(items)
  {
    forall i :: 0 <= i < |items| ==> DecisionReadable(items[i])
  }

  ghost predicate BindingsReadable(correlation: Dict) {
    BindingsIdentified(correlation) && DecisionsReadable(Get(correlation, "bindings").items)
  }

  /** The decision of each binding, by its id. */
  ghost predicate DecisionsOf(items: seq<Json>, d: Decisions)
    requires StableIds(items) && DecisionsReadable(items)
  {
    && d.Keys == IdsOf(items)
    && forall i :: 0 <= i < |items| ==> BindingId(items[i]) in d && d[BindingId(items[i])] == Decision(items[i])
  }

  ghost function BindingMap(correlation: Dict): (d: Decisions)
    requires BindingsReadable(correlation)
    ensures DecisionsOf(Get(correlation, "bindings").items, d)
  {
    var items := Get(correlation, "bindings").items;
    DecisionsExist(items);
    var d :| DecisionsOf(items, d);
    d
  }

  lemma DecisionsUnique(items: seq<Json>, d: Decisions, e: Decisions)
    requires StableIds(items) && DecisionsReadable(items)
    requires DecisionsOf(items, d) && DecisionsOf(items, e)
    ensures d == e
  {
    forall k | k in d
      ensures k in e && d[k] == e[k]
    {
      var i :| 0 <= i < |items| && BindingId(items[i]) == k;
    }
  }

  lemma {:induction false} DecisionsExist(items: seq<Json>)
    requires StableIds(items) && DecisionsReadable(items)
    ensures exists d :: DecisionsOf(items, d)
  {
    if items == [] {
      assert DecisionsOf(items, map[]);
    } else {
      var n := |items| - 1;
      assert forall i :: 0 <= i < n ==> items[..n][i] == items[i];
      DecisionsExist(items[..n]);
      var d :| DecisionsOf(items[..n], d);
      DecisionsStep(items, n, d);
      assert items[..n + 1] == items;
    }
  }

  lemma DecisionsStep(items: seq<Json>, i: nat, d: Decisions)
    requires i < |items| && StableIds(items[..i + 1]) && DecisionsReadable(items[..i + 1])
    requires StableIds(items[..i]) && DecisionsReadable(items[..i]) && DecisionsOf(items[..i], d)
    ensures DecisionsOf(items[..i + 1], d[BindingId(items[i]) := Decision(items[i])])
  {
    var front, more := items[..i], items[..i + 1];
    assert forall j :: 0 <= j < i ==> more[j] == front[j];
    assert more[i] == items[i];
    forall j | 0 <= j < i
      ensures BindingId(front[j]) != BindingId(items[i])
    {
      assert BindingId(more[j]) != BindingId(more[i]);
    }
    assert BindingId(items[i]) !in IdsOf(front);
    IdsStep(items, i);
  }

  /** The loop of `binding_map` has read these bindings. */
  ghost predicate HasRead(items: seq<Json>, d: Decisions) {
    StableIds(items) && DecisionsReadable(items) && DecisionsOf(items, d)
  }

  /** The next binding can be read, and its id is new. */
  ghost predicate Extends(item: Json, d: Decisions) {
    IdentifiedBinding(item) && BindingId(item) !in d && DecisionReadable(item)
  }

  lemma ReadNext(items: seq<Json>, i: nat, d: Decisions)
    requires i < |items| && HasRead(items[..i], d) && Extends(items[i], d)
    ensures HasRead(items[..i + 1], d[BindingId(items[i]) := Decision(items[i])])
  {
    var front, more := items[..i], items[..i + 1];
    assert forall j :: 0 <= j < i ==> more[j] == front[j];
    assert more[i] == items[i];
    forall j | 0 <= j < i
      ensures BindingId(front[j]) != BindingId(items[i])
    {
      assert BindingId(front[j]) in d;
    }
    DecisionsStep(items, i, d);
  }

  lemma ReadStops(items: seq<Json>, i: nat, d: Decisions)
    requires i < |items| && HasRead(items[..i], d) && !Extends(items[i], d)
    ensures !(StableIds(items) && DecisionsReadable(items))
  {
    if IdentifiedBinding(items[i]) && BindingId(items[i]) in d {
      var j :| 0 <= j < i && BindingId(items[..i][j]) == BindingId(items[i]);
      assert items[j] == items[..i][j];
    }
  }

  /** `binding_map`. */
  method ReadBindingMap(correlation: Dict) returns (r: Result<Decisions>)
    ensures r.Ok? <==> BindingsReadable(correlation)
    ensures r.Ok? ==> r.value == BindingMap(correlation)
    ensures r.Raised? ==> r.error == "ValidationError"
  {
    var bindings := Get(correlation, "bindings");
    if !bindings.Arr? {
      return Raised("ValidationError");
    }
    var items := bindings.items;
    var result: Decisions := map[];
    for i := 0 to |items|
      invariant HasRead(items[..i], result)
    {
      var next := ReadBinding(items[i], result);
      if next.Raised? {
        ReadStops(items, i, result);
        return Raised("ValidationError");
      }
      ReadNext(items, i, result);
      result := next.value;
    }
    assert items[..|items|] == items;
    DecisionsUnique(items, result, BindingMap(correlation));
    return Ok(result);
  }

  /** One pass of the loop: its checks, and the map with the binding's decision added. */
  method ReadBinding(item: Json, result: Decisions) returns (r: Result<Decisions>)
    ensures r.Ok? <==> Extends(item, result)
    ensures r.Ok? ==> r.value == result[BindingId(item) := Decision(item)]
    ensures r.Raised? ==> r.error == "ValidationError"
  {
    var id := ReadId(item);
    if id.Raised? || id.value in result {
      return Raised("ValidationError");
    }
    var decision := Get(item.members, "policy_decision");
    if decision != Null && !decision.Str? {
      return Raised("ValidationError");
    }
    return Ok(result[id.value := if decision == Null then None else Some(decision.s)]);
  }
}
