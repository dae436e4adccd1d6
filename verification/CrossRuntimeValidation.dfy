/**
 The structural validator of cross-runtime diffs, on any JSON object, and what
 it answers on the objects that the projector returns.
 */
module CrossRuntimeValidation {
  import opened JsonValues
  import opened Outcomes
  import opened RunnerEvidence
  import opened CategoryDiffs
  import opened CrossRuntimeDiffs
  import Lexicographic

  // -------------------------------------------------------- the object written

  function SectionJson(d: Section): Json {
    Obj(map[
          "added" := Arr(Strings(d.added)),
          "removed" := Arr(Strings(d.removed)),
          "unchanged" := Arr(Strings(d.kept))])
  }

  function SurfaceJson(surface: map<string, Section>): (m: Dict)
    ensures m.Keys == surface.Keys
  {
    map c | c in surface :: SectionJson(surface[c])
  }

  function PreconditionsJson(pre: Preconditions): Dict {
    map[
      "base_health_clean" := Bool(pre.baseHealthClean),
      "head_health_clean" := Bool(pre.headHealthClean),
      "base_correlation_clean" := Bool(pre.baseCorrelationClean),
      "head_correlation_clean" := Bool(pre.headCorrelationClean),
      "stable_tool_call_ids_required" := Bool(pre.stableToolCallIdsRequired),
      "stable_tool_call_ids_present" := Bool(pre.stableToolCallIdsPresent),
      "runtimes_distinct" := Bool(pre.runtimesDistinct)]
  }

  function Scope(): Dict {
    map[
      "projection" := Str("surface_set"),
      "uses_raw_telemetry" := Bool(false),
      "uses_proof_pack" := Bool(false),
      "per_binding_capability_values" := Bool(false),
      "cross_runtime" := Bool(true)]
  }

  function Canonicalization(): (m: Dict)
    ensures m.Keys == SURFACE_CATEGORIES
  {
    map c | c in SURFACE_CATEGORIES :: if c == FILESYSTEM_PATHS then Str(A1_RULE) else Str("none")
  }

  function SdkMetadata(base: Dict, head: Dict): Dict {
    map["comparison" := Str(SIDE_BAND_MARKER), "base" := Obj(base), "head" := Obj(head)]
  }

  function OutOfScope(): Dict {
    map["comparison" := Str(OUT_OF_SCOPE_MARKER)]
  }

  function NothingUnbound(): (m: Dict)
    ensures m.Keys == SURFACE_CATEGORIES
    ensures forall c :: c in m ==> m[c] == Arr([])
  {
    map c | c in SURFACE_CATEGORIES :: Arr([])
  }

  /** The object that the projector returns. */
  function ToJson(d: CrossRuntimeDiff): Dict {
    map[
      "status" := Str(d.status),
      "preconditions" := Obj(PreconditionsJson(d.preconditions)),
      "scope" := Obj(Scope()),
      "canonicalization" := Obj(Canonicalization()),
      "surface" := Obj(SurfaceJson(d.surface)),
      "binding_ids" := Obj(OutOfScope()),
      "policy_outcomes" := Obj(OutOfScope()),
      "sdk_metadata" := Obj(SdkMetadata(d.baseSdk, d.headSdk)),
      "unbound" := Obj(NothingUnbound()),
      "non_claims" := Arr(Strings(REQUIRED_NON_CLAIMS)),
      "ambiguities" := Arr([]),
      "notes" := Arr(Strings(REQUIRED_NOTES)),
      "base_run_id" := Str(d.baseRunId),
      "head_run_id" := Str(d.headRunId),
      "base_runtime" := Str(d.baseRuntime),
      "head_runtime" := Str(d.headRuntime),
      "schema" := Str(CROSS_RUNTIME_DIFF_SCHEMA)]
  }

  // ---------------------------------------------------------------- validation

  const REQUIRED_TOP: set<string> := {
    "schema", "base_run_id", "head_run_id", "base_runtime", "head_runtime", "status", "preconditions",
    "scope", "canonicalization", "surface", "binding_ids", "policy_outcomes", "sdk_metadata", "unbound",
    "non_claims", "ambiguities", "notes"}

  const ALLOWED_STATUSES: set<string> :=
    {"clean", "partial:health", "partial:correlation", "partial:unbound", "failed"}

  const PRECONDITION_KEYS: set<string> := {
    "base_health_clean", "head_health_clean", "base_correlation_clean", "head_correlation_clean",
    "stable_tool_call_ids_required", "stable_tool_call_ids_present", "runtimes_distinct"}

  const LISTS: set<string> := {"added", "removed", "unchanged"}

  predicate ValidRuntimes(base: Json, head: Json) {
    base.Str? && base.s in KNOWN_RUNTIMES && head.Str? && head.s in KNOWN_RUNTIMES && base != head
  }

  predicate ValidStatus(v: Json) {
    v.Str? && v.s in ALLOWED_STATUSES
  }

  predicate ValidPreconditions(v: Json) {
    v.Obj? && v.members.Keys == PRECONDITION_KEYS && forall k :: k in PRECONDITION_KEYS ==> v.members[k].Bool?
  }

  /** Python's `v == b` for a boolean b, which also holds of the integers 0 and 1. */
  predicate EqualsBool(v: Json, b: bool) {
    v == Bool(b) || v == Int(if b then 1 else 0)
  }

  predicate ValidScope(v: Json) {
    && v.Obj? && v.members.Keys == Scope().Keys
    && v.members["projection"] == Str("surface_set")
    && EqualsBool(v.members["uses_raw_telemetry"], false)
    && EqualsBool(v.members["uses_proof_pack"], false)
    && EqualsBool(v.members["per_binding_capability_values"], false)
    && EqualsBool(v.members["cross_runtime"], true)
  }

  /** The scope is equal, in Python's sense, to the one that the projector writes. */
  lemma ScopeExact(v: Json)
    ensures ValidScope(v) <==>
              v.Obj? && v.members.Keys == Scope().Keys
              && forall k :: k in Scope() ==> PythonEqual(v.members[k], Scope()[k])
  {
    var expected := Scope();
    assert expected["projection"] == Str("surface_set");
    assert expected["uses_raw_telemetry"] == Bool(false);
    assert expected["uses_proof_pack"] == Bool(false);
    assert expected["per_binding_capability_values"] == Bool(false);
    assert expected["cross_runtime"] == Bool(true);
  }

  predicate ValidCanonicalization(v: Json) {
    && v.Obj? && SURFACE_CATEGORIES <= v.members.Keys
    && forall c :: c in SURFACE_CATEGORIES ==>
         v.members[c] == if c == FILESYSTEM_PATHS then Str(A1_RULE) else Str("none")
  }

  /** A list of strings, in order and without duplicates. */
  ghost predicate ValidList(v: Json) {
    && IsStringList(v)
    && (forall i, j :: 0 <= i < j < |v.items| ==> !Lexicographic.Less(v.items[j].s, v.items[i].s))
    && (forall i, j :: 0 <= i < j < |v.items| ==> v.items[i] != v.items[j])
  }

  ghost predicate ValidSection(v: Json) {
    v.Obj? && forall key :: key in LISTS ==> ValidList(Get(v.members, key))
  }

  ghost predicate ValidSurface(v: Json) {
    v.Obj? && forall c :: c in SURFACE_CATEGORIES ==> ValidSection(Get(v.members, c))
  }

  predicate ValidOutOfScope(v: Json) {
    v.Obj? && v.members.Keys == {"comparison"} && v.members["comparison"] == Str(OUT_OF_SCOPE_MARKER)
  }

  /** Exactly a name and a version, both non-empty strings. */
  predicate ValidSdkSide(v: Json) {
    && v.Obj? && v.members.Keys == {"sdk_name", "sdk_version"}
    && NonEmptyStr(v.members["sdk_name"]) && NonEmptyStr(v.members["sdk_version"])
  }

  predicate ValidSdk(v: Json) {
    && v.Obj? && v.members.Keys == {"comparison", "base", "head"}
    && v.members["comparison"] == Str(SIDE_BAND_MARKER)
    && ValidSdkSide(v.members["base"]) && ValidSdkSide(v.members["head"])
  }

  predicate ValidUnbound(v: Json) {
    v.Obj? && forall c :: c in SURFACE_CATEGORIES ==> Get(v.members, c) == Arr([])
  }

  predicate IsList(v: Json, xs: seq<string>) {
    v == Arr(Strings(xs))
  }

  /** The four SDK strings of a valid side-band section. */
  function SdkStrings(v: Json): set<string>
    requires ValidSdk(v)
  {
    var base, head := v.members["base"].members, v.members["head"].members;
    {base["sdk_name"].s, base["sdk_version"].s, head["sdk_name"].s, head["sdk_version"].s}
  }

  /** A string is in one of the three lists of a section. */
  ghost predicate SectionHas(v: Json, x: string)
    requires ValidSection(v)
  {
    exists key :: key in LISTS && Str(x) in Get(v.members, key).items
  }

  /** No SDK string is a value of any surface list. */
  ghost predicate NoLeak(sdk: set<string>, surface: Json)
    requires ValidSurface(surface)
  {
    forall c, x :: c in SURFACE_CATEGORIES && x in sdk ==> !SectionHas(Get(surface.members, c), x)
  }

  /** The members that are the same in every valid diff. */
  predicate ValidFixed(d: Dict) {
    && Get(d, "schema") == Str(CROSS_RUNTIME_DIFF_SCHEMA)
    && d.Keys == REQUIRED_TOP
    && ValidScope(Get(d, "scope"))
    && ValidCanonicalization(Get(d, "canonicalization"))
    && ValidOutOfScope(Get(d, "binding_ids"))
    && ValidOutOfScope(Get(d, "policy_outcomes"))
    && ValidUnbound(Get(d, "unbound"))
    && IsList(Get(d, "non_claims"), REQUIRED_NON_CLAIMS)
    && IsList(Get(d, "notes"), REQUIRED_NOTES)
    && Get(d, "ambiguities") == Arr([])
  }

  /** The members that come from the evidence. */
  ghost predicate ValidVarying(d: Dict) {
    && ValidRuntimes(Get(d, "base_runtime"), Get(d, "head_runtime"))
    && ValidStatus(Get(d, "status"))
    && ValidPreconditions(Get(d, "preconditions"))
    && ValidSurface(Get(d, "surface"))
    && ValidSdk(Get(d, "sdk_metadata"))
    && NoLeak(SdkStrings(Get(d, "sdk_metadata")), Get(d, "surface"))
  }

  /** `validate_diff_structure` does not raise. */
  ghost predicate ValidStructure(d: Dict) {
    ValidFixed(d) && ValidVarying(d)
  }

  /** `validate_clean_diff` does not raise. */
  ghost predicate ValidClean(d: Dict) {
    && ValidStructure(d)
    && Get(d, "status") == Str("clean")
    && forall k :: k in PRECONDITION_KEYS ==> Get(Get(d, "preconditions").members, k) == Bool(true)
  }

  // ---------------------------------------------------------------- the checks

  ghost predicate Lists(order: seq<string>, names: set<string>) {
    forall x :: x in order <==> x in names
  }

  /** In order and without duplicates is being the sorted list of its own elements. */
  lemma SortedAsSet(values: seq<string>)
    ensures values == Lexicographic.Sorted(set x | x in values) <==> Lexicographic.StrictlySorted(values)
  {
    if Lexicographic.StrictlySorted(values) {
      Lexicographic.SortedUnique(values, Lexicographic.Sorted(set x | x in values));
    }
  }

  lemma ValidListIsSorted(values: seq<string>)
    ensures ValidList(Arr(Strings(values))) <==> Lexicographic.StrictlySorted(values)
  {
    if ValidList(Arr(Strings(values))) {
      var items := Strings(values);
      forall i, j | 0 <= i < j < |values|
        ensures Lexicographic.Less(values[i], values[j])
      {
        assert !Lexicographic.Less(items[j].s, items[i].s) && items[i] != items[j];
        Lexicographic.Total(values[i], values[j]);
      }
    } else if Lexicographic.StrictlySorted(values) {
      SortedListValid(values);
    }
  }

  /** Types first, then the comparison with the sorted list, which also rules out duplicates. */
  method CheckList(v: Json) returns (ok: bool)
    ensures ok <==> ValidList(v)
  {
    if !v.Arr? {
      return false;
    }
    var values: seq<string> := [];
    for i := 0 to |v.items|
      invariant |values| == i && forall j :: 0 <= j < i ==> v.items[j] == Str(values[j])
    {
      if !v.items[i].Str? {
        return false;
      }
      values := values + [v.items[i].s];
    }
    assert v.items == Strings(values);
    ValidListIsSorted(values);
    SortedAsSet(values);
    ok := Lexicographic.Sorted(set x | x in values) == values;
  }

  method CheckSection(v: Json, order: seq<string>) returns (ok: bool)
    requires Lists(order, LISTS)
    ensures ok <==> ValidSection(v)
  {
    if !v.Obj? {
      return false;
    }
    for i := 0 to |order|
      invariant forall j :: 0 <= j < i ==> ValidList(Get(v.members, order[j]))
    {
      ok := CheckList(Get(v.members, order[i]));
      if !ok {
        assert order[i] in order;
        return false;
      }
    }
    return true;
  }

  method CheckSurface(v: Json, categories: seq<string>, order: seq<string>) returns (ok: bool)
    requires Lists(categories, SURFACE_CATEGORIES) && Lists(order, LISTS)
    ensures ok <==> ValidSurface(v)
  {
    if !v.Obj? {
      return false;
    }
    for i := 0 to |categories|
      invariant forall j :: 0 <= j < i ==> ValidSection(Get(v.members, categories[j]))
    {
      ok := CheckSection(Get(v.members, categories[i]), order);
      if !ok {
        assert categories[i] in categories;
        return false;
      }
    }
    return true;
  }

  /** The values of a list intersected with the SDK strings. */
  method ListLeaks(sdk: set<string>, v: Json) returns (leaks: bool)
    requires ValidList(v)
    ensures leaks <==> exists x :: x in sdk && Str(x) in v.items
  {
    leaks := sdk * StringSet(v) != {};
    if leaks {
      var x :| x in sdk * StringSet(v);
      assert x in sdk && Str(x) in v.items;
    } else {
      forall x | x in sdk ensures Str(x) !in v.items {
        assert x !in sdk * StringSet(v);
      }
    }
  }

  method SectionLeaks(sdk: set<string>, v: Json, order: seq<string>) returns (leaks: bool)
    requires ValidSection(v) && Lists(order, LISTS)
    ensures leaks <==> exists x :: x in sdk && SectionHas(v, x)
  {
    for i := 0 to |order|
      invariant forall j, x :: 0 <= j < i && x in sdk ==> Str(x) !in Get(v.members, order[j]).items
    {
      assert order[i] in order;
      leaks := ListLeaks(sdk, Get(v.members, order[i]));
      if leaks {
        var x :| x in sdk && Str(x) in Get(v.members, order[i]).items;
        assert SectionHas(v, x);
        return true;
      }
    }
    return false;
  }

  method CheckLeaks(sdk: set<string>, surface: Json, categories: seq<string>, order: seq<string>) returns (ok: bool)
    requires ValidSurface(surface) && Lists(categories, SURFACE_CATEGORIES) && Lists(order, LISTS)
    ensures ok <==> NoLeak(sdk, surface)
  {
    for i := 0 to |categories|
      invariant forall j, x :: 0 <= j < i && x in sdk ==> !SectionHas(Get(surface.members, categories[j]), x)
    {
      assert categories[i] in categories;
      var leaks := SectionLeaks(sdk, Get(surface.members, categories[i]), order);
      if leaks {
        return false;
      }
    }
    return true;
  }

  method ListOrder() returns (order: seq<string>)
    ensures Lists(order, LISTS)
  {
    order := ["added", "removed", "unchanged"];
  }

  method CheckPreconditions(v: Json) returns (ok: bool)
    ensures ok <==> ValidPreconditions(v)
  {
    var keys := PreconditionOrder();
    if !v.Obj? || v.members.Keys != (set k | k in keys) {
      return false;
    }
    for i := 0 to |keys|
      invariant forall j :: 0 <= j < i ==> v.members[keys[j]].Bool?
    {
      assert keys[i] in keys;
      if !v.members[keys[i]].Bool? {
        return false;
      }
    }
    return true;
  }

  /** Only the paths are canonicalised. */
  method CheckCanonicalization(v: Json, categories: seq<string>) returns (ok: bool)
    requires Lists(categories, SURFACE_CATEGORIES)
    ensures ok <==> ValidCanonicalization(v)
  {
    if !v.Obj? {
      return false;
    }
    for i := 0 to |categories|
      invariant forall j :: 0 <= j < i ==> RuleOk(v.members, categories[j])
    {
      assert categories[i] in categories;
      if categories[i] !in v.members {
        return false;
      }
      var rule := if categories[i] == "filesystem_paths" then "work_dir_prefix_only" else "none";
      if v.members[categories[i]] != Str(rule) {
        assert !RuleOk(v.members, categories[i]);
        return false;
      }
    }
    return true;
  }

  ghost predicate RuleOk(members: Dict, c: string) {
    c in members && members[c] == if c == FILESYSTEM_PATHS then Str(A1_RULE) else Str("none")
  }

  method CheckUnbound(v: Json, categories: seq<string>) returns (ok: bool)
    requires Lists(categories, SURFACE_CATEGORIES)
    ensures ok <==> ValidUnbound(v)
  {
    if !v.Obj? {
      return false;
    }
    for i := 0 to |categories|
      invariant forall j :: 0 <= j < i ==> Get(v.members, categories[j]) == Arr([])
    {
      assert categories[i] in categories;
      var list := Get(v.members, categories[i]);
      if !list.Arr? || list.items != [] {
        return false;
      }
    }
    return true;
  }

  method CheckSdkSide(v: Json) returns (ok: bool)
    ensures ok <==> ValidSdkSide(v)
  {
    if !v.Obj? || v.members.Keys != {"sdk_name", "sdk_version"} {
      return false;
    }
    var name, version := v.members["sdk_name"], v.members["sdk_version"];
    ok := name.Str? && name.s != "" && version.Str? && version.s != "";
  }

  method CheckSdk(v: Json) returns (ok: bool)
    ensures ok <==> ValidSdk(v)
  {
    if !v.Obj? || v.members.Keys != {"comparison", "base", "head"} {
      return false;
    }
    if v.members["comparison"] != Str("side_band_provenance") {
      return false;
    }
    ok := CheckSdkSide(v.members["base"]);
    if ok {
      ok := CheckSdkSide(v.members["head"]);
    }
  }

  method CheckOutOfScope(v: Json) returns (ok: bool)
    ensures ok <==> ValidOutOfScope(v)
  {
    ok := v.Obj? && v.members == map["comparison" := Str("out_of_scope_cross_runtime_v0")];
  }

  /** The members that are the same in every valid diff. */
  method CheckFixed(d: Dict, categories: seq<string>) returns (ok: bool)
    requires Lists(categories, SURFACE_CATEGORIES)
    ensures ok <==> ValidFixed(d)
  {
    if Get(d, "schema") != Str("assay.runner.cross_runtime_diff.v0") || d.Keys != REQUIRED_TOP {
      return false;
    }
    if !ValidScope(Get(d, "scope")) {
      return false;
    }
    ok := CheckCanonicalization(Get(d, "canonicalization"), categories);
    if ok {
      ok := CheckOutOfScope(Get(d, "binding_ids"));
    }
    if ok {
      ok := CheckOutOfScope(Get(d, "policy_outcomes"));
    }
    if ok {
      ok := CheckUnbound(Get(d, "unbound"), categories);
    }
    ok := ok && IsList(Get(d, "non_claims"), REQUIRED_NON_CLAIMS) && IsList(Get(d, "notes"), REQUIRED_NOTES)
      && Get(d, "ambiguities") == Arr([]);
  }

  method CheckRuntimes(base: Json, head: Json) returns (ok: bool)
    ensures ok <==> ValidRuntimes(base, head)
  {
    ok := false;
    if base == Str("s5_openai_agents") {
      ok := head == Str("gemini_google_genai");
    } else if base == Str("gemini_google_genai") {
      ok := head == Str("s5_openai_agents");
    }
  }

  /** `validate_diff_structure`, on any object. */
  method ValidateDiffStructure(d: Dict) returns (r: Result<()>)
    ensures r.Ok? <==> ValidStructure(d)
    ensures r.Raised? ==> r.error == "ValidationError"
  {
    var categories := CategoryOrder();
    var lists := ListOrder();
    var ok := CheckFixed(d, categories);
    if ok {
      ok := CheckRuntimes(Get(d, "base_runtime"), Get(d, "head_runtime"));
    }
    if ok {
      ok := CheckPreconditions(Get(d, "preconditions"));
    }
    if ok {
      ok := CheckSdk(Get(d, "sdk_metadata"));
    }
    if !ok || !ValidStatus(Get(d, "status")) {
      return Raised("ValidationError");
    }
    ok := CheckSurface(Get(d, "surface"), categories, lists);
    if ok {
      ok := CheckLeaks(SdkStrings(Get(d, "sdk_metadata")), Get(d, "surface"), categories, lists);
    }
    return if ok then Ok(()) else Raised("ValidationError");
  }

  /** `validate_clean_diff`. */
  method ValidateCleanDiff(d: Dict) returns (r: Result<()>)
    ensures r.Ok? <==> ValidClean(d)
    ensures r.Raised? ==> r.error == "ValidationError"
  {
    r := ValidateDiffStructure(d);
    if r.Raised? {
      return;
    }
    if Get(d, "status") != Str("clean") {
      return Raised("ValidationError");
    }
    var keys := PreconditionOrder();
    var ok := AllTrue(Get(d, "preconditions").members, keys);
    if !ok {
      return Raised("ValidationError");
    }
  }

  method PreconditionOrder() returns (order: seq<string>)
    ensures Lists(order, PRECONDITION_KEYS)
  {
    order := [
      "base_health_clean", "head_health_clean", "base_correlation_clean", "head_correlation_clean",
      "stable_tool_call_ids_required", "stable_tool_call_ids_present", "runtimes_distinct"];
  }

  method AllTrue(members: Dict, keys: seq<string>) returns (ok: bool)
    ensures ok <==> forall k :: k in keys ==> Get(members, k) == Bool(true)
  {
    for i := 0 to |keys|
      invariant forall j :: 0 <= j < i ==> Get(members, keys[j]) == Bool(true)
    {
      if Get(members, keys[i]) != Bool(true) {
        assert keys[i] in keys;
        return false;
      }
    }
    return true;
  }

  // ------------------------------------------------- on what the projector returns

  lemma JsonKeys(d: CrossRuntimeDiff)
    ensures ToJson(d).Keys == REQUIRED_TOP
  {
  }

  lemma JsonEvidence(d: CrossRuntimeDiff)
    ensures Get(ToJson(d), "surface") == Obj(SurfaceJson(d.surface))
    ensures Get(ToJson(d), "sdk_metadata") == Obj(SdkMetadata(d.baseSdk, d.headSdk))
  {
  }

  lemma JsonStatus(d: CrossRuntimeDiff)
    ensures Get(ToJson(d), "status") == Str(d.status)
  {
  }

  lemma JsonPreconditions(d: CrossRuntimeDiff)
    ensures Get(ToJson(d), "preconditions") == Obj(PreconditionsJson(d.preconditions))
  {
  }

  lemma JsonRuntimes(d: CrossRuntimeDiff)
    ensures Get(ToJson(d), "base_runtime") == Str(d.baseRuntime)
    ensures Get(ToJson(d), "head_runtime") == Str(d.headRuntime)
  {
  }

  lemma JsonBaseRun(d: CrossRuntimeDiff)
    ensures Get(ToJson(d), "base_run_id") == Str(d.baseRunId)
  {
    assert "base_run_id"[0] != "head_run_id"[0];
  }

  lemma JsonHeadRun(d: CrossRuntimeDiff)
    ensures Get(ToJson(d), "head_run_id") == Str(d.headRunId)
  {
  }

  lemma JsonSchema(d: CrossRuntimeDiff)
    ensures Get(ToJson(d), "schema") == Str(CROSS_RUNTIME_DIFF_SCHEMA)
  {
  }

  lemma JsonSections(d: CrossRuntimeDiff)
    ensures Get(ToJson(d), "scope") == Obj(Scope())
  {
  }

  lemma JsonCanonicalization(d: CrossRuntimeDiff)
    ensures Get(ToJson(d), "canonicalization") == Obj(Canonicalization())
  {
  }

  lemma JsonUnused(d: CrossRuntimeDiff)
    ensures Get(ToJson(d), "binding_ids") == Obj(OutOfScope())
    ensures Get(ToJson(d), "policy_outcomes") == Obj(OutOfScope())
    ensures Get(ToJson(d), "unbound") == Obj(NothingUnbound())
  {
  }

  lemma JsonLists(d: CrossRuntimeDiff)
    ensures Get(ToJson(d), "non_claims") == Arr(Strings(REQUIRED_NON_CLAIMS))
    ensures Get(ToJson(d), "notes") == Arr(Strings(REQUIRED_NOTES))
    ensures Get(ToJson(d), "ambiguities") == Arr([])
  {
  }

  lemma ConstantsValid()
    ensures ValidScope(Obj(Scope()))
    ensures ValidCanonicalization(Obj(Canonicalization()))
    ensures ValidOutOfScope(Obj(OutOfScope()))
    ensures ValidUnbound(Obj(NothingUnbound()))
  {
  }

  lemma PreconditionKeys(pre: Preconditions)
    ensures PreconditionsJson(pre).Keys == PRECONDITION_KEYS
  {
  }

  lemma CleanMembers(pre: Preconditions)
    ensures var m := PreconditionsJson(pre);
            && Get(m, "base_health_clean") == Bool(pre.baseHealthClean)
            && Get(m, "head_health_clean") == Bool(pre.headHealthClean)
            && Get(m, "base_correlation_clean") == Bool(pre.baseCorrelationClean)
            && Get(m, "head_correlation_clean") == Bool(pre.headCorrelationClean)
  {
  }

  lemma IdMembers(pre: Preconditions)
    ensures var m := PreconditionsJson(pre);
            && Get(m, "stable_tool_call_ids_required") == Bool(pre.stableToolCallIdsRequired)
            && Get(m, "stable_tool_call_ids_present") == Bool(pre.stableToolCallIdsPresent)
            && Get(m, "runtimes_distinct") == Bool(pre.runtimesDistinct)
  {
  }

  lemma PreconditionsValid(pre: Preconditions)
    ensures ValidPreconditions(Obj(PreconditionsJson(pre)))
    ensures (forall k :: k in PRECONDITION_KEYS ==> Get(PreconditionsJson(pre), k) == Bool(true))
       <==> pre == Preconditions(true, true, true, true, true, true, true)
  {
    PreconditionKeys(pre);
    CleanMembers(pre);
    IdMembers(pre);
  }

  lemma SortedListValid(xs: seq<string>)
    requires Lexicographic.StrictlySorted(xs)
    ensures ValidList(Arr(Strings(xs)))
    ensures forall x :: Str(x) in Strings(xs) <==> x in xs
  {
    forall i, j | 0 <= i < j < |xs|
      ensures !Lexicographic.Less(xs[j], xs[i]) && xs[i] != xs[j]
    {
      Lexicographic.Asymmetric(xs[i], xs[j]);
    }
    forall x | x in xs
      ensures Str(x) in Strings(xs)
    {
      var i :| 0 <= i < |xs| && xs[i] == x;
      assert Strings(xs)[i] == Str(x);
    }
  }

  lemma SectionLists(d: Section)
    ensures Get(SectionJson(d).members, "added") == Arr(Strings(d.added))
    ensures Get(SectionJson(d).members, "removed") == Arr(Strings(d.removed))
    ensures Get(SectionJson(d).members, "unchanged") == Arr(Strings(d.kept))
  {
  }

  lemma ListsValid(d: Section)
    requires Lexicographic.StrictlySorted(d.added)
    requires Lexicographic.StrictlySorted(d.removed)
    requires Lexicographic.StrictlySorted(d.kept)
    ensures ValidSection(SectionJson(d))
    ensures forall x :: SectionHas(SectionJson(d), x) <==> x in d.added || x in d.removed || x in d.kept
  {
    SectionLists(d);
    SortedListValid(d.added);
    SortedListValid(d.removed);
    SortedListValid(d.kept);
    forall x | x in d.added || x in d.removed || x in d.kept
      ensures SectionHas(SectionJson(d), x)
    {
      var key := if x in d.added then "added" else if x in d.removed then "removed" else "unchanged";
      assert key in LISTS && Str(x) in Get(SectionJson(d).members, key).items;
    }
  }

  /** The lists of a projected section are valid, and hold exactly the values of both sides. */
  lemma SectionExact(base: set<string>, head: set<string>, x: string)
    ensures ValidSection(SectionJson(Diff(base, head)))
    ensures SectionHas(SectionJson(Diff(base, head)), x) <==> x in base || x in head
  {
    DiffPartitions(base, head);
    ListsValid(Diff(base, head));
  }

  /** Some SDK string is a value that one of the sides observed. */
  ghost predicate Leaks(base: Side, head: Side, sdk: set<string>)
    requires SideAccepted(base) && SideAccepted(head)
  {
    exists c, x :: c in SURFACE_CATEGORIES && x in sdk && (Observed(base, c, x) || Observed(head, c, x))
  }

  lemma SurfaceExact(base: Side, head: Side, c: string, x: string)
    requires Accepts(base, head) && c in SURFACE_CATEGORIES
    ensures ValidSection(Get(SurfaceJson(Projected(base, head).surface), c))
    ensures SectionHas(Get(SurfaceJson(Projected(base, head).surface), c), x)
       <==> Observed(base, c, x) || Observed(head, c, x)
  {
    SectionExact(Values(base.evidence.surface, base.prefix, c), Values(head.evidence.surface, head.prefix, c), x);
    ValuesExact(base, c, x);
    ValuesExact(head, c, x);
  }

  lemma SurfaceIsValid(base: Side, head: Side)
    requires Accepts(base, head)
    ensures ValidSurface(Obj(SurfaceJson(Projected(base, head).surface)))
  {
    forall c | c in SURFACE_CATEGORIES
      ensures ValidSection(Get(SurfaceJson(Projected(base, head).surface), c))
    {
      SurfaceExact(base, head, c, "");
    }
  }

  lemma LeakFound(base: Side, head: Side, sdk: set<string>)
    requires Accepts(base, head) && ValidSurface(Obj(SurfaceJson(Projected(base, head).surface)))
    requires Leaks(base, head, sdk)
    ensures !NoLeak(sdk, Obj(SurfaceJson(Projected(base, head).surface)))
  {
    var c, x :| c in SURFACE_CATEGORIES && x in sdk && (Observed(base, c, x) || Observed(head, c, x));
    SurfaceExact(base, head, c, x);
  }

  lemma NoFalseLeak(base: Side, head: Side, sdk: set<string>)
    requires Accepts(base, head) && ValidSurface(Obj(SurfaceJson(Projected(base, head).surface)))
    requires !Leaks(base, head, sdk)
    ensures NoLeak(sdk, Obj(SurfaceJson(Projected(base, head).surface)))
  {
    forall c, x | c in SURFACE_CATEGORIES && x in sdk
      ensures !SectionHas(Get(SurfaceJson(Projected(base, head).surface), c), x)
    {
      assert !Observed(base, c, x) && !Observed(head, c, x);
      SurfaceExact(base, head, c, x);
    }
  }

  lemma SdkValid(base: Dict, head: Dict)
    ensures ValidSdk(Obj(SdkMetadata(base, head))) <==> ValidSdkSide(Obj(base)) && ValidSdkSide(Obj(head))
    ensures ValidSdkSide(Obj(base)) && ValidSdkSide(Obj(head)) ==>
              SdkStrings(Obj(SdkMetadata(base, head))) == SdkPairStrings(base, head)
  {
  }

  lemma FixedParts(d: CrossRuntimeDiff)
    ensures ValidFixed(ToJson(d))
  {
    JsonKeys(d);
    JsonSchema(d);
    JsonSections(d);
    JsonCanonicalization(d);
    JsonUnused(d);
    JsonLists(d);
    ConstantsValid();
  }

  /** What is left of the structure once the fixed members are seen to be valid. */
  lemma ConstantParts(d: CrossRuntimeDiff)
    requires ValidRuntimes(Str(d.baseRuntime), Str(d.headRuntime)) && d.status in ALLOWED_STATUSES
    requires ValidSurface(Obj(SurfaceJson(d.surface)))
    ensures var sdk := Obj(SdkMetadata(d.baseSdk, d.headSdk));
            ValidStructure(ToJson(d))
            <==> ValidSdk(sdk) && NoLeak(SdkStrings(sdk), Obj(SurfaceJson(d.surface)))
  {
    FixedParts(d);
    JsonEvidence(d);
    JsonStatus(d);
    JsonPreconditions(d);
    JsonRuntimes(d);
    PreconditionsValid(d.preconditions);
  }

  ghost function SdkPairStrings(base: Dict, head: Dict): set<string>
    requires ValidSdkSide(Obj(base)) && ValidSdkSide(Obj(head))
  {
    {base["sdk_name"].s, base["sdk_version"].s, head["sdk_name"].s, head["sdk_version"].s}
  }

  lemma ProjectedRuntimes(base: Side, head: Side)
    requires Accepts(base, head)
    ensures ValidRuntimes(Str(Projected(base, head).baseRuntime), Str(Projected(base, head).headRuntime))
    ensures Projected(base, head).status in ALLOWED_STATUSES
  {
  }

  /** The projector meets the structural validator exactly when both SDK pairs are well formed and
      none of their four strings is an observed value of either side. */
  lemma ProjectorMeetsValidator(base: Side, head: Side)
    requires Accepts(base, head)
    ensures ValidStructure(ToJson(Projected(base, head)))
       <==> ValidSdkSide(Obj(base.sdk)) && ValidSdkSide(Obj(head.sdk))
            && !Leaks(base, head, SdkPairStrings(base.sdk, head.sdk))
  {
    var d := Projected(base, head);
    ProjectedRuntimes(base, head);
    SurfaceIsValid(base, head);
    ConstantParts(d);
    SdkValid(base.sdk, head.sdk);
    if ValidSdkSide(Obj(base.sdk)) && ValidSdkSide(Obj(head.sdk)) {
      var sdk := SdkPairStrings(base.sdk, head.sdk);
      if Leaks(base, head, sdk) { LeakFound(base, head, sdk); } else { NoFalseLeak(base, head, sdk); }
    }
  }

  /** Each side's run id, runtime and SDK pair stand under that side's names in the returned object. */
  lemma SidesInObject(base: Side, head: Side)
    requires Accepts(base, head)
    ensures var o := ToJson(Projected(base, head));
            && Get(o, "base_run_id") == Get(base.evidence.health, "run_id")
            && Get(o, "head_run_id") == Get(head.evidence.health, "run_id")
            && Get(o, "base_runtime") == Str(base.runtime) && Get(o, "head_runtime") == Str(head.runtime)
            && var sdk := Get(o, "sdk_metadata");
            && sdk.Obj? && Get(sdk.members, "base") == Obj(base.sdk) && Get(sdk.members, "head") == Obj(head.sdk)
  {
    var d := Projected(base, head);
    JsonBaseRun(d);
    JsonHeadRun(d);
    JsonRuntimes(d);
    JsonEvidence(d);
    SdkSides(base.sdk, head.sdk);
  }

  lemma SdkSides(base: Dict, head: Dict)
    ensures Get(SdkMetadata(base, head), "base") == Obj(base) && Get(SdkMetadata(base, head), "head") == Obj(head)
  {
  }

  /** A projection is clean exactly when the conditions on its evidence all hold. */
  lemma ProjectedClean(base: Side, head: Side)
    requires Accepts(base, head)
    ensures Projected(base, head).status == "clean"
       <==> Projected(base, head).preconditions == Preconditions(true, true, true, true, true, true, true)
  {
  }

  lemma CleanParts(d: CrossRuntimeDiff)
    requires ValidStructure(ToJson(d))
    ensures ValidClean(ToJson(d))
       <==> d.status == "clean" && d.preconditions == Preconditions(true, true, true, true, true, true, true)
  {
    JsonStatus(d);
    JsonPreconditions(d);
    PreconditionsValid(d.preconditions);
  }

  /** On a structurally valid projection the clean validator accepts exactly the clean ones, and
      those are exactly the ones whose seven preconditions are all true. */
  lemma CleanValidatorExact(base: Side, head: Side)
    requires Accepts(base, head) && ValidStructure(ToJson(Projected(base, head)))
    ensures ValidClean(ToJson(Projected(base, head))) <==> Projected(base, head).status == "clean"
    ensures Projected(base, head).status == "clean" <==>
              forall k :: k in PRECONDITION_KEYS ==>
                Get(PreconditionsJson(Projected(base, head).preconditions), k) == Bool(true)
  {
    ProjectedClean(base, head);
    CleanParts(Projected(base, head));
    PreconditionsValid(Projected(base, head).preconditions);
  }
}
