/** The diff of two runs recorded from different runtimes, after the A1 path rule. */
module CrossRuntimeDiffs {
  import opened JsonValues
  import opened Outcomes
  import opened RunnerEvidence
  import opened CategoryDiffs
  import opened WorkDirPaths
  import CapabilityDiffs

  const SDK_EVENT_SCHEMA := "assay.runner.sdk_event.v0"
  const CROSS_RUNTIME_DIFF_SCHEMA := "assay.runner.cross_runtime_diff.v0"
  const KNOWN_RUNTIMES: set<string> := {"s5_openai_agents", "gemini_google_genai"}
  const A1_RULE := "work_dir_prefix_only"
  const OUT_OF_SCOPE_MARKER := "out_of_scope_cross_runtime_v0"
  const SIDE_BAND_MARKER := "side_band_provenance"

  const REQUIRED_NON_CLAIMS: seq<string> := [
    "cross_runtime_no_acceptability_judgment",
    "cross_runtime_no_declared_capability_input",
    "cross_runtime_no_derived_binding_identity",
    "cross_runtime_no_filename_semantic_equivalence",
    "cross_runtime_no_sdk_capability_equivalence"]

  const REQUIRED_NOTES: seq<string> := [
    "cross_runtime_diff_binding_ids_out_of_scope: binding ids are not cross-runtime comparable in v0; required only for within-runtime correlation",
    "cross_runtime_diff_sdk_metadata_side_band: sdk metadata reported as side-band runtime provenance, not capability surface",
    "cross_runtime_diff_work_dir_prefix_canonicalized: filesystem_paths normalized via the A1 work-dir prefix rule"]

  /** Everything declared and recorded for one side. */
  datatype Side = Side(runtime: string, prefix: string, evidence: Evidence, sdk: Dict)

  // ----------------------------------------------------------------- projector

  /** Every check on one side that comes before its bindings. */
  predicate SideDeclared(s: Side) {
    s.runtime in KNOWN_RUNTIMES && AcceptedPrefix(s.prefix) && Readable(s.evidence)
  }

  ghost predicate SideAccepted(s: Side) {
    SideDeclared(s) && BindingsIdentified(s.evidence.correlation)
  }

  ghost predicate Accepts(base: Side, head: Side) {
    SideAccepted(base) && SideAccepted(head) && base.runtime != head.runtime
  }

  /** The values of one category as the diff compares them. */
  function Values(surface: Dict, prefix: string, category: string): set<string>
    requires IsStringList(Get(surface, category))
  {
    if category == FILESYSTEM_PATHS then CanonicalizeAll(SurfaceValues(surface, category), prefix)
    else SurfaceValues(surface, category)
  }

  /** A side shows a string: it stands in the category's list or, for paths, is the canonical form of
      one that does. */
  ghost predicate Observed(s: Side, c: string, x: string) {
    if c == FILESYSTEM_PATHS
    then exists y :: Holds(s.evidence.surface, c, y) && Canonicalize(y, s.prefix) == x
    else Holds(s.evidence.surface, c, x)
  }

  lemma ValuesExact(s: Side, c: string, x: string)
    requires IsStringList(Get(s.evidence.surface, c))
    ensures x in Values(s.evidence.surface, s.prefix, c) <==> Observed(s, c, x)
  {
    var listed := SurfaceValues(s.evidence.surface, c);
    if c == FILESYSTEM_PATHS && Observed(s, c, x) {
      var y :| Holds(s.evidence.surface, c, y) && Canonicalize(y, s.prefix) == x;
      assert y in listed;
    }
    if c == FILESYSTEM_PATHS && x in Values(s.evidence.surface, s.prefix, c) {
      var y :| y in listed && Canonicalize(y, s.prefix) == x;
      assert Holds(s.evidence.surface, c, y);
    }
  }

  /** `surface_diff`, one section for each category. */
  function SurfaceDiff(base: Dict, basePrefix: string, head: Dict, headPrefix: string): (m: map<string, Section>)
    requires SurfaceReadable(base) && SurfaceReadable(head)
    ensures m.Keys == SURFACE_CATEGORIES
  {
    map c | c in SURFACE_CATEGORIES :: Diff(Values(base, basePrefix, c), Values(head, headPrefix, c))
  }

  /** `health_clean`. */
  predicate HealthClean(health: Dict) {
    && Get(health, "schema") == Str(OBSERVATION_HEALTH_SCHEMA)
    && Get(health, "kernel_layer") == Str("complete")
    && EqualsZero(Get(health, "ringbuf_drops"))
    && Get(health, "policy_layer") == Str("present")
    && Get(health, "sdk_layer") == Str("self_reported")
    && Get(health, "cgroup_correlation") == Str("clean")
  }

  /** `correlation_clean`. */
  predicate CorrelationClean(correlation: Dict) {
    var ambiguities := Get(correlation, "ambiguities");
    && Get(correlation, "schema") == Str(CORRELATION_REPORT_SCHEMA)
    && Get(correlation, "status") == Str("clean")
    && ambiguities.Arr? && |ambiguities.items| == 0
  }

  datatype Preconditions = Preconditions(
    baseHealthClean: bool,
    headHealthClean: bool,
    baseCorrelationClean: bool,
    headCorrelationClean: bool,
    stableToolCallIdsRequired: bool,
    stableToolCallIdsPresent: bool,
    runtimesDistinct: bool)

  function PreconditionsOf(base: Evidence, head: Evidence, baseIds: set<string>, headIds: set<string>): Preconditions {
    Preconditions(
      HealthClean(base.health), HealthClean(head.health),
      CorrelationClean(base.correlation), CorrelationClean(head.correlation),
      true, baseIds != {} && headIds != {}, true)
  }

  function StatusOf(pre: Preconditions): string {
    if !(pre.baseHealthClean && pre.headHealthClean) then "partial:health"
    else if !(pre.baseCorrelationClean && pre.headCorrelationClean && pre.stableToolCallIdsPresent)
    then "partial:correlation"
    else "clean"
  }

  /** The parts of the returned object that depend on the evidence. */
  datatype CrossRuntimeDiff = CrossRuntimeDiff(
    baseRunId: string,
    headRunId: string,
    baseRuntime: string,
    headRuntime: string,
    status: string,
    preconditions: Preconditions,
    surface: map<string, Section>,
    baseSdk: Dict,
    headSdk: Dict)

  /** The diff of both sides, given the binding ids of each. */
  function Assemble(base: Side, head: Side, baseIds: set<string>, headIds: set<string>): (d: CrossRuntimeDiff)
    requires Readable(base.evidence) && Readable(head.evidence)
    ensures d.surface.Keys == SURFACE_CATEGORIES
  {
    var pre := PreconditionsOf(base.evidence, head.evidence, baseIds, headIds);
    CrossRuntimeDiff(
      RunId(base.evidence), RunId(head.evidence), base.runtime, head.runtime,
      StatusOf(pre), pre,
      SurfaceDiff(base.evidence.surface, base.prefix, head.evidence.surface, head.prefix),
      base.sdk, head.sdk)
  }

  ghost function BindingIds(s: Side): set<string>
    requires SideAccepted(s)
  {
    IdsOf(Get(s.evidence.correlation, "bindings").items)
  }

  /** The diff of two accepted sides. */
  ghost function Projected(base: Side, head: Side): (d: CrossRuntimeDiff)
    requires Accepts(base, head)
    ensures d.surface.Keys == SURFACE_CATEGORIES
  {
    Assemble(base, head, BindingIds(base), BindingIds(head))
  }

  ghost function Project(base: Side, head: Side): Result<CrossRuntimeDiff> {
    if Accepts(base, head) then Ok(Projected(base, head)) else Raised("ValidationError")
  }

  /** The checks on one side; its binding ids when none of them raises. */
  method ReadSide(s: Side) returns (r: Result<set<string>>)
    ensures r.Ok? <==> SideAccepted(s)
    ensures r.Ok? ==> r.value == BindingIds(s)
    ensures r.Raised? ==> r.error == "ValidationError"
  {
    if s.runtime != "s5_openai_agents" && s.runtime != "gemini_google_genai" {
      return Raised("ValidationError");
    }
    var prefixOk := NormalizePrefix(s.prefix);
    var evidenceOk := CheckEvidence(s.evidence);
    if !prefixOk || !evidenceOk {
      return Raised("ValidationError");
    }
    r := BindingIdsSet(s.evidence.correlation);
  }

  /** `project_cross_runtime_diff`. */
  method ProjectCrossRuntimeDiff(base: Side, head: Side) returns (r: Result<CrossRuntimeDiff>)
    ensures r.Ok? <==> Accepts(base, head)
    ensures r.Ok? ==> r.value == Projected(base, head)
    ensures r.Raised? ==> r.error == "ValidationError"
  {
    var baseIds := ReadSide(base);
    var headIds := ReadSide(head);
    if baseIds.Raised? || headIds.Raised? || base.runtime == head.runtime {
      return Raised("ValidationError");
    }
    var surface := DiffSurface(base.evidence.surface, base.prefix, head.evidence.surface, head.prefix, OTHER_CATEGORIES);
    var pre, status := DecideStatus(base.evidence, head.evidence, baseIds.value, headIds.value);
    return Ok(CrossRuntimeDiff(
                RunId(base.evidence), RunId(head.evidence), base.runtime, head.runtime, status, pre, surface,
                base.sdk, head.sdk));
  }

  method DecideStatus(base: Evidence, head: Evidence, baseIds: set<string>, headIds: set<string>)
    returns (pre: Preconditions, status: string)
    ensures pre == PreconditionsOf(base, head, baseIds, headIds) && status == StatusOf(pre)
  {
    var baseHealth, headHealth := HealthClean(base.health), HealthClean(head.health);
    var baseCorrelation, headCorrelation := CorrelationClean(base.correlation), CorrelationClean(head.correlation);
    var stable := baseIds != {} && headIds != {};
    pre := Preconditions(baseHealth, headHealth, baseCorrelation, headCorrelation, true, stable, true);
    if !(baseHealth && headHealth) {
      status := "partial:health";
    } else if !(baseCorrelation && headCorrelation && stable) {
      status := "partial:correlation";
    } else {
      status := "clean";
    }
  }

  const OTHER_CATEGORIES: seq<string> := ["network_endpoints", "process_execs", "mcp_tools", "policy_decisions"]

  /** Some categories, compared as they are. */
  method DiffCategories(base: Dict, head: Dict, order: seq<string>) returns (m: map<string, Section>)
    requires forall c :: c in order ==> IsStringList(Get(base, c)) && IsStringList(Get(head, c))
    ensures forall c :: c in m <==> c in order
    ensures forall c :: c in order ==> m[c] == Diff(SurfaceValues(base, c), SurfaceValues(head, c))
  {
    m := map[];
    for i := 0 to |order|
      invariant forall c :: c in m <==> c in order[..i]
      invariant forall c :: c in m ==> c in order && m[c] == Diff(SurfaceValues(base, c), SurfaceValues(head, c))
    {
      assert order[i] in order;
      m := m[order[i] := Diff(SurfaceValues(base, order[i]), SurfaceValues(head, order[i]))];
    }
    assert order[..|order|] == order;
  }

  /** The canonical paths, and the other categories as they are. */
  method DiffSurface(base: Dict, basePrefix: string, head: Dict, headPrefix: string, others: seq<string>)
    returns (m: map<string, Section>)
    requires SurfaceReadable(base) && SurfaceReadable(head)
    requires forall c :: c in others <==> c in SURFACE_CATEGORIES && c != FILESYSTEM_PATHS
    ensures m == SurfaceDiff(base, basePrefix, head, headPrefix)
  {
    var basePaths := CanonicalizeAll(SurfaceValues(base, FILESYSTEM_PATHS), basePrefix);
    var headPaths := CanonicalizeAll(SurfaceValues(head, FILESYSTEM_PATHS), headPrefix);
    var rest := DiffCategories(base, head, others);
    m := rest[FILESYSTEM_PATHS := Diff(basePaths, headPaths)];
    SurfaceDiffIs(base, basePrefix, head, headPrefix, m);
  }

  lemma SurfaceDiffIs(base: Dict, p: string, head: Dict, q: string, m: map<string, Section>)
    requires SurfaceReadable(base) && SurfaceReadable(head)
    requires forall c :: c in m <==> c in SURFACE_CATEGORIES
    requires forall c :: c in SURFACE_CATEGORIES ==> m[c] == Diff(Values(base, p, c), Values(head, q, c))
    ensures m == SurfaceDiff(base, p, head, q)
  {
  }

  /** A section says of every string whether the base shows it, the head, or both. */
  lemma SectionsExact(base: Side, head: Side, c: string, x: string)
    requires Accepts(base, head) && c in SURFACE_CATEGORIES
    ensures var d := Projected(base, head).surface[c];
            && (x in d.added <==> Observed(head, c, x) && !Observed(base, c, x))
            && (x in d.removed <==> Observed(base, c, x) && !Observed(head, c, x))
            && (x in d.kept <==> Observed(base, c, x) && Observed(head, c, x))
  {
    SectionOf(base, head, c);
    ValuesExact(base, c, x);
    ValuesExact(head, c, x);
  }

  /** The head's canonical values can be computed from the base's and the diff. */
  lemma ProjectedApplies(base: Side, head: Side, c: string)
    requires Accepts(base, head) && c in SURFACE_CATEGORIES
    ensures var d := Projected(base, head);
            && d.baseRuntime == base.runtime && d.headRuntime == head.runtime
            && d.baseSdk == base.sdk && d.headSdk == head.sdk
            && Apply(Values(base.evidence.surface, base.prefix, c), d.surface[c])
               == Values(head.evidence.surface, head.prefix, c)
  {
    DiffAlgebra(Values(base.evidence.surface, base.prefix, c), {}, Values(head.evidence.surface, head.prefix, c));
  }

  lemma SectionOf(base: Side, head: Side, c: string)
    requires Accepts(base, head) && c in SURFACE_CATEGORIES
    ensures Projected(base, head).surface[c]
         == Diff(Values(base.evidence.surface, base.prefix, c), Values(head.evidence.surface, head.prefix, c))
  {
  }

  /** Swapping the sides swaps every section and keeps the status. */
  lemma ProjectSwap(base: Side, head: Side, c: string)
    requires Accepts(base, head) && c in SURFACE_CATEGORIES
    ensures Accepts(head, base)
    ensures Projected(head, base).status == Projected(base, head).status
    ensures Projected(head, base).surface[c] == Swap(Projected(base, head).surface[c])
  {
    SectionOf(base, head, c);
    SectionOf(head, base, c);
    DiffAlgebra(Values(base.evidence.surface, base.prefix, c), {}, Values(head.evidence.surface, head.prefix, c));
  }

  lemma TwoRuntimes(a: string, b: string, c: string)
    requires a in KNOWN_RUNTIMES && b in KNOWN_RUNTIMES && c in KNOWN_RUNTIMES && a != b && b != c
    ensures a == c
  {
  }

  /** The sections of two consecutive comparisons compose to the comparison of the outer sides, which
      the projector itself refuses: with two known runtimes the outer sides share one. */
  lemma ProjectedComposes(base: Side, mid: Side, head: Side, c: string)
    requires Accepts(base, mid) && Accepts(mid, head) && c in SURFACE_CATEGORIES
    ensures Compose(Projected(base, mid).surface[c], Projected(mid, head).surface[c])
         == Diff(Values(base.evidence.surface, base.prefix, c), Values(head.evidence.surface, head.prefix, c))
    ensures base.runtime == head.runtime && !Accepts(base, head)
  {
    TwoRuntimes(base.runtime, mid.runtime, head.runtime);
    SectionOf(base, mid, c);
    SectionOf(mid, head, c);
    DiffAlgebra(
      Values(base.evidence.surface, base.prefix, c), Values(mid.evidence.surface, mid.prefix, c),
      Values(head.evidence.surface, head.prefix, c));
  }

  // ---------------------------------------------------------------- relocation

  ghost function Paths(s: Side): Json
    requires SideAccepted(s)
  {
    Get(s.evidence.surface, FILESYSTEM_PATHS)
  }

  ghost function WithPaths(e: Evidence, paths: Json): Evidence {
    e.(surface := e.surface[FILESYSTEM_PATHS := paths])
  }

  /** A side whose work directory has been moved: every path under it, and the declared prefix. */
  ghost function Relocated(s: Side, q: string): Side
    requires SideAccepted(s)
  {
    s.(prefix := q, evidence := WithPaths(s.evidence, MapStrings(Paths(s), x => Relocate(x, s.prefix, q))))
  }

  /** No path outside the present work directory lies under the new one. */
  ghost predicate RoomFor(paths: set<string>, p: string, q: string) {
    forall x :: x in paths ==> p <= x || !(q <= x)
  }

  lemma RelocatedSet(paths: set<string>, p: string, q: string)
    requires AcceptedPrefix(p) && AcceptedPrefix(q) && RoomFor(paths, p, q)
    ensures CanonicalizeAll(set x | x in paths :: Relocate(x, p, q), q) == CanonicalizeAll(paths, p)
  {
    var moved := set x | x in paths :: Relocate(x, p, q);
    forall x | x in paths
      ensures Relocate(x, p, q) in moved
      ensures Canonicalize(Relocate(x, p, q), q) == Canonicalize(x, p)
    {
      RelocateInvariant(x, p, q);
    }
  }

  lemma RelocatedAccepted(s: Side, q: string)
    requires SideAccepted(s) && AcceptedPrefix(q)
    ensures SideAccepted(Relocated(s, q)) && BindingIds(Relocated(s, q)) == BindingIds(s)
    ensures RunId(Relocated(s, q).evidence) == RunId(s.evidence)
  {
    ReplacePaths(s.evidence, MapStrings(Paths(s), x => Relocate(x, s.prefix, q)));
  }

  lemma RelocatedValues(s: Side, q: string, c: string)
    requires SideAccepted(s) && AcceptedPrefix(q) && c in SURFACE_CATEGORIES
    requires RoomFor(StringSet(Paths(s)), s.prefix, q)
    ensures IsStringList(Get(Relocated(s, q).evidence.surface, c))
    ensures Values(Relocated(s, q).evidence.surface, q, c) == Values(s.evidence.surface, s.prefix, c)
  {
    var f := x => Relocate(x, s.prefix, q);
    ReplacePaths(s.evidence, MapStrings(Paths(s), f));
    if c == FILESYSTEM_PATHS {
      MapStringsSet(Paths(s), f);
      assert (set x | x in StringSet(Paths(s)) :: f(x))
          == (set x | x in StringSet(Paths(s)) :: Relocate(x, s.prefix, q));
      RelocatedSet(StringSet(Paths(s)), s.prefix, q);
    }
  }

  lemma SameSurfaceDiff(b: Dict, p: string, h: Dict, q: string, b': Dict, p': string, h': Dict, q': string)
    requires SurfaceReadable(b) && SurfaceReadable(h) && SurfaceReadable(b') && SurfaceReadable(h')
    requires forall c :: c in SURFACE_CATEGORIES ==> Values(b', p', c) == Values(b, p, c)
    requires forall c :: c in SURFACE_CATEGORIES ==> Values(h', q', c) == Values(h, q, c)
    ensures SurfaceDiff(b', p', h', q') == SurfaceDiff(b, p, h, q)
  {
    var d, d' := SurfaceDiff(b, p, h, q), SurfaceDiff(b', p', h', q');
    forall c | c in SURFACE_CATEGORIES ensures d'[c] == d[c] {
      assert d[c] == Diff(Values(b, p, c), Values(h, q, c));
      assert d'[c] == Diff(Values(b', p', c), Values(h', q', c));
    }
  }

  lemma RelocatedSide(s: Side, q: string)
    requires SideAccepted(s) && AcceptedPrefix(q) && RoomFor(StringSet(Paths(s)), s.prefix, q)
    ensures SideAccepted(Relocated(s, q))
    ensures forall c :: c in SURFACE_CATEGORIES ==>
              Values(Relocated(s, q).evidence.surface, q, c) == Values(s.evidence.surface, s.prefix, c)
  {
    RelocatedAccepted(s, q);
    forall c | c in SURFACE_CATEGORIES {
      RelocatedValues(s, q, c);
    }
  }

  /** Moving the work directories leaves the whole diff as it was. */
  lemma RelocationInvariant(base: Side, head: Side, p: string, q: string)
    requires Accepts(base, head) && AcceptedPrefix(p) && AcceptedPrefix(q)
    requires RoomFor(StringSet(Paths(base)), base.prefix, p)
    requires RoomFor(StringSet(Paths(head)), head.prefix, q)
    ensures Project(Relocated(base, p), Relocated(head, q)) == Project(base, head)
  {
    RelocatedAccepted(base, p);
    RelocatedAccepted(head, q);
    RelocatedSide(base, p);
    RelocatedSide(head, q);
    SameSurfaceDiff(base.evidence.surface, base.prefix, head.evidence.surface, head.prefix,
                    Relocated(base, p).evidence.surface, p, Relocated(head, q).evidence.surface, q);
  }

  /** Moving to where it already is changes nothing, so one side alone may be moved. */
  lemma RelocatedInPlace(s: Side)
    requires SideAccepted(s)
    ensures Relocated(s, s.prefix) == s
    ensures RoomFor(StringSet(Paths(s)), s.prefix, s.prefix)
  {
    var paths := Paths(s);
    forall i | 0 <= i < |paths.items|
      ensures Relocate(paths.items[i].s, s.prefix, s.prefix) == paths.items[i].s
    {
    }
    assert MapStrings(paths, x => Relocate(x, s.prefix, s.prefix)) == paths;
    assert s.evidence.surface[FILESYSTEM_PATHS := paths] == s.evidence.surface;
  }

  // ------------------------------------------------------ the other projector

  /** A run's evidence with its paths already in canonical form. */
  ghost function CanonicalEvidence(s: Side): Evidence
    requires SideAccepted(s)
  {
    WithPaths(s.evidence, MapStrings(Paths(s), x => Canonicalize(x, s.prefix)))
  }

  lemma CanonicalValues(s: Side, c: string)
    requires SideAccepted(s) && c in SURFACE_CATEGORIES
    ensures Readable(CanonicalEvidence(s))
    ensures SurfaceValues(CanonicalEvidence(s).surface, c) == Values(s.evidence.surface, s.prefix, c)
  {
    var f := x => Canonicalize(x, s.prefix);
    ReplacePaths(s.evidence, MapStrings(Paths(s), f));
    if c == FILESYSTEM_PATHS {
      MapStringsSet(Paths(s), f);
    }
  }

  lemma SameSections(base: Side, head: Side)
    requires SideAccepted(base) && SideAccepted(head)
    ensures Readable(CanonicalEvidence(base)) && Readable(CanonicalEvidence(head))
    ensures SurfaceDiff(base.evidence.surface, base.prefix, head.evidence.surface, head.prefix)
         == CapabilityDiffs.SurfaceDiff(CanonicalEvidence(base).surface, CanonicalEvidence(head).surface)
  {
    CanonicalValues(base, FILESYSTEM_PATHS);
    CanonicalValues(head, FILESYSTEM_PATHS);
    forall c | c in SURFACE_CATEGORIES
      ensures SurfaceValues(CanonicalEvidence(base).surface, c) == Values(base.evidence.surface, base.prefix, c)
      ensures SurfaceValues(CanonicalEvidence(head).surface, c) == Values(head.evidence.surface, head.prefix, c)
    {
      CanonicalValues(base, c);
      CanonicalValues(head, c);
    }
  }

  /** The two programs' own tests of health and correlation agree. */
  lemma SameCleanliness(e: Evidence)
    ensures HealthClean(e.health) == CapabilityDiffs.HealthClean(e.health)
    ensures CorrelationClean(e.correlation) == CapabilityDiffs.CorrelationClean(e.correlation)
  {
  }

  /** The six preconditions that both programs have. */
  ghost function Shared(pre: Preconditions): CapabilityDiffs.Preconditions {
    CapabilityDiffs.Preconditions(
      pre.baseHealthClean, pre.headHealthClean, pre.baseCorrelationClean, pre.headCorrelationClean,
      pre.stableToolCallIdsRequired, pre.stableToolCallIdsPresent)
  }

  /** With the same binding ids the two programs' preconditions agree on what they share, and so do
      the statuses they decide; the seventh precondition is true. */
  lemma SameDecision(base: Evidence, head: Evidence, b: set<string>, h: set<string>)
    ensures var pre, cap := PreconditionsOf(base, head, b, h), CapabilityDiffs.PreconditionsOf(base, head, b, h);
            && Shared(pre) == cap && pre.runtimesDistinct
            && StatusOf(pre) == CapabilityDiffs.StatusOf(cap)
  {
    SameCleanliness(base);
    SameCleanliness(head);
  }

  lemma SameStatus(base: Side, head: Side)
    requires Accepts(base, head) && CapabilityDiffs.Accepts(base.evidence, head.evidence)
    ensures Projected(base, head).status == CapabilityDiffs.Projected(base.evidence, head.evidence).status
    ensures Shared(Projected(base, head).preconditions)
         == CapabilityDiffs.Projected(base.evidence, head.evidence).preconditions
  {
    assert BindingIds(base) == BindingMap(base.evidence.correlation).Keys;
    assert BindingIds(head) == BindingMap(head.evidence.correlation).Keys;
    SameDecision(base.evidence, head.evidence, BindingIds(base), BindingIds(head));
  }

  /** Whenever both projectors accept, they give the same status, and the five sections of this one
      are those of the capability diff on canonical paths. */
  lemma ProjectorsAgree(base: Side, head: Side)
    requires Accepts(base, head) && CapabilityDiffs.Accepts(base.evidence, head.evidence)
    ensures Projected(base, head).status == CapabilityDiffs.Projected(base.evidence, head.evidence).status
    ensures Shared(Projected(base, head).preconditions)
         == CapabilityDiffs.Projected(base.evidence, head.evidence).preconditions
    ensures CapabilityDiffs.Accepts(CanonicalEvidence(base), CanonicalEvidence(head))
    ensures Projected(base, head).surface
         == CapabilityDiffs.Projected(CanonicalEvidence(base), CanonicalEvidence(head)).surface
  {
    SameStatus(base, head);
    SameSections(base, head);
  }
}
