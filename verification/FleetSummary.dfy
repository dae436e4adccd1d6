/** The fleet summary: one fold over many annotations. */
module FleetSummary {
  import opened Outcomes
  import opened CoverageAnnotation

  const POSITIVE_LEVELS: set<string> := {"strong", "partial", "weak", "absent", "missing"}
  const EXHAUSTIVE_LEVELS: set<string> := {"partial", "weak", "absent", "missing"}

  /** The position of a level in `_FLOOR_ORDER`, weakest first; unknown levels come before all. */
  function Rank(level: string): int {
    if level == "missing" then 0
    else if level == "absent" then 1
    else if level == "weak" then 2
    else if level == "partial" then 3
    else if level == "strong" then 4
    else -1
  }

  /** `_weaker`. */
  function Weaker(a: string, b: string): string {
    if Rank(a) <= Rank(b) then a else b
  }

  datatype Entry = Entry(
    positive: map<string, nat>,
    exhaustive: map<string, nat>,
    negativeBlocked: nat,
    runsObserved: nat,
    floor: Option<string>)

  function EmptyEntry(): Entry {
    Entry(map k | k in POSITIVE_LEVELS :: 0, map k | k in EXHAUSTIVE_LEVELS :: 0, 0, 0, None)
  }

  datatype Summary = Summary(runCount: nat, dimensions: map<string, Entry>)

  // ---------------------------------------------------- what one run contributes

  /** The strength of a cell, when it is one of the recognised levels. */
  function Recognised(cell: Option<ClaimCell>, levels: set<string>): string {
    if cell.Some? && cell.value.strength.Some? && cell.value.strength.value in levels
    then cell.value.strength.value else "missing"
  }

  function PositiveLevel(a: Annotation, dimension: string): string {
    Recognised(CellFor(a.cells, PositiveClaim(dimension)), POSITIVE_LEVELS)
  }

  function ExhaustiveLevel(a: Annotation, dimension: string): string {
    Recognised(CellFor(a.cells, ExhaustiveClaim(dimension)), EXHAUSTIVE_LEVELS)
  }

  function NegativeBlocked(a: Annotation, dimension: string): bool {
    IsBlocked(a, NegativeClaim(dimension))
  }

  // ------------------------------------------------------ what a fleet amounts to

  /** The values of a function over all runs, with their multiplicities. */
  ghost function Bag<A, B>(xs: seq<A>, f: A -> B): multiset<B> {
    multiset(Mapped(xs, f))
  }

  ghost function Mapped<A, B>(xs: seq<A>, f: A -> B): (ys: seq<B>)
    ensures |ys| == |xs| && forall i :: 0 <= i < |xs| ==> ys[i] == f(xs[i])
  {
    seq(|xs|, i requires 0 <= i < |xs| => f(xs[i]))
  }

  lemma BagConcat<A, B>(xs: seq<A>, ys: seq<A>, f: A -> B)
    ensures Bag(xs + ys, f) == Bag(xs, f) + Bag(ys, f)
  {
    assert Mapped(xs + ys, f) == Mapped(xs, f) + Mapped(ys, f);
  }

  lemma BagStep<A, B>(xs: seq<A>, i: nat, f: A -> B)
    requires i < |xs|
    ensures Bag(xs[..i + 1], f) == Bag(xs[..i], f) + multiset{f(xs[i])}
  {
    assert Mapped(xs[..i + 1], f) == Mapped(xs[..i], f) + [f(xs[i])];
  }

  lemma BagMember<A, B>(xs: seq<A>, f: A -> B, y: B)
    ensures y in Bag(xs, f) <==> exists i :: 0 <= i < |xs| && f(xs[i]) == y
  {
    if y in Bag(xs, f) {
      assert y in Mapped(xs, f);
    }
    if i :| 0 <= i < |xs| && f(xs[i]) == y {
      assert Mapped(xs, f)[i] == y;
    }
  }

  function PositiveOf(dimension: string): Annotation -> string {
    a => PositiveLevel(a, dimension)
  }

  function ExhaustiveOf(dimension: string): Annotation -> string {
    a => ExhaustiveLevel(a, dimension)
  }

  function BlockedOf(dimension: string): Annotation -> bool {
    a => NegativeBlocked(a, dimension)
  }

  ghost function PositiveLevels(runs: seq<Annotation>, dimension: string): multiset<string> {
    Bag(runs, PositiveOf(dimension))
  }

  ghost function ExhaustiveLevels(runs: seq<Annotation>, dimension: string): multiset<string> {
    Bag(runs, ExhaustiveOf(dimension))
  }

  ghost function BlockedFlags(runs: seq<Annotation>, dimension: string): multiset<bool> {
    Bag(runs, BlockedOf(dimension))
  }

  /** The weakest level that occurs. */
  ghost function Floor(levels: multiset<string>): Option<string> {
    if "missing" in levels then Some("missing")
    else if "absent" in levels then Some("absent")
    else if "weak" in levels then Some("weak")
    else if "partial" in levels then Some("partial")
    else if "strong" in levels then Some("strong")
    else None
  }

  ghost function Histogram(m: multiset<string>, levels: set<string>): map<string, nat> {
    map k | k in levels :: m[k]
  }

  lemma HistogramStep(m: multiset<string>, levels: set<string>, k: string)
    requires k in levels
    ensures Histogram(m + multiset{k}, levels) == Histogram(m, levels)[k := m[k] + 1]
  {
  }

  ghost function ObservedRuns(m: multiset<string>): nat {
    m["strong"] + m["partial"] + m["weak"] + m["absent"]
  }

  lemma ObservedRunsStep(m: multiset<string>, level: string)
    requires level in POSITIVE_LEVELS
    ensures ObservedRuns(m + multiset{level}) == ObservedRuns(m) + if level == "missing" then 0 else 1
  {
  }

  ghost function EntryOf(positive: multiset<string>, exhaustive: multiset<string>, blocked: multiset<bool>): Entry {
    Entry(
      Histogram(positive, POSITIVE_LEVELS), Histogram(exhaustive, EXHAUSTIVE_LEVELS), blocked[true],
      ObservedRuns(positive), Floor(positive))
  }

  /** The counters of one dimension over all runs, before the floor of an empty fleet is resolved. */
  ghost function DimensionOf(runs: seq<Annotation>, dimension: string): Entry {
    EntryOf(PositiveLevels(runs, dimension), ExhaustiveLevels(runs, dimension), BlockedFlags(runs, dimension))
  }

  function Resolve(e: Entry): Entry {
    if e.floor.None? then e.(floor := Some("missing")) else e
  }

  // -------------------------------------------------------------------- the fold

  /** The positive half of the inner loop body: the histogram and the floor. */
  method CountPositive(entry: Entry, pos: Option<ClaimCell>) returns (e: Entry)
    requires entry.positive.Keys == POSITIVE_LEVELS
    ensures var level := Recognised(pos, POSITIVE_LEVELS);
            e == entry.(
              positive := entry.positive[level := entry.positive[level] + 1],
              runsObserved := entry.runsObserved + (if level == "missing" then 0 else 1),
              floor := Some(if entry.floor.None? then level else Weaker(entry.floor.value, level)))
  {
    e := entry;
    var runLevel;
    var strength := if pos.Some? && pos.value.strength.Some? then pos.value.strength.value else "missing";
    if strength in entry.positive && strength != "missing" {
      e := e.(positive := e.positive[strength := e.positive[strength] + 1], runsObserved := e.runsObserved + 1);
      runLevel := strength;
    } else {
      e := e.(positive := e.positive["missing" := e.positive["missing"] + 1]);
      runLevel := "missing";
    }
    e := e.(floor := Some(if e.floor.None? then runLevel else Weaker(e.floor.value, runLevel)));
  }

  /** The exhaustive half of the inner loop body. */
  method CountExhaustive(entry: Entry, exh: Option<ClaimCell>) returns (e: Entry)
    requires entry.exhaustive.Keys == EXHAUSTIVE_LEVELS
    ensures var level := Recognised(exh, EXHAUSTIVE_LEVELS);
            e == entry.(exhaustive := entry.exhaustive[level := entry.exhaustive[level] + 1])
  {
    e := entry;
    if exh.None? {
      e := e.(exhaustive := e.exhaustive["missing" := e.exhaustive["missing"] + 1]);
    } else {
      var strength := if exh.value.strength.Some? then exh.value.strength.value else "missing";
      if strength in e.exhaustive {
        e := e.(exhaustive := e.exhaustive[strength := e.exhaustive[strength] + 1]);
      } else {
        e := e.(exhaustive := e.exhaustive["missing" := e.exhaustive["missing"] + 1]);
      }
    }
  }

  /** The body of the inner loop: one run folded into one dimension. */
  method FoldRun(entry: Entry, a: Annotation, dimension: string) returns (e: Entry)
    requires entry.positive.Keys == POSITIVE_LEVELS && entry.exhaustive.Keys == EXHAUSTIVE_LEVELS
    ensures e == Folded(entry, PositiveLevel(a, dimension), ExhaustiveLevel(a, dimension), NegativeBlocked(a, dimension))
  {
    e := CountPositive(entry, CellFor(a.cells, PositiveClaim(dimension)));
    e := CountExhaustive(e, CellFor(a.cells, ExhaustiveClaim(dimension)));
    if IsBlocked(a, NegativeClaim(dimension)) {
      e := e.(negativeBlocked := e.negativeBlocked + 1);
    }
  }

  ghost function Folded(entry: Entry, level: string, exhaustive: string, blocked: bool): Entry
    requires level in entry.positive && exhaustive in entry.exhaustive
  {
    Entry(
      entry.positive[level := entry.positive[level] + 1],
      entry.exhaustive[exhaustive := entry.exhaustive[exhaustive] + 1],
      entry.negativeBlocked + (if blocked then 1 else 0),
      entry.runsObserved + (if level == "missing" then 0 else 1),
      Some(if entry.floor.None? then level else Weaker(entry.floor.value, level)))
  }

  lemma LevelsRecognised(a: Annotation, dimension: string)
    ensures PositiveLevel(a, dimension) in POSITIVE_LEVELS
    ensures ExhaustiveLevel(a, dimension) in EXHAUSTIVE_LEVELS
  {
  }

  ghost predicate OnlyLevels(m: multiset<string>, levels: set<string>) {
    forall k :: k in m ==> k in levels
  }

  /** Folding one more run adds its levels to the multisets that the counters stand for. */
  lemma FoldedIs(positive: multiset<string>, exhaustive: multiset<string>, blocked: multiset<bool>,
                 level: string, exhaustiveLevel: string, flag: bool)
    requires level in POSITIVE_LEVELS && exhaustiveLevel in EXHAUSTIVE_LEVELS
    requires OnlyLevels(positive, POSITIVE_LEVELS)
    ensures Folded(EntryOf(positive, exhaustive, blocked), level, exhaustiveLevel, flag)
         == EntryOf(positive + multiset{level}, exhaustive + multiset{exhaustiveLevel}, blocked + multiset{flag})
  {
    HistogramStep(positive, POSITIVE_LEVELS, level);
    HistogramStep(exhaustive, EXHAUSTIVE_LEVELS, exhaustiveLevel);
    ObservedRunsStep(positive, level);
    FloorStep(positive, level);
  }

  lemma FloorStep(levels: multiset<string>, level: string)
    requires level in POSITIVE_LEVELS && OnlyLevels(levels, POSITIVE_LEVELS)
    ensures Floor(levels + multiset{level})
         == Some(if Floor(levels).None? then level else Weaker(Floor(levels).value, level))
  {
  }

  lemma PositiveOnlyLevels(runs: seq<Annotation>, dimension: string)
    ensures OnlyLevels(PositiveLevels(runs, dimension), POSITIVE_LEVELS)
  {
    forall k | k in PositiveLevels(runs, dimension)
      ensures k in POSITIVE_LEVELS
    {
      BagMember(runs, PositiveOf(dimension), k);
      var i :| 0 <= i < |runs| && PositiveOf(dimension)(runs[i]) == k;
      LevelsRecognised(runs[i], dimension);
    }
  }

  lemma DimensionStep(runs: seq<Annotation>, i: nat, dimension: string)
    requires i < |runs|
    ensures var e := DimensionOf(runs[..i], dimension);
            && e.positive.Keys == POSITIVE_LEVELS && e.exhaustive.Keys == EXHAUSTIVE_LEVELS
            && PositiveLevel(runs[i], dimension) in POSITIVE_LEVELS
            && ExhaustiveLevel(runs[i], dimension) in EXHAUSTIVE_LEVELS
            && DimensionOf(runs[..i + 1], dimension)
            == Folded(e, PositiveLevel(runs[i], dimension), ExhaustiveLevel(runs[i], dimension),
                      NegativeBlocked(runs[i], dimension))
  {
    LevelsRecognised(runs[i], dimension);
    PositiveOnlyLevels(runs[..i], dimension);
    BagStep(runs, i, PositiveOf(dimension));
    BagStep(runs, i, ExhaustiveOf(dimension));
    BagStep(runs, i, BlockedOf(dimension));
    FoldedIs(PositiveLevels(runs[..i], dimension), ExhaustiveLevels(runs[..i], dimension),
             BlockedFlags(runs[..i], dimension),
             PositiveLevel(runs[i], dimension), ExhaustiveLevel(runs[i], dimension), NegativeBlocked(runs[i], dimension));
  }

  type Dimensions = map<string, Entry>

  /** The entries of some names are the values of a function. */
  ghost predicate Agree(dims: Dimensions, names: seq<string>, f: string -> Entry) {
    forall k :: 0 <= k < |names| ==> names[k] in dims && dims[names[k]] == f(names[k])
  }

  lemma AgreeStep(dims: Dimensions, names: seq<string>, j: nat, f: string -> Entry)
    requires j < |names| && Distinct(names) && Agree(dims, names[..j], f)
    ensures Agree(dims[names[j] := f(names[j])], names[..j + 1], f)
  {
    forall k | 0 <= k < j
      ensures names[k] != names[j] && names[..j][k] == names[k]
    {
    }
  }

  ghost function EntriesAfter(runs: seq<Annotation>): string -> Entry {
    d => DimensionOf(runs, d)
  }

  /** The counters of some dimensions after some runs. */
  ghost predicate Counts(dims: Dimensions, names: seq<string>, runs: seq<Annotation>) {
    Agree(dims, names, EntriesAfter(runs))
  }

  ghost predicate Distinct(names: seq<string>) {
    forall i, j :: 0 <= i < j < |names| ==> names[i] != names[j]
  }

  lemma DimensionsDistinct()
    ensures Distinct(MEASURED_DIMENSIONS)
  {
    assert MEASURED_DIMENSIONS[0][0] == 'f' && MEASURED_DIMENSIONS[1][0] == 'k';
    assert MEASURED_DIMENSIONS[2][0] == 'n' && MEASURED_DIMENSIONS[3][0] == 'p';
  }

  method FoldStep(entry: Entry, runs: seq<Annotation>, i: nat, dimension: string) returns (e: Entry)
    requires i < |runs| && entry == DimensionOf(runs[..i], dimension)
    ensures e == DimensionOf(runs[..i + 1], dimension)
  {
    DimensionStep(runs, i, dimension);
    e := FoldRun(entry, runs[i], dimension);
  }

  /** The inner loop: one run folded into every dimension. */
  method FoldDimensions(before: Dimensions, names: seq<string>, runs: seq<Annotation>, i: nat) returns (dims: Dimensions)
    requires i < |runs| && Distinct(names) && Counts(before, names, runs[..i])
    ensures Counts(dims, names, runs[..i + 1]) && dims.Keys == before.Keys
  {
    dims := before;
    for j := 0 to |names|
      invariant dims.Keys == before.Keys
      invariant Counts(dims, names[..j], runs[..i + 1])
      invariant forall k :: j <= k < |names| ==> dims[names[k]] == before[names[k]]
    {
      var e := FoldStep(dims[names[j]], runs, i, names[j]);
      AgreeStep(dims, names, j, EntriesAfter(runs[..i + 1]));
      dims := dims[names[j] := e];
    }
    assert names[..|names|] == names;
  }

  /** `fold`. */
  method Fold(runs: seq<Annotation>) returns (r: Result<Summary>)
    ensures r.Ok? <==> forall i :: 0 <= i < |runs| ==> runs[i].schema == Some(ANNOTATION_SCHEMA)
    ensures r.Ok? ==> r.value == SummaryOf(runs)
    ensures r.Raised? ==> r.error == "ValueError"
  {
    var dims := map d | d in MEASURED_DIMENSIONS :: EmptyEntry();
    DimensionsDistinct();
    EmptyCounts(dims);
    for i := 0 to |runs|
      invariant dims.Keys == set d | d in MEASURED_DIMENSIONS
      invariant Counts(dims, MEASURED_DIMENSIONS, runs[..i])
      invariant forall k :: 0 <= k < i ==> runs[k].schema == Some(ANNOTATION_SCHEMA)
    {
      if runs[i].schema != Some(ANNOTATION_SCHEMA) {
        return Raised("ValueError");
      }
      dims := FoldDimensions(dims, MEASURED_DIMENSIONS, runs, i);
    }
    assert runs[..|runs|] == runs;
    var summary := Summary(|runs|, map d | d in dims :: Resolve(dims[d]));
    SummaryFromCounts(dims, runs);
    return Ok(summary);
  }

  /** What the fold returns, stated over all runs at once. */
  ghost function SummaryOf(runs: seq<Annotation>): Summary {
    Summary(|runs|, map d | d in MEASURED_DIMENSIONS :: Resolve(DimensionOf(runs, d)))
  }

  lemma EmptyCounts(dims: Dimensions)
    requires forall d :: d in MEASURED_DIMENSIONS ==> d in dims && dims[d] == EmptyEntry()
    ensures Counts(dims, MEASURED_DIMENSIONS, [])
  {
    var none: multiset<string> := multiset{};
    assert EmptyEntry() == EntryOf(none, none, multiset{});
  }

  lemma SummaryFromCounts(dims: Dimensions, runs: seq<Annotation>)
    requires dims.Keys == set d | d in MEASURED_DIMENSIONS
    requires Counts(dims, MEASURED_DIMENSIONS, runs)
    ensures (map d | d in dims :: Resolve(dims[d])) == SummaryOf(runs).dimensions
  {
  }
}
