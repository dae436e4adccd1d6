/** How the annotator, the gate and the fleet summary fit together. */
module CoverageChain {
  import opened Outcomes
  import opened CoverageAnnotation
  import opened DriftAnnotator
  import opened ClaimsGate
  import opened FleetSummary

  // ----------------------------------------------------------- annotate, then gate

  lemma MeasuredExact(d: string)
    ensures IsMeasured(d) <==> d in MEASURED_DIMENSIONS
  {
    if d in MEASURED_DIMENSIONS {
      var i :| 0 <= i < |MEASURED_DIMENSIONS| && MEASURED_DIMENSIONS[i] == d;
    }
    if IsMeasured(d) {
      assert MEASURED_DIMENSIONS[0] == "filesystem_paths_touched" && MEASURED_DIMENSIONS[1] == "kernel_file_operations";
      assert MEASURED_DIMENSIONS[2] == "network_endpoints" && MEASURED_DIMENSIONS[3] == "process_execs";
    }
  }

  ghost predicate HasRow(rows: seq<Row>, d: string) {
    exists i :: 0 <= i < |rows| && rows[i].dimension == Some(d)
  }

  ghost predicate HasObservedRow(rows: seq<Row>, d: string) {
    exists i :: 0 <= i < |rows| && rows[i].dimension == Some(d) && Observed(rows[i])
  }

  /** The table describes the dimension as complete and without blind spots. */
  ghost predicate CompleteFor(table: Table, d: string) {
    IsMeasured(d) && EffectOf(d) in table && Complete(table[EffectOf(d)])
  }

  lemma RowPositive(row: Row, table: Table, d: string, cell: ClaimCell)
    requires Described(row, table) && cell in RowCells(row, table) && cell.claimType == Some(PositiveClaim(d))
    ensures IsMeasured(d) && row.dimension == Some(d) && Observed(row) && cell.strength == Some("partial")
  {
    ClaimNames(d, row.dimension.value);
  }

  lemma RowExhaustive(row: Row, table: Table, d: string, cell: ClaimCell)
    requires Described(row, table) && cell in RowCells(row, table) && cell.claimType == Some(ExhaustiveClaim(d))
    ensures IsMeasured(d) && row.dimension == Some(d) && Observed(row) && EffectOf(d) in table
    ensures cell.strength == Some(if Complete(table[EffectOf(d)]) then "partial" else "weak")
  {
    ClaimNames(row.dimension.value, d);
    ClaimNames(d, row.dimension.value);
  }

  /** The rows that a cell of the annotation may come from. */
  lemma CellSource(report: Report, table: Table, cell: ClaimCell) returns (i: nat)
    requires Annotatable(report, table) && cell in AnnotationOf(report, table).cells
    ensures i < |report.rows.value| && cell in RowCells(report.rows.value[i], table)
  {
    var rows := report.rows.value;
    FlattenMember(CellsByRow(rows, table), cell);
    i :| 0 <= i < |rows| && cell in CellsByRow(rows, table)[i];
  }

  lemma CellPresent(report: Report, table: Table, i: nat, cell: ClaimCell)
    requires Annotatable(report, table) && i < |report.rows.value| && cell in RowCells(report.rows.value[i], table)
    ensures cell in AnnotationOf(report, table).cells
  {
    var rows := report.rows.value;
    assert cell in CellsByRow(rows, table)[i];
    FlattenMember(CellsByRow(rows, table), cell);
  }

  lemma CellFound(cells: seq<ClaimCell>, cell: ClaimCell, claim: string)
    requires cell in cells && cell.claimType == Some(claim)
    ensures CellFor(cells, claim).Some?
  {
    CellForExact(cells, claim);
    var i :| 0 <= i < |cells| && cells[i] == cell;
  }

  /** A positive claim is permitted exactly for a measured dimension with a non-empty row. */
  lemma PositivePermitted(report: Report, table: Table, d: string)
    requires Annotatable(report, table)
    ensures Permits(AnnotationOf(report, table), POSITIVE, d)
       <==> d in MEASURED_DIMENSIONS && HasObservedRow(report.rows.value, d)
  {
    var rows, a, claim := report.rows.value, AnnotationOf(report, table), PositiveClaim(d);
    MeasuredExact(d);
    CellForExact(a.cells, claim);
    if CellFor(a.cells, claim).Some? {
      var cell := CellFor(a.cells, claim).value;
      var i := CellSource(report, table, cell);
      RowPositive(rows[i], table, d, cell);
    }
    if IsMeasured(d) && HasObservedRow(rows, d) {
      var i :| 0 <= i < |rows| && rows[i].dimension == Some(d) && Observed(rows[i]);
      var cell := RowCells(rows[i], table)[0];
      CellPresent(report, table, i, cell);
      CellFound(a.cells, cell, claim);
    }
  }

  /** An exhaustive claim additionally needs full completeness and no blind spots. */
  lemma ExhaustivePermitted(report: Report, table: Table, d: string)
    requires Annotatable(report, table)
    ensures Permits(AnnotationOf(report, table), EXHAUSTIVE, d)
       <==> d in MEASURED_DIMENSIONS && HasObservedRow(report.rows.value, d)
            && CompleteFor(table, d)
  {
    var rows, a, claim := report.rows.value, AnnotationOf(report, table), ExhaustiveClaim(d);
    MeasuredExact(d);
    CellForExact(a.cells, claim);
    if CellFor(a.cells, claim).Some? {
      var cell := CellFor(a.cells, claim).value;
      var i := CellSource(report, table, cell);
      RowExhaustive(rows[i], table, d, cell);
    }
    if IsMeasured(d) && HasObservedRow(rows, d) {
      var i :| 0 <= i < |rows| && rows[i].dimension == Some(d) && Observed(rows[i]);
      var cell := RowCells(rows[i], table)[1];
      CellPresent(report, table, i, cell);
      CellFound(a.cells, cell, claim);
    }
  }

  /** A bounded negative claim is permitted exactly for a measured dimension without any row:
      the annotator blocks it for every row, and says nothing where there is none. */
  lemma BoundedNegativePermitted(report: Report, table: Table, d: string)
    requires Annotatable(report, table)
    ensures Permits(AnnotationOf(report, table), BOUNDED_NEGATIVE, d)
       <==> d in MEASURED_DIMENSIONS && !HasRow(report.rows.value, d)
  {
    var rows := report.rows.value;
    var blocked := BlockedClaim(Some(NegativeClaim(d)));
    MeasuredExact(d);
    FlattenMember(BlockedByRow(rows), blocked);
    if IsMeasured(d) && HasRow(rows, d) {
      var i :| 0 <= i < |rows| && rows[i].dimension == Some(d);
      assert blocked in BlockedByRow(rows)[i];
    }
    if i :| 0 <= i < |rows| && blocked in BlockedByRow(rows)[i] {
      ClaimNames(d, rows[i].dimension.value);
    }
  }

  /** With the shipped descriptors every report is annotated, and no exhaustive claim is ever permitted. */
  lemma SeedNeverExhaustive(report: Report, d: string)
    requires report.schema == Some(DRIFT_SCHEMA) && report.rows.Some?
    ensures Annotatable(report, SEED_DESCRIPTORS)
    ensures !Permits(AnnotationOf(report, SEED_DESCRIPTORS), EXHAUSTIVE, d)
  {
    assert Annotatable(report, SEED_DESCRIPTORS);
    ExhaustivePermitted(report, SEED_DESCRIPTORS, d);
  }

  // ---------------------------------------------------------- gate and fleet agree

  /** The level that the fleet records for a run tells what the gate permits on it. */
  lemma LevelsMatchGate(a: Annotation, d: string)
    ensures Permits(a, POSITIVE, d) <==> PositiveLevel(a, d) == "strong" || PositiveLevel(a, d) == "partial"
    ensures Permits(a, EXHAUSTIVE, d) <==> ExhaustiveLevel(a, d) == "partial"
    ensures d in MEASURED_DIMENSIONS ==> (Permits(a, BOUNDED_NEGATIVE, d) <==> !NegativeBlocked(a, d))
  {
  }

  /** The number of runs on which the gate permits a claim. */
  ghost function PermittedRuns(runs: seq<Annotation>, claimType: string, d: string): nat {
    if runs == [] then 0
    else
      var n := |runs| - 1;
      PermittedRuns(runs[..n], claimType, d) + if Permits(runs[n], claimType, d) then 1 else 0
  }

  lemma CountsMatchGate(runs: seq<Annotation>, n: nat, d: string)
    requires d in MEASURED_DIMENSIONS && n <= |runs|
    ensures ExhaustiveLevels(runs[..n], d)["partial"] == PermittedRuns(runs[..n], EXHAUSTIVE, d)
    ensures BlockedFlags(runs[..n], d)[true] == n - PermittedRuns(runs[..n], BOUNDED_NEGATIVE, d)
  {
    for k := 0 to n
      invariant ExhaustiveLevels(runs[..k], d)["partial"] == PermittedRuns(runs[..k], EXHAUSTIVE, d)
      invariant BlockedFlags(runs[..k], d)[true] == k - PermittedRuns(runs[..k], BOUNDED_NEGATIVE, d)
    {
      CountsStep(runs, k, d);
      PermittedNext(runs, EXHAUSTIVE, d, k);
      PermittedNext(runs, BOUNDED_NEGATIVE, d, k);
    }
  }

  lemma CountsStep(runs: seq<Annotation>, k: nat, d: string)
    requires d in MEASURED_DIMENSIONS && k < |runs|
    ensures ExhaustiveLevels(runs[..k + 1], d)["partial"]
         == ExhaustiveLevels(runs[..k], d)["partial"] + if Permits(runs[k], EXHAUSTIVE, d) then 1 else 0
    ensures BlockedFlags(runs[..k + 1], d)[true]
         == BlockedFlags(runs[..k], d)[true] + if Permits(runs[k], BOUNDED_NEGATIVE, d) then 0 else 1
  {
    LevelsMatchGate(runs[k], d);
    BagStep(runs, k, ExhaustiveOf(d));
    BagStep(runs, k, BlockedOf(d));
  }

  lemma LevelOccurs(runs: seq<Annotation>, d: string, level: string)
    ensures level in PositiveLevels(runs, d) <==> exists i :: 0 <= i < |runs| && PositiveLevel(runs[i], d) == level
  {
    BagMember(runs, PositiveOf(d), level);
    if i :| 0 <= i < |runs| && PositiveOf(d)(runs[i]) == level {
      assert PositiveLevel(runs[i], d) == level;
    }
    if i :| 0 <= i < |runs| && PositiveLevel(runs[i], d) == level {
      assert PositiveOf(d)(runs[i]) == level;
    }
  }

  lemma FloorMatchesGate(runs: seq<Annotation>, d: string)
    ensures Floor(PositiveLevels(runs, d)) == Some("partial") || Floor(PositiveLevels(runs, d)) == Some("strong")
       <==> runs != [] && forall i :: 0 <= i < |runs| ==> Permits(runs[i], POSITIVE, d)
  {
    LevelOccurs(runs, d, "missing");
    LevelOccurs(runs, d, "absent");
    LevelOccurs(runs, d, "weak");
    LevelOccurs(runs, d, "partial");
    LevelOccurs(runs, d, "strong");
    forall i | 0 <= i < |runs|
      ensures PositiveLevel(runs[i], d) in POSITIVE_LEVELS
      ensures Permits(runs[i], POSITIVE, d) <==> PositiveLevel(runs[i], d) == "strong" || PositiveLevel(runs[i], d) == "partial"
    {
      LevelsRecognised(runs[i], d);
      LevelsMatchGate(runs[i], d);
    }
  }

  /** In every measured dimension the floor is supportable exactly when the gate permits the positive
      claim on every run of a non-empty fleet, and the two counters count what the gate decides. */
  lemma FleetAgreesWithGate(runs: seq<Annotation>, d: string)
    requires d in MEASURED_DIMENSIONS
    ensures var e := SummaryOf(runs).dimensions[d];
            && (e.floor == Some("partial") || e.floor == Some("strong")
                <==> runs != [] && forall i :: 0 <= i < |runs| ==> Permits(runs[i], POSITIVE, d))
            && e.exhaustive["partial"] == PermittedRuns(runs, EXHAUSTIVE, d)
            && e.negativeBlocked == |runs| - PermittedRuns(runs, BOUNDED_NEGATIVE, d)
  {
    FloorMatchesGate(runs, d);
    CountsMatchGate(runs, |runs|, d);
    assert runs[..|runs|] == runs;
  }

  // ---------------------------------------------------------- conservation and order

  ghost function PositiveTotal(m: multiset<string>): nat {
    m["strong"] + m["partial"] + m["weak"] + m["absent"] + m["missing"]
  }

  ghost function ExhaustiveTotal(m: multiset<string>): nat {
    m["partial"] + m["weak"] + m["absent"] + m["missing"]
  }

  lemma TotalStep(m: multiset<string>, level: string)
    ensures level in POSITIVE_LEVELS ==> PositiveTotal(m + multiset{level}) == PositiveTotal(m) + 1
    ensures level in EXHAUSTIVE_LEVELS ==> ExhaustiveTotal(m + multiset{level}) == ExhaustiveTotal(m) + 1
  {
  }

  lemma {:induction false} TotalOfLevels(levels: seq<string>)
    ensures (forall k :: k in levels ==> k in POSITIVE_LEVELS) ==> PositiveTotal(multiset(levels)) == |levels|
    ensures (forall k :: k in levels ==> k in EXHAUSTIVE_LEVELS) ==> ExhaustiveTotal(multiset(levels)) == |levels|
  {
    if levels != [] {
      var n := |levels| - 1;
      TotalOfLevels(levels[..n]);
      assert levels == levels[..n] + [levels[n]];
      assert multiset(levels) == multiset(levels[..n]) + multiset{levels[n]};
      TotalStep(multiset(levels[..n]), levels[n]);
    }
  }

  lemma TotalsAreRunCount(runs: seq<Annotation>, d: string)
    ensures PositiveTotal(PositiveLevels(runs, d)) == |runs|
    ensures ExhaustiveTotal(ExhaustiveLevels(runs, d)) == |runs|
  {
    forall i | 0 <= i < |runs|
      ensures PositiveOf(d)(runs[i]) in POSITIVE_LEVELS && ExhaustiveOf(d)(runs[i]) in EXHAUSTIVE_LEVELS
    {
      LevelsRecognised(runs[i], d);
    }
    TotalOfLevels(Mapped(runs, PositiveOf(d)));
    TotalOfLevels(Mapped(runs, ExhaustiveOf(d)));
  }

  /** Both histograms of every dimension add up to the number of runs. */
  lemma HistogramsConserveRuns(runs: seq<Annotation>, d: string)
    requires d in MEASURED_DIMENSIONS
    ensures var e := SummaryOf(runs).dimensions[d];
            && e.positive["strong"] + e.positive["partial"] + e.positive["weak"] + e.positive["absent"]
               + e.positive["missing"] == |runs|
            && e.exhaustive["partial"] + e.exhaustive["weak"] + e.exhaustive["absent"] + e.exhaustive["missing"]
               == |runs|
            && e.runsObserved == |runs| - e.positive["missing"]
  {
    TotalsAreRunCount(runs, d);
  }

  lemma BagRemove<A, B>(left: seq<A>, x: A, right: seq<A>, f: A -> B)
    ensures Bag(left + [x] + right, f) == Bag(left + right, f) + multiset{f(x)}
  {
    assert Mapped(left + [x] + right, f) == Mapped(left, f) + [f(x)] + Mapped(right, f);
    assert Mapped(left + right, f) == Mapped(left, f) + Mapped(right, f);
  }

  lemma CancelOne<A>(m: multiset<A>, w: multiset<A>, x: A)
    requires m + multiset{x} == w + multiset{x}
    ensures m == w
  {
    assert m == m + multiset{x} - multiset{x};
    assert w == w + multiset{x} - multiset{x};
  }

  lemma {:induction false} BagPermutation<A, B>(xs: seq<A>, ys: seq<A>, f: A -> B)
    requires multiset(xs) == multiset(ys)
    ensures Bag(xs, f) == Bag(ys, f)
    decreases |xs|
  {
    if xs == [] {
      assert |multiset(ys)| == |ys|;
    } else {
      var n := |xs| - 1;
      var x, front := xs[n], xs[..n];
      assert xs == front + [x] + [];
      assert x in multiset(ys);
      var j :| 0 <= j < |ys| && ys[j] == x;
      var left, right := ys[..j], ys[j + 1..];
      assert ys == left + [x] + right;
      assert multiset(xs) == multiset(front) + multiset{x};
      assert multiset(ys) == multiset(left + right) + multiset{x};
      CancelOne(multiset(front), multiset(left + right), x);
      BagPermutation(front, left + right, f);
      BagRemove(front, x, [], f);
      assert front + [] == front;
      BagRemove(left, x, right, f);
    }
  }

  /** The order of the annotations does not matter. */
  lemma FoldOrderIrrelevant(runs: seq<Annotation>, others: seq<Annotation>)
    requires multiset(runs) == multiset(others)
    ensures SummaryOf(runs) == SummaryOf(others)
  {
    assert |multiset(runs)| == |runs| && |multiset(others)| == |others|;
    forall d | d in MEASURED_DIMENSIONS
      ensures DimensionOf(runs, d) == DimensionOf(others, d)
    {
      BagPermutation(runs, others, PositiveOf(d));
      BagPermutation(runs, others, ExhaustiveOf(d));
      BagPermutation(runs, others, BlockedOf(d));
    }
  }

  ghost function AddCounts(x: map<string, nat>, y: map<string, nat>): map<string, nat> {
    map k | k in x && k in y :: x[k] + y[k]
  }

  /** The summary of two fleets together, from the summary of each. */
  ghost function Merge(x: Entry, y: Entry): Entry {
    Entry(
      AddCounts(x.positive, y.positive), AddCounts(x.exhaustive, y.exhaustive),
      x.negativeBlocked + y.negativeBlocked, x.runsObserved + y.runsObserved,
      if x.floor.None? then y.floor
      else if y.floor.None? then x.floor
      else Some(Weaker(x.floor.value, y.floor.value)))
  }

  lemma FloorMerge(m: multiset<string>, w: multiset<string>)
    requires OnlyLevels(m, POSITIVE_LEVELS) && OnlyLevels(w, POSITIVE_LEVELS)
    ensures Floor(m + w) == if Floor(m).None? then Floor(w) else if Floor(w).None? then Floor(m)
                            else Some(Weaker(Floor(m).value, Floor(w).value))
  {
  }

  lemma HistogramMerge(m: multiset<string>, w: multiset<string>, levels: set<string>)
    ensures Histogram(m + w, levels) == AddCounts(Histogram(m, levels), Histogram(w, levels))
  {
  }

  lemma EntryMerge(p: multiset<string>, e: multiset<string>, b: multiset<bool>,
                   p': multiset<string>, e': multiset<string>, b': multiset<bool>)
    requires OnlyLevels(p, POSITIVE_LEVELS) && OnlyLevels(p', POSITIVE_LEVELS)
    ensures EntryOf(p + p', e + e', b + b') == Merge(EntryOf(p, e, b), EntryOf(p', e', b'))
  {
    HistogramMerge(p, p', POSITIVE_LEVELS);
    HistogramMerge(e, e', EXHAUSTIVE_LEVELS);
    FloorMerge(p, p');
  }

  /** Folding a concatenation is merging the two folds. */
  lemma FoldConcat(runs: seq<Annotation>, more: seq<Annotation>, d: string)
    ensures DimensionOf(runs + more, d) == Merge(DimensionOf(runs, d), DimensionOf(more, d))
  {
    BagConcat(runs, more, PositiveOf(d));
    BagConcat(runs, more, ExhaustiveOf(d));
    BagConcat(runs, more, BlockedOf(d));
    PositiveOnlyLevels(runs, d);
    PositiveOnlyLevels(more, d);
    EntryMerge(PositiveLevels(runs, d), ExhaustiveLevels(runs, d), BlockedFlags(runs, d),
               PositiveLevels(more, d), ExhaustiveLevels(more, d), BlockedFlags(more, d));
  }

  lemma FloorPresent(runs: seq<Annotation>, d: string)
    ensures DimensionOf(runs, d).floor.Some? <==> runs != []
    ensures runs != [] ==> Rank(DimensionOf(runs, d).floor.value) >= 0
  {
    if runs != [] {
      LevelsRecognised(runs[0], d);
      LevelOccurs(runs, d, PositiveLevel(runs[0], d));
    }
  }

  lemma MergeResolved(x: Entry, y: Entry)
    requires x.floor.Some? ==> Rank(x.floor.value) >= 0
    requires y.floor.Some? ==> Rank(y.floor.value) >= 0
    ensures Resolve(Merge(x, y)) == Merge(Resolve(x), Resolve(y))
       <==> (x.floor.Some? && y.floor.Some?)
            || (Resolve(x).floor == Some("missing") && Resolve(y).floor == Some("missing"))
  {
  }

  /** Merging two published summaries, where an empty fleet already reads `missing`, is right exactly
      when neither fleet is empty or both floors read `missing`. */
  lemma MergePublished(runs: seq<Annotation>, more: seq<Annotation>, d: string)
    ensures Resolve(DimensionOf(runs + more, d)) == Merge(Resolve(DimensionOf(runs, d)), Resolve(DimensionOf(more, d)))
       <==> (runs != [] && more != [])
            || (Resolve(DimensionOf(runs, d)).floor == Some("missing")
                && Resolve(DimensionOf(more, d)).floor == Some("missing"))
  {
    FoldConcat(runs, more, d);
    FloorPresent(runs, d);
    FloorPresent(more, d);
    MergeResolved(DimensionOf(runs, d), DimensionOf(more, d));
  }

  lemma OneCell(cell: ClaimCell, d: string)
    requires cell == ClaimCell(Some(PositiveClaim(d)), Some("partial"), None)
    ensures PositiveLevel(Annotation(Some(ANNOTATION_SCHEMA), [cell], [], []), d) == "partial"
  {
    assert CellFor([cell], PositiveClaim(d)) == Some(cell);
  }

  /** An empty fleet and one run with a partial cell: the published floors merge to `missing`, the
      floor of the one run is `partial`. */
  lemma MergeWithEmptyFleet(d: string)
    ensures var cell := ClaimCell(Some(PositiveClaim(d)), Some("partial"), None);
            var more := [Annotation(Some(ANNOTATION_SCHEMA), [cell], [], [])];
            && Resolve(DimensionOf([] + more, d)).floor == Some("partial")
            && Resolve(DimensionOf([] + more, d)) != Merge(Resolve(DimensionOf([], d)), Resolve(DimensionOf(more, d)))
  {
    var cell := ClaimCell(Some(PositiveClaim(d)), Some("partial"), None);
    var more := [Annotation(Some(ANNOTATION_SCHEMA), [cell], [], [])];
    assert [] + more == more;
    OneCell(cell, d);
    NeverStrong(more, d);
    LevelOccurs(more, d, "missing");
    MergePublished([], more, d);
  }

  // ------------------------------------------------------------------ end to end

  ghost predicate AllAnnotatable(reports: seq<Report>, table: Table) {
    forall i :: 0 <= i < |reports| ==> Annotatable(reports[i], table)
  }

  ghost function Annotations(reports: seq<Report>, table: Table): seq<Annotation>
    requires AllAnnotatable(reports, table)
  {
    seq(|reports|, i requires 0 <= i < |reports| => AnnotationOf(reports[i], table))
  }

  lemma NeverStrong(runs: seq<Annotation>, d: string)
    requires forall i :: 0 <= i < |runs| ==> PositiveLevel(runs[i], d) == "partial" || PositiveLevel(runs[i], d) == "missing"
    ensures Resolve(DimensionOf(runs, d)).floor == Some("partial") || Resolve(DimensionOf(runs, d)).floor == Some("missing")
  {
    LevelOccurs(runs, d, "absent");
    LevelOccurs(runs, d, "weak");
    LevelOccurs(runs, d, "strong");
  }

  /** The number of reports with a row for a dimension. */
  ghost function RowReports(reports: seq<Report>, d: string): nat {
    if reports == [] then 0
    else
      var n := |reports| - 1;
      RowReports(reports[..n], d)
      + if reports[n].rows.Some? && HasRow(reports[n].rows.value, d) then 1 else 0
  }

  /** The number of reports with a non-empty row for a dimension. */
  ghost function ObservedReports(reports: seq<Report>, d: string): nat {
    if reports == [] then 0
    else
      var n := |reports| - 1;
      ObservedReports(reports[..n], d)
      + if reports[n].rows.Some? && HasObservedRow(reports[n].rows.value, d) then 1 else 0
  }

  lemma ReportCounts(reports: seq<Report>, table: Table, d: string, n: nat)
    requires AllAnnotatable(reports, table) && d in MEASURED_DIMENSIONS && n <= |reports|
    ensures PermittedRuns(Annotations(reports, table)[..n], EXHAUSTIVE, d)
         == if CompleteFor(table, d) then ObservedReports(reports[..n], d) else 0
    ensures n - PermittedRuns(Annotations(reports, table)[..n], BOUNDED_NEGATIVE, d) == RowReports(reports[..n], d)
  {
    var runs := Annotations(reports, table);
    for k := 0 to n
      invariant PermittedRuns(runs[..k], EXHAUSTIVE, d)
             == if CompleteFor(table, d) then ObservedReports(reports[..k], d) else 0
      invariant k - PermittedRuns(runs[..k], BOUNDED_NEGATIVE, d) == RowReports(reports[..k], d)
    {
      PermittedNext(runs, EXHAUSTIVE, d, k);
      PermittedNext(runs, BOUNDED_NEGATIVE, d, k);
      ReportPermits(reports, table, d, k);
      ReportsNext(reports, d, k);
    }
  }

  lemma PermittedNext(runs: seq<Annotation>, claimType: string, d: string, k: nat)
    requires k < |runs|
    ensures PermittedRuns(runs[..k + 1], claimType, d)
         == PermittedRuns(runs[..k], claimType, d) + if Permits(runs[k], claimType, d) then 1 else 0
  {
    assert runs[..k + 1][..k] == runs[..k];
  }

  lemma ReportsNext(reports: seq<Report>, d: string, k: nat)
    requires k < |reports| && reports[k].rows.Some?
    ensures RowReports(reports[..k + 1], d)
         == RowReports(reports[..k], d) + if HasRow(reports[k].rows.value, d) then 1 else 0
    ensures ObservedReports(reports[..k + 1], d)
         == ObservedReports(reports[..k], d) + if HasObservedRow(reports[k].rows.value, d) then 1 else 0
  {
    assert reports[..k + 1][..k] == reports[..k];
  }

  lemma ReportPermits(reports: seq<Report>, table: Table, d: string, k: nat)
    requires AllAnnotatable(reports, table) && d in MEASURED_DIMENSIONS && k < |reports|
    ensures reports[k].rows.Some?
    ensures var run := Annotations(reports, table)[k];
            && (Permits(run, EXHAUSTIVE, d) <==> HasObservedRow(reports[k].rows.value, d) && CompleteFor(table, d))
            && (Permits(run, BOUNDED_NEGATIVE, d) <==> !HasRow(reports[k].rows.value, d))
  {
    ExhaustivePermitted(reports[k], table, d);
    BoundedNegativePermitted(reports[k], table, d);
  }

  lemma CountsOfReports(reports: seq<Report>, table: Table, d: string)
    requires AllAnnotatable(reports, table) && d in MEASURED_DIMENSIONS
    ensures var e := DimensionOf(Annotations(reports, table), d);
            && e.exhaustive["partial"] == (if CompleteFor(table, d) then ObservedReports(reports, d) else 0)
            && e.negativeBlocked == RowReports(reports, d)
  {
    var runs := Annotations(reports, table);
    ReportCounts(reports, table, d, |reports|);
    CountsMatchGate(runs, |runs|, d);
    EntryCounts(runs, d);
    assert runs[..|runs|] == runs && reports[..|reports|] == reports;
  }

  lemma EntryCounts(runs: seq<Annotation>, d: string)
    ensures "partial" in DimensionOf(runs, d).exhaustive
    ensures DimensionOf(runs, d).exhaustive["partial"] == ExhaustiveLevels(runs, d)["partial"]
    ensures DimensionOf(runs, d).negativeBlocked == BlockedFlags(runs, d)[true]
  {
  }

  /** Over annotated reports the floor of a measured dimension is `partial` or `missing`, never stronger,
      and `partial` exactly when every report of a non-empty fleet has a non-empty row for it.  The
      exhaustive count is that of the reports with such a row, where the table allows it at all, and
      the blocked count that of the reports with any row. */
  lemma FleetOfReports(reports: seq<Report>, table: Table, d: string)
    requires AllAnnotatable(reports, table) && d in MEASURED_DIMENSIONS
    ensures var floor := Resolve(DimensionOf(Annotations(reports, table), d)).floor;
            && (floor == Some("partial") || floor == Some("missing"))
            && (floor == Some("partial") <==>
                reports != [] && forall i :: 0 <= i < |reports| ==> HasObservedRow(reports[i].rows.value, d))
    ensures var e := Resolve(DimensionOf(Annotations(reports, table), d));
            && e.exhaustive["partial"] == (if CompleteFor(table, d) then ObservedReports(reports, d) else 0)
            && e.negativeBlocked == RowReports(reports, d)
  {
    var runs := Annotations(reports, table);
    CountsOfReports(reports, table, d);
    forall i | 0 <= i < |runs|
      ensures Permits(runs[i], POSITIVE, d) <==> HasObservedRow(reports[i].rows.value, d)
      ensures PositiveLevel(runs[i], d) == "partial" || PositiveLevel(runs[i], d) == "missing"
    {
      PositivePermitted(reports[i], table, d);
      PositiveLevelOfReport(reports[i], table, d);
    }
    NeverStrong(runs, d);
    FloorMatchesGate(runs, d);
  }

  lemma PositiveLevelOfReport(report: Report, table: Table, d: string)
    requires Annotatable(report, table)
    ensures PositiveLevel(AnnotationOf(report, table), d) == "partial"
            || PositiveLevel(AnnotationOf(report, table), d) == "missing"
  {
    var a, claim := AnnotationOf(report, table), PositiveClaim(d);
    CellForExact(a.cells, claim);
    if CellFor(a.cells, claim).Some? {
      var cell := CellFor(a.cells, claim).value;
      var i := CellSource(report, table, cell);
      RowPositive(report.rows.value[i], table, d, cell);
    }
  }

  /** What a report and a descriptor table support. */
  ghost predicate Supports(report: Report, table: Table, c: Claim)
    requires report.rows.Some?
  {
    && c.dimension in MEASURED_DIMENSIONS
    && (c.claimType == POSITIVE ==> HasObservedRow(report.rows.value, c.dimension))
    && (c.claimType == EXHAUSTIVE ==> HasObservedRow(report.rows.value, c.dimension) && CompleteFor(table, c.dimension))
    && (c.claimType == BOUNDED_NEGATIVE ==> !HasRow(report.rows.value, c.dimension))
  }

  lemma SupportedExactly(report: Report, table: Table, c: Claim)
    requires Annotatable(report, table) && c.claimType in CLAIM_TYPES
    ensures Permits(AnnotationOf(report, table), c.claimType, c.dimension) <==> Supports(report, table, c)
  {
    TypesDiffer();
    PositivePermitted(report, table, c.dimension);
    ExhaustivePermitted(report, table, c.dimension);
    BoundedNegativePermitted(report, table, c.dimension);
  }

  lemma TypesDiffer()
    ensures POSITIVE != EXHAUSTIVE && EXHAUSTIVE != BOUNDED_NEGATIVE && BOUNDED_NEGATIVE != POSITIVE
  {
    assert POSITIVE[0] != EXHAUSTIVE[0] && EXHAUSTIVE[0] != BOUNDED_NEGATIVE[0] && BOUNDED_NEGATIVE[0] != POSITIVE[0];
  }

  /** The annotator and then the gate, on claims as they are written: a report for every list of specs
      that each say a claim, and each verdict exactly what the report and the table support. */
  method CheckReport(report: Report, table: Table, specs: seq<string>) returns (r: Result<GateReport>)
    ensures r.Ok? <==> Annotatable(report, table) && forall i :: 0 <= i < |specs| ==> IsSpec(specs[i])
    ensures r.Ok? ==> |r.value.results| == |specs|
    ensures r.Ok? ==> forall i, c: Claim :: 0 <= i < |specs| && Says(specs[i], c) ==>
              (r.value.results[i].permitted <==> Supports(report, table, c))
  {
    var annotation := Annotate(report, table);
    if annotation.Raised? {
      return Raised(annotation.error);
    }
    r := Gate(annotation.value, specs);
    if r.Ok? {
      forall i, c: Claim | 0 <= i < |specs| && Says(specs[i], c)
        ensures r.value.results[i].permitted <==> Supports(report, table, c)
      {
        assert IsVerdict(annotation.value, specs[i], r.value.results[i]);
        SupportedExactly(report, table, c);
      }
    }
  }
}
