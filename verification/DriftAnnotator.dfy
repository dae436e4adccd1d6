/**
 The annotator: claim cells and blocked claims for every row of a drift report.
 The coverage descriptors are a parameter, so that both branches of the
 exhaustive claim are reachable; the shipped table is SEED_DESCRIPTORS.
 */
module DriftAnnotator {
  import opened Outcomes
  import opened CoverageAnnotation

  const DRIFT_SCHEMA := "assay.runner.runtime_drift.v0.2"

  datatype Descriptor = Descriptor(capture: string, blindSpots: seq<string>, completeness: string)

  type Table = map<string, Descriptor>

  const SEED_DESCRIPTORS: Table := map[
    "filesystem" := Descriptor(
      "open/openat/openat2 tracepoints",
      ["io_uring file operations may bypass syscall tracepoints",
       "mmap-backed writes are not path-open observations"],
      "open_syscall_only"),
    "network" := Descriptor(
      "connect tracepoint",
      ["QUIC/datagram peer changes after connect are not an exhaustive peer set",
       "io_uring network operations may bypass syscall tracepoints"],
      "connect_only"),
    "process" := Descriptor(
      "exec tracepoint",
      ["fork/clone gaps can make process-tree exhaustiveness kernel-dependent"],
      "exec_only")]

  datatype Basis = Measured(effect: string) | Reported

  const DIMENSION_MAP: map<string, Basis> := map[
    "filesystem_paths_touched" := Measured("filesystem"),
    "kernel_file_operations" := Measured("filesystem"),
    "network_endpoints" := Measured("network"),
    "process_execs" := Measured("process"),
    "sdk_tool_events" := Reported,
    "tool_invocation_order" := Reported,
    "mcp_tool_surface" := Reported]

  /** `DIMENSION_MAP.get(dimension)`. */
  function BasisOf(dimension: string): Option<Basis> {
    if dimension in DIMENSION_MAP then Some(DIMENSION_MAP[dimension]) else None
  }

  predicate IsMeasured(dimension: string) {
    BasisOf(dimension).Some? && BasisOf(dimension).value.Measured?
  }

  function EffectOf(dimension: string): string
    requires IsMeasured(dimension)
  {
    BasisOf(dimension).value.effect
  }

  datatype Row = Row(
    dimension: Option<string>,
    classification: Option<string>,
    onlyInA: seq<string>,
    onlyInB: seq<string>,
    inBoth: seq<string>)

  /** `rows` is None when the report has no list of rows. */
  datatype Report = Report(schema: Option<string>, rows: Option<seq<Row>>)

  predicate Observed(row: Row): (b: bool)
    ensures b <==> |row.onlyInA| + |row.onlyInB| + |row.inBoth| > 0
  {
    row.onlyInA != [] || row.onlyInB != [] || row.inBoth != []
  }

  /** What an exhaustive claim needs of a descriptor. */
  ghost predicate Complete(d: Descriptor) {
    d.completeness == "full" && |d.blindSpots| == 0
  }

  predicate SupportsCompleteClaims(d: Descriptor) {
    d.completeness == "full" && d.blindSpots == []
  }

  predicate MeasuredRow(row: Row) {
    row.dimension.Some? && IsMeasured(row.dimension.value)
  }

  /** The lookup of a measured row's descriptor does not raise. */
  predicate Described(row: Row, table: Table) {
    MeasuredRow(row) ==> EffectOf(row.dimension.value) in table
  }

  // ------------------------------------------------------- what one row yields

  function RowCells(row: Row, table: Table): seq<ClaimCell>
    requires Described(row, table)
  {
    if row.dimension.None? || BasisOf(row.dimension.value).None? || !Observed(row) then []
    else
      var d := row.dimension.value;
      match BasisOf(d).value
      case Reported => [ClaimCell(Some(ReportedClaim(d)), Some("partial"), Some("reported"))]
      case Measured(effect) =>
        [ClaimCell(Some(PositiveClaim(d)), Some("partial"), Some("measured")),
         ClaimCell(
           Some(ExhaustiveClaim(d)),
           Some(if SupportsCompleteClaims(table[effect]) then "partial" else "weak"),
           Some("derived"))]
  }

  function RowBlocked(row: Row): seq<BlockedClaim> {
    if MeasuredRow(row) then [BlockedClaim(Some(NegativeClaim(row.dimension.value)))] else []
  }

  function RowCaveats(row: Row): seq<Caveat> {
    if MeasuredRow(row) && row.classification == Some("task-induced")
    then [Caveat(row.dimension.value, "task-induced")] else []
  }

  ghost predicate AllDescribed(rows: seq<Row>, table: Table) {
    forall i :: 0 <= i < |rows| ==> Described(rows[i], table)
  }

  ghost function Flatten<T>(xss: seq<seq<T>>): seq<T> {
    if xss == [] then [] else Flatten(xss[..|xss| - 1]) + xss[|xss| - 1]
  }

  lemma {:induction false} FlattenMember<T>(xss: seq<seq<T>>, x: T)
    ensures x in Flatten(xss) <==> exists i :: 0 <= i < |xss| && x in xss[i]
  {
    if xss != [] {
      var n := |xss| - 1;
      FlattenMember(xss[..n], x);
      assert forall i :: 0 <= i < n ==> xss[..n][i] == xss[i];
    }
  }

  ghost function CellsByRow(rows: seq<Row>, table: Table): seq<seq<ClaimCell>>
    requires AllDescribed(rows, table)
  {
    seq(|rows|, i requires 0 <= i < |rows| => RowCells(rows[i], table))
  }

  ghost function BlockedByRow(rows: seq<Row>): seq<seq<BlockedClaim>> {
    seq(|rows|, i requires 0 <= i < |rows| => RowBlocked(rows[i]))
  }

  ghost function CaveatsByRow(rows: seq<Row>): seq<seq<Caveat>> {
    seq(|rows|, i requires 0 <= i < |rows| => RowCaveats(rows[i]))
  }

  ghost predicate Annotatable(report: Report, table: Table) {
    report.schema == Some(DRIFT_SCHEMA) && report.rows.Some? && AllDescribed(report.rows.value, table)
  }

  ghost function AnnotationOf(report: Report, table: Table): Annotation
    requires Annotatable(report, table)
  {
    var rows := report.rows.value;
    Annotation(Some(ANNOTATION_SCHEMA), Flatten(CellsByRow(rows, table)), Flatten(BlockedByRow(rows)), Flatten(CaveatsByRow(rows)))
  }

  lemma FlattenNext<T>(xss: seq<seq<T>>, more: seq<seq<T>>, last: seq<T>)
    requires more == xss + [last]
    ensures Flatten(more) == Flatten(xss) + last
  {
    assert more[..|xss|] == xss;
  }

  lemma CellsStep(rows: seq<Row>, table: Table, i: nat)
    requires i < |rows| && AllDescribed(rows[..i], table) && Described(rows[i], table)
    ensures AllDescribed(rows[..i + 1], table)
    ensures CellsByRow(rows[..i + 1], table) == CellsByRow(rows[..i], table) + [RowCells(rows[i], table)]
  {
    assert rows[..i + 1] == rows[..i] + [rows[i]];
  }

  lemma BlockedStep(rows: seq<Row>, i: nat)
    requires i < |rows|
    ensures BlockedByRow(rows[..i + 1]) == BlockedByRow(rows[..i]) + [RowBlocked(rows[i])]
  {
    assert rows[..i + 1] == rows[..i] + [rows[i]];
  }

  lemma CaveatsStep(rows: seq<Row>, i: nat)
    requires i < |rows|
    ensures CaveatsByRow(rows[..i + 1]) == CaveatsByRow(rows[..i]) + [RowCaveats(rows[i])]
  {
    assert rows[..i + 1] == rows[..i] + [rows[i]];
  }

  lemma RowsStep(rows: seq<Row>, table: Table, i: nat)
    requires i < |rows| && AllDescribed(rows[..i], table) && Described(rows[i], table)
    ensures AllDescribed(rows[..i + 1], table)
    ensures Flatten(CellsByRow(rows[..i + 1], table)) == Flatten(CellsByRow(rows[..i], table)) + RowCells(rows[i], table)
    ensures Flatten(BlockedByRow(rows[..i + 1])) == Flatten(BlockedByRow(rows[..i])) + RowBlocked(rows[i])
    ensures Flatten(CaveatsByRow(rows[..i + 1])) == Flatten(CaveatsByRow(rows[..i])) + RowCaveats(rows[i])
  {
    CellsStep(rows, table, i);
    BlockedStep(rows, i);
    CaveatsStep(rows, i);
    FlattenNext(CellsByRow(rows[..i], table), CellsByRow(rows[..i + 1], table), RowCells(rows[i], table));
    FlattenNext(BlockedByRow(rows[..i]), BlockedByRow(rows[..i + 1]), RowBlocked(rows[i]));
    FlattenNext(CaveatsByRow(rows[..i]), CaveatsByRow(rows[..i + 1]), RowCaveats(rows[i]));
  }

  /** The body of the loop: what one row adds to the three lists. */
  method AnnotateRow(row: Row, table: Table)
    returns (ok: bool, cells: seq<ClaimCell>, blocked: seq<BlockedClaim>, caveats: seq<Caveat>)
    ensures ok <==> Described(row, table)
    ensures ok ==> cells == RowCells(row, table) && blocked == RowBlocked(row) && caveats == RowCaveats(row)
  {
    ok, cells, blocked, caveats := true, [], [], [];
    if row.dimension.None? || BasisOf(row.dimension.value).None? {
      return;
    }
    var dimension := row.dimension.value;
    var basis := BasisOf(dimension).value;
    var observed := Observed(row);
    if basis.Reported? {
      if observed {
        cells := cells + [ClaimCell(Some(ReportedClaim(dimension)), Some("partial"), Some("reported"))];
      }
      return;
    }
    if basis.effect !in table {
      ok := false;
      return;
    }
    var descriptor := table[basis.effect];
    if observed {
      cells := cells + [ClaimCell(Some(PositiveClaim(dimension)), Some("partial"), Some("measured"))];
    }
    if observed && SupportsCompleteClaims(descriptor) {
      cells := cells + [ClaimCell(Some(ExhaustiveClaim(dimension)), Some("partial"), Some("derived"))];
    } else if observed {
      cells := cells + [ClaimCell(Some(ExhaustiveClaim(dimension)), Some("weak"), Some("derived"))];
    }
    blocked := blocked + [BlockedClaim(Some(NegativeClaim(dimension)))];
    if row.classification == Some("task-induced") {
      caveats := caveats + [Caveat(dimension, "task-induced")];
    }
  }

  /** `annotate`. */
  method Annotate(report: Report, table: Table) returns (r: Result<Annotation>)
    ensures r.Ok? <==> Annotatable(report, table)
    ensures r.Ok? ==> r.value == AnnotationOf(report, table)
    ensures r.Raised? ==> r.error == if report.schema != Some(DRIFT_SCHEMA) || report.rows.None? then "ValueError" else "KeyError"
  {
    if report.schema != Some(DRIFT_SCHEMA) || report.rows.None? {
      return Raised("ValueError");
    }
    var rows := report.rows.value;
    var cells: seq<ClaimCell> := [];
    var blocked: seq<BlockedClaim> := [];
    var caveats: seq<Caveat> := [];
    for i := 0 to |rows|
      invariant AllDescribed(rows[..i], table)
      invariant cells == Flatten(CellsByRow(rows[..i], table))
      invariant blocked == Flatten(BlockedByRow(rows[..i]))
      invariant caveats == Flatten(CaveatsByRow(rows[..i]))
    {
      var ok, rowCells, rowBlocked, rowCaveats := AnnotateRow(rows[i], table);
      if !ok {
        return Raised("KeyError");
      }
      RowsStep(rows, table, i);
      cells := cells + rowCells;
      blocked := blocked + rowBlocked;
      caveats := caveats + rowCaveats;
    }
    assert rows[..|rows|] == rows;
    return Ok(Annotation(Some(ANNOTATION_SCHEMA), cells, blocked, caveats));
  }

  // -------------------------------------------------- what stands in an annotation

  /** A row yields a claim cell: one for a reported dimension with something observed, two for a
      measured one, the second only as strong as the descriptor allows. */
  ghost predicate Yields(row: Row, table: Table, cell: ClaimCell) {
    && row.dimension.Some? && Observed(row)
    && var d := row.dimension.value;
    if BasisOf(d) == Some(Reported) then
      cell == ClaimCell(Some("reported_" + d), Some("partial"), Some("reported"))
    else
      && IsMeasured(d) && EffectOf(d) in table
      && (|| cell == ClaimCell(Some("measured_" + d + "_drift"), Some("partial"), Some("measured"))
          || cell == ClaimCell(
               Some("exhaustive_" + d + "_equality"),
               Some(if Complete(table[EffectOf(d)]) then "partial" else "weak"), Some("derived")))
  }

  lemma RowCellsExact(row: Row, table: Table, cell: ClaimCell)
    requires Described(row, table)
    ensures cell in RowCells(row, table) <==> Yields(row, table, cell)
  {
  }

  /** The cells of an annotation are those that some row yields. */
  lemma CellsExact(report: Report, table: Table, cell: ClaimCell)
    requires Annotatable(report, table)
    ensures cell in AnnotationOf(report, table).cells <==>
              exists i :: 0 <= i < |report.rows.value| && Yields(report.rows.value[i], table, cell)
  {
    var rows := report.rows.value;
    FlattenMember(CellsByRow(rows, table), cell);
    forall i | 0 <= i < |rows|
      ensures cell in CellsByRow(rows, table)[i] <==> Yields(rows[i], table, cell)
    {
      RowCellsExact(rows[i], table, cell);
    }
  }

  ghost predicate Blocks(row: Row, claim: BlockedClaim) {
    MeasuredRow(row) && claim == BlockedClaim(Some("no_" + row.dimension.value + "_effect_beyond_observed"))
  }

  /** A bounded negative is blocked for each row of a measured dimension, and for nothing else. */
  lemma BlockedExact(report: Report, table: Table, claim: BlockedClaim)
    requires Annotatable(report, table)
    ensures claim in AnnotationOf(report, table).blocked <==>
              exists i :: 0 <= i < |report.rows.value| && Blocks(report.rows.value[i], claim)
  {
    var rows := report.rows.value;
    FlattenMember(BlockedByRow(rows), claim);
    assert forall i :: 0 <= i < |rows| ==> (claim in BlockedByRow(rows)[i] <==> Blocks(rows[i], claim));
  }

  ghost predicate Cautions(row: Row, caveat: Caveat) {
    && MeasuredRow(row) && row.classification == Some("task-induced")
    && caveat == Caveat(row.dimension.value, "task-induced")
  }

  /** A caveat stands for each row of a measured dimension that is classified as task-induced. */
  lemma CaveatsExact(report: Report, table: Table, caveat: Caveat)
    requires Annotatable(report, table)
    ensures caveat in AnnotationOf(report, table).caveats <==>
              exists i :: 0 <= i < |report.rows.value| && Cautions(report.rows.value[i], caveat)
  {
    var rows := report.rows.value;
    FlattenMember(CaveatsByRow(rows), caveat);
    assert forall i :: 0 <= i < |rows| ==> (caveat in CaveatsByRow(rows)[i] <==> Cautions(rows[i], caveat));
  }
}
