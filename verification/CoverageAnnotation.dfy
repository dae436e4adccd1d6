/** The annotation sidecar that passes from the annotator to the gate and the fleet summary. */
module CoverageAnnotation {
  import opened Outcomes

  const ANNOTATION_SCHEMA := "assay.coverage_aware_drift.annotation.v0"

  const MEASURED_DIMENSIONS: seq<string> :=
    ["filesystem_paths_touched", "kernel_file_operations", "network_endpoints", "process_execs"]

  /** A field is None when the member is absent or null. */
  datatype ClaimCell = ClaimCell(claimType: Option<string>, strength: Option<string>, basis: Option<string>)

  datatype BlockedClaim = BlockedClaim(requestedClaim: Option<string>)

  datatype Caveat = Caveat(dimension: string, classification: string)

  datatype Annotation = Annotation(
    schema: Option<string>, cells: seq<ClaimCell>, blocked: seq<BlockedClaim>, caveats: seq<Caveat>)

  function PositiveClaim(dimension: string): string {
    "measured_" + dimension + "_drift"
  }

  function ExhaustiveClaim(dimension: string): string {
    "exhaustive_" + dimension + "_equality"
  }

  function ReportedClaim(dimension: string): string {
    "reported_" + dimension
  }

  function NegativeClaim(dimension: string): string {
    "no_" + dimension + "_effect_beyond_observed"
  }

  /** `_cells(annotation).get(claim)`: the last cell of that type. */
  function CellFor(cells: seq<ClaimCell>, claim: string): Option<ClaimCell> {
    if cells == [] then None
    else
      var last := cells[|cells| - 1];
      if last.claimType == Some(claim) then Some(last) else CellFor(cells[..|cells| - 1], claim)
  }

  /** `claim in _blocked(annotation)`. */
  predicate IsBlocked(a: Annotation, claim: string) {
    BlockedClaim(Some(claim)) in a.blocked
  }

  /** There is a cell of a type exactly when some cell has it, and what is found is such a cell. */
  lemma {:induction false} CellForExact(cells: seq<ClaimCell>, claim: string)
    ensures CellFor(cells, claim).Some? <==> exists i :: 0 <= i < |cells| && cells[i].claimType == Some(claim)
    ensures CellFor(cells, claim).Some? ==>
              CellFor(cells, claim).value in cells && CellFor(cells, claim).value.claimType == Some(claim)
  {
    if cells != [] {
      var n := |cells| - 1;
      CellForExact(cells[..n], claim);
      assert forall i :: 0 <= i < n ==> cells[..n][i] == cells[i];
    }
  }

  /** The claim names of different dimensions, or of different kinds, are different. */
  lemma ClaimNames(d: string, e: string)
    ensures PositiveClaim(d) == PositiveClaim(e) <==> d == e
    ensures ExhaustiveClaim(d) == ExhaustiveClaim(e) <==> d == e
    ensures NegativeClaim(d) == NegativeClaim(e) <==> d == e
    ensures PositiveClaim(d) != ExhaustiveClaim(e) && PositiveClaim(d) != ReportedClaim(e)
    ensures ExhaustiveClaim(d) != ReportedClaim(e)
  {
    if PositiveClaim(d) == PositiveClaim(e) {
      assert PositiveClaim(d)[9..|PositiveClaim(d)| - 6] == d && PositiveClaim(e)[9..|PositiveClaim(e)| - 6] == e;
    }
    if ExhaustiveClaim(d) == ExhaustiveClaim(e) {
      assert ExhaustiveClaim(d)[11..|ExhaustiveClaim(d)| - 9] == d;
      assert ExhaustiveClaim(e)[11..|ExhaustiveClaim(e)| - 9] == e;
    }
    if NegativeClaim(d) == NegativeClaim(e) {
      assert NegativeClaim(d)[3..|NegativeClaim(d)| - 23] == d && NegativeClaim(e)[3..|NegativeClaim(e)| - 23] == e;
    }
    assert PositiveClaim(d)[0] == 'm' && ExhaustiveClaim(e)[0] == 'e' && ReportedClaim(e)[0] == 'r';
    assert ExhaustiveClaim(d)[0] == 'e';
  }
}
