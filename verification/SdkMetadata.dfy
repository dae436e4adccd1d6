/** The side-band SDK provenance of one side: the one pair that its SDK events carry. */
module SdkMetadata {
  import opened JsonValues
  import opened Outcomes
  import opened RunnerEvidence
  import opened CrossRuntimeDiffs
  import opened CrossRuntimeValidation

  /** A line of `layers/sdk.ndjson`: blank after stripping, not JSON, or a JSON value. */
  datatype SdkLine = Blank | NotJson | Parsed(value: Json)

  type Pair = (string, string)

  ghost predicate IsObject(line: SdkLine) {
    line.Parsed? && line.value.Obj?
  }

  /** An SDK event that names both an SDK and a version. */
  ghost predicate Carries(line: SdkLine) {
    && IsObject(line)
    && Get(line.value.members, "schema") == Str(SDK_EVENT_SCHEMA)
    && Get(line.value.members, "sdk_name") != Null
    && Get(line.value.members, "sdk_version") != Null
  }

  ghost predicate WellFormed(line: SdkLine) {
    && (line.Blank? || IsObject(line))
    && (Carries(line) ==>
          NonEmptyStr(Get(line.value.members, "sdk_name")) && NonEmptyStr(Get(line.value.members, "sdk_version")))
  }

  ghost function PairOf(line: SdkLine): Pair
    requires Carries(line) && WellFormed(line)
  {
    (Get(line.value.members, "sdk_name").s, Get(line.value.members, "sdk_version").s)
  }

  ghost predicate AllWellFormed(lines: seq<SdkLine>) {
    forall i :: 0 <= i < |lines| ==> WellFormed(lines[i])
  }

  ghost function Pairs(lines: seq<SdkLine>): set<Pair>
    requires AllWellFormed(lines)
  {
    set i | 0 <= i < |lines| && Carries(lines[i]) :: PairOf(lines[i])
  }

  lemma PairsStep(lines: seq<SdkLine>, i: nat)
    requires i < |lines| && AllWellFormed(lines[..i]) && WellFormed(lines[i])
    ensures AllWellFormed(lines[..i + 1])
    ensures Pairs(lines[..i + 1]) == Pairs(lines[..i]) + if Carries(lines[i]) then {PairOf(lines[i])} else {}
  {
    var front, more := lines[..i], lines[..i + 1];
    assert forall j :: 0 <= j < i ==> more[j] == front[j];
    assert more[i] == lines[i];
    forall p | p in Pairs(front)
      ensures p in Pairs(more)
    {
      var j :| 0 <= j < i && Carries(front[j]) && PairOf(front[j]) == p;
      assert Carries(more[j]) && PairOf(more[j]) == p;
    }
    if Carries(lines[i]) {
      assert PairOf(more[i]) in Pairs(more);
    }
  }

  /** One line of the loop: the pair that it adds, if any. */
  method ReadPair(line: SdkLine) returns (r: Result<Option<Pair>>)
    ensures r.Ok? <==> WellFormed(line)
    ensures r.Ok? ==> r.value == if Carries(line) then Some(PairOf(line)) else None
    ensures r.Raised? ==> r.error == "ValidationError"
  {
    if line.Blank? {
      return Ok(None);
    }
    if line.NotJson? || !line.value.Obj? {
      return Raised("ValidationError");
    }
    var event := line.value.members;
    if Get(event, "schema") != Str(SDK_EVENT_SCHEMA) {
      return Ok(None);
    }
    var name, version := Get(event, "sdk_name"), Get(event, "sdk_version");
    if name == Null || version == Null {
      return Ok(None);
    }
    if !name.Str? || name.s == "" || !version.Str? || version.s == "" {
      return Raised("ValidationError");
    }
    return Ok(Some((name.s, version.s)));
  }

  /** `parse_sdk_metadata`: accepted exactly when every line is well formed and all events that name
      an SDK name the same one; the result then satisfies the structural validator. */
  method ParseSdkMetadata(lines: seq<SdkLine>) returns (r: Result<Dict>)
    ensures r.Ok? <==> AllWellFormed(lines) && exists p :: Pairs(lines) == {p}
    ensures r.Ok? ==> ValidSdkSide(Obj(r.value)) && Pairs(lines) == {(r.value["sdk_name"].s, r.value["sdk_version"].s)}
    ensures r.Raised? ==> r.error == "ValidationError"
  {
    var pairs: set<Pair> := {};
    for i := 0 to |lines|
      invariant AllWellFormed(lines[..i])
      invariant pairs == Pairs(lines[..i])
    {
      var found := ReadPair(lines[i]);
      if found.Raised? {
        return Raised("ValidationError");
      }
      PairsStep(lines, i);
      if found.value.Some? {
        pairs := pairs + {found.value.value};
      }
    }
    assert lines[..|lines|] == lines;
    if |pairs| != 1 {
      return Raised("ValidationError");
    }
    var pair :| pair in pairs;
    OnlyMember(pairs, pair);
    PairNonEmpty(lines, pair);
    return Ok(map["sdk_name" := Str(pair.0), "sdk_version" := Str(pair.1)]);
  }

  lemma OnlyMember(pairs: set<Pair>, p: Pair)
    requires |pairs| == 1 && p in pairs
    ensures pairs == {p}
  {
    assert |pairs - {p}| == 0;
    assert pairs == {p} + (pairs - {p});
  }

  lemma PairNonEmpty(lines: seq<SdkLine>, p: Pair)
    requires AllWellFormed(lines) && p in Pairs(lines)
    ensures p.0 != "" && p.1 != ""
  {
  }
}
