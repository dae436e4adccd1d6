/** The gate: which coverage claims an annotation permits. */
module ClaimsGate {
  import opened Outcomes
  import opened CoverageAnnotation
  import opened PythonText

  const POSITIVE := "positive"
  const EXHAUSTIVE := "exhaustive"
  const BOUNDED_NEGATIVE := "bounded_negative"

  /** `evaluate_claim`, without the explanatory text. */
  predicate Permits(a: Annotation, claimType: string, dimension: string) {
    if claimType == POSITIVE then
      var cell := CellFor(a.cells, PositiveClaim(dimension));
      cell.Some? && (cell.value.strength == Some("strong") || cell.value.strength == Some("partial"))
    else if claimType == EXHAUSTIVE then
      var cell := CellFor(a.cells, ExhaustiveClaim(dimension));
      cell.Some? && cell.value.strength == Some("partial")
    else if claimType == BOUNDED_NEGATIVE then
      dimension in MEASURED_DIMENSIONS && !IsBlocked(a, NegativeClaim(dimension))
    else false
  }

  function IndexOf(s: string, c: char): (i: nat)
    ensures i <= |s|
    ensures c !in s[..i]
    ensures i < |s| ==> s[i] == c
  {
    if s == "" || s[0] == c then 0
    else
      assert s[..1 + IndexOf(s[1..], c)] == [s[0]] + s[1..][..IndexOf(s[1..], c)];
      1 + IndexOf(s[1..], c)
  }

  datatype Claim = Claim(claimType: string, dimension: string)

  /** `parse_claim_spec`. */
  function ParseClaimSpec(spec: string): Result<Claim> {
    var i := IndexOf(spec, ':');
    if i == |spec| then Raised("ValueError")
    else
      var claim := Claim(Strip(spec[..i]), Strip(spec[i + 1..]));
      if claim.claimType !in CLAIM_TYPES || claim.dimension == "" then Raised("ValueError")
      else Ok(claim)
  }

  // ------------------------------------------------------------- what a spec says

  const CLAIM_TYPES: set<string> := {POSITIVE, EXHAUSTIVE, BOUNDED_NEGATIVE}

  /** The spec is the claim's type and dimension on the two sides of its first colon, each with
      white space around it or not. */
  ghost predicate Says(spec: string, c: Claim) {
    && c.claimType in CLAIM_TYPES && c.dimension != ""
    && exists a, b :: ':' !in a && spec == a + ":" + b && Trims(a, c.claimType) && Trims(b, c.dimension)
  }

  ghost predicate IsSpec(spec: string) {
    exists c: Claim :: Says(spec, c)
  }

  lemma {:induction false} FirstColon(a: string, b: string)
    requires ':' !in a
    ensures IndexOf(a + ":" + b, ':') == |a|
  {
    if a == "" {
      assert (a + ":" + b)[0] == ':';
    } else {
      assert a[0] in a && (a + ":" + b)[1..] == a[1..] + ":" + b;
      assert forall c :: c in a[1..] ==> c in a;
      FirstColon(a[1..], b);
    }
  }

  lemma SplitAtColon(a: string, b: string)
    requires ':' !in a
    ensures var spec := a + ":" + b;
            IndexOf(spec, ':') == |a| && spec[..|a|] == a && spec[|a| + 1..] == b
  {
    FirstColon(a, b);
  }

  lemma SaidParses(a: string, b: string, c: Claim)
    requires c.claimType in CLAIM_TYPES && c.dimension != "" && ':' !in a
    requires Trims(a, c.claimType) && Trims(b, c.dimension)
    ensures ParseClaimSpec(a + ":" + b) == Ok(c)
  {
    SplitAtColon(a, b);
    StripExact(a, c.claimType);
    StripExact(b, c.dimension);
  }

  lemma ParsedSays(spec: string, c: Claim)
    requires ParseClaimSpec(spec) == Ok(c)
    ensures Says(spec, c)
  {
    var i := IndexOf(spec, ':');
    var a, b := spec[..i], spec[i + 1..];
    assert spec == a + ":" + b;
    StripExact(a, c.claimType);
    StripExact(b, c.dimension);
  }

  /** A spec parses to a claim exactly when it says it, and otherwise raises. */
  lemma SpecExact(spec: string, c: Claim)
    ensures ParseClaimSpec(spec) == Ok(c) <==> Says(spec, c)
  {
    if Says(spec, c) {
      var a, b :| ':' !in a && spec == a + ":" + b && Trims(a, c.claimType) && Trims(b, c.dimension);
      SaidParses(a, b, c);
    }
    if ParseClaimSpec(spec) == Ok(c) {
      ParsedSays(spec, c);
    }
  }

  /** A spec says one claim at most. */
  lemma SaysOne(spec: string, c: Claim, d: Claim)
    requires Says(spec, c) && Says(spec, d)
    ensures c == d
  {
    SpecExact(spec, c);
    SpecExact(spec, d);
  }

  lemma BlankHasNoColon(s: string)
    requires Blank(s)
    ensures ':' !in s
  {
  }

  lemma TypeHasNoColon(t: string)
    requires t in CLAIM_TYPES
    ensures ':' !in t && NoOuterSpace(t)
  {
  }

  /** A type, a colon and a dimension, with any white space around both, say that claim. */
  lemma SpecRoundTrip(c: Claim, w: string, x: string, y: string, z: string)
    requires c.claimType in CLAIM_TYPES && c.dimension != "" && NoOuterSpace(c.dimension)
    requires Blank(w) && Blank(x) && Blank(y) && Blank(z)
    ensures var spec := w + c.claimType + x + ":" + (y + c.dimension + z);
            Says(spec, c) && ParseClaimSpec(spec) == Ok(c)
  {
    var a, b := w + c.claimType + x, y + c.dimension + z;
    TypeHasNoColon(c.claimType);
    BlankHasNoColon(w);
    BlankHasNoColon(x);
    assert Trims(a, c.claimType) && Trims(b, c.dimension);
    assert ':' !in a;
    assert Says(a + ":" + b, c);
    SpecExact(a + ":" + b, c);
  }

  /** Without a colon, of another type or with a blank dimension, a spec raises. */
  lemma SpecRaises(spec: string, a: string, b: string)
    ensures ':' !in spec ==> ParseClaimSpec(spec).Raised?
    ensures ':' !in a && Strip(a) !in CLAIM_TYPES ==> ParseClaimSpec(a + ":" + b).Raised?
    ensures ':' !in a && Blank(b) ==> ParseClaimSpec(a + ":" + b).Raised?
  {
    if ':' !in spec {
      assert IndexOf(spec, ':') == |spec|;
    }
    if ':' !in a {
      SplitAtColon(a, b);
    }
    if Blank(b) {
      StripParts(b, "", "");
      assert b + "" + "" == b;
    }
  }

  /** `evaluate_claim` on what a spec says. */
  datatype Verdict = Verdict(claim: string, permitted: bool)

  datatype GateReport = GateReport(passed: bool, results: seq<Verdict>)

  /** The verdict on the claim that a spec says. */
  ghost predicate IsVerdict(a: Annotation, spec: string, v: Verdict) {
    forall c: Claim :: Says(spec, c) ==>
      v.claim == c.claimType + ":" + c.dimension && (v.permitted <==> Permits(a, c.claimType, c.dimension))
  }

  ghost predicate Verdicts(a: Annotation, specs: seq<string>, results: seq<Verdict>) {
    && |results| <= |specs|
    && forall k :: 0 <= k < |results| ==> IsSpec(specs[k]) && IsVerdict(a, specs[k], results[k])
  }

  lemma VerdictsNext(a: Annotation, specs: seq<string>, results: seq<Verdict>, v: Verdict)
    requires Verdicts(a, specs, results) && |results| < |specs|
    requires IsSpec(specs[|results|]) && IsVerdict(a, specs[|results|], v)
    ensures Verdicts(a, specs, results + [v])
  {
    var more := results + [v];
    forall k | 0 <= k < |more| ensures IsSpec(specs[k]) && IsVerdict(a, specs[k], more[k]) {
      if k < |results| {
        assert more[k] == results[k];
      }
    }
  }

  /** `gate`: a report on every asserted claim, passed exactly when each of them is permitted. */
  method Gate(a: Annotation, specs: seq<string>) returns (r: Result<GateReport>)
    ensures r.Ok? <==> a.schema == Some(ANNOTATION_SCHEMA)
                       && forall i :: 0 <= i < |specs| ==> IsSpec(specs[i])
    ensures r.Ok? ==> |r.value.results| == |specs|
    ensures r.Ok? ==> forall i :: 0 <= i < |specs| ==> IsVerdict(a, specs[i], r.value.results[i])
    ensures r.Ok? ==> (r.value.passed <==> forall i :: 0 <= i < |specs| ==> r.value.results[i].permitted)
    ensures r.Raised? ==> r.error == "ValueError"
  {
    if a.schema != Some(ANNOTATION_SCHEMA) {
      return Raised("ValueError");
    }
    var results: seq<Verdict> := [];
    for i := 0 to |specs|
      invariant |results| == i && Verdicts(a, specs, results)
    {
      var verdict := Evaluate(a, specs[i]);
      if verdict.Raised? {
        return Raised("ValueError");
      }
      VerdictsNext(a, specs, results, verdict.value);
      results := results + [verdict.value];
    }
    var passed := forall i :: 0 <= i < |results| ==> results[i].permitted;
    return Ok(GateReport(passed, results));
  }

  /** `parse_claim_spec` and then `evaluate_claim`. */
  method Evaluate(a: Annotation, spec: string) returns (r: Result<Verdict>)
    ensures r.Ok? <==> IsSpec(spec)
    ensures r.Ok? ==> IsVerdict(a, spec, r.value)
    ensures r.Raised? ==> r.error == "ValueError"
  {
    var parsed := ParseClaimSpec(spec);
    if parsed.Raised? {
      NothingSaid(spec);
      return Raised("ValueError");
    }
    var c := parsed.value;
    SpecExact(spec, c);
    forall d: Claim | Says(spec, d) ensures d == c {
      SaysOne(spec, c, d);
    }
    return Ok(Verdict(c.claimType + ":" + c.dimension, Permits(a, c.claimType, c.dimension)));
  }

  lemma NothingSaid(spec: string)
    requires ParseClaimSpec(spec).Raised?
    ensures !IsSpec(spec)
  {
    forall c: Claim ensures !Says(spec, c) {
      SpecExact(spec, c);
    }
  }
}
