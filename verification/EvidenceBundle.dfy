/**
 The evidence bundle: events with content hashes, the run root over them, the
 stored NDJSON bytes and the manifest that commits to all of it.

 SHA-256 is the parameter `sha`, from bytes to the 64 hexadecimal digits of
 the digest.  A function with a fixed-length result has collisions, so nothing
 here assumes that it is injective: a claim that depends on it names the
 colliding messages instead.
 */
module EvidenceBundle {
  import opened JsonValues
  import opened Outcomes
  import opened Utf8
  import Decimal
  import CanonicalJson

  type Sha = Bytes -> string

  ghost predicate HexDigest(s: string) {
    |s| == 64 && forall i :: 0 <= i < 64 ==> '0' <= s[i] <= '9' || 'a' <= s[i] <= 'f'
  }

  ghost predicate IsSha(sha: Sha) {
    forall b: Bytes :: HexDigest(sha(b))
  }

  function Jcs(v: Json): Bytes {
    Encode(CanonicalJson.Print(v))
  }

  function Sha256Hex(sha: Sha, b: Bytes): string {
    "sha256:" + sha(b)
  }

  // ------------------------------------------------------------------- events

  predicate HasSchema(payload: Json) {
    payload.Obj? && "schema" in payload.members
  }

  /** The part of an event that its content hash covers. */
  function HashedSubset(payload: Json): Json
    requires HasSchema(payload)
  {
    Obj(map[
          "specversion" := Str("1.0"),
          "type" := payload.members["schema"],
          "datacontenttype" := Str("application/json"),
          "data" := payload])
  }

  function ContentHash(sha: Sha, payload: Json): string
    requires HasSchema(payload)
  {
    Sha256Hex(sha, Jcs(HashedSubset(payload)))
  }

  function EventId(runId: string, i: nat): string {
    runId + ":" + Decimal.OfNat(i)
  }

  function Event(sha: Sha, runId: string, i: nat, payload: Json): Json
    requires HasSchema(payload)
  {
    Obj(map[
          "specversion" := Str("1.0"),
          "type" := payload.members["schema"],
          "source" := Str("urn:assay:external:privileged-mcp-action"),
          "id" := Str(EventId(runId, i)),
          "time" := Str("2026-07-24T00:00:00Z"),
          "datacontenttype" := Str("application/json"),
          "assayrunid" := Str(runId),
          "assayseq" := Int(i),
          "assayproducer" := Str("privileged-mcp-action-v0-generator"),
          "assayproducerversion" := Str("0.1.0"),
          "assaygit" := Str("unknown"),
          "assaypii" := Bool(false),
          "assaysecrets" := Bool(false),
          "assaycontenthash" := Str(ContentHash(sha, payload)),
          "data" := payload])
  }

  ghost predicate AllHaveSchema(payloads: seq<Json>) {
    forall i :: 0 <= i < |payloads| ==> HasSchema(payloads[i])
  }

  ghost function Lines(sha: Sha, runId: string, payloads: seq<Json>): (r: seq<Bytes>)
    requires AllHaveSchema(payloads)
  {
    seq(|payloads|, i requires 0 <= i < |payloads| => Jcs(Event(sha, runId, i, payloads[i])))
  }

  ghost function ContentHashes(sha: Sha, payloads: seq<Json>): (r: seq<string>)
    requires AllHaveSchema(payloads)
  {
    seq(|payloads|, i requires 0 <= i < |payloads| => ContentHash(sha, payloads[i]))
  }

  ghost function Encoded(texts: seq<string>): seq<Bytes> {
    seq(|texts|, i requires 0 <= i < |texts| => Encode(texts[i]))
  }

  /** The run root of a list of content hashes. */
  ghost function RootOf(sha: Sha, hashes: seq<string>): string {
    Sha256Hex(sha, Terminated(Encoded(hashes)))
  }

  ghost function RunRoot(sha: Sha, payloads: seq<Json>): string
    requires AllHaveSchema(payloads)
  {
    RootOf(sha, ContentHashes(sha, payloads))
  }

  // ------------------------------------------------------------- stored bytes

  /** `b"\n".join(lines) + b"\n"`. */
  function Ndjson(lines: seq<Bytes>): Bytes {
    Join(lines) + [LF]
  }

  function Join(lines: seq<Bytes>): Bytes {
    if lines == [] then []
    else if |lines| == 1 then lines[0]
    else lines[0] + [LF] + Join(lines[1..])
  }

  function Zeros(n: nat): (s: string)
    ensures |s| == n && forall i :: 0 <= i < n ==> s[i] == '0'
  {
    seq(n, _ => '0')
  }

  const ZERO_DIGEST: string := "sha256:" + Zeros(64)

  function Manifest(runId: string, bundleId: string, root: string, count: nat, digest: string, size: nat): Json {
    Obj(map[
          "schema_version" := Int(1),
          "bundle_id" := Str(bundleId),
          "producer" := Obj(map[
                              "name" := Str("privileged-mcp-action-v0-generator"),
                              "version" := Str("0.1.0")]),
          "run_id" := Str(runId),
          "event_count" := Int(count),
          "run_root" := Str(root),
          "algorithms" := Obj(map[
                                "canon" := Str("jcs-rfc8785"),
                                "hash" := Str("sha256"),
                                "root" := Str("sha256(concat(content_hash + \"\\n\"))")]),
          "files" := Obj(map["events.ndjson" := FileEntry(digest, size)])])
  }

  function FileEntry(digest: string, size: nat): Json {
    Obj(map["path" := Str("events.ndjson"), "sha256" := Str(digest), "bytes" := Int(size)])
  }

  /** `b.replace(part, new, 1)`. */
  function ReplaceFirst(b: Bytes, part: Bytes, sub: Bytes): Bytes
    requires part != []
  {
    if part <= b then sub + b[|part|..]
    else if b == [] then []
    else [b[0]] + ReplaceFirst(b[1..], part, sub)
  }

  ghost predicate Contains(b: Bytes, part: Bytes) {
    exists i :: 0 <= i <= |b| && part <= b[i..]
  }

  /** The bytes of `"ci-agent"` and `"ci-agenX"`, quotes included. */
  const CI_AGENT: Bytes := [34, 99, 105, 45, 97, 103, 101, 110, 116, 34]
  const CI_AGENX: Bytes := [34, 99, 105, 45, 97, 103, 101, 110, 88, 34]

  datatype Bundle = Bundle(manifest: Bytes, events: Bytes)

  ghost function StoredEvents(events: Bytes, tamper: bool): Bytes {
    if tamper then ReplaceFirst(events, CI_AGENT, CI_AGENX) else events
  }

  ghost function BundleOf(sha: Sha, runId: string, payloads: seq<Json>, tamper: bool, mismatch: bool): Bundle
    requires AllHaveSchema(payloads)
  {
    var events := Ndjson(Lines(sha, runId, payloads));
    var root := RunRoot(sha, payloads);
    var id := if mismatch then ZERO_DIGEST else root;
    Bundle(
      Jcs(Manifest(runId, id, root, |payloads|, Sha256Hex(sha, events), |events|)),
      StoredEvents(events, tamper))
  }

  lemma LinesStep(sha: Sha, runId: string, payloads: seq<Json>, i: nat)
    requires i < |payloads| && AllHaveSchema(payloads[..i]) && HasSchema(payloads[i])
    ensures AllHaveSchema(payloads[..i + 1])
    ensures Lines(sha, runId, payloads[..i + 1])
         == Lines(sha, runId, payloads[..i]) + [Jcs(Event(sha, runId, i, payloads[i]))]
    ensures Encoded(ContentHashes(sha, payloads[..i + 1]))
         == Encoded(ContentHashes(sha, payloads[..i])) + [Encode(ContentHash(sha, payloads[i]))]
  {
    assert payloads[..i + 1] == payloads[..i] + [payloads[i]];
  }

  /** `bundle_bytes`, up to the tar and gzip framing of its two files. */
  method BundleBytes(sha: Sha, runId: string, payloads: seq<Json>, tamper: bool, mismatch: bool)
    returns (r: Result<Bundle>)
    ensures r.Ok? <==> AllHaveSchema(payloads)
    ensures r.Ok? ==> r.value == BundleOf(sha, runId, payloads, tamper, mismatch)
    ensures r.Raised? ==> r.error == "KeyError"
  {
    var lines: seq<Bytes> := [];
    var hashLines: seq<Bytes> := [];
    for i := 0 to |payloads|
      invariant AllHaveSchema(payloads[..i])
      invariant lines == Lines(sha, runId, payloads[..i])
      invariant hashLines == Encoded(ContentHashes(sha, payloads[..i]))
    {
      if !HasSchema(payloads[i]) {
        return Raised("KeyError");
      }
      LinesStep(sha, runId, payloads, i);
      lines := lines + [Jcs(Event(sha, runId, i, payloads[i]))];
      hashLines := hashLines + [Encode(ContentHash(sha, payloads[i]))];
    }
    assert payloads[..|payloads|] == payloads;
    var events := Ndjson(lines);
    var root := Sha256Hex(sha, Terminated(hashLines));
    var bundleId := root;
    if mismatch {
      bundleId := ZERO_DIGEST;
    }
    var manifest := Jcs(Manifest(runId, bundleId, root, |payloads|, Sha256Hex(sha, events), |events|));
    if tamper {
      events := ReplaceFirst(events, CI_AGENT, CI_AGENX);
    }
    return Ok(Bundle(manifest, events));
  }

  // ---------------------------------------------------------------- the lines

  lemma JsonLine(v: Json)
    ensures LF !in Jcs(v)
  {
    CanonicalJson.PrintPrintable(v);
    NoLineFeed(CanonicalJson.Print(v));
  }

  lemma {:induction false} JoinTerminated(lines: seq<Bytes>)
    requires lines != []
    ensures Ndjson(lines) == Terminated(lines)
  {
    if |lines| == 1 {
      assert Terminated(lines[1..]) == [];
    } else {
      JoinTerminated(lines[1..]);
    }
  }

  /** Splitting the stored events at line feeds gives the event lines, unless there is none:
      the empty list is stored as one empty line. */
  lemma EventLinesRecovered(sha: Sha, runId: string, payloads: seq<Json>)
    requires AllHaveSchema(payloads)
    ensures var lines := Lines(sha, runId, payloads);
            SplitLines(Ndjson(lines)) == lines <==> payloads != []
  {
    var lines := Lines(sha, runId, payloads);
    forall i | 0 <= i < |lines|
      ensures LF !in lines[i]
    {
      JsonLine(Event(sha, runId, i, payloads[i]));
    }
    if payloads == [] {
      assert Ndjson(lines) == [LF];
      assert |SplitLines([LF])| == 1;
    } else {
      JoinTerminated(lines);
      SplitTerminated(lines);
    }
  }

  // ------------------------------------------------------------- the run root

  lemma DigestLine(sha: Sha, b: Bytes)
    requires IsSha(sha)
    ensures LF !in Encode(Sha256Hex(sha, b))
  {
    assert HexDigest(sha(b));
    NoLineFeed(Sha256Hex(sha, b));
  }

  /** The content hashes of some values. */
  ghost function Hashes(sha: Sha, vs: seq<Json>): (hs: seq<string>)
    ensures |hs| == |vs| && forall i :: 0 <= i < |vs| ==> hs[i] == Sha256Hex(sha, Jcs(vs[i]))
  {
    seq(|vs|, i requires 0 <= i < |vs| => Sha256Hex(sha, Jcs(vs[i])))
  }

  lemma HashLines(sha: Sha, vs: seq<Json>)
    requires IsSha(sha)
    ensures SplitLines(Terminated(Encoded(Hashes(sha, vs)))) == Encoded(Hashes(sha, vs))
  {
    forall i | 0 <= i < |vs|
      ensures LF !in Encoded(Hashes(sha, vs))[i]
    {
      DigestLine(sha, Jcs(vs[i]));
    }
    SplitTerminated(Encoded(Hashes(sha, vs)));
  }

  /** The concatenated hash lines have one reading only. */
  lemma RootInputInjective(sha: Sha, vs: seq<Json>, ws: seq<Json>)
    requires IsSha(sha)
    requires Terminated(Encoded(Hashes(sha, vs))) == Terminated(Encoded(Hashes(sha, ws)))
    ensures Hashes(sha, vs) == Hashes(sha, ws)
  {
    var hs, ks := Hashes(sha, vs), Hashes(sha, ws);
    HashLines(sha, vs);
    HashLines(sha, ws);
    assert Encoded(hs) == Encoded(ks);
    forall i | 0 <= i < |hs|
      ensures hs[i] == ks[i]
    {
      assert Encoded(hs)[i] == Encoded(ks)[i];
      Injective(hs[i], ks[i]);
    }
  }

  lemma JcsInjective(v: Json, w: Json)
    requires Jcs(v) == Jcs(w)
    ensures v == w
  {
    Injective(CanonicalJson.Print(v), CanonicalJson.Print(w));
    CanonicalJson.PrintIdentifies(v, w);
  }

  /** Everything that building the root over some values hashes. */
  ghost function Messages(sha: Sha, vs: seq<Json>): set<Bytes> {
    {Terminated(Encoded(Hashes(sha, vs)))} + set i | 0 <= i < |vs| :: Jcs(vs[i])
  }

  ghost predicate CollisionIn(sha: Sha, messages: set<Bytes>) {
    exists a, b :: a in messages && b in messages && a != b && sha(a) == sha(b)
  }

  /** A root identifies the ordered values under it, up to an explicit hash collision. */
  lemma RootIdentifies(sha: Sha, vs: seq<Json>, ws: seq<Json>)
    requires IsSha(sha) && RootOf(sha, Hashes(sha, vs)) == RootOf(sha, Hashes(sha, ws))
    ensures vs == ws || CollisionIn(sha, Messages(sha, vs) + Messages(sha, ws))
  {
    var messages := Messages(sha, vs) + Messages(sha, ws);
    if !CollisionIn(sha, messages) {
      var a, b := Terminated(Encoded(Hashes(sha, vs))), Terminated(Encoded(Hashes(sha, ws)));
      DigestsAgree(sha, a, b);
      assert a in messages && b in messages;
      RootInputInjective(sha, vs, ws);
      assert |vs| == |Hashes(sha, vs)| == |ws|;
      forall i | 0 <= i < |vs|
        ensures vs[i] == ws[i]
      {
        assert Hashes(sha, vs)[i] == Hashes(sha, ws)[i];
        DigestsAgree(sha, Jcs(vs[i]), Jcs(ws[i]));
        assert Jcs(vs[i]) in messages && Jcs(ws[i]) in messages;
        JcsInjective(vs[i], ws[i]);
      }
    }
  }

  ghost function HashedSubsets(payloads: seq<Json>): (vs: seq<Json>)
    requires AllHaveSchema(payloads)
    ensures |vs| == |payloads| && forall i :: 0 <= i < |vs| ==> vs[i] == HashedSubset(payloads[i])
  {
    seq(|payloads|, i requires 0 <= i < |payloads| => HashedSubset(payloads[i]))
  }

  lemma SubsetIdentifies(p: Json, q: Json)
    requires HasSchema(p) && HasSchema(q) && HashedSubset(p) == HashedSubset(q)
    ensures p == q
  {
    assert HashedSubset(p).members["data"] == HashedSubset(q).members["data"];
  }

  /** The run root identifies the ordered payloads, up to an explicit hash collision. */
  lemma RunRootIdentifies(sha: Sha, ps: seq<Json>, qs: seq<Json>)
    requires IsSha(sha) && AllHaveSchema(ps) && AllHaveSchema(qs)
    ensures ps == qs ==> RunRoot(sha, ps) == RunRoot(sha, qs)
    ensures RunRoot(sha, ps) == RunRoot(sha, qs) ==>
              ps == qs || CollisionIn(sha, Messages(sha, HashedSubsets(ps)) + Messages(sha, HashedSubsets(qs)))
  {
    if RunRoot(sha, ps) == RunRoot(sha, qs) {
      var vs, ws := HashedSubsets(ps), HashedSubsets(qs);
      assert ContentHashes(sha, ps) == Hashes(sha, vs) && ContentHashes(sha, qs) == Hashes(sha, ws);
      RootIdentifies(sha, vs, ws);
      if vs == ws {
        forall i | 0 <= i < |ps| ensures ps[i] == qs[i] {
          assert vs[i] == ws[i];
          SubsetIdentifies(ps[i], qs[i]);
        }
      }
    }
  }

  lemma DigestsAgree(sha: Sha, a: Bytes, b: Bytes)
    requires Sha256Hex(sha, a) == Sha256Hex(sha, b)
    ensures sha(a) == sha(b)
  {
    assert Sha256Hex(sha, a)[7..] == sha(a) && Sha256Hex(sha, b)[7..] == sha(b);
  }

  // ---------------------------------------------------------------- tampering

  lemma {:induction false} ReplaceFirstLength(b: Bytes, part: Bytes, sub: Bytes)
    requires part != [] && |part| == |sub|
    ensures |ReplaceFirst(b, part, sub)| == |b|
  {
    if !(part <= b) && b != [] {
      ReplaceFirstLength(b[1..], part, sub);
    }
  }

  /** The part stands at i and nowhere before. */
  ghost predicate FirstAt(b: Bytes, part: Bytes, i: nat) {
    i <= |b| && part <= b[i..] && forall j :: 0 <= j < i ==> !(part <= b[j..])
  }

  /** The first occurrence is replaced, and all else stays as it is. */
  lemma {:induction false} ReplaceFirstExact(b: Bytes, part: Bytes, sub: Bytes, i: nat)
    requires part != [] && FirstAt(b, part, i)
    ensures i + |part| <= |b| && ReplaceFirst(b, part, sub) == b[..i] + sub + b[i + |part|..]
  {
    if i == 0 {
      assert b[0..] == b && b[..0] == [];
      assert [] + sub + b[|part|..] == sub + b[|part|..];
    } else {
      FirstAtTail(b, part, i);
      ReplaceFirstExact(b[1..], part, sub, i - 1);
      ReplaceStep(b, part, sub, i);
    }
  }

  lemma ReplaceStep(b: Bytes, part: Bytes, sub: Bytes, i: nat)
    requires part != [] && i > 0 && !(part <= b) && b != [] && i - 1 + |part| <= |b[1..]|
    requires ReplaceFirst(b[1..], part, sub) == b[1..][..i - 1] + sub + b[1..][i - 1 + |part|..]
    ensures ReplaceFirst(b, part, sub) == b[..i] + sub + b[i + |part|..]
  {
    Reassembled(b, sub, i, |part|);
  }

  lemma FirstAtTail(b: Bytes, part: Bytes, i: nat)
    requires part != [] && i > 0 && FirstAt(b, part, i)
    ensures !(part <= b) && b != [] && FirstAt(b[1..], part, i - 1)
  {
    assert b[0..] == b;
    assert b[1..][i - 1..] == b[i..];
    forall j | 0 <= j < i - 1 ensures !(part <= b[1..][j..]) {
      assert b[1..][j..] == b[j + 1..];
    }
  }

  lemma Reassembled(b: Bytes, sub: Bytes, i: nat, n: nat)
    requires 0 < i && i - 1 + n <= |b| - 1
    ensures [b[0]] + (b[1..][..i - 1] + sub + b[1..][i - 1 + n..]) == b[..i] + sub + b[i + n..]
  {
    assert b[..i] == [b[0]] + b[1..][..i - 1];
    assert b[1..][i - 1 + n..] == b[i + n..];
  }

  /** Replacing changes the bytes exactly when there is something to replace. */
  lemma {:induction false} ReplaceFirstChanges(b: Bytes, part: Bytes, sub: Bytes)
    requires part != [] && |part| == |sub| && part != sub
    ensures ReplaceFirst(b, part, sub) != b <==> Contains(b, part)
  {
    if part <= b {
      assert part <= b[0..];
      assert ReplaceFirst(b, part, sub)[..|part|] == sub;
      assert b[..|part|] == part;
    } else if b == [] {
      assert forall i :: 0 <= i <= |b| ==> b[i..] == b;
    } else {
      ReplaceFirstChanges(b[1..], part, sub);
      assert ReplaceFirst(b, part, sub)[1..] == ReplaceFirst(b[1..], part, sub);
      assert b == [b[0]] + b[1..];
      if Contains(b[1..], part) {
        var i :| 0 <= i <= |b[1..]| && part <= b[1..][i..];
        assert b[1..][i..] == b[i + 1..];
      }
      if Contains(b, part) {
        var i :| 0 <= i <= |b| && part <= b[i..];
        assert b[0..] == b;
        assert b[1..][i - 1..] == b[i..];
      }
    }
  }

  /** The tampered file has the length of the sound one and differs exactly when the agent name occurs. */
  lemma TamperKeepsLength(events: Bytes)
    ensures |StoredEvents(events, true)| == |events|
    ensures StoredEvents(events, true) != events <==> Contains(events, CI_AGENT)
  {
    ReplaceFirstLength(events, CI_AGENT, CI_AGENX);
    assert CI_AGENT[8] != CI_AGENX[8];
    ReplaceFirstChanges(events, CI_AGENT, CI_AGENX);
  }
}
