/** Everything that a reader finds in a built bundle, name by name. */
module BundleContents {
  import opened JsonValues
  import opened Outcomes
  import opened Utf8
  import opened EvidenceBundle
  import opened BundleVerification
  import Decimal

  const EVENT_NAMES: set<string> := {
    "specversion", "type", "source", "id", "time", "datacontenttype", "assayrunid", "assayseq", "assayproducer",
    "assayproducerversion", "assaygit", "assaypii", "assaysecrets", "assaycontenthash", "data"}

  const MANIFEST_NAMES: set<string> := {
    "schema_version", "bundle_id", "producer", "run_id", "event_count", "run_root", "algorithms", "files"}

  /** What an event says of its payload. */
  ghost predicate SaysPayload(e: Dict, payload: Json, hash: string) {
    && HasSchema(payload)
    && Get(e, "specversion") == Str("1.0")
    && Get(e, "type") == payload.members["schema"]
    && Get(e, "datacontenttype") == Str("application/json")
    && Get(e, "data") == payload
    && Get(e, "assaycontenthash") == Str(hash)
  }

  /** What an event says of its place in the run. */
  ghost predicate SaysPlace(e: Dict, runId: string, i: nat) {
    && Get(e, "id") == Str(runId + ":" + Decimal.OfNat(i))
    && Get(e, "assayrunid") == Str(runId)
    && Get(e, "assayseq") == Int(i)
  }

  /** What an event says of where it comes from; its producer is the manifest's. */
  ghost predicate SaysOrigin(e: Dict, producer: Json) {
    && Get(e, "source") == Str("urn:assay:external:privileged-mcp-action")
    && Get(e, "time") == Str("2026-07-24T00:00:00Z")
    && producer.Obj?
    && Get(e, "assayproducer") == Get(producer.members, "name")
    && Get(e, "assayproducerversion") == Get(producer.members, "version")
    && Get(e, "assaygit") == Str("unknown")
    && Get(e, "assaypii") == Bool(false)
    && Get(e, "assaysecrets") == Bool(false)
  }

  /** The generator's name and version, under exactly these two names. */
  ghost predicate IsProducer(p: Json) {
    && p.Obj? && p.members.Keys == {"name", "version"}
    && Get(p.members, "name") == Str("privileged-mcp-action-v0-generator")
    && Get(p.members, "version") == Str("0.1.0")
  }

  ghost predicate IsAlgorithms(a: Json) {
    && a.Obj? && a.members.Keys == {"canon", "hash", "root"}
    && Get(a.members, "canon") == Str("jcs-rfc8785")
    && Get(a.members, "hash") == Str("sha256")
    && Get(a.members, "root") == Str("sha256(concat(content_hash + \"\\n\"))")
  }

  /** The one file of the bundle besides its manifest, with its digest and its length. */
  ghost predicate IsFiles(f: Json, sha: Sha, events: Bytes) {
    && f.Obj? && f.members.Keys == {"events.ndjson"}
    && var entry := Get(f.members, "events.ndjson");
    && entry.Obj? && entry.members.Keys == {"path", "sha256", "bytes"}
    && Get(entry.members, "path") == Str("events.ndjson")
    && Get(entry.members, "sha256") == Str("sha256:" + sha(events))
    && Get(entry.members, "bytes") == Int(|events|)
  }

  ghost predicate SaysRun(m: Dict, runId: string, count: nat, root: string, id: string) {
    && Get(m, "schema_version") == Int(1)
    && Get(m, "run_id") == Str(runId)
    && Get(m, "event_count") == Int(count)
    && Get(m, "run_root") == Str(root)
    && Get(m, "bundle_id") == Str(id)
  }

  // ------------------------------------------------------------------ the event

  lemma EventNames(sha: Sha, runId: string, i: nat, payload: Json)
    requires HasSchema(payload)
    ensures Event(sha, runId, i, payload).members.Keys == EVENT_NAMES
  {
  }

  lemma EventOrigin(sha: Sha, runId: string, i: nat, payload: Json)
    requires HasSchema(payload)
    ensures var e := Event(sha, runId, i, payload).members;
            && Get(e, "source") == Str("urn:assay:external:privileged-mcp-action")
            && Get(e, "time") == Str("2026-07-24T00:00:00Z")
  {
  }

  lemma EventProducer(sha: Sha, runId: string, i: nat, payload: Json)
    requires HasSchema(payload)
    ensures var e := Event(sha, runId, i, payload).members;
            && Get(e, "assayproducer") == Str("privileged-mcp-action-v0-generator")
            && Get(e, "assayproducerversion") == Str("0.1.0")
  {
  }

  lemma EventFlags(sha: Sha, runId: string, i: nat, payload: Json)
    requires HasSchema(payload)
    ensures var e := Event(sha, runId, i, payload).members;
            && Get(e, "assaygit") == Str("unknown")
            && Get(e, "assaypii") == Bool(false)
            && Get(e, "assaysecrets") == Bool(false)
  {
  }

  lemma EventSays(sha: Sha, runId: string, i: nat, payload: Json, producer: Json)
    requires HasSchema(payload) && IsProducer(producer)
    ensures var e := Event(sha, runId, i, payload).members;
            && SaysPayload(e, payload, ContentHash(sha, payload)) && SaysPlace(e, runId, i) && SaysOrigin(e, producer)
  {
    EventHead(sha, runId, i, payload);
    EventContent(sha, runId, i, payload);
    EventFields(sha, runId, i, payload);
    EventIds(sha, runId, i, payload);
    EventOrigin(sha, runId, i, payload);
    EventProducer(sha, runId, i, payload);
    EventFlags(sha, runId, i, payload);
  }

  // --------------------------------------------------------------- the manifest

  lemma ManifestNames(runId: string, id: string, root: string, count: nat, digest: string, size: nat)
    ensures Manifest(runId, id, root, count, digest, size).members.Keys == MANIFEST_NAMES
  {
  }

  lemma ManifestProducer(runId: string, id: string, root: string, count: nat, digest: string, size: nat)
    ensures IsProducer(Get(Manifest(runId, id, root, count, digest, size).members, "producer"))
  {
  }

  lemma ManifestAlgorithms(runId: string, id: string, root: string, count: nat, digest: string, size: nat)
    ensures IsAlgorithms(Get(Manifest(runId, id, root, count, digest, size).members, "algorithms"))
  {
  }

  lemma ManifestFiles(sha: Sha, events: Bytes, runId: string, id: string, root: string, count: nat)
    ensures IsFiles(
              Get(Manifest(runId, id, root, count, Sha256Hex(sha, events), |events|).members, "files"), sha, events)
  {
  }

  lemma ManifestRun(runId: string, id: string, root: string, count: nat, digest: string, size: nat)
    ensures SaysRun(Manifest(runId, id, root, count, digest, size).members, runId, count, root, id)
  {
    BuiltManifest(runId, id, root, count, digest, size);
  }

  // ---------------------------------------------------------- what a reader finds

  /** The manifest of a built bundle reads back with exactly its eight names and their values; the
      digest and the length are those of the events before any tampering. */
  lemma ManifestReadBack(sha: Sha, read: Reader, runId: string, payloads: seq<Json>, tamper: bool, mismatch: bool)
    requires ReadsCanonical(read) && AllHaveSchema(payloads)
    ensures var m := read(BundleOf(sha, runId, payloads, tamper, mismatch).manifest);
            && m.Some? && m.value.Obj? && m.value.members.Keys == MANIFEST_NAMES
            && IsProducer(Get(m.value.members, "producer"))
            && IsAlgorithms(Get(m.value.members, "algorithms"))
            && IsFiles(Get(m.value.members, "files"), sha, BundleOf(sha, runId, payloads, false, mismatch).events)
            && SaysRun(m.value.members, runId, |payloads|, RunRoot(sha, payloads),
                       if mismatch then "sha256:" + Zeros(64) else RunRoot(sha, payloads))
  {
    var events := Ndjson(Lines(sha, runId, payloads));
    var id, root, digest := BuiltId(sha, payloads, mismatch), RunRoot(sha, payloads), Sha256Hex(sha, events);
    var m := Manifest(runId, id, root, |payloads|, digest, |events|);
    assert read(Jcs(m)) == Some(m);
    ManifestNames(runId, id, root, |payloads|, digest, |events|);
    ManifestProducer(runId, id, root, |payloads|, digest, |events|);
    ManifestAlgorithms(runId, id, root, |payloads|, digest, |events|);
    ManifestFiles(sha, events, runId, id, root, |payloads|);
    ManifestRun(runId, id, root, |payloads|, digest, |events|);
  }

  /** The lines of an untampered bundle read back as one event for each payload, in order, each with
      exactly its fifteen names and their values. */
  lemma EventReadBack(sha: Sha, read: Reader, runId: string, payloads: seq<Json>, mismatch: bool, i: nat)
    requires ReadsCanonical(read) && AllHaveSchema(payloads) && i < |payloads|
    ensures var b := BundleOf(sha, runId, payloads, false, mismatch);
            var lines, m := SplitLines(b.events), read(b.manifest);
            && |lines| == |payloads|
            && read(lines[i]).Some? && read(lines[i]).value.Obj?
            && var e := read(lines[i]).value.members;
            && e.Keys == EVENT_NAMES
            && SaysPayload(e, payloads[i], ContentHash(sha, payloads[i]))
            && SaysPlace(e, runId, i)
            && m.Some? && m.value.Obj? && SaysOrigin(e, Get(m.value.members, "producer"))
  {
    var b := BundleOf(sha, runId, payloads, false, mismatch);
    var lines, event := Lines(sha, runId, payloads), Event(sha, runId, i, payloads[i]);
    EventLinesRecovered(sha, runId, payloads);
    assert b.events == Ndjson(lines);
    assert lines[i] == Jcs(event);
    assert read(Jcs(event)) == Some(event);
    ManifestReadBack(sha, read, runId, payloads, false, mismatch);
    EventNames(sha, runId, i, payloads[i]);
    EventSays(sha, runId, i, payloads[i], Get(read(b.manifest).value.members, "producer"));
  }

  /** The tampering replaces the agent's quoted name by one that differs in its last letter. */
  lemma TamperedText()
    ensures CI_AGENT == Encode("\"ci-agent\"")
    ensures CI_AGENX == Encode("\"ci-agenX\"")
  {
    var s, t := "\"ci-agent\"", "\"ci-agenX\"";
    AgentBytes(s);
    OtherBytes(t);
  }

  lemma AgentBytes(s: string)
    requires s == "\"ci-agent\""
    ensures CI_AGENT == Encode(s)
  {
    AsciiBytes(s);
    assert |s| == 10 && |CI_AGENT| == 10;
  }

  lemma OtherBytes(s: string)
    requires s == "\"ci-agenX\""
    ensures CI_AGENX == Encode(s)
  {
    AsciiBytes(s);
    assert |s| == 10 && |CI_AGENX| == 10;
  }
}
