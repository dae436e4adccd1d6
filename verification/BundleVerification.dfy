/**
 The integrity check that a bundle verifier makes, in the documented order
 (section 4 of the privileged-mcp-action/v0 profile), and what it answers on
 the bundles that the generator builds.
 */
module BundleVerification {
  import opened JsonValues
  import opened Outcomes
  import opened Utf8
  import opened EvidenceBundle
  import CanonicalJson
  import JsonBytes

  datatype Verdict =
    | Malformed
    | FileDigestMismatch
    | FileSizeMismatch
    | ContentHashMismatch
    | IdMismatch
    | SequenceGap
    | RunIdMismatch
    | EventCountMismatch
    | RunRootMismatch
    | BundleIdMismatch
    | Pass

  lemma ReadJcs(v: Json)
    ensures JsonBytes.Load(Jcs(v)) == Some(v)
  {
    CanonicalJson.RoundTrip(v);
    JsonBytes.LoadText(CanonicalJson.Print(v));
  }

  type Reader = Bytes -> Option<Json>

  /** A reader of JSON that gives back what canonical bytes encode; on other bytes it may be as
      lenient or as strict as it likes, except that nothing is not a document. */
  ghost predicate ReadsCanonical(read: Reader) {
    (forall v: Json :: read(Jcs(v)) == Some(v)) && read([]) == None
  }

  /** `json.loads` is one of them. */
  lemma LoadReadsCanonical()
    ensures ReadsCanonical(JsonBytes.Load)
  {
    forall v: Json ensures JsonBytes.Load(Jcs(v)) == Some(v) {
      ReadJcs(v);
    }
    assert Encode("") == [];
    JsonBytes.LoadText("");
  }

  ghost predicate HasStr(d: Dict, key: string) {
    key in d && d[key].Str?
  }

  ghost predicate HasInt(d: Dict, key: string) {
    key in d && d[key].Int?
  }

  /** The fields read below are present, and `files` lists the events file only. */
  ghost predicate ManifestShape(m: Json) {
    && m.Obj?
    && HasStr(m.members, "bundle_id") && HasStr(m.members, "run_root") && HasStr(m.members, "run_id")
    && HasInt(m.members, "event_count")
    && Get(m.members, "schema_version") == Int(1)
    && "files" in m.members && m.members["files"].Obj?
    && m.members["files"].members.Keys == {"events.ndjson"}
    && var file := m.members["files"].members["events.ndjson"];
       file.Obj? && HasStr(file.members, "sha256") && HasInt(file.members, "bytes")
  }

  ghost predicate EventShape(e: Json) {
    && e.Obj?
    && "specversion" in e.members && "type" in e.members
    && "datacontenttype" in e.members && "data" in e.members
    && HasStr(e.members, "id") && HasStr(e.members, "assayrunid") && HasStr(e.members, "assaycontenthash")
    && HasInt(e.members, "assayseq")
  }

  /** What the content hash of an event covers, its subject included when it has one. */
  ghost function HashedObject(e: Json): Json
    requires EventShape(e)
  {
    var fixed := map[
      "specversion" := e.members["specversion"],
      "type" := e.members["type"],
      "datacontenttype" := e.members["datacontenttype"],
      "data" := e.members["data"]];
    var subject := if "subject" in e.members then map["subject" := e.members["subject"]] else map[];
    Obj(fixed + subject)
  }

  /** The content hash of an event as read. */
  ghost function RecomputedHash(sha: Sha, e: Json): string
    requires EventShape(e)
  {
    Sha256Hex(sha, Jcs(HashedObject(e)))
  }

  ghost predicate Readable(read: Reader, lines: seq<Bytes>) {
    forall i :: 0 <= i < |lines| ==> read(lines[i]).Some? && EventShape(read(lines[i]).value)
  }

  ghost function ReadEvents(read: Reader, lines: seq<Bytes>): (events: seq<Json>)
    requires Readable(read, lines)
    ensures |events| == |lines|
    ensures forall i :: 0 <= i < |events| ==> EventShape(events[i])
  {
    seq(|lines|, i requires 0 <= i < |lines| => read(lines[i]).value)
  }

  ghost predicate EventShapes(events: seq<Json>) {
    forall i :: 0 <= i < |events| ==> EventShape(events[i])
  }

  ghost function StoredHashes(events: seq<Json>): (hashes: seq<string>)
    requires EventShapes(events)
    ensures |hashes| == |events|
    ensures forall i :: 0 <= i < |events| ==> hashes[i] == events[i].members["assaycontenthash"].s
  {
    seq(|events|, i requires 0 <= i < |events| => events[i].members["assaycontenthash"].s)
  }

  /** The first check that fails over the events, in order of the checks. */
  ghost function CheckEvents(sha: Sha, m: Json, events: seq<Json>): Verdict
    requires ManifestShape(m) && EventShapes(events)
  {
    var hashes := StoredHashes(events);
    var runId := m.members["run_id"].s;
    var root := RootOf(sha, hashes);
    if exists i :: 0 <= i < |events| && hashes[i] != RecomputedHash(sha, events[i]) then ContentHashMismatch
    else if exists i :: 0 <= i < |events| && IdBroken(events[i]) then IdMismatch
    else if exists i :: 0 <= i < |events| && events[i].members["assayseq"].n != i then SequenceGap
    else if exists i :: 0 <= i < |events| && events[i].members["assayrunid"].s != runId then RunIdMismatch
    else if m.members["event_count"].n != |events| then EventCountMismatch
    else if m.members["run_root"].s != root then RunRootMismatch
    else if m.members["bundle_id"].s != root then BundleIdMismatch
    else Pass
  }

  ghost predicate IdBroken(e: Json)
    requires EventShape(e)
  {
    var n := e.members["assayseq"].n;
    n < 0 || e.members["id"].s != EventId(e.members["assayrunid"].s, n)
  }

  ghost function CheckFile(sha: Sha, read: Reader, m: Json, events: Bytes): Verdict
    requires ManifestShape(m)
  {
    var file := m.members["files"].members["events.ndjson"].members;
    if file["sha256"].s != Sha256Hex(sha, events) then FileDigestMismatch
    else if file["bytes"].n != |events| then FileSizeMismatch
    else
      var lines := SplitLines(events);
      if !Readable(read, lines) then Malformed else CheckEvents(sha, m, ReadEvents(read, lines))
  }

  ghost function Verify(sha: Sha, read: Reader, bundle: Bundle): Verdict {
    var m := read(bundle.manifest);
    if m.None? || !ManifestShape(m.value) then Malformed else CheckFile(sha, read, m.value, bundle.events)
  }

  // -------------------------------------------------- verdicts on built bundles

  lemma BuiltManifest(runId: string, id: string, root: string, count: nat, digest: string, size: nat)
    ensures var m := Manifest(runId, id, root, count, digest, size);
            && ManifestShape(m)
            && m.members["run_id"] == Str(runId)
            && m.members["bundle_id"] == Str(id)
            && m.members["run_root"] == Str(root)
            && m.members["event_count"] == Int(count)
            && m.members["files"].members["events.ndjson"] == FileEntry(digest, size)
            && FileEntry(digest, size).members["sha256"] == Str(digest)
            && FileEntry(digest, size).members["bytes"] == Int(size)
  {
  }

  lemma EventFields(sha: Sha, runId: string, i: nat, payload: Json)
    requires HasSchema(payload)
    ensures var e := Event(sha, runId, i, payload);
            && "assaycontenthash" in e.members && e.members["assaycontenthash"] == Str(ContentHash(sha, payload))
            && "assayseq" in e.members && e.members["assayseq"] == Int(i)
  {
  }

  lemma EventIds(sha: Sha, runId: string, i: nat, payload: Json)
    requires HasSchema(payload)
    ensures var e := Event(sha, runId, i, payload);
            && "assayrunid" in e.members && e.members["assayrunid"] == Str(runId)
            && "id" in e.members && e.members["id"] == Str(EventId(runId, i))
  {
  }

  lemma EventContent(sha: Sha, runId: string, i: nat, payload: Json)
    requires HasSchema(payload)
    ensures var e := Event(sha, runId, i, payload);
            && "datacontenttype" in e.members && e.members["datacontenttype"] == Str("application/json")
            && "data" in e.members && e.members["data"] == payload
  {
  }

  lemma EventHead(sha: Sha, runId: string, i: nat, payload: Json)
    requires HasSchema(payload)
    ensures var e := Event(sha, runId, i, payload);
            && "subject" !in e.members
            && "type" in e.members && e.members["type"] == payload.members["schema"]
            && "specversion" in e.members && e.members["specversion"] == Str("1.0")
  {
  }

  lemma RecomputedIs(sha: Sha, e: Json, payload: Json)
    requires HasSchema(payload) && EventShape(e) && "subject" !in e.members
    requires e.members["type"] == payload.members["schema"] && e.members["specversion"] == Str("1.0")
    requires e.members["datacontenttype"] == Str("application/json") && e.members["data"] == payload
    ensures RecomputedHash(sha, e) == ContentHash(sha, payload)
  {
    var none: Dict := map[];
    assert HashedSubset(payload).members + none == HashedSubset(payload).members;
  }

  /** What an event read back must satisfy for every per-event check to pass. */
  ghost predicate SoundEvent(sha: Sha, runId: string, i: nat, hash: string, e: Json) {
    && EventShape(e)
    && e.members["assaycontenthash"] == Str(hash)
    && e.members["assayseq"] == Int(i)
    && e.members["assayrunid"] == Str(runId)
    && !IdBroken(e)
    && RecomputedHash(sha, e) == hash
  }

  lemma BuiltEvent(sha: Sha, runId: string, i: nat, payload: Json)
    requires HasSchema(payload)
    ensures SoundEvent(sha, runId, i, ContentHash(sha, payload), Event(sha, runId, i, payload))
  {
    EventFields(sha, runId, i, payload);
    EventIds(sha, runId, i, payload);
    EventContent(sha, runId, i, payload);
    EventHead(sha, runId, i, payload);
    RecomputedIs(sha, Event(sha, runId, i, payload), payload);
  }

  /** The events of a built file read back sound, each with its payload's content hash. */
  lemma BuiltLines(sha: Sha, read: Reader, runId: string, payloads: seq<Json>)
    requires ReadsCanonical(read) && AllHaveSchema(payloads)
    ensures var lines := Lines(sha, runId, payloads);
            && Readable(read, lines)
            && forall i :: 0 <= i < |lines| ==>
                 SoundEvent(sha, runId, i, ContentHashes(sha, payloads)[i], ReadEvents(read, lines)[i])
  {
    var lines := Lines(sha, runId, payloads);
    forall i | 0 <= i < |lines|
      ensures read(lines[i]).Some?
      ensures SoundEvent(sha, runId, i, ContentHash(sha, payloads[i]), read(lines[i]).value)
    {
      assert read(Jcs(Event(sha, runId, i, payloads[i]))) == Some(Event(sha, runId, i, payloads[i]));
      BuiltEvent(sha, runId, i, payloads[i]);
    }
  }

  lemma CheckSoundEvents(sha: Sha, m: Json, events: seq<Json>, hashes: seq<string>)
    requires ManifestShape(m) && |hashes| == |events|
    requires forall i :: 0 <= i < |events| ==> SoundEvent(sha, m.members["run_id"].s, i, hashes[i], events[i])
    requires m.members["event_count"].n == |events| && m.members["run_root"].s == RootOf(sha, hashes)
    ensures EventShapes(events)
    ensures CheckEvents(sha, m, events)
         == if m.members["bundle_id"].s != RootOf(sha, hashes) then BundleIdMismatch else Pass
  {
    assert EventShapes(events);
    assert StoredHashes(events) == hashes;
  }

  /** The manifest of a bundle, and the identifier it carries. */
  ghost function BuiltId(sha: Sha, payloads: seq<Json>, mismatch: bool): string
    requires AllHaveSchema(payloads)
  {
    if mismatch then ZERO_DIGEST else RunRoot(sha, payloads)
  }

  lemma VerifyReadsManifest(
    sha: Sha, read: Reader, runId: string, payloads: seq<Json>, tamper: bool, mismatch: bool)
    requires ReadsCanonical(read) && AllHaveSchema(payloads)
    ensures var sound := Ndjson(Lines(sha, runId, payloads));
            var m := Manifest(runId, BuiltId(sha, payloads, mismatch), RunRoot(sha, payloads), |payloads|,
                              Sha256Hex(sha, sound), |sound|);
            && ManifestShape(m)
            && Verify(sha, read, BundleOf(sha, runId, payloads, tamper, mismatch))
            == CheckFile(sha, read, m, StoredEvents(sound, tamper))
  {
    var sound := Ndjson(Lines(sha, runId, payloads));
    var id, root := BuiltId(sha, payloads, mismatch), RunRoot(sha, payloads);
    var m := Manifest(runId, id, root, |payloads|, Sha256Hex(sha, sound), |sound|);
    assert read(Jcs(m)) == Some(m);
    BuiltManifest(runId, id, root, |payloads|, Sha256Hex(sha, sound), |sound|);
  }

  lemma CheckSoundFile(sha: Sha, read: Reader, m: Json, runId: string, payloads: seq<Json>)
    requires ReadsCanonical(read)
    requires AllHaveSchema(payloads) && payloads != [] && ManifestShape(m)
    requires m.members["run_id"] == Str(runId) && m.members["event_count"] == Int(|payloads|)
    requires m.members["run_root"] == Str(RunRoot(sha, payloads))
    requires var sound := Ndjson(Lines(sha, runId, payloads));
             var file := m.members["files"].members["events.ndjson"].members;
             file["sha256"] == Str(Sha256Hex(sha, sound)) && file["bytes"] == Int(|sound|)
    ensures CheckFile(sha, read, m, Ndjson(Lines(sha, runId, payloads)))
         == if m.members["bundle_id"].s != RunRoot(sha, payloads) then BundleIdMismatch else Pass
  {
    EventLinesRecovered(sha, runId, payloads);
    BuiltLines(sha, read, runId, payloads);
    CheckSoundEvents(sha, m, ReadEvents(read, Lines(sha, runId, payloads)), ContentHashes(sha, payloads));
  }

  /** The verdict on every bundle that can be built from a non-empty payload list.
      Only a changed digest of the stored events stops it early; otherwise every check before the
      last one passes, and the last one fails exactly when the mismatch flag changed the bundle id. */
  lemma VerdictOnBuiltBundle(
    sha: Sha, read: Reader, runId: string, payloads: seq<Json>, tamper: bool, mismatch: bool)
    requires ReadsCanonical(read)
    requires AllHaveSchema(payloads) && payloads != []
    ensures var sound := Ndjson(Lines(sha, runId, payloads));
            var stored := StoredEvents(sound, tamper);
            var verdict := Verify(sha, read, BundleOf(sha, runId, payloads, tamper, mismatch));
            && (sha(stored) != sha(sound) ==> verdict == FileDigestMismatch)
            && (stored == sound ==>
                  verdict == if mismatch && RunRoot(sha, payloads) != ZERO_DIGEST then BundleIdMismatch else Pass)
  {
    var sound := Ndjson(Lines(sha, runId, payloads));
    var stored := StoredEvents(sound, tamper);
    var id, root := BuiltId(sha, payloads, mismatch), RunRoot(sha, payloads);
    var digest := Sha256Hex(sha, sound);
    var m := Manifest(runId, id, root, |payloads|, digest, |sound|);
    VerifyReadsManifest(sha, read, runId, payloads, tamper, mismatch);
    BuiltManifest(runId, id, root, |payloads|, digest, |sound|);
    if Sha256Hex(sha, stored) == digest {
      DigestsAgree(sha, stored, sound);
    }
    CheckSoundFile(sha, read, m, runId, payloads);
  }

  /** An untampered bundle passes; a tampered one is caught by its file digest exactly when the agent
      name occurs in the events, unless the two versions of the file collide. */
  lemma TamperDetection(sha: Sha, read: Reader, runId: string, payloads: seq<Json>, tamper: bool)
    requires ReadsCanonical(read)
    requires AllHaveSchema(payloads) && payloads != []
    ensures var sound := Ndjson(Lines(sha, runId, payloads));
            var verdict := Verify(sha, read, BundleOf(sha, runId, payloads, tamper, false));
            CollisionIn(sha, {sound, StoredEvents(sound, tamper)})
            || verdict == if tamper && Contains(sound, CI_AGENT) then FileDigestMismatch else Pass
  {
    var sound := Ndjson(Lines(sha, runId, payloads));
    var stored := StoredEvents(sound, tamper);
    VerdictOnBuiltBundle(sha, read, runId, payloads, tamper, false);
    TamperKeepsLength(sound);
    if sha(stored) == sha(sound) && stored != sound {
      assert CollisionIn(sha, {sound, stored});
    }
  }

  lemma CheckEmptyFile(sha: Sha, read: Reader, m: Json, events: Bytes)
    requires ReadsCanonical(read) && events == [LF] && ManifestShape(m)
    requires var file := m.members["files"].members["events.ndjson"].members;
             file["sha256"] == Str(Sha256Hex(sha, events)) && file["bytes"] == Int(|events|)
    ensures CheckFile(sha, read, m, events) == Malformed
  {
    assert SplitLines(events)[0] == [];
  }

  lemma NothingToTamper(events: Bytes)
    requires |events| < |CI_AGENT|
    ensures StoredEvents(events, true) == events
  {
    TamperKeepsLength(events);
    assert forall i :: 0 <= i <= |events| ==> |events[i..]| < |CI_AGENT|;
  }

  /** A bundle built from no payloads holds one empty line, and is never accepted. */
  lemma VerdictOnEmptyBundle(
    sha: Sha, read: Reader, runId: string, payloads: seq<Json>, tamper: bool, mismatch: bool)
    requires ReadsCanonical(read) && payloads == []
    ensures Verify(sha, read, BundleOf(sha, runId, payloads, tamper, mismatch)) == Malformed
  {
    var sound := Ndjson(Lines(sha, runId, payloads));
    var id, root := BuiltId(sha, payloads, mismatch), RunRoot(sha, payloads);
    var digest := Sha256Hex(sha, sound);
    assert Lines(sha, runId, payloads) == [];
    assert sound == [LF];
    VerifyReadsManifest(sha, read, runId, payloads, tamper, mismatch);
    BuiltManifest(runId, id, root, |payloads|, digest, |sound|);
    NothingToTamper(sound);
    CheckEmptyFile(sha, read, Manifest(runId, id, root, |payloads|, digest, |sound|), sound);
  }

  // --------------------------------------------------- what a bundle id commits to

  ghost function BundleId(sha: Sha, read: Reader, b: Bundle): string
    requires Verify(sha, read, b) == Pass
  {
    read(b.manifest).value.members["bundle_id"].s
  }

  ghost function EventsOf(sha: Sha, read: Reader, b: Bundle): (events: seq<Json>)
    requires Verify(sha, read, b) == Pass
    ensures EventShapes(events)
  {
    ReadEvents(read, SplitLines(b.events))
  }

  ghost function HashedObjects(events: seq<Json>): (vs: seq<Json>)
    requires EventShapes(events)
    ensures |vs| == |events| && forall i :: 0 <= i < |events| ==> vs[i] == HashedObject(events[i])
  {
    seq(|events|, i requires 0 <= i < |events| => HashedObject(events[i]))
  }

  /** The same in every member that the content hash covers. */
  ghost predicate SameContent(e: Json, f: Json)
    requires EventShape(e) && EventShape(f)
  {
    && e.members["specversion"] == f.members["specversion"]
    && e.members["type"] == f.members["type"]
    && e.members["datacontenttype"] == f.members["datacontenttype"]
    && e.members["data"] == f.members["data"]
    && ("subject" in e.members <==> "subject" in f.members)
    && ("subject" in e.members ==> e.members["subject"] == f.members["subject"])
  }

  lemma HashedObjectMembers(e: Json)
    requires EventShape(e)
    ensures var m := HashedObject(e).members;
            && "specversion" in m && m["specversion"] == e.members["specversion"]
            && "type" in m && m["type"] == e.members["type"]
            && "datacontenttype" in m && m["datacontenttype"] == e.members["datacontenttype"]
            && "data" in m && m["data"] == e.members["data"]
            && ("subject" in m <==> "subject" in e.members)
            && ("subject" in m ==> m["subject"] == e.members["subject"])
  {
  }

  lemma EventsCommitted(sha: Sha, m: Json, events: seq<Json>)
    requires ManifestShape(m) && EventShapes(events) && CheckEvents(sha, m, events) == Pass
    ensures m.members["bundle_id"].s == RootOf(sha, Hashes(sha, HashedObjects(events)))
  {
    var hashes := StoredHashes(events);
    forall i | 0 <= i < |events|
      ensures hashes[i] == Hashes(sha, HashedObjects(events))[i]
    {
      assert hashes[i] == RecomputedHash(sha, events[i]);
    }
    assert hashes == Hashes(sha, HashedObjects(events));
  }

  /** Two bundles that both pass, whatever reader the verifier uses, and carry the same bundle id hold events of
      the same content in the same order, up to an explicit hash collision. */
  lemma BundleIdIdentifies(sha: Sha, read: Reader, b: Bundle, c: Bundle)
    requires IsSha(sha) && Verify(sha, read, b) == Pass && Verify(sha, read, c) == Pass
    requires BundleId(sha, read, b) == BundleId(sha, read, c)
    ensures var es, fs := EventsOf(sha, read, b), EventsOf(sha, read, c);
            || CollisionIn(sha, Messages(sha, HashedObjects(es)) + Messages(sha, HashedObjects(fs)))
            || (|es| == |fs| && forall i :: 0 <= i < |es| ==> SameContent(es[i], fs[i]))
  {
    var es, fs := EventsOf(sha, read, b), EventsOf(sha, read, c);
    EventsCommitted(sha, read(b.manifest).value, es);
    EventsCommitted(sha, read(c.manifest).value, fs);
    RootIdentifies(sha, HashedObjects(es), HashedObjects(fs));
    if HashedObjects(es) == HashedObjects(fs) {
      forall i | 0 <= i < |es| ensures i < |fs| && SameContent(es[i], fs[i]) {
        assert HashedObjects(es)[i] == HashedObjects(fs)[i];
        HashedObjectMembers(es[i]);
        HashedObjectMembers(fs[i]);
      }
    }
  }
}
