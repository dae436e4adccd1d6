/** The capability diff of two runs of the same runtime. */
module CapabilityDiffs {
  import opened JsonValues
  import opened Outcomes
  import opened RunnerEvidence
  import opened CategoryDiffs
  import Lexicographic

  datatype PolicyChange = PolicyChange(toolCallId: string, base: Option<string>, head: Option<string>)

  datatype Preconditions = Preconditions(
    baseHealthClean: bool,
    headHealthClean: bool,
    baseCorrelationClean: bool,
    headCorrelationClean: bool,
    stableToolCallIdsRequired: bool,
    stableToolCallIdsPresent: bool)

  datatype CapabilityDiff = CapabilityDiff(
    baseRunId: string,
    headRunId: string,
    status: string,
    preconditions: Preconditions,
    surface: map<string, Section>,
    bindingIds: Section,
    changed: seq<PolicyChange>,
    unbound: map<string, seq<string>>,
    ambiguities: seq<string>,
    notes: seq<string>)

  const IDEMPOTENT_NOTE := "capability_diff_idempotent: base and head evidence sets are identical"

  // ----------------------------------------------------------- policy outcomes

  /** The changed decisions over some of the shared ids, in the order of the ids. */
  ghost function ChangesOver(ids: seq<string>, base: Decisions, head: Decisions): seq<PolicyChange>
    requires forall id :: id in ids ==> id in base && id in head
  {
    if ids == [] then []
    else
      var n := |ids| - 1;
      var id := ids[n];
      ChangesOver(ids[..n], base, head)
      + if base[id] != head[id] then [PolicyChange(id, base[id], head[id])] else []
  }

  ghost function Changes(base: Decisions, head: Decisions): seq<PolicyChange> {
    ChangesOver(Lexicographic.Sorted(base.Keys * head.Keys), base, head)
  }

  /** The loop over the shared ids in sorted order. */
  method PolicyChanges(base: Decisions, head: Decisions) returns (changes: seq<PolicyChange>)
    ensures changes == Changes(base, head)
  {
    var ids := Lexicographic.Sorted(base.Keys * head.Keys);
    assert forall i :: 0 <= i < |ids| ==> ids[i] in base.Keys * head.Keys;
    changes := [];
    for i := 0 to |ids|
      invariant changes == ChangesOver(ids[..i], base, head)
    {
      assert ids[..i + 1][..i] == ids[..i];
      if base[ids[i]] != head[ids[i]] {
        changes := changes + [PolicyChange(ids[i], base[ids[i]], head[ids[i]])];
      }
    }
    assert ids[..|ids|] == ids;
  }

  /** Exactly the ids whose decision differs are listed, with both decisions. */
  lemma {:induction false} ChangesOverExact(ids: seq<string>, base: Decisions, head: Decisions)
    requires forall id :: id in ids ==> id in base && id in head
    ensures forall c :: c in ChangesOver(ids, base, head) <==>
              c.toolCallId in ids && base[c.toolCallId] != head[c.toolCallId]
              && c == PolicyChange(c.toolCallId, base[c.toolCallId], head[c.toolCallId])
  {
    if ids != [] {
      var n := |ids| - 1;
      ChangesOverExact(ids[..n], base, head);
      assert ids == ids[..n] + [ids[n]];
    }
  }

  /** Base decisions with the listed changes written over them. */
  ghost function Overwrite(base: Decisions, changes: seq<PolicyChange>): Decisions {
    if changes == [] then base
    else
      var n := |changes| - 1;
      Overwrite(base, changes[..n])[changes[n].toolCallId := changes[n].head]
  }

  /** Head decisions on some shared ids, base decisions on all others. */
  ghost predicate Carries(after: Decisions, ids: seq<string>, base: Decisions, head: Decisions)
    requires forall id :: id in ids ==> id in base && id in head
  {
    && after.Keys == base.Keys
    && (forall id :: id in ids ==> after[id] == head[id])
    && (forall id :: id in base && id !in ids ==> after[id] == base[id])
  }

  lemma CarriesOneMore(after: Decisions, ids: seq<string>, id: string, base: Decisions, head: Decisions)
    requires id in base && id in head && forall x :: x in ids ==> x in base && x in head
    requires Carries(after, ids, base, head)
    ensures Carries(after[id := head[id]], ids + [id], base, head)
    ensures base[id] == head[id] ==> Carries(after, ids + [id], base, head)
  {
    assert forall x :: x in ids + [id] <==> x in ids || x == id;
    if base[id] == head[id] {
      assert after[id := head[id]] == after;
    }
  }

  lemma OverwriteNext(ids: seq<string>, id: string, base: Decisions, head: Decisions)
    requires id in base && id in head && forall x :: x in ids ==> x in base && x in head
    ensures Overwrite(base, ChangesOver(ids + [id], base, head))
         == if base[id] == head[id] then Overwrite(base, ChangesOver(ids, base, head))
            else Overwrite(base, ChangesOver(ids, base, head))[id := head[id]]
  {
    assert (ids + [id])[..|ids|] == ids;
    var front, all := ChangesOver(ids, base, head), ChangesOver(ids + [id], base, head);
    if base[id] != head[id] {
      assert all[..|front|] == front;
    } else {
      assert all == front;
    }
  }

  /** The changes carry the base decisions to the head decisions on a set of shared ids. */
  lemma {:induction false} OverwriteOver(ids: seq<string>, base: Decisions, head: Decisions)
    requires forall id :: id in ids ==> id in base && id in head
    ensures Carries(Overwrite(base, ChangesOver(ids, base, head)), ids, base, head)
  {
    if ids != [] {
      var n := |ids| - 1;
      OverwriteOver(ids[..n], base, head);
      OverwriteNext(ids[..n], ids[n], base, head);
      CarriesOneMore(Overwrite(base, ChangesOver(ids[..n], base, head)), ids[..n], ids[n], base, head);
      assert ids == ids[..n] + [ids[n]];
    }
  }

  /** Overwriting the base decisions with the changes gives the head decision of every shared id. */
  lemma OverwriteGivesHead(base: Decisions, head: Decisions)
    ensures var after := Overwrite(base, Changes(base, head));
            && after.Keys == base.Keys
            && forall id :: id in base ==> after[id] == if id in head then head[id] else base[id]
  {
    OverwriteOver(Lexicographic.Sorted(base.Keys * head.Keys), base, head);
  }

  lemma NoChanges(base: Decisions, head: Decisions)
    requires base.Keys == head.Keys
    ensures Changes(base, head) == [] <==> base == head
  {
    var ids := Lexicographic.Sorted(base.Keys * head.Keys);
    ChangesOverExact(ids, base, head);
    if Changes(base, head) == [] {
      forall id | id in base
        ensures base[id] == head[id]
      {
        var c := PolicyChange(id, base[id], head[id]);
        assert c.toolCallId in ids;
        assert c !in Changes(base, head);
      }
    } else {
      assert Changes(base, head)[0] in ChangesOver(ids, base, head);
    }
  }

  // ------------------------------------------------ changes swapped and composed

  ghost function SwapChange(c: PolicyChange): PolicyChange {
    PolicyChange(c.toolCallId, c.head, c.base)
  }

  ghost function SwapChanges(cs: seq<PolicyChange>): (r: seq<PolicyChange>)
    ensures |r| == |cs| && forall i :: 0 <= i < |cs| ==> r[i] == SwapChange(cs[i])
  {
    seq(|cs|, i requires 0 <= i < |cs| => SwapChange(cs[i]))
  }

  lemma {:induction false} ChangesOverSwap(ids: seq<string>, base: Decisions, head: Decisions)
    requires forall id :: id in ids ==> id in base && id in head
    ensures ChangesOver(ids, head, base) == SwapChanges(ChangesOver(ids, base, head))
  {
    if ids != [] {
      ChangesOverSwap(ids[..|ids| - 1], base, head);
    }
  }

  lemma ChangesSwap(base: Decisions, head: Decisions)
    ensures Changes(head, base) == SwapChanges(Changes(base, head))
  {
    assert base.Keys * head.Keys == head.Keys * base.Keys;
    ChangesOverSwap(Lexicographic.Sorted(base.Keys * head.Keys), base, head);
  }

  ghost predicate Lists(cs: seq<PolicyChange>, id: string) {
    exists c :: c in cs && c.toolCallId == id
  }

  ghost function ChangeOf(cs: seq<PolicyChange>, id: string): (c: PolicyChange)
    requires Lists(cs, id)
    ensures c in cs && c.toolCallId == id
  {
    var c :| c in cs && c.toolCallId == id;
    c
  }

  /** The change of one id over two steps, from the lists of both. */
  ghost function Link(d: seq<PolicyChange>, e: seq<PolicyChange>, id: string): (cs: seq<PolicyChange>)
    ensures forall c :: c in cs ==> c.toolCallId == id
  {
    if !Lists(d, id) && !Lists(e, id) then []
    else
      var before := if Lists(d, id) then ChangeOf(d, id).base else ChangeOf(e, id).base;
      var after := if Lists(e, id) then ChangeOf(e, id).head else ChangeOf(d, id).head;
      if before == after then [] else [PolicyChange(id, before, after)]
  }

  ghost function LinkOver(ids: seq<string>, d: seq<PolicyChange>, e: seq<PolicyChange>): seq<PolicyChange> {
    if ids == [] then [] else LinkOver(ids[..|ids| - 1], d, e) + Link(d, e, ids[|ids| - 1])
  }

  /** The changes over two consecutive comparisons, from the two diffs alone. */
  ghost function ComposeChanges(d: CapabilityDiff, e: CapabilityDiff): seq<PolicyChange> {
    LinkOver(Compose(d.bindingIds, e.bindingIds).kept, d.changed, e.changed)
  }

  lemma ListsExact(base: Decisions, head: Decisions, id: string)
    ensures Lists(Changes(base, head), id) <==> id in base && id in head && base[id] != head[id]
    ensures Lists(Changes(base, head), id) ==>
              ChangeOf(Changes(base, head), id) == PolicyChange(id, base[id], head[id])
  {
    ChangesOverExact(Lexicographic.Sorted(base.Keys * head.Keys), base, head);
    if id in base && id in head && base[id] != head[id] {
      assert PolicyChange(id, base[id], head[id]) in Changes(base, head);
    }
  }

  lemma LinkExact(base: Decisions, mid: Decisions, head: Decisions, id: string)
    requires id in base && id in head
    ensures Link(Changes(base, mid), Changes(mid, head), id)
         == if id in mid && base[id] != head[id] then [PolicyChange(id, base[id], head[id])] else []
  {
    ListsExact(base, mid, id);
    ListsExact(mid, head, id);
  }

  /** Two steps hide a change of this id: it is gone in between. */
  ghost predicate Hidden(base: Decisions, mid: Decisions, head: Decisions, id: string) {
    id in base && id in head && id !in mid && base[id] != head[id]
  }

  lemma {:induction false} LinkOverMember(ids: seq<string>, d: seq<PolicyChange>, e: seq<PolicyChange>, c: PolicyChange)
    requires c in LinkOver(ids, d, e)
    ensures c in Link(d, e, c.toolCallId)
  {
    if c !in Link(d, e, ids[|ids| - 1]) {
      LinkOverMember(ids[..|ids| - 1], d, e, c);
    }
  }

  lemma {:induction false} LinkOverAgrees(ids: seq<string>, base: Decisions, mid: Decisions, head: Decisions)
    requires forall id :: id in ids ==> id in base && id in head && !Hidden(base, mid, head, id)
    ensures LinkOver(ids, Changes(base, mid), Changes(mid, head)) == ChangesOver(ids, base, head)
  {
    if ids != [] {
      LinkOverAgrees(ids[..|ids| - 1], base, mid, head);
      LinkExact(base, mid, head, ids[|ids| - 1]);
    }
  }

  /** The changes of two steps determine those over both exactly when no shared id changed while gone. */
  lemma ChangesCompose(base: Decisions, mid: Decisions, head: Decisions)
    ensures LinkOver(Lexicographic.Sorted(base.Keys * head.Keys), Changes(base, mid), Changes(mid, head))
         == Changes(base, head)
       <==> !exists id :: Hidden(base, mid, head, id)
  {
    var ids := Lexicographic.Sorted(base.Keys * head.Keys);
    if id :| Hidden(base, mid, head, id) {
      var c := PolicyChange(id, base[id], head[id]);
      ListsExact(base, head, id);
      LinkExact(base, mid, head, id);
      if c in LinkOver(ids, Changes(base, mid), Changes(mid, head)) {
        LinkOverMember(ids, Changes(base, mid), Changes(mid, head), c);
      }
    } else {
      LinkOverAgrees(ids, base, mid, head);
    }
  }

  lemma {:induction false} ChangesOverSame(ids: seq<string>, base: Decisions, head: Decisions, other: Decisions)
    requires forall id :: id in ids ==> id in base && id in head && id in other && head[id] == other[id]
    ensures ChangesOver(ids, base, head) == ChangesOver(ids, base, other)
  {
    if ids != [] {
      ChangesOverSame(ids[..|ids| - 1], base, head, other);
    }
  }

  /** With a hidden id the two steps say nothing of its decision: another head that keeps the base's
      decision gives the same second step, and other changes over both. */
  lemma HiddenUndetermined(base: Decisions, mid: Decisions, head: Decisions, id: string)
    requires Hidden(base, mid, head, id)
    ensures var other := head[id := base[id]];
            && other.Keys == head.Keys
            && Changes(mid, other) == Changes(mid, head)
            && Changes(base, other) != Changes(base, head)
  {
    var other := head[id := base[id]];
    assert other.Keys == head.Keys;
    ChangesOverSame(Lexicographic.Sorted(mid.Keys * head.Keys), mid, head, other);
    ListsExact(base, head, id);
    ListsExact(base, other, id);
  }

  /** What a rule may look at: the changes and the binding ids of both steps. */
  type Rule = (seq<PolicyChange>, seq<PolicyChange>, Section, Section) -> seq<PolicyChange>

  /** No rule at all gets the changes over both steps right when an id is hidden: it is wrong for this
      head or for the other one. */
  lemma NoRuleComposes(rule: Rule, base: Decisions, mid: Decisions, head: Decisions, id: string)
    requires Hidden(base, mid, head, id)
    ensures exists h: Decisions ::
              && h.Keys == head.Keys
              && rule(Changes(base, mid), Changes(mid, h), Diff(base.Keys, mid.Keys), Diff(mid.Keys, h.Keys))
                 != Changes(base, h)
  {
    var other := head[id := base[id]];
    HiddenUndetermined(base, mid, head, id);
    var guess := rule(Changes(base, mid), Changes(mid, head), Diff(base.Keys, mid.Keys), Diff(mid.Keys, head.Keys));
    assert guess == rule(Changes(base, mid), Changes(mid, other), Diff(base.Keys, mid.Keys), Diff(mid.Keys, other.Keys));
    if guess == Changes(base, head) {
      assert guess != Changes(base, other);
    }
  }

  /** An id that is gone in the middle run hides the change of its decision. */
  lemma ChangeWhileGone()
    ensures var base: Decisions, mid: Decisions, head: Decisions :=
              map["a" := Some("allow")], map[], map["a" := Some("deny")];
            LinkOver(Lexicographic.Sorted(base.Keys * head.Keys), Changes(base, mid), Changes(mid, head))
            != Changes(base, head)
  {
    var base: Decisions, mid: Decisions, head: Decisions :=
      map["a" := Some("allow")], map[], map["a" := Some("deny")];
    assert "allow"[0] != "deny"[0];
    assert Hidden(base, mid, head, "a");
    ChangesCompose(base, mid, head);
  }

  // ----------------------------------------------------------------- projector

  ghost predicate Accepts(base: Evidence, head: Evidence) {
    && Readable(base) && Readable(head)
    && BindingsReadable(base.correlation) && BindingsReadable(head.correlation)
  }

  /** `health_clean`. */
  predicate HealthClean(health: Dict) {
    && Get(health, "schema") == Str(OBSERVATION_HEALTH_SCHEMA)
    && Get(health, "kernel_layer") == Str("complete")
    && EqualsZero(Get(health, "ringbuf_drops"))
    && Get(health, "policy_layer") == Str("present")
    && Get(health, "sdk_layer") == Str("self_reported")
    && Get(health, "cgroup_correlation") == Str("clean")
  }

  /** `correlation_clean`. */
  predicate CorrelationClean(correlation: Dict) {
    var ambiguities := Get(correlation, "ambiguities");
    && Get(correlation, "schema") == Str(CORRELATION_REPORT_SCHEMA)
    && Get(correlation, "status") == Str("clean")
    && ambiguities.Arr? && |ambiguities.items| == 0
  }

  function SurfaceDiff(base: Dict, head: Dict): (m: map<string, Section>)
    requires SurfaceReadable(base) && SurfaceReadable(head)
    ensures m.Keys == SURFACE_CATEGORIES
  {
    map c | c in SURFACE_CATEGORIES :: Diff(SurfaceValues(base, c), SurfaceValues(head, c))
  }

  function Status(healthClean: bool, correlationClean: bool): string {
    if !healthClean then "partial:health"
    else if !correlationClean then "partial:correlation"
    else "clean"
  }

  /** No category adds or removes a value. */
  predicate NoDrift(surface: map<string, Section>) {
    forall c :: c in surface ==> surface[c].added == [] && surface[c].removed == []
  }

  function StatusOf(pre: Preconditions): string {
    Status(
      pre.baseHealthClean && pre.headHealthClean,
      pre.baseCorrelationClean && pre.headCorrelationClean && pre.stableToolCallIdsPresent)
  }

  predicate NotesIdempotence(
    status: string, surface: map<string, Section>, b: set<string>, h: set<string>, changed: seq<PolicyChange>)
  {
    status == "clean" && NoDrift(surface) && b - h == {} && h - b == {} && changed == []
  }

  function NothingUnbound(): (m: map<string, seq<string>>)
    ensures m.Keys == SURFACE_CATEGORIES
    ensures forall c :: c in m ==> m[c] == []
  {
    map c | c in SURFACE_CATEGORIES :: []
  }

  function PreconditionsOf(base: Evidence, head: Evidence, b: set<string>, h: set<string>): Preconditions {
    Preconditions(
      HealthClean(base.health), HealthClean(head.health),
      CorrelationClean(base.correlation), CorrelationClean(head.correlation),
      true, b != {} && h != {})
  }

  /** The returned record, given the bindings of both sides and the changes between them. */
  function Assemble(
    base: Evidence, head: Evidence, b: Decisions, h: Decisions, changed: seq<PolicyChange>): (d: CapabilityDiff)
    requires Readable(base) && Readable(head)
    ensures d.surface.Keys == SURFACE_CATEGORIES && d.unbound.Keys == SURFACE_CATEGORIES
  {
    var pre := PreconditionsOf(base, head, b.Keys, h.Keys);
    var surface := SurfaceDiff(base.surface, head.surface);
    CapabilityDiff(
      RunId(base), RunId(head), StatusOf(pre), pre, surface, Diff(b.Keys, h.Keys), changed, NothingUnbound(), [],
      if NotesIdempotence(StatusOf(pre), surface, b.Keys, h.Keys, changed) then [IDEMPOTENT_NOTE] else [])
  }

  /** The diff of two accepted evidence sets. */
  ghost function Projected(base: Evidence, head: Evidence): (d: CapabilityDiff)
    requires Accepts(base, head)
    ensures d.surface.Keys == SURFACE_CATEGORIES && d.unbound.Keys == SURFACE_CATEGORIES
  {
    var b, h := BindingMap(base.correlation), BindingMap(head.correlation);
    Assemble(base, head, b, h, Changes(b, h))
  }

  ghost function Project(base: Evidence, head: Evidence): (r: Result<CapabilityDiff>) {
    if Accepts(base, head) then Ok(Projected(base, head)) else Raised("ValidationError")
  }

  /** The preconditions, and the status they lead to. */
  method DecideStatus(base: Evidence, head: Evidence, baseIds: set<string>, headIds: set<string>)
    returns (pre: Preconditions, status: string)
    ensures pre == PreconditionsOf(base, head, baseIds, headIds) && status == StatusOf(pre)
  {
    var baseHealth, headHealth := HealthClean(base.health), HealthClean(head.health);
    var baseCorrelation, headCorrelation := CorrelationClean(base.correlation), CorrelationClean(head.correlation);
    var stable := baseIds != {} && headIds != {};
    pre := Preconditions(baseHealth, headHealth, baseCorrelation, headCorrelation, true, stable);
    if !(baseHealth && headHealth) {
      status := "partial:health";
    } else if !(baseCorrelation && headCorrelation && stable) {
      status := "partial:correlation";
    } else {
      status := "clean";
    }
  }

  /** `project_capability_diff`. */
  method ProjectCapabilityDiff(base: Evidence, head: Evidence) returns (r: Result<CapabilityDiff>)
    ensures r == Project(base, head)
  {
    var baseOk := CheckEvidence(base);
    var headOk := CheckEvidence(head);
    if !baseOk || !headOk {
      return Raised("ValidationError");
    }
    var b := ReadBindingMap(base.correlation);
    var h := ReadBindingMap(head.correlation);
    if b.Raised? || h.Raised? {
      return Raised("ValidationError");
    }
    var d := FillDiff(base, head, b.value, h.value);
    return Ok(d);
  }

  method CollectNotes(
    status: string, surface: map<string, Section>, b: set<string>, h: set<string>, changed: seq<PolicyChange>)
    returns (notes: seq<string>)
    ensures notes == if NotesIdempotence(status, surface, b, h, changed) then [IDEMPOTENT_NOTE] else []
  {
    notes := [];
    if status == "clean" && NoDrift(surface) && b - h == {} && h - b == {} && changed == [] {
      notes := notes + [IDEMPOTENT_NOTE];
    }
  }

  /** The part of the projector that does not raise. */
  method FillDiff(base: Evidence, head: Evidence, b: Decisions, h: Decisions) returns (d: CapabilityDiff)
    requires Readable(base) && Readable(head)
    ensures d == Assemble(base, head, b, h, Changes(b, h))
  {
    var surface := SurfaceDiff(base.surface, head.surface);
    var changed := PolicyChanges(b, h);
    var pre, status := DecideStatus(base, head, b.Keys, h.Keys);
    var notes := CollectNotes(status, surface, b.Keys, h.Keys, changed);
    d := CapabilityDiff(
      RunId(base), RunId(head), status, pre, surface, Diff(b.Keys, h.Keys), changed, NothingUnbound(), [], notes);
  }

  // ---------------------------------------------------------------- validators

  /** `validate_policy_consistency` does not raise. */
  ghost predicate PolicyConsistent(d: CapabilityDiff)
    requires "policy_decisions" in d.surface
  {
    var policy := d.surface["policy_decisions"];
    !(d.bindingIds.added == [] && d.bindingIds.removed == []
      && (policy.added != [] || policy.removed != []) && d.changed == [])
  }

  /** `validate_idempotence` does not raise. */
  ghost predicate Idempotent(d: CapabilityDiff)
    requires d.surface.Keys == SURFACE_CATEGORIES && d.unbound.Keys == SURFACE_CATEGORIES
  {
    && d.status == "clean"
    && NoDrift(d.surface) && (forall c :: c in d.unbound ==> d.unbound[c] == [])
    && d.bindingIds.added == [] && d.bindingIds.removed == []
    && d.changed == []
    && d.ambiguities == []
    && d.notes == [IDEMPOTENT_NOTE]
  }

  /** Both runs have the same five surface sets and the same decision for the same ids. */
  ghost predicate SameEvidence(base: Evidence, head: Evidence)
    requires Accepts(base, head)
  {
    && (forall c :: c in SURFACE_CATEGORIES ==> SameValues(base.surface, head.surface, c))
    && BindingMap(base.correlation) == BindingMap(head.correlation)
  }

  /** The lists of a category hold the same strings. */
  ghost predicate SameValues(base: Dict, head: Dict, c: string) {
    forall x :: Holds(base, c, x) <==> Holds(head, c, x)
  }

  lemma SameValuesExact(base: Dict, head: Dict, c: string)
    requires IsStringList(Get(base, c)) && IsStringList(Get(head, c))
    ensures SurfaceValues(base, c) == SurfaceValues(head, c) <==> SameValues(base, head, c)
  {
    if SurfaceValues(base, c) == SurfaceValues(head, c) {
      forall x ensures Holds(base, c, x) <==> Holds(head, c, x) {
        assert x in SurfaceValues(base, c) <==> Holds(base, c, x);
      }
    }
  }

  lemma SameSurface(base: Dict, head: Dict)
    requires SurfaceReadable(base) && SurfaceReadable(head)
    ensures NoDrift(SurfaceDiff(base, head))
       <==> (forall c :: c in SURFACE_CATEGORIES ==> SameValues(base, head, c))
  {
    forall c | c in SURFACE_CATEGORIES
      ensures SurfaceDiff(base, head)[c].added == [] && SurfaceDiff(base, head)[c].removed == []
         <==> SameValues(base, head, c)
    {
      SameCategory(base, head, c);
    }
  }

  lemma SameCategory(base: Dict, head: Dict, c: string)
    requires SurfaceReadable(base) && SurfaceReadable(head) && c in SURFACE_CATEGORIES
    ensures SurfaceDiff(base, head)[c].added == [] && SurfaceDiff(base, head)[c].removed == []
       <==> SameValues(base, head, c)
  {
    EmptySides(SurfaceValues(base, c), SurfaceValues(head, c));
    SameValuesExact(base, head, c);
  }

  lemma SameBindings(b: Decisions, h: Decisions)
    ensures b.Keys - h.Keys == {} && h.Keys - b.Keys == {} && Changes(b, h) == [] <==> b == h
  {
    if b.Keys - h.Keys == {} && h.Keys - b.Keys == {} {
      assert forall k :: k in b.Keys <==> k in h.Keys by {
        forall k | k in b.Keys || k in h.Keys
          ensures k in b.Keys && k in h.Keys
        {
          assert k !in b.Keys - h.Keys && k !in h.Keys - b.Keys;
        }
      }
      assert b.Keys == h.Keys;
      NoChanges(b, h);
    }
    if b == h {
      NoChanges(b, h);
    }
  }

  /** The note, the validator and the meaning of idempotence agree on every projected diff. */
  lemma IdempotenceExact(base: Evidence, head: Evidence)
    requires Accepts(base, head)
    ensures var d := Projected(base, head);
            && (d.notes == [IDEMPOTENT_NOTE] <==> d.status == "clean" && SameEvidence(base, head))
            && (d.notes != [IDEMPOTENT_NOTE] ==> d.notes == [])
            && (Idempotent(d) <==> d.status == "clean" && SameEvidence(base, head))
            && (Idempotent(d) ==> PolicyConsistent(d))
  {
    var b, h := BindingMap(base.correlation), BindingMap(head.correlation);
    SameSurface(base.surface, head.surface);
    SameBindings(b, h);
    EmptySides(b.Keys, h.Keys);
  }

  /** The policy consistency check rejects exactly the pairs of runs whose bindings agree while
      their policy surfaces do not. */
  lemma PolicyConsistencyExact(base: Evidence, head: Evidence)
    requires Accepts(base, head)
    ensures PolicyConsistent(Projected(base, head))
       <==> !(BindingMap(base.correlation) == BindingMap(head.correlation)
              && !SameValues(base.surface, head.surface, "policy_decisions"))
  {
    var b, h := BindingMap(base.correlation), BindingMap(head.correlation);
    SameBindings(b, h);
    EmptySides(b.Keys, h.Keys);
    EmptySides(SurfaceValues(base.surface, "policy_decisions"), SurfaceValues(head.surface, "policy_decisions"));
    SameValuesExact(base.surface, head.surface, "policy_decisions");
  }

  /** The status names the first thing that stands in the way: the health of a run, then the
      correlation, where a run without stable ids counts as uncorrelated. */
  lemma StatusExact(base: Evidence, head: Evidence)
    requires Accepts(base, head)
    ensures var d := Projected(base, head);
            var healthy := HealthClean(base.health) && HealthClean(head.health);
            var correlated := CorrelationClean(base.correlation) && CorrelationClean(head.correlation)
                              && BindingMap(base.correlation) != map[] && BindingMap(head.correlation) != map[];
            && (d.status == "partial:health" <==> !healthy)
            && (d.status == "partial:correlation" <==> healthy && !correlated)
            && (d.status == "clean" <==> healthy && correlated)
            && (d.status == "clean" <==> d.preconditions == Preconditions(true, true, true, true, true, true))
  {
    assert BindingMap(base.correlation) == map[] <==> BindingMap(base.correlation).Keys == {};
    assert BindingMap(head.correlation) == map[] <==> BindingMap(head.correlation).Keys == {};
  }

  /** A section says of every string whether it stands in the base's list, the head's, or both. */
  lemma SectionsExact(base: Evidence, head: Evidence, c: string, x: string)
    requires Accepts(base, head) && c in SURFACE_CATEGORIES
    ensures var d := Projected(base, head).surface[c];
            && (x in d.added <==> Holds(head.surface, c, x) && !Holds(base.surface, c, x))
            && (x in d.removed <==> Holds(base.surface, c, x) && !Holds(head.surface, c, x))
            && (x in d.kept <==> Holds(base.surface, c, x) && Holds(head.surface, c, x))
  {
    assert Projected(base, head).surface[c] == Diff(SurfaceValues(base.surface, c), SurfaceValues(head.surface, c));
  }

  /** The binding sections and the changes, in terms of the bindings that the reports list. */
  lemma BindingsExact(base: Evidence, head: Evidence, id: string, b: Option<string>, h: Option<string>)
    requires Accepts(base, head)
    ensures var d := Projected(base, head);
            && Get(base.health, "run_id") == Str(d.baseRunId) && Get(head.health, "run_id") == Str(d.headRunId)
            && (id in d.bindingIds.added <==> HasBinding(head.correlation, id) && !HasBinding(base.correlation, id))
            && (id in d.bindingIds.removed <==> HasBinding(base.correlation, id) && !HasBinding(head.correlation, id))
            && (id in d.bindingIds.kept <==> HasBinding(base.correlation, id) && HasBinding(head.correlation, id))
            && (PolicyChange(id, b, h) in d.changed <==>
                HasDecision(base.correlation, id, b) && HasDecision(head.correlation, id, h) && b != h)
  {
    var bs, hs := BindingMap(base.correlation), BindingMap(head.correlation);
    DecisionsExact(base.correlation, id, b);
    DecisionsExact(head.correlation, id, h);
    ChangesOverExact(Lexicographic.Sorted(bs.Keys * hs.Keys), bs, hs);
  }

  /** The head's evidence can be computed from the base's evidence and the diff. */
  lemma ProjectedApplies(base: Evidence, head: Evidence, c: string)
    requires Accepts(base, head) && c in SURFACE_CATEGORIES
    ensures var d := Projected(base, head);
            var b, h := BindingMap(base.correlation), BindingMap(head.correlation);
            && d.baseRunId == RunId(base) && d.headRunId == RunId(head)
            && Apply(SurfaceValues(base.surface, c), d.surface[c]) == SurfaceValues(head.surface, c)
            && Apply(b.Keys, d.bindingIds) == h.Keys
            && Overwrite(b, d.changed).Keys == b.Keys
            && forall id :: id in b && id in h ==> Overwrite(b, d.changed)[id] == h[id]
  {
    var b, h := BindingMap(base.correlation), BindingMap(head.correlation);
    DiffAlgebra(SurfaceValues(base.surface, c), {}, SurfaceValues(head.surface, c));
    DiffAlgebra(b.Keys, {}, h.Keys);
    OverwriteGivesHead(b, h);
  }

  /** The diffs of two consecutive comparisons determine the diff over both. */
  lemma ProjectedComposes(base: Evidence, mid: Evidence, head: Evidence, c: string)
    requires Accepts(base, mid) && Accepts(mid, head) && c in SURFACE_CATEGORIES
    ensures Accepts(base, head)
    ensures Projected(base, head).surface[c]
         == Compose(Projected(base, mid).surface[c], Projected(mid, head).surface[c])
    ensures Projected(base, head).bindingIds == Compose(Projected(base, mid).bindingIds, Projected(mid, head).bindingIds)
    ensures Projected(base, head).changed == ComposeChanges(Projected(base, mid), Projected(mid, head))
       <==> !exists id :: Hidden(BindingMap(base.correlation), BindingMap(mid.correlation), BindingMap(head.correlation), id)
  {
    ChangesCompose(BindingMap(base.correlation), BindingMap(mid.correlation), BindingMap(head.correlation));
    DiffAlgebra(SurfaceValues(base.surface, c), SurfaceValues(mid.surface, c), SurfaceValues(head.surface, c));
    DiffAlgebra(
      BindingMap(base.correlation).Keys, BindingMap(mid.correlation).Keys, BindingMap(head.correlation).Keys);
  }

  /** Swapping the runs swaps added and removed everywhere and keeps the status. */
  lemma ProjectSwap(base: Evidence, head: Evidence, c: string)
    requires Accepts(base, head) && c in SURFACE_CATEGORIES
    ensures Accepts(head, base)
    ensures Projected(head, base).status == Projected(base, head).status
    ensures Projected(head, base).bindingIds == Swap(Projected(base, head).bindingIds)
    ensures Projected(head, base).surface[c] == Swap(Projected(base, head).surface[c])
    ensures Projected(head, base).changed == SwapChanges(Projected(base, head).changed)
  {
    ChangesSwap(BindingMap(base.correlation), BindingMap(head.correlation));
    StatusExact(base, head);
    StatusExact(head, base);
    DiffAlgebra(BindingMap(base.correlation).Keys, {}, BindingMap(head.correlation).Keys);
    DiffAlgebra(SurfaceValues(base.surface, c), {}, SurfaceValues(head.surface, c));
  }
}
