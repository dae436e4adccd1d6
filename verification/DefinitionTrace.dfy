/**
 Which definitions the extractor emits, said about the list of parser events
 alone: without its fields, and for every list of events.
 */
module DefinitionTrace {
  import opened Outcomes
  import opened DefinitionList

  // ------------------------------------------------------- elements in the events

  /** Event j opens an element of one of the tags that is still the open one before event n. */
  ghost predicate Open(es: seq<Event>, tags: set<string>, j: int, n: nat) {
    && 0 <= j < n <= |es| && es[j].Start? && es[j].tag in tags
    && forall k :: j < k < n ==> !(es[k].Start? && es[k].tag in tags) && es[k] != End(es[j].tag)
  }

  /** Event n closes the element that event j opened. */
  ghost predicate Closes(es: seq<Event>, tags: set<string>, j: int, n: int) {
    0 <= n < |es| && Open(es, tags, j, n) && es[n] == End(es[j].tag)
  }

  ghost predicate ClosesAt(es: seq<Event>, tags: set<string>, n: int) {
    exists j :: Closes(es, tags, j, n)
  }

  /** The last list element closed before event n is the term from j to i. */
  ghost predicate PendingTerm(es: seq<Event>, j: int, i: int, n: nat) {
    && i < n && Closes(es, LIST_TAGS, j, i) && es[j].tag == "dt"
    && forall k :: i < k < n ==> !ClosesAt(es, LIST_TAGS, k)
  }

  /** The last heading closed before event n, if any. */
  ghost predicate LastHeading(es: seq<Event>, n: nat, h: Option<(nat, nat)>) {
    match h
    case None => forall k :: 0 <= k < n ==> !ClosesAt(es, HEADINGS, k)
    case Some(span) =>
      && span.1 < n && Closes(es, HEADINGS, span.0, span.1)
      && forall k :: span.1 < k < n ==> !ClosesAt(es, HEADINGS, k)
  }

  /** A description closes while a term is pending, under the last closed heading. */
  ghost predicate Emits(es: seq<Event>, e: Emission) {
    && Closes(es, LIST_TAGS, e.textStart, e.textEnd) && es[e.textStart].tag == "dd"
    && PendingTerm(es, e.termStart, e.termEnd, e.textEnd)
    && LastHeading(es, e.textEnd, e.heading)
  }

  // ------------------------------------------------------------ one event further

  lemma OpenStep(es: seq<Event>, tags: set<string>, j: int, n: nat)
    requires n < |es|
    ensures Open(es, tags, j, n + 1) <==>
              if es[n].Start? && es[n].tag in tags then j == n
              else Open(es, tags, j, n) && es[n] != End(es[j].tag)
  {
  }

  lemma PendingStep(es: seq<Event>, j: int, i: int, n: nat)
    requires n < |es|
    ensures PendingTerm(es, j, i, n + 1) <==>
              (i == n && Closes(es, LIST_TAGS, j, n) && es[j].tag == "dt")
              || (PendingTerm(es, j, i, n) && !ClosesAt(es, LIST_TAGS, n))
  {
  }

  lemma HeadingStep(es: seq<Event>, n: nat, h: Option<(nat, nat)>)
    requires n < |es| && LastHeading(es, n, h) && !ClosesAt(es, HEADINGS, n)
    ensures LastHeading(es, n + 1, h)
  {
  }

  // --------------------------------------------------- the trace is what they say

  ghost predicate CaptureExact(es: seq<Event>, n: nat, t: Trace) {
    forall j: nat :: Open(es, LIST_TAGS, j, n) <==> t.capture == Some(j)
  }

  ghost predicate HeadingExact(es: seq<Event>, n: nat, t: Trace) {
    forall j: nat :: Open(es, HEADINGS, j, n) <==> t.heading == Some(j)
  }

  ghost predicate TermExact(es: seq<Event>, n: nat, t: Trace) {
    forall j: nat, i: nat :: PendingTerm(es, j, i, n) <==> t.term == Some((j, i))
  }

  ghost predicate EmissionsExact(es: seq<Event>, n: nat, t: Trace) {
    forall e: Emission :: e in t.emissions <==> e.textEnd < n && Emits(es, e)
  }

  lemma CaptureStep(es: seq<Event>, n: nat)
    requires n < |es| && CaptureExact(es, n, TraceOf(es, n))
    ensures CaptureExact(es, n + 1, TraceOf(es, n + 1))
  {
    forall j: nat
      ensures Open(es, LIST_TAGS, j, n + 1) <==> TraceOf(es, n + 1).capture == Some(j)
    {
      OpenStep(es, LIST_TAGS, j, n);
    }
  }

  lemma HeadingOpenStep(es: seq<Event>, n: nat)
    requires n < |es| && HeadingExact(es, n, TraceOf(es, n))
    ensures HeadingExact(es, n + 1, TraceOf(es, n + 1))
  {
    forall j: nat
      ensures Open(es, HEADINGS, j, n + 1) <==> TraceOf(es, n + 1).heading == Some(j)
    {
      OpenStep(es, HEADINGS, j, n);
    }
  }

  /** A list element closes at event n exactly when it is the captured one. */
  lemma ListClosing(es: seq<Event>, n: nat)
    requires n < |es| && CaptureExact(es, n, TraceOf(es, n))
    ensures forall j: nat :: Closes(es, LIST_TAGS, j, n) <==>
              TraceOf(es, n).capture == Some(j) && es[n] == End(es[j].tag)
    ensures ClosesAt(es, LIST_TAGS, n) <==>
              TraceOf(es, n).capture.Some? && es[n] == End(es[TraceOf(es, n).capture.value].tag)
  {
    var t := TraceOf(es, n);
    if t.capture.Some? && es[n] == End(es[t.capture.value].tag) {
      assert Closes(es, LIST_TAGS, t.capture.value, n);
    }
    if ClosesAt(es, LIST_TAGS, n) {
      var j :| Closes(es, LIST_TAGS, j, n);
      assert t.capture == Some(j as nat);
    }
  }

  lemma HeadingClosing(es: seq<Event>, n: nat)
    requires n < |es| && HeadingExact(es, n, TraceOf(es, n))
    ensures forall j: nat :: Closes(es, HEADINGS, j, n) <==>
              TraceOf(es, n).heading == Some(j) && es[n] == End(es[j].tag)
    ensures ClosesAt(es, HEADINGS, n) <==>
              TraceOf(es, n).heading.Some? && es[n] == End(es[TraceOf(es, n).heading.value].tag)
  {
    var t := TraceOf(es, n);
    if t.heading.Some? && es[n] == End(es[t.heading.value].tag) {
      assert Closes(es, HEADINGS, t.heading.value, n);
    }
    if ClosesAt(es, HEADINGS, n) {
      var j :| Closes(es, HEADINGS, j, n);
      assert t.heading == Some(j as nat);
    }
  }

  /** What event n makes of the pending term. */
  lemma TermNext(es: seq<Event>, n: nat)
    requires n < |es|
    ensures var t := TraceOf(es, n);
            TraceOf(es, n + 1).term ==
            if t.capture.Some? && es[n] == End(es[t.capture.value].tag)
            then if es[n].tag == "dt" then Some((t.capture.value, n)) else None
            else t.term
  {
  }

  lemma TermStep(es: seq<Event>, n: nat)
    requires n < |es| && CaptureExact(es, n, TraceOf(es, n)) && TermExact(es, n, TraceOf(es, n))
    ensures TermExact(es, n + 1, TraceOf(es, n + 1))
  {
    ListClosing(es, n);
    TermNext(es, n);
    forall j: nat, i: nat
      ensures PendingTerm(es, j, i, n + 1) <==> TraceOf(es, n + 1).term == Some((j, i))
    {
      PendingStep(es, j, i, n);
    }
  }

  lemma SectionStep(es: seq<Event>, n: nat)
    requires n < |es| && HeadingExact(es, n, TraceOf(es, n)) && LastHeading(es, n, TraceOf(es, n).section)
    ensures LastHeading(es, n + 1, TraceOf(es, n + 1).section)
  {
    HeadingClosing(es, n);
    SectionNext(es, n);
    if !ClosesAt(es, HEADINGS, n) {
      HeadingStep(es, n, TraceOf(es, n).section);
    }
  }

  /** What event n makes of the last heading. */
  lemma SectionNext(es: seq<Event>, n: nat)
    requires n < |es|
    ensures var t := TraceOf(es, n);
            TraceOf(es, n + 1).section ==
            if t.heading.Some? && es[n] == End(es[t.heading.value].tag) then Some((t.heading.value, n)) else t.section
  {
  }

  lemma LastHeadingUnique(es: seq<Event>, n: nat, h: Option<(nat, nat)>, g: Option<(nat, nat)>)
    requires LastHeading(es, n, h) && LastHeading(es, n, g)
    ensures h == g
  {
    if h.Some? && g.Some? {
      assert ClosesAt(es, HEADINGS, h.value.1) && ClosesAt(es, HEADINGS, g.value.1);
      OpenUnique(es, HEADINGS, h.value.0, g.value.0, h.value.1);
    } else if h.Some? {
      assert ClosesAt(es, HEADINGS, h.value.1);
    } else if g.Some? {
      assert ClosesAt(es, HEADINGS, g.value.1);
    }
  }

  lemma OpenUnique(es: seq<Event>, tags: set<string>, i: int, j: int, n: nat)
    requires Open(es, tags, i, n) && Open(es, tags, j, n)
    ensures i == j
  {
  }

  /** The emission that event n makes, if it closes a description while a term is pending. */
  lemma EmitsAt(es: seq<Event>, n: nat, e: Emission)
    requires n < |es| && CaptureExact(es, n, TraceOf(es, n)) && TermExact(es, n, TraceOf(es, n))
    requires LastHeading(es, n, TraceOf(es, n).section)
    ensures var t := TraceOf(es, n);
            e.textEnd == n && Emits(es, e) <==>
              && t.capture.Some? && es[n] == End(es[t.capture.value].tag) && es[n].tag == "dd" && t.term.Some?
              && e == Emission(t.term.value.0, t.term.value.1, t.capture.value, n, t.section)
  {
    ListClosing(es, n);
    if e.textEnd == n && Emits(es, e) {
      LastHeadingUnique(es, n, e.heading, TraceOf(es, n).section);
    }
  }

  /** What event n adds to the emissions of the trace. */
  lemma EmissionsNext(es: seq<Event>, n: nat)
    requires n < |es|
    ensures var t := TraceOf(es, n);
            TraceOf(es, n + 1).emissions ==
            if t.capture.Some? && es[n] == End(es[t.capture.value].tag) && es[n].tag == "dd" && t.term.Some?
            then t.emissions + [Emission(t.term.value.0, t.term.value.1, t.capture.value, n, t.section)]
            else t.emissions
  {
    TagsKnown(es, n);
    var t := TraceOf(es, n);
    if es[n].End? && t.capture.Some? && es[t.capture.value].tag == es[n].tag {
      NotBoth(es[n].tag);
    }
  }

  lemma NotBoth(tag: string)
    ensures tag in LIST_TAGS ==> tag !in HEADINGS
  {
  }

  ghost predicate Known(es: seq<Event>, t: Trace, n: nat)
    requires TraceValid(es, t, n)
  {
    && (t.capture.Some? ==> es[t.capture.value].tag in LIST_TAGS)
    && (t.heading.Some? ==> es[t.heading.value].tag in HEADINGS)
  }

  lemma KnownStep(es: seq<Event>, n: nat, t: Trace)
    requires n < |es| && TraceValid(es, t, n) && Known(es, t, n)
    ensures Known(es, TraceStep(es, n, t), n + 1)
  {
  }

  lemma TagsKnown(es: seq<Event>, n: nat)
    requires n <= |es|
    ensures Known(es, TraceOf(es, n), n)
  {
    for k := 0 to n
      invariant Known(es, TraceOf(es, k), k)
    {
      KnownStep(es, k, TraceOf(es, k));
    }
  }

  lemma EmissionsStep(es: seq<Event>, n: nat)
    requires n < |es| && CaptureExact(es, n, TraceOf(es, n)) && TermExact(es, n, TraceOf(es, n))
    requires LastHeading(es, n, TraceOf(es, n).section) && EmissionsExact(es, n, TraceOf(es, n))
    ensures EmissionsExact(es, n + 1, TraceOf(es, n + 1))
  {
    EmissionsNext(es, n);
    forall e: Emission
      ensures e in TraceOf(es, n + 1).emissions <==> e.textEnd < n + 1 && Emits(es, e)
    {
      EmitsAt(es, n, e);
    }
  }

  ghost predicate Exact(es: seq<Event>, n: nat)
    requires n <= |es|
  {
    var t := TraceOf(es, n);
    && CaptureExact(es, n, t) && HeadingExact(es, n, t) && TermExact(es, n, t)
    && LastHeading(es, n, t.section) && EmissionsExact(es, n, t)
  }

  lemma ExactAtStart(es: seq<Event>)
    ensures Exact(es, 0)
  {
  }

  lemma ExactStep(es: seq<Event>, n: nat)
    requires n < |es| && Exact(es, n)
    ensures Exact(es, n + 1)
  {
    CaptureStep(es, n);
    HeadingOpenStep(es, n);
    TermStep(es, n);
    SectionStep(es, n);
    EmissionsStep(es, n);
  }

  lemma TraceExact(es: seq<Event>, n: nat)
    requires n <= |es|
    ensures Exact(es, n)
  {
    ExactAtStart(es);
    for k := 0 to n
      invariant Exact(es, k)
    {
      ExactStep(es, k);
    }
  }

  // -------------------------------------------------------------------- theorems

  ghost function EmissionsOf(es: seq<Event>): seq<Emission> {
    TraceOf(es, |es|).emissions
  }

  /** Over every list of events the extractor emits exactly one definition for each description that
      closes while a term is pending: with the last closed term and the last closed heading. */
  lemma EmittedExactly(normal: Normaliser, es: seq<Event>)
    ensures forall i :: 0 <= i < |EmissionsOf(es)| ==> InRange(EmissionsOf(es)[i], |es|)
    ensures var ds := Meaning(normal, es, |es|).definitions;
            |ds| == |EmissionsOf(es)| && forall i :: 0 <= i < |ds| ==> ds[i] == DefinitionOf(normal, es, EmissionsOf(es)[i])
    ensures forall e: Emission :: e in EmissionsOf(es) <==> Emits(es, e)
  {
    TraceExact(es, |es|);
    DefinitionsAt(normal, es, EmissionsOf(es));
  }

  /** A pending term closed after every description that has closed with an emission. */
  lemma EmittedBeforePending(es: seq<Event>, n: nat, e: Emission, j: nat, i: nat)
    requires Emits(es, e) && e.textEnd < n && PendingTerm(es, j, i, n)
    ensures e.termEnd < e.textEnd < i
  {
    assert ClosesAt(es, LIST_TAGS, e.textEnd);
    assert es[e.textEnd] == End("dd") && es[i] == End("dt");
  }

  ghost predicate AllBefore(emissions: seq<Emission>, n: nat) {
    forall a :: 0 <= a < |emissions| ==> emissions[a].termEnd < emissions[a].textEnd < n
  }

  lemma AllBeforePending(es: seq<Event>, n: nat)
    requires n <= |es|
    ensures var t := TraceOf(es, n);
            t.term.Some? ==> AllBefore(t.emissions, t.term.value.1)
  {
    TraceExact(es, n);
    var t := TraceOf(es, n);
    forall a | 0 <= a < |t.emissions| && t.term.Some?
      ensures t.emissions[a].termEnd < t.emissions[a].textEnd < t.term.value.1
    {
      assert t.emissions[a] in t.emissions;
      EmittedBeforePending(es, n, t.emissions[a], t.term.value.0, t.term.value.1);
    }
  }

  /** Each emission's term closes before its description, which closes before the next emission's term. */
  ghost predicate InOrder(emissions: seq<Emission>) {
    forall a, b :: 0 <= a < b < |emissions| ==>
      emissions[a].termEnd < emissions[a].textEnd < emissions[b].termEnd
  }

  lemma OneMoreInOrder(emissions: seq<Emission>, e: Emission)
    requires InOrder(emissions) && AllBefore(emissions, e.termEnd)
    ensures InOrder(emissions + [e])
  {
  }

  /** Terms are consumed in order and at most once each: between two definitions the first description
      closes before the second term does. */
  lemma TermsUsedOnce(es: seq<Event>, n: nat)
    requires n <= |es|
    ensures InOrder(TraceOf(es, n).emissions)
  {
    for k := 0 to n
      invariant InOrder(TraceOf(es, k).emissions)
    {
      InOrderStep(es, k);
    }
  }

  lemma InOrderStep(es: seq<Event>, n: nat)
    requires n < |es| && InOrder(TraceOf(es, n).emissions)
    ensures InOrder(TraceOf(es, n + 1).emissions)
  {
    EmissionsNext(es, n);
    AllBeforePending(es, n);
    var t := TraceOf(es, n);
    if t.capture.Some? && t.term.Some? {
      OneMoreInOrder(t.emissions, Emission(t.term.value.0, t.term.value.1, t.capture.value, n, t.section));
    }
  }

  ghost predicate TermClosesAt(es: seq<Event>, n: nat)
    requires n < |es|
  {
    es[n] == End("dt") && ClosesAt(es, LIST_TAGS, n)
  }

  /** The number of terms closed among the first n events. */
  ghost function ClosedTerms(es: seq<Event>, n: nat): nat
    requires n <= |es|
  {
    if n == 0 then 0 else ClosedTerms(es, n - 1) + if TermClosesAt(es, n - 1) then 1 else 0
  }

  /** A term closes at event n exactly when it is the captured element. */
  lemma TermClosing(es: seq<Event>, n: nat)
    requires n < |es|
    ensures var t := TraceOf(es, n);
            TermClosesAt(es, n)
            <==> t.capture.Some? && es[n] == End(es[t.capture.value].tag) && es[n].tag == "dt"
  {
    TraceExact(es, n);
    ListClosing(es, n);
  }

  /** The terms taken so far, in a definition or still pending. */
  ghost function TakenTerms(t: Trace): nat {
    |t.emissions| + if t.term.Some? then 1 else 0
  }

  lemma TakenStep(es: seq<Event>, n: nat)
    requires n < |es|
    ensures TakenTerms(TraceOf(es, n + 1)) <= TakenTerms(TraceOf(es, n)) + if TermClosesAt(es, n) then 1 else 0
  {
    TermClosing(es, n);
    EmissionsNext(es, n);
    TermNext(es, n);
  }

  /** Definitions never outnumber closed terms. */
  lemma {:induction false} NoMoreThanTerms(es: seq<Event>, n: nat)
    requires n <= |es|
    ensures |TraceOf(es, n).emissions| <= TakenTerms(TraceOf(es, n)) <= ClosedTerms(es, n)
  {
    if n > 0 {
      NoMoreThanTerms(es, n - 1);
      TakenStep(es, n - 1);
    }
  }
}
