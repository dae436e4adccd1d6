/**
 The HTML definition-list extractor: a state machine over parser events, and
 its meaning over the whole list of events.
 */
module DefinitionList {
  import opened Outcomes
  import opened PythonText

  datatype Event = Start(tag: string) | Data(text: string) | End(tag: string)

  datatype Definition = Definition(section: Option<string>, term: string, description: string)

  const HEADINGS: set<string> := {"h1", "h2", "h3", "h4", "h5", "h6"}
  const LIST_TAGS: set<string> := {"dt", "dd"}

  // ------------------------------------------------------------ text of an element

  function JoinWith(parts: seq<string>, separator: string): string {
    if parts == [] then "" else if |parts| == 1 then parts[0] else parts[0] + separator + JoinWith(parts[1..], separator)
  }

  function WordLength(s: string): (n: nat)
    ensures n <= |s|
    ensures s != "" && !IsSpace(s[0]) ==> n > 0
  {
    if s == "" || IsSpace(s[0]) then 0 else 1 + WordLength(s[1..])
  }

  /** `s.split()`. */
  function Words(s: string): seq<string>
    decreases |s|
  {
    if s == "" then []
    else if IsSpace(s[0]) then Words(s[1..])
    else
      var n := WordLength(s);
      [s[..n]] + Words(s[n..])
  }

  /** `" ".join(" ".join(parts).split())`. */
  function NormalText(parts: seq<string>): string {
    JoinWith(Words(JoinWith(parts, " ")), " ")
  }

  // ---------------------------------------------------------------- the extractor

  /** How the captured parts of an element become its text; the extractor uses NormalText. */
  type Normaliser = seq<string> -> string

  /** The fields of the extractor. */
  datatype State = State(
    capture: Option<string>,
    parts: seq<string>,
    term: Option<string>,
    headingTag: Option<string>,
    headingParts: seq<string>,
    section: Option<string>,
    definitions: seq<Definition>)

  class DefinitionExtractor {
    const normal: Normaliser
    var capture: Option<string>
    var parts: seq<string>
    var term: Option<string>
    var headingTag: Option<string>
    var headingParts: seq<string>
    var section: Option<string>
    var definitions: seq<Definition>
    ghost var history: seq<Event>

    ghost function Fields(): State
      reads this
    {
      State(capture, parts, term, headingTag, headingParts, section, definitions)
    }

    /** The fields are what the events handled so far make them. */
    ghost predicate Valid()
      reads this
    {
      Fields() == Meaning(normal, history, |history|)
    }

    constructor ()
      ensures Valid() && history == [] && normal == NormalText
    {
      normal := NormalText;
      capture, parts, term := None, [], None;
      headingTag, headingParts, section := None, [], None;
      definitions, history := [], [];
    }

    method HandleStartTag(tag: string)
      requires Valid()
      modifies this
      ensures Valid() && history == old(history) + [Start(tag)]
    {
      ghost var before := history;
      if tag in HEADINGS {
        headingTag := Some(tag);
        headingParts := [];
      }
      if tag in LIST_TAGS {
        capture := Some(tag);
        parts := [];
      }
      history := history + [Start(tag)];
      MeaningStart(normal, before, tag);
    }

    method HandleData(data: string)
      requires Valid()
      modifies this
      ensures Valid() && history == old(history) + [Data(data)]
    {
      ghost var before := history;
      if headingTag.Some? {
        headingParts := headingParts + [data];
      }
      if capture.Some? {
        parts := parts + [data];
      }
      history := history + [Data(data)];
      MeaningData(normal, before, data);
    }

    method HandleEndTag(tag: string)
      requires Valid()
      modifies this
      ensures Valid() && history == old(history) + [End(tag)]
    {
      MeaningEnd(normal, history, tag);
      CloseElements(tag);
      history := history + [End(tag)];
    }

    /** The body of `handle_endtag`. */
    method CloseElements(tag: string)
      modifies this
      ensures Fields() == ListClosed(normal, HeadingClosed(normal, old(Fields()), tag), tag) && history == old(history)
    {
      if headingTag == Some(tag) {
        section := Some(normal(headingParts));
        headingTag := None;
        headingParts := [];
      }
      if capture != Some(tag) {
        return;
      }
      var text := normal(parts);
      if tag == "dt" {
        term := Some(text);
      } else if term.Some? {
        definitions := definitions + [Definition(section, term.value, text)];
        term := None;
      }
      capture := None;
      parts := [];
    }
  }

  // ------------------------------------------- where everything in the state is from

  /** A term and a description, by the events that open and close them, and the heading above. */
  datatype Emission = Emission(
    termStart: nat, termEnd: nat, textStart: nat, textEnd: nat, heading: Option<(nat, nat)>)

  datatype Trace = Trace(
    capture: Option<nat>,
    term: Option<(nat, nat)>,
    heading: Option<nat>,
    section: Option<(nat, nat)>,
    emissions: seq<Emission>)

  /** Every position is of an event seen before, and the open elements were opened by a start tag. */
  ghost predicate TraceValid(es: seq<Event>, t: Trace, n: nat) {
    && n <= |es|
    && (t.capture.Some? ==> t.capture.value < n && es[t.capture.value].Start?)
    && (t.heading.Some? ==> t.heading.value < n && es[t.heading.value].Start?)
    && (t.term.Some? ==> t.term.value.0 < t.term.value.1 < n)
    && (t.section.Some? ==> t.section.value.0 < t.section.value.1 < n)
    && AllInRange(t.emissions, n)
  }

  ghost function TraceOf(es: seq<Event>, n: nat): (t: Trace)
    requires n <= |es|
    ensures TraceValid(es, t, n)
  {
    if n == 0 then Trace(None, None, None, None, [])
    else TraceStep(es, n - 1, TraceOf(es, n - 1))
  }

  ghost function TraceStep(es: seq<Event>, n: nat, t: Trace): (t': Trace)
    requires n < |es| && TraceValid(es, t, n)
    ensures TraceValid(es, t', n + 1)
  {
    match es[n]
    case Data(_) => t
    case Start(tag) => OpenAt(t, n, tag)
    case End(tag) => CloseList(es, n, CloseHeading(es, n, t))
  }

  ghost function OpenAt(t: Trace, n: nat, tag: string): Trace {
    t.(heading := if tag in HEADINGS then Some(n) else t.heading,
       capture := if tag in LIST_TAGS then Some(n) else t.capture)
  }

  ghost predicate InRange(e: Emission, n: nat) {
    && e.termStart < e.termEnd < n && e.textStart < e.textEnd < n
    && (e.heading.Some? ==> e.heading.value.0 < e.heading.value.1 < n)
  }

  ghost function CloseHeading(es: seq<Event>, n: nat, t: Trace): (t': Trace)
    requires n < |es| && es[n].End? && TraceValid(es, t, n)
    ensures TraceValid(es, t', n + 1)
    ensures t'.capture.Some? ==> t'.capture.value < n
  {
    if t.heading.Some? && es[t.heading.value].tag == es[n].tag
    then t.(section := Some((t.heading.value, n)), heading := None) else t
  }

  ghost function CloseList(es: seq<Event>, n: nat, t: Trace): (t': Trace)
    requires n < |es| && es[n].End? && TraceValid(es, t, n + 1) && (t.capture.Some? ==> t.capture.value < n)
    ensures TraceValid(es, t', n + 1)
  {
    if t.capture.None? || es[t.capture.value].tag != es[n].tag then t
    else
      var start := t.capture.value;
      if es[n].tag == "dt" then t.(term := Some((start, n)), capture := None)
      else if t.term.Some? then
        t.(emissions := t.emissions + [Emission(t.term.value.0, t.term.value.1, start, n, t.section)],
           term := None, capture := None)
      else t.(capture := None)
  }

  /** The character data between two events. */
  ghost function Between(es: seq<Event>, lo: nat, hi: nat): seq<string>
    requires lo <= hi <= |es|
    decreases hi
  {
    if lo == hi then []
    else Between(es, lo, hi - 1) + if es[hi - 1].Data? then [es[hi - 1].text] else []
  }

  /** The normalised text of the element opened and closed by two events. */
  ghost function TextOf(normal: Normaliser, es: seq<Event>, span: (nat, nat)): string
    requires span.0 < span.1 <= |es|
  {
    normal(Between(es, span.0 + 1, span.1))
  }

  ghost function DefinitionOf(normal: Normaliser, es: seq<Event>, e: Emission): Definition
    requires InRange(e, |es|)
  {
    Definition(
      ClosedText(normal, es, e.heading),
      TextOf(normal, es, (e.termStart, e.termEnd)),
      TextOf(normal, es, (e.textStart, e.textEnd)))
  }

  ghost predicate AllInRange(emissions: seq<Emission>, n: nat) {
    forall i :: 0 <= i < |emissions| ==> InRange(emissions[i], n)
  }

  ghost function DefinitionsOf(normal: Normaliser, es: seq<Event>, emissions: seq<Emission>): seq<Definition>
    requires AllInRange(emissions, |es|)
  {
    if emissions == [] then []
    else
      var n := |emissions| - 1;
      DefinitionsOf(normal, es, emissions[..n]) + [DefinitionOf(normal, es, emissions[n])]
  }

  lemma {:induction false} DefinitionsAt(normal: Normaliser, es: seq<Event>, emissions: seq<Emission>)
    requires AllInRange(emissions, |es|)
    ensures var ds := DefinitionsOf(normal, es, emissions);
            |ds| == |emissions| && forall i :: 0 <= i < |ds| ==> ds[i] == DefinitionOf(normal, es, emissions[i])
  {
    if emissions != [] {
      DefinitionsAt(normal, es, emissions[..|emissions| - 1]);
    }
  }

  // The fields of an element that is open from some event on, and of one that has been closed.

  ghost function OpenTag(es: seq<Event>, start: Option<nat>): Option<string>
    requires start.Some? ==> start.value < |es| && es[start.value].Start?
  {
    if start.Some? then Some(es[start.value].tag) else None
  }

  ghost function OpenParts(es: seq<Event>, start: Option<nat>, n: nat): seq<string>
    requires n <= |es| && (start.Some? ==> start.value < n)
  {
    if start.Some? then Between(es, start.value + 1, n) else []
  }

  ghost function ClosedText(normal: Normaliser, es: seq<Event>, span: Option<(nat, nat)>): Option<string>
    requires span.Some? ==> span.value.0 < span.value.1 <= |es|
  {
    if span.Some? then Some(TextOf(normal, es, span.value)) else None
  }

  /** The fields of the extractor after the first n events. */
  ghost function Meaning(normal: Normaliser, es: seq<Event>, n: nat): State
    requires n <= |es|
  {
    MeaningOf(normal, es, n, TraceOf(es, n))
  }

  ghost function MeaningOf(normal: Normaliser, es: seq<Event>, n: nat, t: Trace): State
    requires TraceValid(es, t, n)
  {
    State(
      OpenTag(es, t.capture), OpenParts(es, t.capture, n), ClosedText(normal, es, t.term),
      OpenTag(es, t.heading), OpenParts(es, t.heading, n), ClosedText(normal, es, t.section),
      DefinitionsOf(normal, es, t.emissions))
  }

  // ---------------------------------------------------- one more event, field by field

  lemma {:induction false} TracePrefix(es: seq<Event>, e: Event, n: nat)
    requires n <= |es|
    ensures TraceOf(es + [e], n) == TraceOf(es, n)
  {
    if n > 0 {
      TracePrefix(es, e, n - 1);
      TraceNextPrefix(es, e, n - 1);
    }
  }

  lemma TraceNextPrefix(es: seq<Event>, e: Event, n: nat)
    requires n < |es| && TraceOf(es + [e], n) == TraceOf(es, n)
    ensures TraceOf(es + [e], n + 1) == TraceOf(es, n + 1)
  {
    var t := TraceOf(es, n);
    assert TraceValid(es, t, n);
    StepPrefix(es, e, n, t);
  }

  lemma StepPrefix(es: seq<Event>, e: Event, n: nat, t: Trace)
    requires n < |es| && TraceValid(es, t, n)
    ensures TraceValid(es + [e], t, n) && TraceStep(es + [e], n, t) == TraceStep(es, n, t)
  {
    if es[n].End? {
      ClosePrefix(es, e, n, t);
    }
  }

  lemma ClosePrefix(es: seq<Event>, e: Event, n: nat, t: Trace)
    requires n < |es| && es[n].End? && TraceValid(es, t, n)
    ensures TraceValid(es + [e], t, n)
    ensures CloseHeading(es + [e], n, t) == CloseHeading(es, n, t)
    ensures CloseList(es + [e], n, CloseHeading(es + [e], n, t)) == CloseList(es, n, CloseHeading(es, n, t))
  {
  }

  lemma {:induction false} BetweenPrefix(es: seq<Event>, e: Event, lo: nat, hi: nat)
    requires lo <= hi <= |es|
    ensures Between(es + [e], lo, hi) == Between(es, lo, hi)
    decreases hi
  {
    if lo < hi {
      BetweenPrefix(es, e, lo, hi - 1);
    }
  }

  lemma PartsPrefix(es: seq<Event>, e: Event, start: Option<nat>, n: nat)
    requires n <= |es| && (start.Some? ==> start.value < n)
    ensures OpenParts(es + [e], start, n) == OpenParts(es, start, n)
  {
    if start.Some? {
      BetweenPrefix(es, e, start.value + 1, n);
    }
  }

  lemma TextPrefix(normal: Normaliser, es: seq<Event>, e: Event, span: Option<(nat, nat)>)
    requires span.Some? ==> span.value.0 < span.value.1 <= |es|
    ensures ClosedText(normal, es + [e], span) == ClosedText(normal, es, span)
  {
    if span.Some? {
      BetweenPrefix(es, e, span.value.0 + 1, span.value.1);
    }
  }

  lemma DefinitionPrefix(normal: Normaliser, es: seq<Event>, e: Event, m: Emission)
    requires InRange(m, |es|)
    ensures DefinitionOf(normal, es + [e], m) == DefinitionOf(normal, es, m)
  {
    TextPrefix(normal, es, e, m.heading);
    BetweenPrefix(es, e, m.termStart + 1, m.termEnd);
    BetweenPrefix(es, e, m.textStart + 1, m.textEnd);
  }

  lemma {:induction false} DefinitionsPrefix(normal: Normaliser, es: seq<Event>, e: Event, emissions: seq<Emission>)
    requires AllInRange(emissions, |es|)
    ensures AllInRange(emissions, |es + [e]|)
    ensures DefinitionsOf(normal, es + [e], emissions) == DefinitionsOf(normal, es, emissions)
  {
    if emissions != [] {
      var n := |emissions| - 1;
      DefinitionsPrefix(normal, es, e, emissions[..n]);
      DefinitionPrefix(normal, es, e, emissions[n]);
    }
  }

  lemma MeaningPrefix(normal: Normaliser, es: seq<Event>, e: Event, t: Trace)
    requires TraceValid(es, t, |es|)
    ensures TraceValid(es + [e], t, |es|)
    ensures MeaningOf(normal, es + [e], |es|, t) == MeaningOf(normal, es, |es|, t)
  {
    PartsPrefix(es, e, t.capture, |es|);
    PartsPrefix(es, e, t.heading, |es|);
    TextPrefix(normal, es, e, t.term);
    TextPrefix(normal, es, e, t.section);
    DefinitionsPrefix(normal, es, e, t.emissions);
  }

  /** What event n adds to the parts of an open element. */
  lemma PartsStep(es: seq<Event>, start: Option<nat>, n: nat)
    requires n < |es| && (start.Some? ==> start.value < n)
    ensures OpenParts(es, start, n + 1)
         == OpenParts(es, start, n) + if start.Some? && es[n].Data? then [es[n].text] else []
  {
  }

  /** A tag adds no text to the open elements. */
  lemma TagAddsNoText(normal: Normaliser, es: seq<Event>, n: nat, t: Trace)
    requires n < |es| && !es[n].Data? && TraceValid(es, t, n)
    ensures TraceValid(es, t, n + 1) && MeaningOf(normal, es, n + 1, t) == MeaningOf(normal, es, n, t)
  {
    PartsStep(es, t.capture, n);
    PartsStep(es, t.heading, n);
  }

  ghost function WithText(s: State, data: string): State {
    s.(parts := if s.capture.Some? then s.parts + [data] else s.parts,
       headingParts := if s.headingTag.Some? then s.headingParts + [data] else s.headingParts)
  }

  lemma DataStep(normal: Normaliser, es: seq<Event>, n: nat, t: Trace, data: string)
    requires n < |es| && es[n] == Data(data) && TraceValid(es, t, n)
    ensures TraceValid(es, t, n + 1)
    ensures MeaningOf(normal, es, n + 1, t) == WithText(MeaningOf(normal, es, n, t), data)
  {
    PartsStep(es, t.capture, n);
    PartsStep(es, t.heading, n);
  }

  ghost function Opened(s: State, tag: string): State {
    s.(capture := if tag in LIST_TAGS then Some(tag) else s.capture,
       parts := if tag in LIST_TAGS then [] else s.parts,
       headingTag := if tag in HEADINGS then Some(tag) else s.headingTag,
       headingParts := if tag in HEADINGS then [] else s.headingParts)
  }

  lemma OpenMeaning(normal: Normaliser, es: seq<Event>, n: nat, t: Trace, tag: string)
    requires n < |es| && es[n] == Start(tag) && TraceValid(es, t, n + 1)
    ensures TraceValid(es, OpenAt(t, n, tag), n + 1)
    ensures MeaningOf(normal, es, n + 1, OpenAt(t, n, tag)) == Opened(MeaningOf(normal, es, n + 1, t), tag)
  {
  }

  lemma StartStep(normal: Normaliser, es: seq<Event>, n: nat, t: Trace, tag: string)
    requires n < |es| && es[n] == Start(tag) && TraceValid(es, t, n)
    ensures TraceValid(es, OpenAt(t, n, tag), n + 1)
    ensures MeaningOf(normal, es, n + 1, OpenAt(t, n, tag)) == Opened(MeaningOf(normal, es, n, t), tag)
  {
    TagAddsNoText(normal, es, n, t);
    OpenMeaning(normal, es, n, t, tag);
  }

  lemma TraceStart(es: seq<Event>, tag: string)
    ensures TraceOf(es + [Start(tag)], |es| + 1) == OpenAt(TraceOf(es, |es|), |es|, tag)
  {
    TracePrefix(es, Start(tag), |es|);
  }

  lemma MeaningStart(normal: Normaliser, es: seq<Event>, tag: string)
    ensures Meaning(normal, es + [Start(tag)], |es| + 1) == Opened(Meaning(normal, es, |es|), tag)
  {
    var t, more := TraceOf(es, |es|), es + [Start(tag)];
    TraceStart(es, tag);
    MeaningPrefix(normal, es, Start(tag), t);
    StartStep(normal, more, |es|, t, tag);
  }

  lemma TraceData(es: seq<Event>, data: string)
    ensures TraceOf(es + [Data(data)], |es| + 1) == TraceOf(es, |es|)
  {
    TracePrefix(es, Data(data), |es|);
  }

  lemma MeaningData(normal: Normaliser, es: seq<Event>, data: string)
    ensures Meaning(normal, es + [Data(data)], |es| + 1) == WithText(Meaning(normal, es, |es|), data)
  {
    var t, more := TraceOf(es, |es|), es + [Data(data)];
    TraceData(es, data);
    MeaningPrefix(normal, es, Data(data), t);
    DataStep(normal, more, |es|, t, data);
  }

  ghost function HeadingClosed(normal: Normaliser, s: State, tag: string): State {
    if s.headingTag == Some(tag) then
      s.(section := Some(normal(s.headingParts)), headingTag := None, headingParts := [])
    else s
  }

  ghost function ListClosed(normal: Normaliser, s: State, tag: string): State {
    if s.capture != Some(tag) then s
    else
      var text := normal(s.parts);
      if tag == "dt" then s.(term := Some(text), capture := None, parts := [])
      else if s.term.Some? then
        s.(definitions := s.definitions + [Definition(s.section, s.term.value, text)], term := None,
           capture := None, parts := [])
      else s.(capture := None, parts := [])
  }

  lemma HeadingCloses(normal: Normaliser, es: seq<Event>, tag: string, t: Trace)
    requires es != [] && es[|es| - 1] == End(tag) && TraceValid(es, t, |es| - 1)
    ensures MeaningOf(normal, es, |es|, CloseHeading(es, |es| - 1, t)) == HeadingClosed(normal, MeaningOf(normal, es, |es| - 1, t), tag)
  {
    TagAddsNoText(normal, es, |es| - 1, t);
  }

  lemma TextAtClose(normal: Normaliser, es: seq<Event>, start: nat)
    requires es != [] && es[|es| - 1].End? && start < |es| - 1
    ensures Between(es, start + 1, |es|) == Between(es, start + 1, |es| - 1)
    ensures normal(Between(es, start + 1, |es|)) == TextOf(normal, es, (start, |es| - 1))
  {
  }

  lemma OneMoreDefinition(normal: Normaliser, es: seq<Event>, emissions: seq<Emission>, m: Emission)
    requires AllInRange(emissions, |es|) && InRange(m, |es|)
    ensures AllInRange(emissions + [m], |es|)
    ensures DefinitionsOf(normal, es, emissions + [m]) == DefinitionsOf(normal, es, emissions) + [DefinitionOf(normal, es, m)]
  {
    assert (emissions + [m])[..|emissions|] == emissions;
  }

  /** The fields once the captured element has become the pending term. */
  lemma TermMeaning(normal: Normaliser, es: seq<Event>, t: Trace, start: nat)
    requires es != [] && es[|es| - 1].End? && TraceValid(es, t, |es|)
    requires t.capture == Some(start) && start < |es| - 1
    ensures var s := MeaningOf(normal, es, |es|, t);
            var closed := t.(term := Some((start, |es| - 1)), capture := None);
            && TraceValid(es, closed, |es|)
            && MeaningOf(normal, es, |es|, closed) == s.(term := Some(normal(s.parts)), capture := None, parts := [])
  {
    TextAtClose(normal, es, start);
  }

  lemma TermCloses(normal: Normaliser, es: seq<Event>, t: Trace)
    requires es != [] && es[|es| - 1] == End("dt") && TraceValid(es, t, |es|)
    requires t.capture.Some? && t.capture.value < |es| - 1 && es[t.capture.value].tag == "dt"
    ensures MeaningOf(normal, es, |es|, CloseList(es, |es| - 1, t)) == ListClosed(normal, MeaningOf(normal, es, |es|, t), "dt")
  {
    var start := t.capture.value;
    assert CloseList(es, |es| - 1, t) == t.(term := Some((start, |es| - 1)), capture := None);
    assert MeaningOf(normal, es, |es|, t).capture == Some("dt");
    TermMeaning(normal, es, t, start);
  }

  lemma DescriptionCloses(normal: Normaliser, es: seq<Event>, tag: string, t: Trace)
    requires es != [] && es[|es| - 1] == End(tag) && TraceValid(es, t, |es|) && tag != "dt"
    requires t.capture.Some? && t.capture.value < |es| - 1 && es[t.capture.value].tag == tag && t.term.None?
    ensures MeaningOf(normal, es, |es|, CloseList(es, |es| - 1, t)) == ListClosed(normal, MeaningOf(normal, es, |es|, t), tag)
  {
    assert CloseList(es, |es| - 1, t) == t.(capture := None);
  }

  lemma DefinitionCloses(normal: Normaliser, es: seq<Event>, tag: string, t: Trace)
    requires es != [] && es[|es| - 1] == End(tag) && TraceValid(es, t, |es|) && tag != "dt"
    requires t.capture.Some? && t.capture.value < |es| - 1 && es[t.capture.value].tag == tag && t.term.Some?
    ensures MeaningOf(normal, es, |es|, CloseList(es, |es| - 1, t)) == ListClosed(normal, MeaningOf(normal, es, |es|, t), tag)
  {
    var m := Emission(t.term.value.0, t.term.value.1, t.capture.value, |es| - 1, t.section);
    var t' := t.(emissions := t.emissions + [m], term := None, capture := None);
    var s := MeaningOf(normal, es, |es|, t);
    TextAtClose(normal, es, t.capture.value);
    OneMoreDefinition(normal, es, t.emissions, m);
    assert CloseList(es, |es| - 1, t) == t';
    assert DefinitionOf(normal, es, m) == Definition(s.section, s.term.value, normal(s.parts));
  }

  lemma ListCloses(normal: Normaliser, es: seq<Event>, tag: string, t: Trace)
    requires es != [] && es[|es| - 1] == End(tag) && TraceValid(es, t, |es|)
    requires t.capture.Some? ==> t.capture.value < |es| - 1
    ensures MeaningOf(normal, es, |es|, CloseList(es, |es| - 1, t)) == ListClosed(normal, MeaningOf(normal, es, |es|, t), tag)
  {
    if t.capture.Some? && es[t.capture.value].tag == tag {
      if tag == "dt" { TermCloses(normal, es, t); }
      else if t.term.Some? { DefinitionCloses(normal, es, tag, t); }
      else { DescriptionCloses(normal, es, tag, t); }
    }
  }

  lemma MeaningEnd(normal: Normaliser, es: seq<Event>, tag: string)
    ensures Meaning(normal, es + [End(tag)], |es| + 1) == ListClosed(normal, HeadingClosed(normal, Meaning(normal, es, |es|), tag), tag)
  {
    var t := TraceOf(es, |es|);
    var es' := es + [End(tag)];
    TracePrefix(es, End(tag), |es|);
    MeaningPrefix(normal, es, End(tag), t);
    HeadingCloses(normal, es', tag, t);
    ListCloses(normal, es', tag, CloseHeading(es', |es|, t));
  }
}
