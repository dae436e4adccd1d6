/** The canonical text of a JSON value: sorted names, no blanks, and no escape that is not needed. */
module CanonicalJson {
  import opened JsonValues
  import opened Outcomes
  import opened JsonText
  import JsonReader
  import JsonRoundTrip
  import Decimal
  import Lexicographic

  /** `json.dumps(v, sort_keys=True, separators=(",", ":"), ensure_ascii=False)`. */
  function Print(v: Json): string {
    JsonText.Print(v, Compact, 0)
  }

  /** The text is in the compact layout: the names of every object in increasing order, no blanks,
      only what must be escaped is escaped, in its short form where there is one, and no number has a
      leading zero or is minus zero. */
  predicate Canonical(t: string) {
    JsonReader.ParseExact(t, Compact).Some?
  }

  /** `json.loads(jcs(v)) == v`. */
  lemma RoundTrip(v: Json)
    ensures JsonReader.Parse(Print(v)) == Some(v)
  {
    JsonRoundTrip.RoundTrip(v, Compact, "");
    assert Print(v) + "" == Print(v);
  }

  /** Of all the texts that read as a value, the printed one is the only canonical one. */
  lemma CanonicalExact(t: string, v: Json)
    ensures JsonReader.Parse(t) == Some(v) && Canonical(t) <==> t == Print(v)
  {
    JsonRoundTrip.ExactRoundTrip(t, v, Compact);
    JsonRoundTrip.ExactIsLoose(t, Compact);
    RoundTrip(v);
  }

  /** Canonical texts are equal exactly when the values are. */
  lemma PrintIdentifies(v: Json, w: Json)
    ensures Print(v) == Print(w) <==> v == w
  {
    RoundTrip(v);
    RoundTrip(w);
  }

  // ----------------------------------------------------- no control characters

  ghost predicate Printable(s: string) {
    forall i :: 0 <= i < |s| ==> s[i] >= ' '
  }

  lemma CharPrintable(c: char)
    ensures Printable(EscapeChar(c, Compact))
  {
    if !JsonReader.HasShort(c) && c < ' ' {
      var n := c as int;
      JsonRoundTrip.HexRead(n, "");
      assert Hex4(n) + "" == Hex4(n);
      assert EscapeChar(c, Compact) == "\\u" + Hex4(n);
    }
  }

  lemma {:induction false} EscapePrintable(s: string)
    ensures Printable(Escape(s, Compact))
  {
    if s != [] {
      EscapePrintable(s[1..]);
      CharPrintable(s[0]);
    }
  }

  /** Canonical text has no control character, so no raw line feed. */
  lemma PrintPrintable(v: Json)
    ensures Printable(Print(v))
  {
    CompactPrintable(v, 0);
  }

  lemma {:induction false} CompactPrintable(v: Json, level: nat)
    ensures Printable(JsonText.Print(v, Compact, level))
    decreases v
  {
    match v
    case Null =>
    case Bool(_) =>
    case Int(n) =>
    case Str(s) => EscapePrintable(s);
    case Arr(items) => ItemsPrintable(items, level + 1);
    case Obj(members) => MembersPrintable(v, Lexicographic.Sorted(members.Keys), level + 1);
  }

  lemma {:induction false} ItemsPrintable(items: seq<Json>, level: nat)
    ensures Printable(PrintItems(items, Compact, level))
    decreases items
  {
    if items != [] {
      CompactPrintable(items[0], level);
      ItemsPrintable(items[1..], level);
    }
  }

  lemma {:induction false} MembersPrintable(v: Json, keys: seq<string>, level: nat)
    requires v.Obj? && forall k :: k in keys ==> k in v.members
    ensures Printable(PrintMembers(v, keys, Compact, level))
    decreases v, |keys|
  {
    if keys != [] {
      EscapePrintable(keys[0]);
      CompactPrintable(v.members[keys[0]], level);
      assert Printable(PrintMember(v, keys[0], Compact, level));
      MembersPrintable(v, keys[1..], level);
    }
  }
}
