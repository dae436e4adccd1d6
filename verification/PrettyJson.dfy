/**
 `json.dumps(value, indent=2, sort_keys=True)`: indented text with sorted names
 and every character outside printable ASCII escaped.
 */
module PrettyJson {
  import opened JsonValues
  import opened Outcomes
  import opened JsonText
  import JsonReader
  import JsonRoundTrip
  import Decimal
  import Lexicographic
  import Utf8

  function Print(v: Json, level: nat): string {
    JsonText.Print(v, Indented, level)
  }

  /** `json.loads` of the text and its final line feed gives the value back. */
  lemma RoundTrip(v: Json)
    ensures JsonReader.Parse(Print(v, 0) + "\n") == Some(v)
  {
    JsonRoundTrip.RoundTrip(v, Indented, "\n");
  }

  /** Of all the texts that read as a value, the printed one is the only one with names in increasing
      order, every item and member on a line of its own, indented by two blanks a level, and every
      character outside printable ASCII escaped. */
  lemma PrettyExact(t: string, v: Json)
    ensures JsonReader.Parse(t) == Some(v) && JsonReader.ParseExact(t, Indented).Some? <==> t == Print(v, 0)
  {
    JsonRoundTrip.ExactRoundTrip(t, v, Indented);
    JsonRoundTrip.ExactIsLoose(t, Indented);
  }

  // --------------------------------------------------------------------- ASCII

  predicate Ascii(s: string) {
    forall i :: 0 <= i < |s| ==> s[i] as int < 0x80
  }

  lemma HexAscii(n: nat)
    requires n < 0x10000
    ensures Ascii(Hex4(n))
  {
    JsonRoundTrip.HexRead(n, "");
    assert Hex4(n) + "" == Hex4(n);
  }

  lemma CharAscii(c: char)
    ensures Ascii(EscapeChar(c, Indented))
  {
    var n := c as int;
    if JsonReader.WantsHex(c, Indented) {
      if n < 0x10000 {
        HexAscii(n);
        AsciiConcat("\\u", Hex4(n), "", "");
        assert "\\u" + Hex4(n) + "" + "" == "\\u" + Hex4(n);
      } else {
        LongAscii(c);
      }
    }
  }

  lemma LongAscii(c: char)
    requires c as int >= 0x10000
    ensures Ascii(EscapeChar(c, Indented))
  {
    var n := c as int;
    var hi, lo := Hex4(0xD800 + (n - 0x10000) / 1024), Hex4(0xDC00 + (n - 0x10000) % 1024);
    JsonRoundTrip.SurrogateParts(n);
    HexAscii(0xD800 + (n - 0x10000) / 1024);
    HexAscii(0xDC00 + (n - 0x10000) % 1024);
    AsciiConcat("\\u", hi, "\\u", lo);
    assert "\\u" + hi + ("\\u" + lo) == "\\u" + hi + "\\u" + lo;
  }

  lemma {:induction false} EscapeAscii(s: string)
    ensures Ascii(Escape(s, Indented))
  {
    if s != [] {
      CharAscii(s[0]);
      EscapeAscii(s[1..]);
    }
  }

  lemma QuoteAscii(s: string)
    ensures Ascii(Quote(s, Indented))
  {
    EscapeAscii(s);
  }

  lemma GapAscii(level: nat)
    ensures Ascii(Gap(Indented, level))
  {
    JsonRoundTrip.NewLineShape(level);
  }

  lemma AsciiConcat(open: string, body: string, line: string, close: string)
    requires Ascii(open) && Ascii(body) && Ascii(line) && Ascii(close)
    ensures Ascii(open + body + line + close)
  {
  }

  lemma ScalarAscii(v: Json, level: nat)
    requires !v.Arr? && !v.Obj?
    ensures Ascii(Print(v, level))
  {
    if v.Str? {
      QuoteAscii(v.s);
    }
  }

  lemma ArrayAscii(v: Json, level: nat)
    requires v.Arr? && Ascii(PrintItems(v.items, Indented, level + 1))
    ensures Ascii(Print(v, level))
  {
    GapAscii(level);
    AsciiConcat("[", PrintItems(v.items, Indented, level + 1), Gap(Indented, level), "]");
  }

  lemma ObjectAscii(v: Json, level: nat)
    requires v.Obj? && Ascii(PrintMembers(v, Lexicographic.Sorted(v.members.Keys), Indented, level + 1))
    ensures Ascii(Print(v, level))
  {
    GapAscii(level);
    AsciiConcat("{", PrintMembers(v, Lexicographic.Sorted(v.members.Keys), Indented, level + 1),
                Gap(Indented, level), "}");
  }

  lemma {:induction false} PrintAscii(v: Json, level: nat)
    ensures Ascii(Print(v, level))
    decreases v
  {
    match v
    case Arr(items) =>
      ItemsAscii(items, level + 1);
      ArrayAscii(v, level);
    case Obj(members) =>
      MembersAscii(v, Lexicographic.Sorted(members.Keys), level + 1);
      ObjectAscii(v, level);
    case _ => ScalarAscii(v, level);
  }

  lemma {:induction false} ItemsAscii(items: seq<Json>, level: nat)
    ensures Ascii(PrintItems(items, Indented, level))
    decreases items
  {
    if items != [] {
      GapAscii(level);
      PrintAscii(items[0], level);
      ItemsAscii(items[1..], level);
      AsciiConcat(Gap(Indented, level), Print(items[0], level), ",", PrintItems(items[1..], Indented, level));
    }
  }

  lemma {:induction false} MembersAscii(v: Json, keys: seq<string>, level: nat)
    requires v.Obj? && forall k :: k in keys ==> k in v.members
    ensures Ascii(PrintMembers(v, keys, Indented, level))
    decreases v, |keys|
  {
    if keys != [] {
      GapAscii(level);
      QuoteAscii(keys[0]);
      PrintAscii(v.members[keys[0]], level);
      AsciiConcat(Gap(Indented, level), Quote(keys[0], Indented), ": ", Print(v.members[keys[0]], level));
      MembersAscii(v, keys[1..], level);
    }
  }

  /** The file size of an ASCII text is its length. */
  lemma TextSize(v: Json, level: nat)
    ensures |Utf8.Encode(Print(v, level) + "\n")| == |Print(v, level)| + 1
  {
    PrintAscii(v, level);
    Utf8.AsciiLength(Print(v, level) + "\n");
  }

  // ------------------------------------- replacing one member by another value

  /** What the members take apart from the value of one of them. */
  lemma {:induction false} OneMemberLength(v: Json, w: Json, keys: seq<string>, key: string, level: nat)
    requires v.Obj? && w.Obj? && Lexicographic.StrictlySorted(keys) && key in keys
    requires forall k :: k in keys ==> k in v.members && k in w.members
    requires forall k :: k in keys && k != key ==> v.members[k] == w.members[k]
    ensures |PrintMembers(v, keys, Indented, level)| - |Print(v.members[key], level)|
         == |PrintMembers(w, keys, Indented, level)| - |Print(w.members[key], level)|
    decreases |keys|
  {
    Lexicographic.TailMembers(keys);
    if keys[0] == key {
      JsonRoundTrip.MembersAgree(v, w, keys[1..], Indented, level);
    } else {
      OneMemberLength(v, w, keys[1..], key, level);
    }
  }

  /** The text of an object grows and shrinks with the text of the one member that changes. */
  lemma MemberLength(members: Dict, key: string, x: Json, y: Json)
    ensures |Print(Obj(members[key := x]), 0)| - |Print(x, 1)|
         == |Print(Obj(members[key := y]), 0)| - |Print(y, 1)|
  {
    var v, w := Obj(members[key := x]), Obj(members[key := y]);
    assert key in v.members && key in w.members;
    assert v.members.Keys == w.members.Keys;
    OneMemberLength(v, w, Lexicographic.Sorted(v.members.Keys), key, 1);
  }
}
