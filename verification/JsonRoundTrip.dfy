/**
 Printing and reading: the loose reader and the exact reader of a layout read
 every printed value back, and the exact reader reads nothing else.
 */
module JsonRoundTrip {
  import opened JsonValues
  import opened Outcomes
  import opened JsonText
  import opened JsonReader
  import Decimal
  import Lexicographic

  /** The readers for the text of a layout. */
  predicate Reads(mode: Mode, style: Style) {
    mode.Loose? || mode.style == style
  }

  /** What may follow a number without being read as part of it. */
  predicate Stops(r: string) {
    r == [] || !Decimal.IsDigit(r[0])
  }

  predicate Solid(s: string) {
    s != [] && !IsBlank(s[0])
  }

  // ------------------------------------------------------------------- layout

  /** A new line is a line feed and two blanks for each level. */
  lemma {:induction false} NewLineShape(level: nat)
    ensures |NewLine(level)| == 1 + 2 * level && IndentAt(NewLine(level), level)
  {
    if level > 0 {
      NewLineShape(level - 1);
    }
  }

  lemma {:induction false} SkipAll(blanks: string, x: string)
    requires (forall i :: 0 <= i < |blanks| ==> IsBlank(blanks[i])) && Solid(x)
    ensures SkipBlanks(blanks + x) == x
  {
    if blanks == [] {
      assert blanks + x == x;
    } else {
      assert (blanks + x)[1..] == blanks[1..] + x;
      SkipAll(blanks[1..], x);
    }
  }

  lemma GapRead(style: Style, mode: Mode, level: nat, x: string)
    requires Reads(mode, style) && Solid(x)
    ensures EatGap(Gap(style, level) + x, mode, level) == Some(x)
  {
    NewLineShape(level);
    var g := Gap(style, level);
    if mode.Loose? {
      SkipAll(g, x);
    } else if style.Compact? {
      assert g + x == x;
    } else {
      assert (g + x)[|g|..] == x;
    }
  }

  lemma GapWritten(style: Style, level: nat, s: string)
    ensures var t := EatGap(s, Exact(style), level);
            t.Some? ==> s == Gap(style, level) + t.value
  {
    NewLineShape(level);
    if style.Compact? {
      assert "" + s == s;
    } else if IndentAt(s, level) {
      assert s == s[..1 + 2 * level] + s[1 + 2 * level..];
      assert s[..1 + 2 * level] == NewLine(level);
    }
  }

  lemma ColonRead(style: Style, mode: Mode, x: string)
    requires Reads(mode, style) && Solid(x)
    ensures EatColon(Colon(style) + x, mode) == Some(x)
  {
    if style.Compact? {
      assert (":" + x)[1..] == x;
    } else {
      assert (": " + x)[1..] == " " + x && (": " + x)[2..] == x;
      SkipAll(" ", x);
    }
  }

  lemma ColonWritten(style: Style, s: string)
    ensures var t := EatColon(s, Exact(style));
            t.Some? ==> s == Colon(style) + t.value
  {
    if EatColon(s, Exact(style)).Some? {
      if style.Compact? {
        assert s == ":" + s[1..];
      } else {
        assert s == ": " + s[2..];
      }
    }
  }

  lemma CommaRead(style: Style, mode: Mode, level: nat, close: char, x: string)
    requires Reads(mode, style)
    ensures Next("," + x, mode, level, close) == More(x)
  {
    assert ("," + x)[1..] == x;
  }

  lemma CloseRead(style: Style, mode: Mode, level: nat, close: char, x: string)
    requires Reads(mode, style) && (close == ']' || close == '}')
    ensures Next(Gap(style, level) + ([close] + x), mode, level, close) == Stop(x)
    ensures Stops(Gap(style, level) + ([close] + x))
  {
    var g, t := Gap(style, level), [close] + x;
    NewLineShape(level);
    GapRead(style, mode, level, t);
    assert t[1..] == x;
    if mode.Loose? {
      SkipAll(g, t);
    } else if style.Compact? {
      assert g + t == t;
    }
  }

  lemma NextWritten(style: Style, level: nat, close: char, s: string)
    ensures var a := Next(s, Exact(style), level, close);
            && (a.More? ==> s == "," + a.rest)
            && (a.Stop? ==> s == Gap(style, level) + ([close] + a.rest))
  {
    GapWritten(style, level, s);
    var u := EatGap(s, Exact(style), level);
    if s != [] && s[0] == ',' {
      assert s == "," + s[1..];
    } else if u.Some? && u.value != [] && u.value[0] == close {
      assert u.value == [close] + u.value[1..];
    }
  }

  // --------------------------------------------------------------- characters

  lemma HexDigits(n: nat)
    requires n < 0x10000
    ensures n == ((n / 4096 * 16 + n / 256 % 16) * 16 + n / 16 % 16) * 16 + n % 16
    ensures n / 4096 < 16
  {
    assert n / 256 / 16 == n / 4096;
    assert n / 16 / 16 == n / 256;
  }

  lemma HexCharValue(d: nat)
    requires d < 16
    ensures HexValue(HexChar(d)) == d
    ensures '0' <= HexChar(d) <= '9' || 'a' <= HexChar(d) <= 'f'
  {
  }

  lemma HexRead(n: nat, x: string)
    requires n < 0x10000
    ensures HexCode(Hex4(n) + x) == n && LowerHex(Hex4(n) + x) && (Hex4(n) + x)[4..] == x
  {
    HexDigits(n);
    HexCharValue(n / 4096);
    HexCharValue(n / 256 % 16);
    HexCharValue(n / 16 % 16);
    HexCharValue(n % 16);
  }

  lemma LowerHexChar(c: char)
    requires '0' <= c <= '9' || 'a' <= c <= 'f'
    ensures HexValue(c) >= 0 && HexChar(HexValue(c)) == c
  {
  }

  lemma DigitsOf(a: nat, b: nat, c: nat, d: nat)
    requires a < 16 && b < 16 && c < 16 && d < 16
    ensures var n := ((a * 16 + b) * 16 + c) * 16 + d;
            n < 0x10000 && n / 4096 == a && n / 256 % 16 == b && n / 16 % 16 == c && n % 16 == d
  {
  }

  lemma HexWritten(s: string)
    requires LowerHex(s)
    ensures 0 <= HexCode(s) && s == Hex4(HexCode(s)) + s[4..]
  {
    LowerHexChar(s[0]);
    LowerHexChar(s[1]);
    LowerHexChar(s[2]);
    LowerHexChar(s[3]);
    DigitsOf(HexValue(s[0]), HexValue(s[1]), HexValue(s[2]), HexValue(s[3]));
    assert s == [s[0], s[1], s[2], s[3]] + s[4..];
  }

  lemma SurrogateParts(n: nat)
    requires 0x10000 <= n < 0x110000
    ensures var hi, lo := 0xD800 + (n - 0x10000) / 1024, 0xDC00 + (n - 0x10000) % 1024;
            && 0xD800 <= hi < 0xDC00 && 0xDC00 <= lo < 0xE000
            && 0x10000 + (hi - 0xD800) * 1024 + (lo - 0xDC00) == n
  {
  }

  lemma UnicodeRead(c: char, style: Style, mode: Mode, x: string)
    requires Reads(mode, style) && WantsHex(c, style) && c as int < 0x10000
    ensures ReadUnicode(Hex4(c as int) + x, mode) == Done(c, x)
  {
    HexRead(c as int, x);
  }

  /** Two escapes in a row, for whatever digits a and b. */
  lemma PairText(a: string, b: string, x: string)
    requires |a| == 4 && |b| == 4
    ensures var s := a + ("\\u" + b + x);
            |s| >= 10 && s[4] == '\\' && s[5] == 'u' && s[6..] == b + x && s[10..] == x
  {
    var s := a + ("\\u" + b + x);
    assert s[4..] == "\\u" + b + x;
  }

  lemma PairRead(s: string, mode: Mode, hi: int, lo: int, x: string)
    requires Reads(mode, Indented) && |s| >= 10 && s[4] == '\\' && s[5] == 'u' && s[10..] == x
    requires HexCode(s) == hi && LowerHex(s) && 0xD800 <= hi < 0xDC00
    requires HexCode(s[6..]) == lo && LowerHex(s[6..]) && 0xDC00 <= lo < 0xE000
    ensures ReadUnicode(s, mode) == Done((0x10000 + (hi - 0xD800) * 1024 + (lo - 0xDC00)) as char, x)
  {
  }

  lemma SurrogatesRead(c: char, mode: Mode, x: string)
    requires Reads(mode, Indented) && c as int >= 0x10000
    ensures ReadUnicode(LongTail(c, x), mode) == Done(c, x)
  {
    var n := c as int - 0x10000;
    var hi, lo := 0xD800 + n / 1024, 0xDC00 + n % 1024;
    SurrogateParts(c as int);
    PairText(Hex4(hi), Hex4(lo), x);
    HexRead(hi, "\\u" + Hex4(lo) + x);
    HexRead(lo, x);
    PairRead(LongTail(c, x), mode, hi, lo, x);
  }

  lemma ShortRead(c: char, style: Style, mode: Mode, x: string)
    requires Reads(mode, style) && HasShort(c)
    ensures ReadChar(EscapeChar(c, style) + x, mode) == Done(c, x)
    ensures EscapeChar(c, style)[0] != '\"'
  {
    assert (EscapeChar(c, style) + x)[2..] == x;
  }

  lemma EscapedByNumber(s: string, mode: Mode, c: char, x: string)
    requires ReadUnicode(s, mode) == Done(c, x)
    ensures ReadChar("\\u" + s, mode) == Done(c, x)
  {
    assert ("\\u" + s)[2..] == s;
  }

  lemma PlainRead(c: char, style: Style, mode: Mode, x: string)
    requires Reads(mode, style) && !HasShort(c) && !WantsHex(c, style)
    ensures EscapeChar(c, style) == [c] && ReadChar([c] + x, mode) == Done(c, x)
  {
    assert ([c] + x)[1..] == x;
  }

  lemma NumberedRead(c: char, style: Style, mode: Mode, x: string)
    requires Reads(mode, style) && WantsHex(c, style) && c as int < 0x10000
    ensures EscapeChar(c, style) == "\\u" + Hex4(c as int)
    ensures ReadChar("\\u" + Hex4(c as int) + x, mode) == Done(c, x)
  {
    UnicodeRead(c, style, mode, x);
    EscapedByNumber(Hex4(c as int) + x, mode, c, x);
    assert "\\u" + Hex4(c as int) + x == "\\u" + (Hex4(c as int) + x);
  }

  lemma LongRead(c: char, style: Style, mode: Mode, x: string)
    requires Reads(mode, style) && WantsHex(c, style) && c as int >= 0x10000
    ensures style == Indented && ReadChar(EscapeChar(c, style) + x, mode) == Done(c, x)
  {
    LongEscape(c, x);
    SurrogatesRead(c, mode, x);
    EscapedByNumber(LongTail(c, x), mode, c, x);
  }

  lemma EscapeStart(c: char, style: Style)
    ensures EscapeChar(c, style) != [] && EscapeChar(c, style)[0] != '\"'
  {
  }

  lemma CharRead(c: char, style: Style, mode: Mode, x: string)
    requires Reads(mode, style)
    ensures ReadChar(EscapeChar(c, style) + x, mode) == Done(c, x)
  {
    if HasShort(c) {
      ShortRead(c, style, mode, x);
    } else if !WantsHex(c, style) {
      PlainRead(c, style, mode, x);
    } else if c as int < 0x10000 {
      NumberedRead(c, style, mode, x);
    } else {
      LongRead(c, style, mode, x);
    }
  }

  function LongTail(c: char, x: string): string
    requires c as int >= 0x10000
  {
    var n := c as int - 0x10000;
    Hex4(0xD800 + n / 1024) + ("\\u" + Hex4(0xDC00 + n % 1024) + x)
  }

  lemma LongEscape(c: char, x: string)
    requires c as int >= 0x10000
    ensures EscapeChar(c, Indented) + x == "\\u" + LongTail(c, x)
  {
  }

  lemma UnicodeWritten(style: Style, s: string)
    ensures var r := ReadUnicode(s, Exact(style));
            r.Done? ==> "\\u" + s == EscapeChar(r.value, style) + r.rest
  {
    var r := ReadUnicode(s, Exact(style));
    if r.Done? {
      HexWritten(s);
      if r.value as int < 0x10000 {
        assert "\\u" + Hex4(r.value as int) + r.rest == "\\u" + s;
      } else {
        LongWritten(s, r.value, r.rest);
      }
    }
  }

  lemma PairAssembled(s: string, a: string, b: string, x: string)
    requires |a| == 4 && |s| >= 6 && s == a + s[4..] && s[4] == '\\' && s[5] == 'u' && s[6..] == b + x
    ensures s == a + ("\\u" + b + x)
  {
    assert s[4..] == "\\u" + s[6..];
    assert "\\u" + (b + x) == "\\u" + b + x;
  }

  lemma PairCode(hi: int, lo: int)
    requires 0xD800 <= hi < 0xDC00 && 0xDC00 <= lo < 0xE000
    ensures var n := (hi - 0xD800) * 1024 + (lo - 0xDC00);
            n / 1024 == hi - 0xD800 && n % 1024 == lo - 0xDC00
  {
  }

  /** What reading a pair says of its parts. */
  lemma PairFacts(s: string, c: char, x: string)
    requires ReadUnicode(s, Exact(Indented)) == Done(c, x) && c as int >= 0x10000
    ensures |s| >= 10 && s[4] == '\\' && s[5] == 'u' && x == s[10..]
    ensures LowerHex(s) && 0xD800 <= HexCode(s) < 0xDC00
    ensures LowerHex(s[6..]) && 0xDC00 <= HexCode(s[6..]) < 0xE000
    ensures c as int == 0x10000 + (HexCode(s) - 0xD800) * 1024 + (HexCode(s[6..]) - 0xDC00)
  {
  }

  lemma LongWritten(s: string, c: char, x: string)
    requires ReadUnicode(s, Exact(Indented)) == Done(c, x) && c as int >= 0x10000
    ensures "\\u" + s == EscapeChar(c, Indented) + x
  {
    PairFacts(s, c, x);
    var hi, lo := HexCode(s), HexCode(s[6..]);
    HexWritten(s);
    HexWritten(s[6..]);
    assert x == s[6..][4..];
    PairAssembled(s, Hex4(hi), Hex4(lo), x);
    LongTailIs(s, hi, lo, c, x);
    LongEscape(c, x);
  }

  lemma LongTailIs(s: string, hi: int, lo: int, c: char, x: string)
    requires 0xD800 <= hi < 0xDC00 && 0xDC00 <= lo < 0xE000
    requires c as int == 0x10000 + (hi - 0xD800) * 1024 + (lo - 0xDC00)
    requires s == Hex4(hi) + ("\\u" + Hex4(lo) + x)
    ensures s == LongTail(c, x)
  {
    PairCode(hi, lo);
  }

  lemma ShortWritten(style: Style, s: string)
    requires |s| >= 2 && s[0] == '\\' && s[1] != 'u'
    ensures var r := ReadChar(s, Exact(style));
            r.Done? ==> s == EscapeChar(r.value, style) + r.rest
  {
    var r := ReadChar(s, Exact(style));
    if r.Done? {
      assert EscapeChar(r.value, style) == [s[0], s[1]];
      assert s == [s[0], s[1]] + s[2..];
    }
  }

  lemma CharWritten(style: Style, s: string)
    ensures var r := ReadChar(s, Exact(style));
            r.Done? ==> s == EscapeChar(r.value, style) + r.rest
  {
    var r := ReadChar(s, Exact(style));
    if r.Done? {
      if s[0] != '\\' {
        assert !HasShort(s[0]) && EscapeChar(s[0], style) == [s[0]];
        assert s == [s[0]] + s[1..];
      } else if s[1] == 'u' {
        UnicodeWritten(style, s[2..]);
        assert s == "\\u" + s[2..];
      } else {
        ShortWritten(style, s);
      }
    }
  }

  // --------------------------------------------------------------- text bodies

  lemma BodyStep(c: char, s: string, mode: Mode, tail: string, text: string, r: string)
    requires s != [] && s[0] != '\"' && ReadChar(s, mode) == Done(c, tail) && ReadBody(tail, mode) == Done(text, r)
    ensures ReadBody(s, mode) == Done([c] + text, r)
  {
  }

  lemma {:induction false} BodyRead(s: string, style: Style, mode: Mode, r: string)
    requires Reads(mode, style)
    ensures ReadBody(Escape(s, style) + ("\"" + r), mode) == Done(s, r)
  {
    if s == [] {
      assert Escape(s, style) + ("\"" + r) == "\"" + r;
      assert ("\"" + r)[1..] == r;
    } else {
      var tail := Escape(s[1..], style) + ("\"" + r);
      assert Escape(s, style) + ("\"" + r) == EscapeChar(s[0], style) + tail;
      CharRead(s[0], style, mode, tail);
      EscapeStart(s[0], style);
      BodyRead(s[1..], style, mode, r);
      BodyStep(s[0], EscapeChar(s[0], style) + tail, mode, tail, s[1..], r);
      assert s == [s[0]] + s[1..];
    }
  }

  lemma {:induction false} BodyWritten(s: string, style: Style)
    ensures var r := ReadBody(s, Exact(style));
            r.Done? ==> s == Escape(r.value, style) + ("\"" + r.rest)
    decreases |s|
  {
    var r := ReadBody(s, Exact(style));
    if r.Done? {
      if s[0] == '\"' {
        assert Escape("", style) == "" && s == "\"" + s[1..];
      } else {
        var c := ReadChar(s, Exact(style));
        CharWritten(style, s);
        BodyWritten(c.rest, style);
        var tail := ReadBody(c.rest, Exact(style)).value;
        assert r.value == [c.value] + tail;
        EscapeCons(c.value, tail, style, "\"" + r.rest);
      }
    }
  }

  lemma EscapeCons(c: char, tail: string, style: Style, x: string)
    ensures Escape([c] + tail, style) + x == EscapeChar(c, style) + (Escape(tail, style) + x)
  {
    assert ([c] + tail)[1..] == tail;
  }

  // ------------------------------------------------------------------- scalars

  lemma {:induction false} DigitRunExact(s: string, r: string)
    requires forall i :: 0 <= i < |s| ==> Decimal.IsDigit(s[i])
    requires Stops(r)
    ensures DigitRun(s + r) == |s|
  {
    if s == [] {
      assert s + r == r;
    } else {
      assert (s + r)[1..] == s[1..] + r;
      DigitRunExact(s[1..], r);
    }
  }

  lemma NatRead(n: nat, r: string)
    requires Stops(r)
    ensures ReadNat(Decimal.OfNat(n) + r) == Done(n, r)
  {
    var s := Decimal.OfNat(n);
    DigitRunExact(s, r);
    Decimal.ToNatOfNat(n);
    Decimal.NoLeadingZero(n);
    assert (s + r)[..|s|] == s && (s + r)[|s|..] == r;
  }

  lemma NatWritten(s: string)
    ensures ReadNat(s).Done? ==> s == Decimal.OfNat(ReadNat(s).value) + ReadNat(s).rest
  {
    if ReadNat(s).Done? {
      var n := DigitRun(s);
      Decimal.OfNatToNat(s[..n]);
      assert s == s[..n] + s[n..];
    }
  }

  lemma NegativeRead(n: nat, mode: Mode, s: string, r: string)
    requires n > 0 && ReadNat(s) == Done(n, r)
    ensures ReadNumber("-" + s, mode) == Done(Int(0 - n), r)
  {
    assert ("-" + s)[1..] == s;
  }

  lemma NaturalRead(n: nat, mode: Mode, s: string, r: string)
    requires ReadNat(s) == Done(n, r)
    ensures ReadNumber(s, mode) == Done(Int(n), r)
  {
  }

  lemma MinusText(n: int, r: string)
    requires n < 0
    ensures Decimal.OfInt(n) + r == "-" + (Decimal.OfNat(-n) + r)
  {
    var digits := Decimal.OfNat(-n);
    assert "-" + digits + r == "-" + (digits + r);
  }

  lemma NumberRead(n: int, mode: Mode, r: string)
    requires Stops(r)
    ensures ReadNumber(Decimal.OfInt(n) + r, mode) == Done(Int(n), r)
  {
    if n < 0 {
      NatRead(-n, r);
      NegativeRead(-n, mode, Decimal.OfNat(-n) + r, r);
      MinusText(n, r);
    } else {
      NatRead(n, r);
      NaturalRead(n, mode, Decimal.OfNat(n) + r, r);
    }
  }

  lemma NumberWritten(s: string, style: Style)
    ensures var r := ReadNumber(s, Exact(style));
            r.Done? ==> r.value.Int? && s == Decimal.OfInt(r.value.n) + r.rest
  {
    var r := ReadNumber(s, Exact(style));
    if r.Done? {
      if s[0] == '-' {
        NatWritten(s[1..]);
        assert s == "-" + s[1..];
      } else {
        NatWritten(s);
      }
    }
  }

  lemma OfIntStart(n: int)
    ensures var c := Decimal.OfInt(n)[0];
            c == '-' || Decimal.IsDigit(c)
  {
  }

  lemma WordRead(word: string, v: Json, r: string)
    requires word != []
    ensures ReadWord(word + r, word, v) == Done(v, r)
  {
    assert (word + r)[|word|..] == r;
  }

  lemma WordsRead(v: Json, style: Style, level: nat, mode: Mode, r: string)
    requires v.Null? || v.Bool?
    ensures ReadScalar(Print(v, style, level) + r, mode) == Done(v, r)
  {
    match v
    case Null => WordRead("null", Null, r);
    case Bool(b) =>
      if b { WordRead("true", Bool(true), r); } else { WordRead("false", Bool(false), r); }
  }

  lemma NumberIsScalar(s: string, mode: Mode)
    requires s != [] && (s[0] == '-' || Decimal.IsDigit(s[0]))
    ensures ReadScalar(s, mode) == ReadNumber(s, mode)
  {
  }

  lemma TextIsScalar(body: string, mode: Mode, text: string, r: string)
    requires ReadBody(body, mode) == Done(text, r)
    ensures ReadScalar("\"" + body, mode) == Done(Str(text), r)
  {
    assert ("\"" + body)[1..] == body;
  }

  lemma QuoteText(s: string, style: Style, r: string)
    ensures Quote(s, style) + r == "\"" + (Escape(s, style) + ("\"" + r))
  {
  }

  lemma ScalarRead(v: Json, style: Style, level: nat, mode: Mode, r: string)
    requires !v.Arr? && !v.Obj? && Stops(r) && Reads(mode, style)
    ensures ReadScalar(Print(v, style, level) + r, mode) == Done(v, r)
  {
    match v
    case Null => WordsRead(v, style, level, mode, r);
    case Bool(b) => WordsRead(v, style, level, mode, r);
    case Int(n) =>
      NumberRead(n, mode, r);
      OfIntStart(n);
      NumberIsScalar(Decimal.OfInt(n) + r, mode);
    case Str(s) =>
      BodyRead(s, style, mode, r);
      TextIsScalar(Escape(s, style) + ("\"" + r), mode, s, r);
      QuoteText(s, style, r);
  }

  lemma ScalarWritten(s: string, style: Style, level: nat)
    ensures var r := ReadScalar(s, Exact(style));
            r.Done? ==> s == Print(r.value, style, level) + r.rest
  {
    var r := ReadScalar(s, Exact(style));
    if r.Done? {
      if s[0] == 'n' || s[0] == 't' || s[0] == 'f' {
        WordWritten(s, style, level);
      } else if s[0] == '\"' {
        BodyWritten(s[1..], style);
        assert s == "\"" + s[1..];
        QuoteText(r.value.s, style, r.rest);
      } else {
        NumberWritten(s, style);
      }
    }
  }

  lemma WordWritten(s: string, style: Style, level: nat)
    requires s != [] && (s[0] == 'n' || s[0] == 't' || s[0] == 'f')
    ensures var r := ReadScalar(s, Exact(style));
            r.Done? ==> s == Print(r.value, style, level) + r.rest
  {
    var r := ReadScalar(s, Exact(style));
    if r.Done? {
      var word := if s[0] == 'n' then "null" else if s[0] == 't' then "true" else "false";
      assert word <= s && s == word + s[|word|..];
    }
  }

  // ---------------------------------------------------------------- containers

  lemma PrintStart(v: Json, style: Style, level: nat)
    ensures Solid(Print(v, style, level))
    ensures var c := Print(v, style, level)[0];
            && c != ']' && c != '}' && c != ','
            && (v.Arr? ==> c == '[') && (v.Obj? ==> c == '{') && (!v.Arr? && !v.Obj? ==> c != '[' && c != '{')
  {
    if v.Int? {
      OfIntStart(v.n);
    }
  }

  /** Reading what was printed gives the value back and leaves the rest. */
  lemma {:induction false} ValueRead(v: Json, style: Style, level: nat, mode: Mode, r: string)
    requires Reads(mode, style) && Stops(r)
    ensures ReadValue(Print(v, style, level) + r, mode, level) == Done(v, r)
    decreases v
  {
    match v
    case Arr(items) => ArrayRead(items, style, level, mode, r);
    case Obj(members) => ObjectRead(v, style, level, mode, r);
    case _ =>
      PrintStart(v, style, level);
      ScalarRead(v, style, level, mode, r);
      ScalarIsValue(Print(v, style, level) + r, mode, level);
  }

  lemma ScalarIsValue(s: string, mode: Mode, level: nat)
    requires s != [] && s[0] != '[' && s[0] != '{'
    ensures ReadValue(s, mode, level) == ReadScalar(s, mode)
  {
  }

  lemma EmptyRead(mode: Mode, level: nat, r: string)
    ensures ReadValue("[]" + r, mode, level) == Done(Arr([]), r)
    ensures ReadValue("{}" + r, mode, level) == Done(Obj(map[]), r)
  {
    assert ("[]" + r)[1..] == "]" + r && ("{}" + r)[1..] == "}" + r;
    assert ("]" + r)[1..] == r && ("}" + r)[1..] == r;
  }

  lemma ListIsValue(s: string, mode: Mode, level: nat, items: seq<Json>, r: string)
    requires ReadItems(s, mode, level) == Done(items, r)
    requires var t := EatBlanks(s, mode); t == [] || t[0] != ']'
    ensures ReadValue("[" + s, mode, level) == Done(Arr(items), r)
  {
    assert ("[" + s)[1..] == s;
  }

  lemma ObjectIsValue(s: string, mode: Mode, level: nat, members: Dict, r: string)
    requires ReadMembers(s, mode, level, None) == Done(members, r)
    requires var t := EatBlanks(s, mode); t == [] || t[0] != '}'
    ensures ReadValue("{" + s, mode, level) == Done(Obj(members), r)
  {
    assert ("{" + s)[1..] == s;
  }

  /** A gap and something solid does not look like a closing bracket. */
  lemma GapThen(style: Style, level: nat, mode: Mode, x: string)
    requires Reads(mode, style) && Solid(x) && x[0] != ']' && x[0] != '}'
    ensures var t := EatBlanks(Gap(style, level) + x, mode);
            t != [] && t[0] != ']' && t[0] != '}'
  {
    NewLineShape(level);
    var g := Gap(style, level);
    if mode.Loose? {
      SkipAll(g, x);
    } else if style.Compact? {
      assert g + x == x;
    }
  }

  lemma ItemRead(s: string, style: Style, level: nat, mode: Mode, v: Json, r: string)
    requires Reads(mode, style) && Solid(s) && ReadValue(s, mode, level) == Done(v, r)
    ensures ReadItem(Gap(style, level) + s, mode, level) == Done(v, r)
  {
    GapRead(style, mode, level, s);
  }

  lemma ItemsLast(s: string, mode: Mode, level: nat, v: Json, rest: string, r: string)
    requires ReadItem(s, mode, level + 1) == Done(v, rest) && Next(rest, mode, level, ']') == Stop(r)
    ensures ReadItems(s, mode, level) == Done([v], r)
  {
  }

  lemma ItemsMore(s: string, mode: Mode, level: nat, v: Json, rest: string, tail: string, more: seq<Json>, r: string)
    requires ReadItem(s, mode, level + 1) == Done(v, rest) && Next(rest, mode, level, ']') == More(tail)
    requires ReadItems(tail, mode, level) == Done(more, r)
    ensures ReadItems(s, mode, level) == Done([v] + more, r)
  {
  }

  /** The text of a list and what follows, from its first item on. */
  function ItemsText(items: seq<Json>, style: Style, level: nat, r: string): string {
    PrintItems(items, style, level + 1) + (Gap(style, level) + ("]" + r))
  }

  lemma ItemsTextOne(items: seq<Json>, style: Style, level: nat, r: string)
    requires |items| == 1
    ensures ItemsText(items, style, level, r)
         == Gap(style, level + 1) + (Print(items[0], style, level + 1) + (Gap(style, level) + ("]" + r)))
  {
  }

  lemma ItemsTextMore(items: seq<Json>, style: Style, level: nat, r: string)
    requires |items| > 1
    ensures ItemsText(items, style, level, r)
         == Gap(style, level + 1)
            + (Print(items[0], style, level + 1) + ("," + ItemsText(items[1..], style, level, r)))
  {
  }

  lemma ItemsReadOne(s: string, first: string, v: Json, style: Style, level: nat, mode: Mode, rest: string, r: string)
    requires Reads(mode, style) && Solid(first) && rest == Gap(style, level) + ("]" + r)
    requires s == Gap(style, level + 1) + (first + rest)
    requires ReadValue(first + rest, mode, level + 1) == Done(v, rest)
    ensures ReadItems(s, mode, level) == Done([v], r)
  {
    CloseRead(style, mode, level, ']', r);
    ItemRead(first + rest, style, level + 1, mode, v, rest);
    ItemsLast(s, mode, level, v, rest, r);
  }

  lemma ItemsReadMore(s: string, first: string, v: Json, style: Style, level: nat, mode: Mode, tail: string,
                      more: seq<Json>, r: string)
    requires Reads(mode, style) && Solid(first)
    requires s == Gap(style, level + 1) + (first + ("," + tail))
    requires ReadValue(first + ("," + tail), mode, level + 1) == Done(v, "," + tail)
    requires ReadItems(tail, mode, level) == Done(more, r)
    ensures ReadItems(s, mode, level) == Done([v] + more, r)
  {
    CommaRead(style, mode, level, ']', tail);
    ItemRead(first + ("," + tail), style, level + 1, mode, v, "," + tail);
    ItemsMore(s, mode, level, v, "," + tail, tail, more, r);
  }

  lemma {:induction false} ItemsRead(items: seq<Json>, style: Style, level: nat, mode: Mode, r: string)
    requires items != [] && Reads(mode, style)
    ensures ReadItems(ItemsText(items, style, level, r), mode, level) == Done(items, r)
    decreases items, 1
  {
    if |items| == 1 {
      OneItemRead(items, style, level, mode, r);
    } else {
      MoreItemsRead(items, style, level, mode, r);
    }
  }

  lemma {:induction false} OneItemRead(items: seq<Json>, style: Style, level: nat, mode: Mode, r: string)
    requires |items| == 1 && Reads(mode, style)
    ensures ReadItems(ItemsText(items, style, level, r), mode, level) == Done(items, r)
    decreases items, 0
  {
    var rest := Gap(style, level) + ("]" + r);
    PrintStart(items[0], style, level + 1);
    CloseRead(style, mode, level, ']', r);
    ValueRead(items[0], style, level + 1, mode, rest);
    ItemsTextOne(items, style, level, r);
    ItemsReadOne(ItemsText(items, style, level, r), Print(items[0], style, level + 1), items[0], style, level, mode, rest, r);
    assert items == [items[0]];
  }

  lemma {:induction false} MoreItemsRead(items: seq<Json>, style: Style, level: nat, mode: Mode, r: string)
    requires |items| > 1 && Reads(mode, style)
    ensures ReadItems(ItemsText(items, style, level, r), mode, level) == Done(items, r)
    decreases items, 0
  {
    var tail := ItemsText(items[1..], style, level, r);
    ValueRead(items[0], style, level + 1, mode, "," + tail);
    ItemsRead(items[1..], style, level, mode, r);
    ItemsJoin(items, style, level, mode, tail, r);
  }

  lemma ItemsJoin(items: seq<Json>, style: Style, level: nat, mode: Mode, tail: string, r: string)
    requires |items| > 1 && Reads(mode, style) && tail == ItemsText(items[1..], style, level, r)
    requires ReadValue(Print(items[0], style, level + 1) + ("," + tail), mode, level + 1) == Done(items[0], "," + tail)
    requires ReadItems(tail, mode, level) == Done(items[1..], r)
    ensures ReadItems(ItemsText(items, style, level, r), mode, level) == Done(items, r)
  {
    var first := FirstText(items, style, level, r);
    ItemsReadMore(ItemsText(items, style, level, r), first, items[0], style, level, mode, tail, items[1..], r);
    assert items == [items[0]] + items[1..];
  }

  lemma FirstText(items: seq<Json>, style: Style, level: nat, r: string) returns (first: string)
    requires |items| > 1
    ensures first == Print(items[0], style, level + 1) && Solid(first)
    ensures ItemsText(items, style, level, r)
         == Gap(style, level + 1) + (first + ("," + ItemsText(items[1..], style, level, r)))
  {
    first := Print(items[0], style, level + 1);
    PrintStart(items[0], style, level + 1);
    ItemsTextMore(items, style, level, r);
  }

  lemma ItemsStart(items: seq<Json>, style: Style, level: nat, mode: Mode, r: string)
    requires items != [] && Reads(mode, style)
    ensures var t := EatBlanks(ItemsText(items, style, level, r), mode);
            t != [] && t[0] != ']' && t[0] != '}'
  {
    PrintStart(items[0], style, level + 1);
    if |items| == 1 {
      ItemsTextOne(items, style, level, r);
      GapThen(style, level + 1, mode, Print(items[0], style, level + 1) + (Gap(style, level) + ("]" + r)));
    } else {
      ItemsTextMore(items, style, level, r);
      GapThen(style, level + 1, mode,
              Print(items[0], style, level + 1) + ("," + ItemsText(items[1..], style, level, r)));
    }
  }

  lemma {:induction false} ArrayRead(items: seq<Json>, style: Style, level: nat, mode: Mode, r: string)
    requires Reads(mode, style) && Stops(r)
    ensures ReadValue(Print(Arr(items), style, level) + r, mode, level) == Done(Arr(items), r)
    decreases items, 2
  {
    if items == [] {
      EmptyRead(mode, level, r);
    } else {
      ItemsRead(items, style, level, mode, r);
      ItemsStart(items, style, level, mode, r);
      ListIsValue(ItemsText(items, style, level, r), mode, level, items, r);
      ArrayText(items, style, level, r);
    }
  }

  lemma ArrayText(items: seq<Json>, style: Style, level: nat, r: string)
    requires items != []
    ensures Print(Arr(items), style, level) + r == "[" + ItemsText(items, style, level, r)
  {
    Wrap("[", PrintItems(items, style, level + 1), Gap(style, level), "]", r);
  }

  // ------------------------------------------------------------------- objects

  lemma {:induction false} ObjectRead(v: Json, style: Style, level: nat, mode: Mode, r: string)
    requires v.Obj? && Reads(mode, style)
    ensures ReadValue(Print(v, style, level) + r, mode, level) == Done(v, r)
    decreases v, |v.members| + 1
  {
    if v.members == map[] {
      EmptyRead(mode, level, r);
    } else {
      var keys := Lexicographic.Sorted(v.members.Keys);
      Lexicographic.SortedLength(v.members.Keys);
      MembersRead(v, keys, style, level, mode, None, r);
      assert v.members == Restrict(v.members, keys);
      MembersStart(v, keys, style, level, mode, r);
      ObjectIsValue(MembersText(v, keys, style, level, r), mode, level, v.members, r);
      ObjectText(v, style, level, r);
    }
  }

  ghost function Restrict(m: Dict, keys: seq<string>): Dict
    requires forall k :: k in keys ==> k in m
  {
    map k | k in keys :: m[k]
  }

  lemma RestrictOne(m: Dict, keys: seq<string>)
    requires |keys| == 1 && keys[0] in m
    ensures map[keys[0] := m[keys[0]]] == Restrict(m, keys)
  {
  }

  lemma RestrictCons(m: Dict, keys: seq<string>)
    requires keys != [] && forall k :: k in keys ==> k in m
    ensures map[keys[0] := m[keys[0]]] + Restrict(m, keys[1..]) == Restrict(m, keys)
  {
    assert keys == [keys[0]] + keys[1..];
  }

  /** The text of an object and what follows, from its first member on. */
  function MembersText(v: Json, keys: seq<string>, style: Style, level: nat, r: string): string
    requires v.Obj? && forall k :: k in keys ==> k in v.members
  {
    PrintMembers(v, keys, style, level + 1) + (Gap(style, level) + ("}" + r))
  }

  lemma ObjectText(v: Json, style: Style, level: nat, r: string)
    requires v.Obj? && v.members != map[]
    ensures Print(v, style, level) + r
         == "{" + MembersText(v, Lexicographic.Sorted(v.members.Keys), style, level, r)
  {
    Wrap("{", PrintMembers(v, Lexicographic.Sorted(v.members.Keys), style, level + 1), Gap(style, level), "}", r);
  }

  lemma Wrap(open: string, body: string, gap: string, close: string, r: string)
    ensures open + body + gap + close + r == open + (body + (gap + (close + r)))
  {
  }

  /** The text of a member past its gap and its first quote. */
  function MemberText(key: string, v: Json, style: Style, level: nat, r: string): string {
    Escape(key, style) + ("\"" + (Colon(style) + (Print(v, style, level) + r)))
  }

  lemma MembersTextOne(v: Json, keys: seq<string>, style: Style, level: nat, r: string)
    requires v.Obj? && |keys| == 1 && keys[0] in v.members
    ensures MembersText(v, keys, style, level, r)
         == Gap(style, level + 1)
            + ("\"" + MemberText(keys[0], v.members[keys[0]], style, level + 1, Gap(style, level) + ("}" + r)))
  {
    MemberSplit(v, keys[0], style, level + 1, Gap(style, level) + ("}" + r));
  }

  lemma MemberSplit(v: Json, key: string, style: Style, level: nat, r: string)
    requires v.Obj? && key in v.members
    ensures PrintMember(v, key, style, level) + r
         == Gap(style, level) + ("\"" + MemberText(key, v.members[key], style, level, r))
  {
    var g, q, c, p := Gap(style, level), Escape(key, style), Colon(style), Print(v.members[key], style, level);
    assert g + ("\"" + q + "\"") + c + p + r == g + ("\"" + (q + ("\"" + (c + (p + r)))));
  }

  lemma MembersTextMore(v: Json, keys: seq<string>, style: Style, level: nat, r: string)
    requires v.Obj? && |keys| > 1 && forall k :: k in keys ==> k in v.members
    ensures MembersText(v, keys, style, level, r)
         == Gap(style, level + 1)
            + ("\"" + MemberText(keys[0], v.members[keys[0]], style, level + 1,
                                 "," + MembersText(v, keys[1..], style, level, r)))
  {
    var tail := MembersText(v, keys[1..], style, level, r);
    MemberSplit(v, keys[0], style, level + 1, "," + tail);
    Regroup(PrintMember(v, keys[0], style, level + 1), PrintMembers(v, keys[1..], style, level + 1),
            Gap(style, level) + ("}" + r));
  }

  lemma Regroup(a: string, b: string, c: string)
    ensures a + "," + b + c == a + ("," + (b + c))
  {
  }

  lemma MemberParts(s: string, mode: Mode, level: nat, body: string, key: string, rest: string, tail: string, v: Json, r: string)
    requires EatGap(s, mode, level) == Some("\"" + body) && ReadBody(body, mode) == Done(key, rest)
    requires EatColon(rest, mode) == Some(tail) && ReadValue(tail, mode, level) == Done(v, r)
    ensures ReadMember(s, mode, level) == Done((key, v), r)
  {
    assert ("\"" + body)[1..] == body;
  }

  lemma {:induction false} MemberRead(o: Json, key: string, style: Style, level: nat, mode: Mode, r: string)
    requires o.Obj? && key in o.members && Reads(mode, style) && Stops(r)
    ensures ReadMember(Gap(style, level) + ("\"" + MemberText(key, o.members[key], style, level, r)), mode, level)
         == Done((key, o.members[key]), r)
    decreases o, 0
  {
    var v := o.members[key];
    var tail := Print(v, style, level) + r;
    var body := MemberText(key, v, style, level, r);
    PrintStart(v, style, level);
    GapRead(style, mode, level, "\"" + body);
    BodyRead(key, style, mode, Colon(style) + tail);
    ColonRead(style, mode, tail);
    ValueRead(v, style, level, mode, r);
    MemberParts(Gap(style, level) + ("\"" + body), mode, level, body, key, Colon(style) + tail, tail, v, r);
  }

  lemma MembersLast(s: string, mode: Mode, level: nat, before: Option<string>, key: string, v: Json, rest: string, r: string)
    requires ReadMember(s, mode, level + 1) == Done((key, v), rest) && Next(rest, mode, level, '}') == Stop(r)
    requires before.Some? ==> Lexicographic.Less(before.value, key)
    ensures ReadMembers(s, mode, level, before) == Done(map[key := v], r)
  {
  }

  lemma MembersMore(s: string, mode: Mode, level: nat, before: Option<string>, key: string, v: Json, rest: string, tail: string,
                    more: Dict, r: string)
    requires ReadMember(s, mode, level + 1) == Done((key, v), rest) && Next(rest, mode, level, '}') == More(tail)
    requires before.Some? ==> Lexicographic.Less(before.value, key)
    requires ReadMembers(tail, mode, level, Some(key)) == Done(more, r)
    ensures ReadMembers(s, mode, level, before) == Done(map[key := v] + more, r)
  {
  }

  lemma SortedTail(keys: seq<string>)
    requires |keys| > 1 && Lexicographic.StrictlySorted(keys)
    ensures Lexicographic.StrictlySorted(keys[1..]) && Lexicographic.Less(keys[0], keys[1])
  {
  }

  lemma MembersReadOne(s: string, key: string, v: Json, style: Style, level: nat, mode: Mode, before: Option<string>, r: string)
    requires Reads(mode, style) && (before.Some? ==> Lexicographic.Less(before.value, key))
    requires ReadMember(s, mode, level + 1) == Done((key, v), Gap(style, level) + ("}" + r))
    ensures ReadMembers(s, mode, level, before) == Done(map[key := v], r)
  {
    CloseRead(style, mode, level, '}', r);
    MembersLast(s, mode, level, before, key, v, Gap(style, level) + ("}" + r), r);
  }

  lemma MembersReadMore(s: string, key: string, v: Json, style: Style, level: nat, mode: Mode, before: Option<string>, tail: string,
                        more: Dict, r: string)
    requires Reads(mode, style) && (before.Some? ==> Lexicographic.Less(before.value, key))
    requires ReadMember(s, mode, level + 1) == Done((key, v), "," + tail)
    requires ReadMembers(tail, mode, level, Some(key)) == Done(more, r)
    ensures ReadMembers(s, mode, level, before) == Done(map[key := v] + more, r)
  {
    CommaRead(style, mode, level, '}', tail);
    MembersMore(s, mode, level, before, key, v, "," + tail, tail, more, r);
  }

  lemma {:induction false} MembersRead(
    v: Json, keys: seq<string>, style: Style, level: nat, mode: Mode, before: Option<string>, r: string)
    requires v.Obj? && keys != [] && Reads(mode, style) && Lexicographic.StrictlySorted(keys)
    requires forall k :: k in keys ==> k in v.members
    requires before.Some? ==> Lexicographic.Less(before.value, keys[0])
    ensures ReadMembers(MembersText(v, keys, style, level, r), mode, level, before)
         == Done(Restrict(v.members, keys), r)
    decreases v, |keys|
  {
    if |keys| == 1 {
      CloseRead(style, mode, level, '}', r);
      MemberRead(v, keys[0], style, level + 1, mode, Gap(style, level) + ("}" + r));
      MembersTextOne(v, keys, style, level, r);
      MembersReadOne(MembersText(v, keys, style, level, r), keys[0], v.members[keys[0]], style, level, mode, before, r);
      RestrictOne(v.members, keys);
    } else {
      var tail := MembersText(v, keys[1..], style, level, r);
      MemberRead(v, keys[0], style, level + 1, mode, "," + tail);
      MembersTextMore(v, keys, style, level, r);
      SortedTail(keys);
      MembersRead(v, keys[1..], style, level, mode, Some(keys[0]), r);
      MembersReadMore(MembersText(v, keys, style, level, r), keys[0], v.members[keys[0]], style, level, mode, before, tail,
                      Restrict(v.members, keys[1..]), r);
      RestrictCons(v.members, keys);
    }
  }

  lemma MembersStart(v: Json, keys: seq<string>, style: Style, level: nat, mode: Mode, r: string)
    requires v.Obj? && keys != [] && Reads(mode, style) && forall k :: k in keys ==> k in v.members
    ensures var t := EatBlanks(MembersText(v, keys, style, level, r), mode);
            t != [] && t[0] != ']' && t[0] != '}'
  {
    var first := v.members[keys[0]];
    if |keys| == 1 {
      MembersTextOne(v, keys, style, level, r);
      GapThen(style, level + 1, mode,
              "\"" + MemberText(keys[0], first, style, level + 1, Gap(style, level) + ("}" + r)));
    } else {
      MembersTextMore(v, keys, style, level, r);
      GapThen(style, level + 1, mode,
              "\"" + MemberText(keys[0], first, style, level + 1, "," + MembersText(v, keys[1..], style, level, r)));
    }
  }

  // ------------------------------------------------- what an exact reader reads

  /** An exact reader reads printed text only. */
  lemma {:induction false} ValueWritten(s: string, style: Style, level: nat)
    ensures var r := ReadValue(s, Exact(style), level);
            r.Done? ==> s == Print(r.value, style, level) + r.rest
    decreases |s|, 1
  {
    var r := ReadValue(s, Exact(style), level);
    if r.Done? {
      if s[0] == '[' {
        ArrayWritten(s, style, level);
      } else if s[0] == '{' {
        ObjectWritten(s, style, level);
      } else {
        ScalarWritten(s, style, level);
      }
    }
  }

  lemma {:induction false} ArrayWritten(s: string, style: Style, level: nat)
    requires s != [] && s[0] == '['
    ensures var r := ReadValue(s, Exact(style), level);
            r.Done? ==> s == Print(r.value, style, level) + r.rest
    decreases |s|, 0
  {
    var r := ReadValue(s, Exact(style), level);
    if r.Done? {
      assert s == "[" + s[1..];
      if s[1..] != [] && s[1..][0] == ']' {
        assert s == "[]" + s[1..][1..];
      } else {
        ItemsWritten(s[1..], style, level);
        ArrayText(r.value.items, style, level, r.rest);
      }
    }
  }

  lemma {:induction false} ItemWritten(s: string, style: Style, level: nat)
    ensures var r := ReadItem(s, Exact(style), level);
            r.Done? ==> s == Gap(style, level) + (Print(r.value, style, level) + r.rest)
    decreases |s|, 2
  {
    var t := EatGap(s, Exact(style), level);
    GapWritten(style, level, s);
    if t.Some? {
      ValueWritten(t.value, style, level);
    }
  }

  lemma {:induction false} ItemsWritten(s: string, style: Style, level: nat)
    ensures var r := ReadItems(s, Exact(style), level);
            r.Done? ==> r.value != [] && s == ItemsText(r.value, style, level, r.rest)
    decreases |s|, 3
  {
    var r, item := ReadItems(s, Exact(style), level), ReadItem(s, Exact(style), level + 1);
    if r.Done? {
      ItemWritten(s, style, level + 1);
      NextWritten(style, level, ']', item.rest);
      var next := Next(item.rest, Exact(style), level, ']');
      if next.Stop? {
        ItemsTextOne(r.value, style, level, r.rest);
      } else {
        ItemsWritten(next.rest, style, level);
        var more := ReadItems(next.rest, Exact(style), level).value;
        assert r.value == [item.value] + more && r.value[1..] == more;
        ItemsTextMore(r.value, style, level, r.rest);
      }
    }
  }

  lemma {:induction false} ObjectWritten(s: string, style: Style, level: nat)
    requires s != [] && s[0] == '{'
    ensures var r := ReadValue(s, Exact(style), level);
            r.Done? ==> s == Print(r.value, style, level) + r.rest
    decreases |s|, 0
  {
    var r := ReadValue(s, Exact(style), level);
    if r.Done? {
      assert s == "{" + s[1..];
      if s[1..] != [] && s[1..][0] == '}' {
        assert s == "{}" + s[1..][1..];
      } else {
        MembersWritten(s[1..], style, level, None);
        ObjectText(r.value, style, level, r.rest);
      }
    }
  }

  /** What reading a member says of its parts. */
  lemma MemberFacts(s: string, mode: Mode, level: nat) returns (body: string, rest: string, tail: string)
    requires ReadMember(s, mode, level).Done?
    ensures var r := ReadMember(s, mode, level);
            && EatGap(s, mode, level) == Some("\"" + body) && |body| < |s|
            && ReadBody(body, mode) == Done(r.value.0, rest)
            && EatColon(rest, mode) == Some(tail) && |tail| < |s|
            && ReadValue(tail, mode, level) == Done(r.value.1, r.rest)
  {
    var t := EatGap(s, mode, level).value;
    body := t[1..];
    assert t == "\"" + body;
    rest := ReadBody(body, mode).rest;
    tail := EatColon(rest, mode).value;
  }

  lemma {:induction false} MemberWritten(s: string, style: Style, level: nat)
    ensures var r := ReadMember(s, Exact(style), level);
            r.Done? ==> s == Gap(style, level) + ("\"" + MemberText(r.value.0, r.value.1, style, level, r.rest))
    decreases |s|, 2
  {
    var r := ReadMember(s, Exact(style), level);
    if r.Done? {
      var body, rest, tail := MemberFacts(s, Exact(style), level);
      GapWritten(style, level, s);
      BodyWritten(body, style);
      ColonWritten(style, rest);
      ValueWritten(tail, style, level);
      assert body == MemberText(r.value.0, r.value.1, style, level, r.rest);
    }
  }

  /** The same members print the same under the same names. */
  lemma {:induction false} MembersAgree(v: Json, w: Json, keys: seq<string>, style: Style, level: nat)
    requires v.Obj? && w.Obj?
    requires forall k :: k in keys ==> k in v.members && k in w.members && v.members[k] == w.members[k]
    ensures PrintMembers(v, keys, style, level) == PrintMembers(w, keys, style, level)
    decreases |keys|
  {
    if keys != [] {
      MembersAgree(v, w, keys[1..], style, level);
    }
  }

  ghost predicate AllAbove(m: Dict, key: string) {
    forall k :: k in m ==> Lexicographic.Less(key, k)
  }

  /** A name below all others comes first. */
  lemma SortedWithFirst(m: Dict, key: string, v: Json)
    requires AllAbove(m, key)
    ensures key !in m
    ensures Lexicographic.Sorted((map[key := v] + m).Keys) == [key] + Lexicographic.Sorted(m.Keys)
  {
    if key in m {
      Lexicographic.Asymmetric(key, key);
    }
    var keys := [key] + Lexicographic.Sorted(m.Keys);
    assert Lexicographic.StrictlySorted(keys);
    Lexicographic.SortedUnique(Lexicographic.Sorted((map[key := v] + m).Keys), keys);
  }

  lemma MembersTextCons(m: Dict, key: string, v: Json, style: Style, level: nat, r: string)
    requires AllAbove(m, key) && m != map[]
    ensures var all := map[key := v] + m;
            MembersText(Obj(all), Lexicographic.Sorted(all.Keys), style, level, r)
            == Gap(style, level + 1)
               + ("\"" + MemberText(key, v, style, level + 1,
                                    "," + MembersText(Obj(m), Lexicographic.Sorted(m.Keys), style, level, r)))
  {
    var all, keys := map[key := v] + m, Lexicographic.Sorted(m.Keys);
    SortedWithFirst(m, key, v);
    Lexicographic.SortedLength(m.Keys);
    assert ([key] + keys)[1..] == keys;
    MembersTextMore(Obj(all), [key] + keys, style, level, r);
    MembersAgree(Obj(all), Obj(m), keys, style, level + 1);
  }

  lemma MembersTextSingle(key: string, v: Json, style: Style, level: nat, r: string)
    ensures var one: Dict := map[key := v];
            MembersText(Obj(one), Lexicographic.Sorted(one.Keys), style, level, r)
            == Gap(style, level + 1) + ("\"" + MemberText(key, v, style, level + 1, Gap(style, level) + ("}" + r)))
  {
    var one: Dict := map[key := v];
    Lexicographic.SortedUnique(Lexicographic.Sorted(one.Keys), [key]);
    MembersTextOne(Obj(one), [key], style, level, r);
  }

  lemma AboveAll(m: Dict, key: string, v: Json, before: string)
    requires AllAbove(m, key) && Lexicographic.Less(before, key)
    ensures AllAbove(map[key := v] + m, before)
  {
    forall k | k in m ensures Lexicographic.Less(before, k) {
      Lexicographic.Transitive(before, key, k);
    }
  }

  ghost predicate WroteMembers(s: string, m: Dict, style: Style, level: nat, r: string) {
    m != map[] && s == MembersText(Obj(m), Lexicographic.Sorted(m.Keys), style, level, r)
  }

  lemma WrittenLast(s: string, key: string, v: Json, style: Style, level: nat, rest: string, r: string)
    requires s == Gap(style, level + 1) + ("\"" + MemberText(key, v, style, level + 1, rest))
    requires rest == Gap(style, level) + ("}" + r)
    ensures WroteMembers(s, map[key := v], style, level, r)
  {
    MembersTextSingle(key, v, style, level, r);
  }

  lemma WrittenMore(s: string, key: string, v: Json, style: Style, level: nat, tail: string, more: Dict, r: string)
    requires s == Gap(style, level + 1) + ("\"" + MemberText(key, v, style, level + 1, "," + tail))
    requires WroteMembers(tail, more, style, level, r) && AllAbove(more, key)
    ensures WroteMembers(s, map[key := v] + more, style, level, r)
  {
    MembersTextCons(more, key, v, style, level, r);
    assert key in map[key := v] + more;
  }

  lemma {:induction false} MembersWritten(s: string, style: Style, level: nat, before: Option<string>)
    ensures var r := ReadMembers(s, Exact(style), level, before);
            r.Done? ==>
              WroteMembers(s, r.value, style, level, r.rest) && (before.Some? ==> AllAbove(r.value, before.value))
    decreases |s|, 3
  {
    var r, member := ReadMembers(s, Exact(style), level, before), ReadMember(s, Exact(style), level + 1);
    if r.Done? {
      var (key, v) := member.value;
      MemberWritten(s, style, level + 1);
      NextWritten(style, level, '}', member.rest);
      var next := Next(member.rest, Exact(style), level, '}');
      if next.Stop? {
        WrittenLast(s, key, v, style, level, member.rest, r.rest);
      } else {
        MembersWritten(next.rest, style, level, Some(key));
        var more := ReadMembers(next.rest, Exact(style), level, Some(key)).value;
        WrittenMore(s, key, v, style, level, next.rest, more, r.rest);
        if before.Some? {
          AboveAll(more, key, v, before.value);
        }
      }
    }
  }

  // -------------------------------------------------------------------- results

  /** Reading a text loosely, with blanks around it, gives back what was printed. */
  lemma RoundTrip(v: Json, style: Style, blanks: string)
    requires forall i :: 0 <= i < |blanks| ==> IsBlank(blanks[i])
    ensures Parse(Print(v, style, 0) + blanks) == Some(v)
  {
    PrintStart(v, style, 0);
    ValueRead(v, style, 0, Loose, blanks);
    OnlyBlanks(blanks);
  }

  lemma {:induction false} OnlyBlanks(blanks: string)
    requires forall i :: 0 <= i < |blanks| ==> IsBlank(blanks[i])
    ensures SkipBlanks(blanks) == []
  {
    if blanks != [] {
      OnlyBlanks(blanks[1..]);
    }
  }

  /** The printed text is the one text that the exact reader reads as this value. */
  lemma ExactRoundTrip(t: string, v: Json, style: Style)
    ensures ParseExact(t, style) == Some(v) <==> t == Print(v, style, 0)
  {
    assert Print(v, style, 0) + [] == Print(v, style, 0);
    ValueRead(v, style, 0, Exact(style), []);
    ValueWritten(t, style, 0);
  }

  /** An exact reader reads as the loose one does. */
  lemma ExactIsLoose(t: string, style: Style)
    ensures ParseExact(t, style).Some? ==> Parse(t) == ParseExact(t, style)
  {
    if ParseExact(t, style).Some? {
      var v := ParseExact(t, style).value;
      ExactRoundTrip(t, v, style);
      RoundTrip(v, style, "");
      assert Print(v, style, 0) + "" == Print(v, style, 0);
    }
  }
}
