/** UTF-8 (section 3 of RFC 3629) on Unicode scalar values: `text.encode("utf-8")`. */
module Utf8 {

  type Byte = x: int | 0 <= x < 256
  type Bytes = seq<Byte>

  const LF: Byte := 10

  function EncodeChar(c: char): (b: Bytes)
    ensures b != []
  {
    var n := c as int;
    if n < 0x80 then [n]
    else if n < 0x800 then [0xC0 + n / 64, 0x80 + n % 64]
    else if n < 0x10000 then [0xE0 + n / 4096, 0x80 + n / 64 % 64, 0x80 + n % 64]
    else [0xF0 + n / 262144, 0x80 + n / 4096 % 64, 0x80 + n / 64 % 64, 0x80 + n % 64]
  }

  function Encode(s: string): Bytes {
    if s == [] then [] else EncodeChar(s[0]) + Encode(s[1..])
  }

  function At(b: Bytes, i: nat): int {
    if i < |b| then b[i] else 0
  }

  /** The code point that a leading encoded character stands for. */
  function CodePoint(b: Bytes): int {
    if At(b, 0) < 0x80 then At(b, 0)
    else if At(b, 0) < 0xE0 then (At(b, 0) - 0xC0) * 64 + (At(b, 1) - 0x80)
    else if At(b, 0) < 0xF0 then
      (At(b, 0) - 0xE0) * 4096 + (At(b, 1) - 0x80) * 64 + (At(b, 2) - 0x80)
    else
      (At(b, 0) - 0xF0) * 262144 + (At(b, 1) - 0x80) * 4096 + (At(b, 2) - 0x80) * 64 + (At(b, 3) - 0x80)
  }

  lemma SplitBase64(n: nat)
    ensures n == n / 64 * 64 + n % 64
    ensures n / 64 == n / 4096 * 64 + n / 64 % 64
    ensures n / 4096 == n / 262144 * 64 + n / 4096 % 64
  {
    assert n / 64 / 64 == n / 4096;
    assert n / 4096 / 64 == n / 262144;
  }

  lemma CodePointOf(c: char, x: Bytes)
    ensures CodePoint(EncodeChar(c) + x) == c as int
  {
    SplitBase64(c as int);
  }

  lemma {:induction false} Injective(s: string, t: string)
    requires Encode(s) == Encode(t)
    ensures s == t
  {
    if s != [] && t != [] {
      CodePointOf(s[0], Encode(s[1..]));
      CodePointOf(t[0], Encode(t[1..]));
      assert Encode(s)[|EncodeChar(s[0])|..] == Encode(s[1..]);
      assert Encode(t)[|EncodeChar(t[0])|..] == Encode(t[1..]);
      Injective(s[1..], t[1..]);
      assert s == [s[0]] + s[1..] && t == [t[0]] + t[1..];
    }
  }

  /** Every byte of a longer encoding is above 0x7F, so a line feed byte is a line feed. */
  lemma {:induction false} NoLineFeed(s: string)
    requires forall i :: 0 <= i < |s| ==> s[i] != '\n'
    ensures LF !in Encode(s)
  {
    if s != [] {
      NoLineFeed(s[1..]);
      assert LF !in EncodeChar(s[0]);
    }
  }

  /** The bytes of an ASCII text are its characters' codes. */
  lemma {:induction false} AsciiBytes(s: string)
    requires forall i :: 0 <= i < |s| ==> s[i] as int < 0x80
    ensures |Encode(s)| == |s| && forall i :: 0 <= i < |s| ==> Encode(s)[i] == s[i] as int
  {
    if s != [] {
      AsciiBytes(s[1..]);
    }
  }

  /** The bytes of an ASCII text are as many as its characters. */
  lemma {:induction false} AsciiLength(s: string)
    requires forall i :: 0 <= i < |s| ==> s[i] as int < 0x80
    ensures |Encode(s)| == |s|
  {
    if s != [] {
      AsciiLength(s[1..]);
    }
  }

  // --------------------------------------------------------------- text lines

  function LineLength(b: Bytes): (n: nat)
    ensures n <= |b|
    ensures LF !in b[..n]
    ensures n < |b| ==> b[n] == LF
  {
    if b == [] || b[0] == LF then 0
    else
      assert b[..1 + LineLength(b[1..])] == [b[0]] + b[1..][..LineLength(b[1..])];
      1 + LineLength(b[1..])
  }

  /** `b.split(b"\n")`, without the empty piece after a final line feed. */
  function SplitLines(b: Bytes): seq<Bytes> {
    if b == [] then []
    else
      var n := LineLength(b);
      if n == |b| then [b] else [b[..n]] + SplitLines(b[n + 1..])
  }

  /** Every line followed by a line feed. */
  function Terminated(lines: seq<Bytes>): Bytes {
    if lines == [] then [] else lines[0] + [LF] + Terminated(lines[1..])
  }

  ghost predicate LineFeedFree(lines: seq<Bytes>) {
    forall i :: 0 <= i < |lines| ==> LF !in lines[i]
  }

  lemma {:induction false} LineLengthExact(line: Bytes, rest: Bytes)
    requires LF !in line
    ensures LineLength(line + [LF] + rest) == |line|
  {
    var b := line + [LF] + rest;
    if line != [] {
      assert b[0] == line[0] && line[0] in line;
      assert b[1..] == line[1..] + [LF] + rest;
      assert forall x :: x in line[1..] ==> x in line;
      LineLengthExact(line[1..], rest);
    }
  }

  lemma {:induction false} SplitTerminated(lines: seq<Bytes>)
    requires LineFeedFree(lines)
    ensures SplitLines(Terminated(lines)) == lines
  {
    if lines != [] {
      var b := Terminated(lines);
      LineLengthExact(lines[0], Terminated(lines[1..]));
      assert b[|lines[0]| + 1..] == Terminated(lines[1..]);
      assert b[..|lines[0]|] == lines[0];
      SplitTerminated(lines[1..]);
    }
  }
}
