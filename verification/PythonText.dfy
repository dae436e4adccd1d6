/** The parts of Python's `str` that the models share. */
module PythonText {

  /** The characters that `str.strip` and `str.split` take for white space. */
  predicate IsSpace(c: char) {
    var n := c as int;
    9 <= n <= 13 || 28 <= n <= 32 || n == 0x85 || n == 0xA0 || n == 0x1680 || 0x2000 <= n <= 0x200A
    || n == 0x2028 || n == 0x2029 || n == 0x202F || n == 0x205F || n == 0x3000
  }

  /** `not s.strip()`. */
  predicate Blank(s: string) {
    forall i :: 0 <= i < |s| ==> IsSpace(s[i])
  }

  function StripLeft(s: string): string {
    if s != "" && IsSpace(s[0]) then StripLeft(s[1..]) else s
  }

  function StripRight(s: string): string {
    if s != "" && IsSpace(s[|s| - 1]) then StripRight(s[..|s| - 1]) else s
  }

  function Strip(s: string): string {
    StripRight(StripLeft(s))
  }

  predicate NoOuterSpace(t: string) {
    t == "" || (!IsSpace(t[0]) && !IsSpace(t[|t| - 1]))
  }

  /** s is t with white space around it, and t has none outside of its own. */
  ghost predicate Trims(s: string, t: string) {
    NoOuterSpace(t) && exists l, r :: Blank(l) && Blank(r) && s == l + t + r
  }

  lemma {:induction false} StripLeftDrops(l: string, s: string)
    requires Blank(l) && (s == "" || !IsSpace(s[0]))
    ensures StripLeft(l + s) == s
  {
    if l == "" {
      assert l + s == s;
    } else {
      assert (l + s)[1..] == l[1..] + s;
      StripLeftDrops(l[1..], s);
    }
  }

  lemma {:induction false} StripRightDrops(s: string, r: string)
    requires Blank(r) && (s == "" || !IsSpace(s[|s| - 1]))
    ensures StripRight(s + r) == s
    decreases |r|
  {
    if r == "" {
      assert s + r == s;
    } else {
      var n := |r| - 1;
      assert (s + r)[..|s + r| - 1] == s + r[..n];
      StripRightDrops(s, r[..n]);
    }
  }

  lemma BlankConcat(a: string, b: string)
    requires Blank(a) && Blank(b)
    ensures Blank(a + b)
  {
  }

  lemma {:induction false} StripLeftSplit(s: string) returns (l: string)
    ensures Blank(l) && s == l + StripLeft(s)
    ensures StripLeft(s) == "" || !IsSpace(StripLeft(s)[0])
  {
    if s != "" && IsSpace(s[0]) {
      var more := StripLeftSplit(s[1..]);
      l := [s[0]] + more;
      BlankConcat([s[0]], more);
      assert s == [s[0]] + s[1..];
    } else {
      l := "";
    }
  }

  lemma {:induction false} StripRightSplit(s: string) returns (r: string)
    ensures Blank(r) && s == StripRight(s) + r
    ensures StripRight(s) == "" || !IsSpace(StripRight(s)[|StripRight(s)| - 1])
    decreases |s|
  {
    if s != "" && IsSpace(s[|s| - 1]) {
      var n := |s| - 1;
      var more := StripRightSplit(s[..n]);
      r := more + [s[n]];
      BlankConcat(more, [s[n]]);
      assert s == s[..n] + [s[n]];
    } else {
      r := "";
    }
  }

  /** Stripping takes away white space on both sides, all of it, and nothing else. */
  lemma StripExact(s: string, t: string)
    ensures Strip(s) == t <==> Trims(s, t)
  {
    if Trims(s, t) {
      var l, r :| Blank(l) && Blank(r) && s == l + t + r;
      StripParts(l, t, r);
    }
    if Strip(s) == t {
      StripTrims(s);
    }
  }

  lemma StripTrims(s: string)
    ensures Trims(s, Strip(s))
  {
    var l := StripLeftSplit(s);
    var r := StripRightSplit(StripLeft(s));
    var t := Strip(s);
    assert s == l + t + r;
    StripOuter(s, l, r);
  }

  lemma StripOuter(s: string, l: string, r: string)
    requires StripLeft(s) == Strip(s) + r
    requires StripLeft(s) == "" || !IsSpace(StripLeft(s)[0])
    requires Strip(s) == "" || !IsSpace(Strip(s)[|Strip(s)| - 1])
    ensures NoOuterSpace(Strip(s))
  {
    if Strip(s) != "" {
      assert StripLeft(s)[0] == Strip(s)[0];
    }
  }

  lemma StripParts(l: string, t: string, r: string)
    requires Blank(l) && Blank(r) && NoOuterSpace(t)
    ensures Strip(l + t + r) == t
  {
    if t == "" {
      var s := l + t + r;
      assert Blank(s);
      StripLeftDrops(s, "");
      assert s + "" == s;
    } else {
      assert l + t + r == l + (t + r);
      StripLeftDrops(l, t + r);
      StripRightDrops(t, r);
    }
  }
}
