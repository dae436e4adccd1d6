/** The text of an element: its words, with one blank between them. */
module DefinitionText {
  import opened PythonText
  import opened DefinitionList

  ghost predicate Word(w: string) {
    w != "" && forall i :: 0 <= i < |w| ==> !IsSpace(w[i])
  }

  ghost predicate AllWords(ws: seq<string>) {
    forall i :: 0 <= i < |ws| ==> Word(ws[i])
  }

  /** Words with one blank between them, and no other white space. */
  ghost predicate Clean(t: string) {
    && NoOuterSpace(t)
    && forall i :: 0 <= i < |t| && IsSpace(t[i]) ==> t[i] == ' ' && i + 1 < |t| && !IsSpace(t[i + 1])
  }

  /** The characters that are not white space, in order. */
  ghost function Letters(s: string): string {
    if s == "" then "" else (if IsSpace(s[0]) then "" else [s[0]]) + Letters(s[1..])
  }

  ghost function Concat(ws: seq<string>): string {
    if ws == [] then "" else ws[0] + Concat(ws[1..])
  }

  lemma {:induction false} LettersOfWord(w: string, s: string)
    requires forall i :: 0 <= i < |w| ==> !IsSpace(w[i])
    ensures Letters(w + s) == w + Letters(s)
  {
    if w == "" {
      assert w + s == s;
    } else {
      assert (w + s)[1..] == w[1..] + s;
      LettersOfWord(w[1..], s);
    }
  }

  lemma {:induction false} WordLengthExact(s: string)
    ensures var n := WordLength(s);
            (forall i :: 0 <= i < n ==> !IsSpace(s[i])) && (n < |s| ==> IsSpace(s[n]))
  {
    if s != "" && !IsSpace(s[0]) {
      WordLengthExact(s[1..]);
    }
  }

  /** Splitting gives words, and loses nothing but white space. */
  lemma {:induction false} WordsExact(s: string)
    ensures AllWords(Words(s)) && Concat(Words(s)) == Letters(s)
    decreases |s|
  {
    if s != "" {
      if IsSpace(s[0]) {
        WordsExact(s[1..]);
      } else {
        var n := WordLength(s);
        WordLengthExact(s);
        WordsExact(s[n..]);
        LettersOfWord(s[..n], s[n..]);
        assert s == s[..n] + s[n..];
        assert ([s[..n]] + Words(s[n..]))[1..] == Words(s[n..]);
      }
    }
  }

  lemma {:induction false} WordLengthOf(w: string, r: string)
    requires (forall i :: 0 <= i < |w| ==> !IsSpace(w[i])) && (r == "" || IsSpace(r[0]))
    ensures WordLength(w + r) == |w|
  {
    if w == "" {
      assert w + r == r;
    } else {
      assert (w + r)[1..] == w[1..] + r;
      WordLengthOf(w[1..], r);
    }
  }

  lemma WordThen(w: string, r: string)
    requires Word(w) && (r == "" || IsSpace(r[0]))
    ensures Words(w + r) == [w] + Words(r)
  {
    WordLengthOf(w, r);
    assert (w + r)[..|w|] == w && (w + r)[|w|..] == r;
  }

  lemma BlankThen(r: string)
    ensures Words(" " + r) == Words(r)
  {
    assert (" " + r)[1..] == r;
  }

  /** Joined words split into the same words again. */
  lemma {:induction false} WordsOfJoin(ws: seq<string>)
    requires AllWords(ws)
    ensures Words(JoinWith(ws, " ")) == ws
  {
    if |ws| == 1 {
      WordThen(ws[0], "");
      assert ws[0] + "" == ws[0];
    } else if |ws| > 1 {
      var rest := JoinWith(ws[1..], " ");
      WordsOfJoin(ws[1..]);
      assert JoinWith(ws, " ") == ws[0] + (" " + rest);
      WordThen(ws[0], " " + rest);
      BlankThen(rest);
      assert ws == [ws[0]] + ws[1..];
    }
  }

  lemma CleanCons(w: string, rest: string)
    requires Word(w) && Clean(rest) && rest != ""
    ensures Clean(w + " " + rest)
  {
    var t := w + " " + rest;
    forall i | 0 <= i < |t| && IsSpace(t[i])
      ensures t[i] == ' ' && i + 1 < |t| && !IsSpace(t[i + 1])
    {
      if i > |w| {
        assert t[i] == rest[i - |w| - 1];
      }
    }
  }

  lemma {:induction false} JoinClean(ws: seq<string>)
    requires AllWords(ws)
    ensures Clean(JoinWith(ws, " ")) && (ws != [] ==> JoinWith(ws, " ") != "")
  {
    if |ws| > 1 {
      JoinClean(ws[1..]);
      CleanCons(ws[0], JoinWith(ws[1..], " "));
    } else if |ws| == 1 {
      assert Word(ws[0]);
    }
  }

  /** A clean text is a word, or a word, a blank and a clean text. */
  lemma CleanSplit(t: string) returns (w: string, rest: string)
    requires Clean(t) && t != ""
    ensures Word(w) && Clean(rest)
    ensures if rest == "" then t == w else t == w + (" " + rest)
  {
    var n := WordLength(t);
    WordLengthExact(t);
    w := t[..n];
    if n == |t| {
      rest := "";
    } else {
      assert t[n] == ' ' && n + 1 < |t| && !IsSpace(t[n + 1]);
      rest := t[n + 1..];
      CleanTail(t, n + 1);
      SplitAt(t, n);
    }
  }

  lemma SplitAt(t: string, n: nat)
    requires n < |t| && t[n] == ' '
    ensures t == t[..n] + (" " + t[n + 1..])
  {
  }

  lemma SomeWords(t: string)
    requires Clean(t) && t != ""
    ensures Words(t) != []
  {
  }

  lemma WordsStep(w: string, rest: string)
    requires Word(w)
    ensures Words(w + (" " + rest)) == [w] + Words(rest)
  {
    WordThen(w, " " + rest);
    BlankThen(rest);
  }

  lemma JoinStep(w: string, ws: seq<string>, rest: string)
    requires ws != [] && rest == JoinWith(ws, " ")
    ensures JoinWith([w] + ws, " ") == w + (" " + rest)
  {
    JoinOne(w, ws);
    assert w + " " + rest == w + (" " + rest);
  }

  /** A clean text is its words, joined. */
  lemma {:induction false} CleanIsJoin(t: string)
    requires Clean(t)
    ensures t == JoinWith(Words(t), " ")
    decreases |t|
  {
    if t != "" {
      var w, rest := CleanSplit(t);
      if rest == "" {
        OneWord(w);
      } else {
        CleanIsJoin(rest);
        SomeWords(rest);
        WordsStep(w, rest);
        JoinStep(w, Words(rest), rest);
      }
    }
  }

  lemma OneWord(w: string)
    requires Word(w)
    ensures JoinWith(Words(w), " ") == w
  {
    WordThen(w, "");
    assert w + "" == w;
  }

  lemma CleanTail(t: string, k: nat)
    requires Clean(t) && 0 < k < |t| && !IsSpace(t[k])
    ensures Clean(t[k..])
  {
    var rest := t[k..];
    assert rest[|rest| - 1] == t[|t| - 1];
    forall i | 0 <= i < |rest| && IsSpace(rest[i])
      ensures rest[i] == ' ' && i + 1 < |rest| && !IsSpace(rest[i + 1])
    {
      assert rest[i] == t[k + i];
    }
  }

  /** The text of an element is the one clean text that has the words of its parts. */
  lemma NormalTextExact(parts: seq<string>, t: string)
    ensures t == NormalText(parts) <==> Clean(t) && Words(t) == Words(JoinWith(parts, " "))
    ensures Letters(NormalText(parts)) == Letters(JoinWith(parts, " "))
  {
    var raw := JoinWith(parts, " ");
    WordsExact(raw);
    JoinClean(Words(raw));
    WordsOfJoin(Words(raw));
    WordsExact(NormalText(parts));
    if Clean(t) {
      CleanIsJoin(t);
    }
  }

  /** Joining puts a blank between parts and keeps them as they are. */
  lemma JoinOne(first: string, rest: seq<string>)
    ensures JoinWith([first], " ") == first
    ensures rest != [] ==> JoinWith([first] + rest, " ") == first + " " + JoinWith(rest, " ")
  {
    assert ([first] + rest)[1..] == rest;
  }
}
