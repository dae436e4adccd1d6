/** The A1 rule: a side's work-directory prefix becomes the placeholder `<work>/`. */
module WorkDirPaths {

  const WORK_PLACEHOLDER := "<work>/"

  /** `normalize_prefix` does not raise. */
  predicate AcceptedPrefix(prefix: string) {
    prefix != "" && prefix[0] == '/' && prefix[|prefix| - 1] == '/'
  }

  /** `normalize_prefix`: an absolute path with a slash at its end. */
  method NormalizePrefix(prefix: string) returns (ok: bool)
    ensures ok <==> AcceptedPrefix(prefix)
  {
    if |prefix| == 0 {
      return false;
    }
    ok := "/" <= prefix && prefix[|prefix| - 1..] == "/";
  }

  function Canonicalize(path: string, prefix: string): string {
    if prefix <= path then WORK_PLACEHOLDER + path[|prefix|..] else path
  }

  /** A path under the work directory, and one that only looks like it. */
  lemma CanonicalizeExamples()
    ensures Canonicalize("/work/a.txt", "/work/") == "<work>/a.txt"
    ensures Canonicalize("/workbench/a.txt", "/work/") == "/workbench/a.txt"
  {
    assert "/work/a.txt" == "/work/" + "a.txt";
    assert "/workbench/a.txt"[5] != "/work/"[5];
  }

  function CanonicalizeAll(paths: set<string>, prefix: string): set<string> {
    set p | p in paths :: Canonicalize(p, prefix)
  }

  predicate Absolute(path: string) {
    path != "" && path[0] == '/'
  }

  /** Canonicalising again, with any accepted prefix, changes the result exactly when the path
      is outside the first work directory and inside the second; so with one prefix never. */
  lemma CanonicalizeAgain(path: string, p: string, q: string)
    requires AcceptedPrefix(p) && AcceptedPrefix(q)
    ensures Canonicalize(Canonicalize(path, p), q) == Canonicalize(path, p) <==> p <= path || !(q <= path)
    ensures Canonicalize(Canonicalize(path, p), p) == Canonicalize(path, p)
  {
    assert WORK_PLACEHOLDER[0] != q[0] && WORK_PLACEHOLDER[0] != p[0];
    if q <= path {
      assert Canonicalize(path, q)[0] != path[0];
    }
  }

  /** A path of the second work directory, outside the first, is not left alone the second time. */
  lemma SecondPrefixApplies()
    ensures Canonicalize(Canonicalize("/b/x", "/a/"), "/b/") != Canonicalize("/b/x", "/a/")
  {
    assert "/a/"[1] != "/b/x"[1];
    CanonicalizeAgain("/b/x", "/a/", "/b/");
  }

  /** Two different paths have the same canonical form exactly when one is the other with the
      prefix replaced, which is impossible for absolute paths. */
  lemma CanonicalizeCollision(x: string, y: string, prefix: string)
    requires AcceptedPrefix(prefix)
    ensures Canonicalize(x, prefix) == Canonicalize(y, prefix) <==>
              x == y
              || (prefix <= x && y == WORK_PLACEHOLDER + x[|prefix|..])
              || (prefix <= y && x == WORK_PLACEHOLDER + y[|prefix|..])
    ensures Absolute(x) && Absolute(y) ==> (Canonicalize(x, prefix) == Canonicalize(y, prefix) <==> x == y)
  {
    if prefix <= x && prefix <= y && Canonicalize(x, prefix) == Canonicalize(y, prefix) {
      assert x[|prefix|..] == Canonicalize(x, prefix)[|WORK_PLACEHOLDER|..];
      assert y[|prefix|..] == Canonicalize(y, prefix)[|WORK_PLACEHOLDER|..];
      assert x == prefix + x[|prefix|..] && y == prefix + y[|prefix|..];
    }
    assert WORK_PLACEHOLDER[0] != prefix[0];
    if prefix <= x && y == WORK_PLACEHOLDER + x[|prefix|..] {
      assert y[0] != prefix[0];
    }
    if prefix <= y && x == WORK_PLACEHOLDER + y[|prefix|..] {
      assert x[0] != prefix[0];
    }
  }

  /** A path under the old work directory, moved to the new one. */
  function Relocate(path: string, p: string, q: string): string {
    if p <= path then q + path[|p|..] else path
  }

  /** Moving a path and declaring the new prefix keeps its canonical form, exactly unless the
      path was outside the old work directory and is inside the new one. */
  lemma RelocateInvariant(path: string, p: string, q: string)
    requires AcceptedPrefix(p) && AcceptedPrefix(q)
    ensures Canonicalize(Relocate(path, p, q), q) == Canonicalize(path, p) <==> p <= path || !(q <= path)
  {
    if p <= path {
      assert (q + path[|p|..])[|q|..] == path[|p|..];
    } else if q <= path {
      assert WORK_PLACEHOLDER[0] != q[0];
      assert Canonicalize(path, q)[0] != path[0];
    }
  }
}
