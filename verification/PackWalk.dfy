/** The bounded walk over the public files of a conformance pack. */
module PackWalk {
  import opened Outcomes
  import opened Utf8

  const MAX_PACK_ENTRIES: nat := 256
  const MAX_PACK_DEPTH: nat := 8
  const SUMS := "SHA256SUMS"
  const SKIPPED := "__pycache__"

  /** A directory entry; Special is neither a link, a directory nor a regular file. */
  datatype Node =
    | File(name: string, data: Bytes)
    | Directory(name: string, children: seq<Node>)
    | Symlink(name: string)
    | Special(name: string)

  type Path = seq<string>

  /** `as_posix()`. */
  function Posix(parts: Path): string {
    if parts == [] then ""
    else if |parts| == 1 then parts[0]
    else parts[0] + "/" + Posix(parts[1..])
  }

  function LastDot(name: string): (i: int)
    ensures -1 <= i < |name|
    ensures i >= 0 ==> name[i] == '.'
    ensures forall j :: i < j < |name| ==> name[j] != '.'
  {
    if name == "" then -1
    else if name[|name| - 1] == '.' then |name| - 1
    else LastDot(name[..|name| - 1])
  }

  /** `PurePath.suffix`: empty for a name that begins or ends with its last dot. */
  function Suffix(name: string): string {
    var i := LastDot(name);
    if 0 < i < |name| - 1 then name[i..] else ""
  }

  predicate PublicName(name: string) {
    name != SUMS && Suffix(name) != ".pyc" && Suffix(name) != ".pyo"
  }

  lemma {:induction false} LastDotOf(stem: string, ending: string)
    requires '.' !in ending
    ensures LastDot(stem + "." + ending) == |stem|
  {
    var name := stem + "." + ending;
    var i := LastDot(name);
    assert name[|stem|] == '.';
    assert forall j :: |stem| < j < |name| ==> name[j] == ending[j - |stem| - 1];
  }

  /** A name has a suffix exactly when it is a stem, a dot and an ending without dots, neither empty. */
  lemma SuffixExact(name: string, ending: string)
    ensures Suffix(name) == "." + ending <==>
              ending != "" && '.' !in ending && exists stem :: stem != "" && name == stem + "." + ending
  {
    if stem :| ending != "" && '.' !in ending && stem != "" && name == stem + "." + ending {
      SuffixOf(stem, ending);
    }
    if Suffix(name) == "." + ending {
      var stem := StemOf(name, ending);
      EndingOf(name, ending);
    }
  }

  lemma SuffixOf(stem: string, ending: string)
    requires stem != "" && ending != "" && '.' !in ending
    ensures Suffix(stem + "." + ending) == "." + ending
  {
    LastDotOf(stem, ending);
    assert (stem + "." + ending)[|stem|..] == "." + ending;
  }

  lemma EndingOf(name: string, ending: string)
    requires Suffix(name) == "." + ending
    ensures ending != "" && '.' !in ending
  {
    var i := LastDot(name);
    assert |name[i..]| == 1 + |ending|;
    forall k | 0 <= k < |ending|
      ensures ending[k] != '.'
    {
      assert ending[k] == ("." + ending)[k + 1] == name[i..][k + 1] == name[i + k + 1];
    }
  }

  lemma StemOf(name: string, ending: string) returns (stem: string)
    requires Suffix(name) == "." + ending
    ensures stem != "" && name == stem + "." + ending
  {
    var i := LastDot(name);
    stem := name[..i];
    assert name == stem + name[i..];
    assert stem + ("." + ending) == stem + "." + ending;
  }

  /** The hidden names are the checksum list's own and those of compiled files; `.pyc` alone is not one. */
  lemma PublicNameExact(name: string)
    ensures !PublicName(name) <==>
              name == SUMS || exists stem :: stem != "" && (name == stem + ".pyc" || name == stem + ".pyo")
  {
    SuffixExact(name, "pyc");
    SuffixExact(name, "pyo");
    assert "." + "pyc" == ".pyc" && "." + "pyo" == ".pyo";
    forall stem: string ensures stem + "." + "pyc" == stem + ".pyc" && stem + "." + "pyo" == stem + ".pyo" {
    }
  }

  predicate Skipped(n: Node) {
    n.name == SKIPPED
  }

  // ------------------------------------------------------- recursive definition

  /** The entries that the walk sees under a list of siblings. */
  ghost function Entries(ns: seq<Node>): nat
    decreases ns
  {
    if ns == [] then 0 else 1 + EntriesBelow(ns[0]) + Entries(ns[1..])
  }

  ghost function EntriesBelow(n: Node): nat
    decreases n
  {
    if n.Directory? && !Skipped(n) then Entries(n.children) else 0
  }

  /** No entry that the walk sees is too deep, a link or of an unsupported type. */
  ghost predicate Allowed(ns: seq<Node>, depth: nat)
    decreases ns
  {
    ns != [] ==> AllowedNode(ns[0], depth) && Allowed(ns[1..], depth)
  }

  ghost predicate AllowedNode(n: Node, depth: nat)
    decreases n
  {
    && depth + 1 <= MAX_PACK_DEPTH
    && !n.Symlink?
    && (Skipped(n) || n.File? || (n.Directory? && Allowed(n.children, depth + 1)))
  }

  /** The public files under a list of siblings. */
  ghost function Files(ns: seq<Node>, prefix: Path): set<string>
    decreases ns
  {
    if ns == [] then {} else FilesOf(ns[0], prefix) + Files(ns[1..], prefix)
  }

  ghost function FilesOf(n: Node, prefix: Path): set<string>
    decreases n
  {
    if Skipped(n) then {}
    else if n.Directory? then Files(n.children, prefix + [n.name])
    else if n.File? && PublicName(n.name) then {Posix(prefix + [n.name])}
    else {}
  }

  // ------------------------------------------------------------------- worklist

  datatype Pending = Pending(path: Path, children: seq<Node>)

  ghost function PendingEntries(work: seq<Pending>): nat {
    if work == [] then 0 else PendingEntries(work[..|work| - 1]) + Entries(work[|work| - 1].children)
  }

  ghost predicate PendingAllowed(work: seq<Pending>) {
    forall i :: 0 <= i < |work| ==> Allowed(work[i].children, |work[i].path|)
  }

  ghost function PendingFiles(work: seq<Pending>): set<string> {
    if work == [] then {} else PendingFiles(work[..|work| - 1]) + Files(work[|work| - 1].children, work[|work| - 1].path)
  }

  /** What has been seen and what is still to be seen make up the whole tree. */
  ghost predicate Covers(root: seq<Node>, entries: nat, files: set<string>, work: seq<Pending>) {
    && entries + PendingEntries(work) == Entries(root)
    && (Allowed(root, 0) <==> PendingAllowed(work))
    && files + PendingFiles(work) == Files(root, [])
  }

  /** The work that is left when a directory has been listed up to some child. */
  ghost predicate CoversRest(root: seq<Node>, entries: nat, files: set<string>, work: seq<Pending>,
                             path: Path, rest: seq<Node>)
  {
    && entries + PendingEntries(work) + Entries(rest) == Entries(root)
    && (Allowed(root, 0) <==> PendingAllowed(work) && Allowed(rest, |path|))
    && files + PendingFiles(work) + Files(rest, path) == Files(root, [])
  }

  lemma PushPending(work: seq<Pending>, p: Pending)
    ensures PendingEntries(work + [p]) == PendingEntries(work) + Entries(p.children)
    ensures PendingAllowed(work + [p]) <==> PendingAllowed(work) && Allowed(p.children, |p.path|)
    ensures PendingFiles(work + [p]) == PendingFiles(work) + Files(p.children, p.path)
  {
    assert (work + [p])[..|work|] == work;
    assert (work + [p])[|work|] == p;
    assert forall i :: 0 <= i < |work| ==> (work + [p])[i] == work[i];
  }

  lemma StartRest(root: seq<Node>, entries: nat, files: set<string>, work: seq<Pending>)
    requires work != [] && Covers(root, entries, files, work)
    ensures var n := |work| - 1;
            CoversRest(root, entries, files, work[..n], work[n].path, work[n].children)
  {
    var n := |work| - 1;
    assert work == work[..n] + [work[n]];
    PushPending(work[..n], work[n]);
  }

  lemma EndRest(root: seq<Node>, entries: nat, files: set<string>, work: seq<Pending>, path: Path)
    requires CoversRest(root, entries, files, work, path, [])
    ensures Covers(root, entries, files, work)
  {
  }

  /** The next entry counts, and the whole tree is refused if it is. */
  lemma SeeEntry(root: seq<Node>, entries: nat, files: set<string>, work: seq<Pending>, path: Path, rest: seq<Node>)
    requires rest != [] && CoversRest(root, entries, files, work, path, rest)
    ensures entries + 1 <= Entries(root)
    ensures Allowed(root, 0) ==> AllowedNode(rest[0], |path|)
  {
  }

  /** An entry that is not descended into contributes its own files. */
  lemma SeeLeaf(root: seq<Node>, entries: nat, files: set<string>, work: seq<Pending>, path: Path, rest: seq<Node>)
    requires rest != [] && CoversRest(root, entries, files, work, path, rest)
    requires AllowedNode(rest[0], |path|) && (Skipped(rest[0]) || !rest[0].Directory?)
    ensures CoversRest(root, entries + 1, files + FilesOf(rest[0], path), work, path, rest[1..])
  {
    assert EntriesBelow(rest[0]) == 0;
    assert Files(rest, path) == FilesOf(rest[0], path) + Files(rest[1..], path);
    assert Allowed(rest, |path|) <==> Allowed(rest[1..], |path|);
  }

  /** A directory is put on the worklist. */
  lemma SeeDirectory(root: seq<Node>, entries: nat, files: set<string>, work: seq<Pending>, path: Path, rest: seq<Node>)
    requires rest != [] && CoversRest(root, entries, files, work, path, rest)
    requires rest[0].Directory? && !Skipped(rest[0]) && |path| + 1 <= MAX_PACK_DEPTH
    ensures CoversRest(
              root, entries + 1, files, work + [Pending(path + [rest[0].name], rest[0].children)], path, rest[1..])
  {
    var p := Pending(path + [rest[0].name], rest[0].children);
    PushPending(work, p);
    assert Files(rest, path) == Files(p.children, p.path) + Files(rest[1..], path);
    assert Allowed(rest, |path|) <==> Allowed(p.children, |p.path|) && Allowed(rest[1..], |path|);
    assert Entries(rest) == 1 + Entries(p.children) + Entries(rest[1..]);
  }

  /** The worklist never enters a skipped directory, so the test on all the parts of an entry's path is
      a test on its name. */
  ghost predicate NoneSkipped(directories: seq<Pending>) {
    forall d :: d in directories ==> SKIPPED !in d.path
  }

  /** The checks on one listed entry, after it has been counted. */
  method VisitChild(ghost root: seq<Node>, ghost entries: nat, ghost rest: seq<Node>,
                    files: set<string>, directories: seq<Pending>, path: Path, child: Node)
    returns (ok: bool, files': set<string>, directories': seq<Pending>)
    requires rest != [] && rest[0] == child && CoversRest(root, entries, files, directories, path, rest)
    requires NoneSkipped(directories) && SKIPPED !in path
    ensures !ok ==> !Allowed(root, 0)
    ensures ok ==> NoneSkipped(directories')
    ensures ok ==> CoversRest(root, entries + 1, files', directories', path, rest[1..])
    ensures ok ==>
              |directories'| + PendingEntries(directories') + Entries(rest[1..])
              <= |directories| + PendingEntries(directories) + Entries(rest)
  {
    ok, files', directories' := true, files, directories;
    SeeEntry(root, entries, files, directories, path, rest);
    var relative := path + [child.name];
    if |relative| > MAX_PACK_DEPTH || child.Symlink? {
      ok := false;
      return;
    }
    if SKIPPED !in relative && child.Directory? {
      SeeDirectory(root, entries, files, directories, path, rest);
      PushPending(directories, Pending(relative, child.children));
      directories' := directories + [Pending(relative, child.children)];
      return;
    }
    if SKIPPED !in relative && !child.File? {
      ok := false;
      return;
    }
    SeeLeaf(root, entries, files, directories, path, rest);
    if SKIPPED !in relative && PublicName(child.name) {
      files' := files + {Posix(relative)};
    } else {
      assert files + FilesOf(child, path) == files;
    }
  }

  /** `_public_pack_files`: accepted exactly when the recursive definition allows the tree and counts
      no more entries than the limit; the result is then its set of public files. */
  method PublicPackFiles(root: seq<Node>) returns (r: Result<set<string>>)
    ensures r.Ok? <==> Allowed(root, 0) && Entries(root) <= MAX_PACK_ENTRIES
    ensures r.Ok? ==> r.value == Files(root, [])
    ensures r.Raised? ==> r.error == "PackError"
  {
    var files: set<string> := {};
    var directories := [Pending([], root)];
    var entries: nat := 0;
    PushPending([], Pending([], root));
    assert [] + [Pending([], root)] == directories;
    while directories != []
      invariant entries <= MAX_PACK_ENTRIES
      invariant NoneSkipped(directories)
      invariant Covers(root, entries, files, directories)
      decreases |directories| + PendingEntries(directories)
    {
      var top := |directories| - 1;
      var directory := directories[top];
      StartRest(root, entries, files, directories);
      ghost var measure := |directories| + PendingEntries(directories);
      directories := directories[..top];
      for k := 0 to |directory.children|
        invariant entries <= MAX_PACK_ENTRIES
        invariant NoneSkipped(directories)
        invariant CoversRest(root, entries, files, directories, directory.path, directory.children[k..])
        invariant |directories| + PendingEntries(directories) + Entries(directory.children[k..]) < measure
      {
        ghost var rest := directory.children[k..];
        assert rest[1..] == directory.children[k + 1..];
        if entries + 1 > MAX_PACK_ENTRIES {
          SeeEntry(root, entries, files, directories, directory.path, rest);
          return Raised("PackError");
        }
        var ok;
        ok, files, directories :=
          VisitChild(root, entries, rest, files, directories, directory.path, directory.children[k]);
        if !ok {
          return Raised("PackError");
        }
        entries := entries + 1;
      }
      EndRest(root, entries, files, directories, directory.path);
    }
    return Ok(files);
  }

  // ----------------------------------------------------------------- any order

  /** The same entries, listed in another order at any level. */
  ghost predicate Reordered(ns: seq<Node>, ms: seq<Node>)
    decreases ns
  {
    if ns == [] then ms == []
    else exists j :: 0 <= j < |ms| && SameNode(ns[0], ms[j]) && Reordered(ns[1..], Without(ms, j))
  }

  ghost predicate SameNode(n: Node, m: Node)
    decreases n
  {
    if n.Directory? then m.Directory? && n.name == m.name && Reordered(n.children, m.children) else n == m
  }

  ghost function Without(ms: seq<Node>, j: nat): seq<Node>
    requires j < |ms|
  {
    ms[..j] + ms[j + 1..]
  }

  lemma WithoutTail(ms: seq<Node>, j: nat)
    requires 0 < j < |ms|
    ensures Without(ms, j) != [] && Without(ms, j)[0] == ms[0]
    ensures Without(ms, j)[1..] == Without(ms[1..], j - 1)
    ensures ms[1..][j - 1] == ms[j]
  {
  }

  lemma {:induction false} TakeOutEntries(ms: seq<Node>, j: nat)
    requires j < |ms|
    ensures Entries(ms) == 1 + EntriesBelow(ms[j]) + Entries(Without(ms, j))
    decreases |ms|
  {
    if j == 0 {
      assert Without(ms, 0) == ms[1..];
    } else {
      TakeOutEntries(ms[1..], j - 1);
      WithoutTail(ms, j);
    }
  }

  lemma {:induction false} TakeOutAllowed(ms: seq<Node>, j: nat, depth: nat)
    requires j < |ms|
    ensures Allowed(ms, depth) <==> AllowedNode(ms[j], depth) && Allowed(Without(ms, j), depth)
    decreases |ms|
  {
    if j == 0 {
      assert Without(ms, 0) == ms[1..];
    } else {
      TakeOutAllowed(ms[1..], j - 1, depth);
      WithoutTail(ms, j);
    }
  }

  lemma {:induction false} TakeOutFiles(ms: seq<Node>, j: nat, prefix: Path)
    requires j < |ms|
    ensures Files(ms, prefix) == FilesOf(ms[j], prefix) + Files(Without(ms, j), prefix)
    decreases |ms|
  {
    if j == 0 {
      assert Without(ms, 0) == ms[1..];
    } else {
      TakeOutFiles(ms[1..], j - 1, prefix);
      WithoutTail(ms, j);
    }
  }

  /** The listing order changes neither the verdict nor the set of files. */
  lemma {:induction false} OrderIrrelevant(ns: seq<Node>, ms: seq<Node>, depth: nat, prefix: Path)
    requires Reordered(ns, ms)
    ensures Entries(ns) == Entries(ms)
    ensures Allowed(ns, depth) <==> Allowed(ms, depth)
    ensures Files(ns, prefix) == Files(ms, prefix)
    decreases ns
  {
    if ns != [] {
      var j :| 0 <= j < |ms| && SameNode(ns[0], ms[j]) && Reordered(ns[1..], Without(ms, j));
      NodeOrderIrrelevant(ns[0], ms[j], depth, prefix);
      OrderIrrelevant(ns[1..], Without(ms, j), depth, prefix);
      TakeOutEntries(ms, j);
      TakeOutAllowed(ms, j, depth);
      TakeOutFiles(ms, j, prefix);
    }
  }

  lemma {:induction false} NodeOrderIrrelevant(n: Node, m: Node, depth: nat, prefix: Path)
    requires SameNode(n, m)
    ensures EntriesBelow(n) == EntriesBelow(m)
    ensures AllowedNode(n, depth) <==> AllowedNode(m, depth)
    ensures FilesOf(n, prefix) == FilesOf(m, prefix)
    decreases n
  {
    if n.Directory? {
      OrderIrrelevant(n.children, m.children, depth + 1, prefix + [n.name]);
    }
  }
}
