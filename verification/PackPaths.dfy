/** The public files and the allowed trees, said of paths and the entries they lead to. */
module PackPaths {
  import opened PackWalk

  /** The walk comes to an entry by a path: through directories that it does not skip. */
  ghost predicate At(ns: seq<Node>, parts: Path, n: Node)
    decreases |parts|, 1
  {
    exists i :: 0 <= i < |ns| && AtNode(ns[i], parts, n)
  }

  ghost predicate AtNode(m: Node, parts: Path, n: Node)
    decreases |parts|, 0
  {
    && parts != [] && m.name == parts[0]
    && (if |parts| == 1 then n == m else m.Directory? && !Skipped(m) && At(m.children, parts[1..], n))
  }

  lemma AtCons(ns: seq<Node>, parts: Path, n: Node)
    requires ns != []
    ensures At(ns, parts, n) <==> AtNode(ns[0], parts, n) || At(ns[1..], parts, n)
  {
    if At(ns[1..], parts, n) {
      var i :| 0 <= i < |ns[1..]| && AtNode(ns[1..][i], parts, n);
      assert ns[i + 1] == ns[1..][i];
    }
    if i :| 0 <= i < |ns| && AtNode(ns[i], parts, n) {
      if i > 0 {
        assert ns[1..][i - 1] == ns[i];
      }
    }
  }

  lemma SomePath(ns: seq<Node>, parts: Path, n: Node)
    requires At(ns, parts, n)
    ensures parts != []
  {
    var i :| 0 <= i < |ns| && AtNode(ns[i], parts, n);
  }

  // ---------------------------------------------------------------- public files

  ghost predicate IsPublic(n: Node) {
    n.File? && !Skipped(n) && PublicName(n.name)
  }

  ghost predicate PublicAt(ns: seq<Node>, prefix: Path, x: string, parts: Path, n: Node) {
    At(ns, parts, n) && IsPublic(n) && x == Posix(prefix + parts)
  }

  lemma {:induction false} FileFound(ns: seq<Node>, prefix: Path, x: string) returns (parts: Path, n: Node)
    requires x in Files(ns, prefix)
    ensures PublicAt(ns, prefix, x, parts, n)
    decreases ns
  {
    if x in FilesOf(ns[0], prefix) {
      parts, n := FileFoundIn(ns[0], prefix, x);
    } else {
      parts, n := FileFound(ns[1..], prefix, x);
    }
    AtCons(ns, parts, n);
  }

  lemma {:induction false} FileFoundIn(m: Node, prefix: Path, x: string) returns (parts: Path, n: Node)
    requires x in FilesOf(m, prefix)
    ensures AtNode(m, parts, n) && IsPublic(n) && x == Posix(prefix + parts)
    decreases m
  {
    if m.Directory? {
      var below;
      below, n := FileFound(m.children, prefix + [m.name], x);
      parts := [m.name] + below;
      assert parts[1..] == below && prefix + [m.name] + below == prefix + parts;
      SomePath(m.children, below, n);
    } else {
      parts, n := [m.name], m;
      assert IsPublic(m);
    }
  }

  lemma {:induction false} FileListed(ns: seq<Node>, prefix: Path, parts: Path, n: Node)
    requires At(ns, parts, n) && IsPublic(n)
    ensures Posix(prefix + parts) in Files(ns, prefix)
    decreases ns
  {
    AtCons(ns, parts, n);
    if AtNode(ns[0], parts, n) {
      FileListedIn(ns[0], prefix, parts, n);
    } else {
      FileListed(ns[1..], prefix, parts, n);
    }
  }

  lemma {:induction false} FileListedIn(m: Node, prefix: Path, parts: Path, n: Node)
    requires AtNode(m, parts, n) && IsPublic(n)
    ensures Posix(prefix + parts) in FilesOf(m, prefix)
    decreases m
  {
    if |parts| == 1 {
      assert parts == [m.name];
    } else {
      FileListed(m.children, prefix + [m.name], parts[1..], n);
      assert prefix + [m.name] + parts[1..] == prefix + parts;
    }
  }

  /** The public files are the paths of the regular files with public names that the walk comes to. */
  lemma FilesExact(root: seq<Node>, x: string)
    ensures x in Files(root, []) <==> exists parts, n :: PublicAt(root, [], x, parts, n)
  {
    if x in Files(root, []) {
      var parts, n := FileFound(root, [], x);
    }
    if parts, n :| PublicAt(root, [], x, parts, n) {
      FileListed(root, [], parts, n);
    }
  }

  // --------------------------------------------------------------- allowed trees

  /** An entry at some depth is of a kind that the walk takes, and not too deep. */
  ghost predicate Fine(n: Node, depth: nat) {
    depth <= MAX_PACK_DEPTH && !n.Symlink? && (Skipped(n) || n.File? || n.Directory?)
  }

  lemma {:induction false} AllowedMeansFine(ns: seq<Node>, depth: nat, parts: Path, n: Node)
    requires Allowed(ns, depth) && At(ns, parts, n)
    ensures Fine(n, depth + |parts|)
    decreases ns
  {
    AtCons(ns, parts, n);
    if AtNode(ns[0], parts, n) {
      AllowedNodeFine(ns[0], depth, parts, n);
    } else {
      AllowedMeansFine(ns[1..], depth, parts, n);
    }
  }

  lemma {:induction false} AllowedNodeFine(m: Node, depth: nat, parts: Path, n: Node)
    requires AllowedNode(m, depth) && AtNode(m, parts, n)
    ensures Fine(n, depth + |parts|)
    decreases m
  {
    if |parts| > 1 {
      AllowedMeansFine(m.children, depth + 1, parts[1..], n);
    }
  }

  lemma {:induction false} Culprit(ns: seq<Node>, depth: nat) returns (parts: Path, n: Node)
    requires !Allowed(ns, depth)
    ensures At(ns, parts, n) && !Fine(n, depth + |parts|)
    decreases ns
  {
    if !AllowedNode(ns[0], depth) {
      parts, n := CulpritIn(ns[0], depth);
    } else {
      parts, n := Culprit(ns[1..], depth);
    }
    AtCons(ns, parts, n);
  }

  lemma {:induction false} CulpritIn(m: Node, depth: nat) returns (parts: Path, n: Node)
    requires !AllowedNode(m, depth)
    ensures AtNode(m, parts, n) && !Fine(n, depth + |parts|)
    decreases m
  {
    if Fine(m, depth + 1) {
      var below;
      below, n := Culprit(m.children, depth + 1);
      parts := [m.name] + below;
      SomePath(m.children, below, n);
      assert parts[1..] == below;
    } else {
      parts, n := [m.name], m;
    }
  }

  /** A tree is allowed exactly when every entry that the walk comes to is fine where it stands. */
  lemma AllowedExact(root: seq<Node>)
    ensures Allowed(root, 0) <==> forall parts, n :: At(root, parts, n) ==> Fine(n, |parts|)
  {
    if Allowed(root, 0) {
      forall parts, n | At(root, parts, n) ensures Fine(n, |parts|) {
        AllowedMeansFine(root, 0, parts, n);
      }
    } else {
      var parts, n := Culprit(root, 0);
    }
  }
}
