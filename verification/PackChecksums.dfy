/** SHA256SUMS binds exactly the public files of a pack. */
module PackChecksums {
  import opened Outcomes
  import opened Utf8
  import opened PackWalk

  const MAX_PACK_FILE_BYTES: nat := 1048576

  type Sha = Bytes -> string

  // ---------------------------------------------------------------- directories

  predicate ValidName(name: string) {
    name != "" && name != "." && name != ".." && '/' !in name
  }

  /** What a file system guarantees of a directory: proper names, no two entries with the same one. */
  ghost predicate WellNamed(ns: seq<Node>)
    decreases ns
  {
    ns != [] ==> && ValidName(ns[0].name)
                 && (forall i :: 1 <= i < |ns| ==> ns[i].name != ns[0].name)
                 && (ns[0].Directory? ==> WellNamed(ns[0].children))
                 && WellNamed(ns[1..])
  }

  function SlashAt(s: string): (i: nat)
    ensures i <= |s| && '/' !in s[..i]
    ensures i < |s| ==> s[i] == '/'
  {
    if s == "" || s[0] == '/' then 0
    else
      assert s[..1 + SlashAt(s[1..])] == [s[0]] + s[1..][..SlashAt(s[1..])];
      1 + SlashAt(s[1..])
  }

  /** The components of a path text. */
  function Split(s: string): (parts: Path)
    ensures parts != []
  {
    var i := SlashAt(s);
    if i == |s| then [s] else [s[..i]] + Split(s[i + 1..])
  }

  function Child(ns: seq<Node>, name: string): Option<Node> {
    if ns == [] then None else if ns[0].name == name then Some(ns[0]) else Child(ns[1..], name)
  }

  /** The entry that a path leads to. */
  function Locate(ns: seq<Node>, parts: Path): Option<Node>
    requires parts != []
    decreases |parts|
  {
    var child := Child(ns, parts[0]);
    if child.None? || |parts| == 1 then child
    else if child.value.Directory? then Locate(child.value.children, parts[1..])
    else None
  }

  /** `root / relative`, opened for reading. */
  function ReadFile(root: seq<Node>, relative: string): Option<Bytes> {
    match Locate(root, Split(relative))
    case Some(File(_, data)) => Some(data)
    case _ => None
  }

  // ------------------------------------------------- public files are readable

  ghost predicate ValidPath(parts: Path) {
    forall i :: 0 <= i < |parts| ==> ValidName(parts[i])
  }

  lemma {:induction false} SlashExact(name: string, rest: string)
    requires '/' !in name
    ensures SlashAt(name + "/" + rest) == |name|
    ensures SlashAt(name) == |name|
  {
    if name != "" {
      assert name[0] in name;
      assert forall c :: c in name[1..] ==> c in name;
      SlashExact(name[1..], rest);
      assert (name + "/" + rest)[1..] == name[1..] + "/" + rest;
    }
  }

  lemma SplitName(name: string)
    requires '/' !in name
    ensures Split(name) == [name]
  {
    SlashExact(name, "");
  }

  lemma SplitCons(name: string, rest: string)
    requires '/' !in name
    ensures Split(name + "/" + rest) == [name] + Split(rest)
  {
    var s := name + "/" + rest;
    SlashExact(name, rest);
    assert s[..|name|] == name && s[|name| + 1..] == rest;
  }

  lemma ValidTail(parts: Path)
    requires parts != [] && ValidPath(parts)
    ensures ValidPath(parts[1..]) && '/' !in parts[0]
  {
    assert ValidName(parts[0]);
    assert forall i :: 0 <= i < |parts[1..]| ==> parts[1..][i] == parts[i + 1];
  }

  lemma SplitPosixStep(parts: Path)
    requires |parts| > 1 && '/' !in parts[0] && Split(Posix(parts[1..])) == parts[1..]
    ensures Split(Posix(parts)) == parts
  {
    SplitCons(parts[0], Posix(parts[1..]));
    assert parts == [parts[0]] + parts[1..];
  }

  lemma {:induction false} SplitPosix(parts: Path)
    requires parts != [] && ValidPath(parts)
    ensures Split(Posix(parts)) == parts
  {
    ValidTail(parts);
    if |parts| == 1 {
      SplitName(parts[0]);
    } else {
      SplitPosix(parts[1..]);
      SplitPosixStep(parts);
    }
  }

  lemma PosixStart(parts: Path)
    requires parts != [] && ValidPath(parts)
    ensures Posix(parts) != "" && Posix(parts)[0] != '/'
  {
    assert ValidName(parts[0]);
    assert Posix(parts)[0] == parts[0][0];
    assert parts[0][0] in parts[0];
  }

  lemma SingleComponent(parts: Path, name: string)
    requires parts != [] && ValidPath(parts) && Posix(parts) == name && '/' !in name
    ensures parts == [name]
  {
    SplitPosix(parts);
    SplitName(name);
  }

  lemma NotName(parts: Path, name: string)
    requires parts != [] && ValidPath(parts) && parts[|parts| - 1] != name && '/' !in name
    ensures Posix(parts) != name
  {
    if Posix(parts) == name {
      SingleComponent(parts, name);
    }
  }

  lemma NoDotDot(parts: Path)
    requires ValidPath(parts)
    ensures ".." !in parts
  {
    assert forall i :: 0 <= i < |parts| ==> ValidName(parts[i]) && parts[i] != "..";
  }

  lemma PublicPathAccepted(parts: Path)
    requires parts != [] && ValidPath(parts) && parts[|parts| - 1] != SUMS
    ensures PathAccepted(Posix(parts)) && Split(Posix(parts)) == parts
  {
    PosixStart(parts);
    SplitPosix(parts);
    NoDotDot(parts);
    NotName(parts, SUMS);
  }

  /** A public file has a path of proper names that leads to it. */
  ghost predicate Reaches(ns: seq<Node>, prefix: Path, parts: Path, x: string) {
    && parts != [] && ValidPath(parts) && x == Posix(prefix + parts)
    && Locate(ns, parts).Some? && Locate(ns, parts).value.File?
    && parts[|parts| - 1] != SUMS
  }

  lemma {:induction false} ChildInTail(ns: seq<Node>, name: string)
    requires ns != [] && Child(ns[1..], name).Some?
    requires forall i :: 1 <= i < |ns| ==> ns[i].name != ns[0].name
    ensures Child(ns, name) == Child(ns[1..], name)
  {
    ChildNamed(ns[1..], name);
  }

  lemma {:induction false} ChildNamed(ns: seq<Node>, name: string)
    requires Child(ns, name).Some?
    ensures exists i :: 0 <= i < |ns| && ns[i].name == name
  {
    if ns[0].name != name {
      ChildNamed(ns[1..], name);
      var i :| 0 <= i < |ns[1..]| && ns[1..][i].name == name;
      assert ns[i + 1].name == name;
    }
  }

  lemma {:induction false} PublicFileReached(ns: seq<Node>, prefix: Path, x: string) returns (parts: Path)
    requires WellNamed(ns) && x in Files(ns, prefix)
    ensures Reaches(ns, prefix, parts, x)
    decreases ns
  {
    var n := ns[0];
    if x in FilesOf(n, prefix) {
      if n.File? {
        parts := [n.name];
      } else {
        parts := DirectoryFileReached(n, prefix, x);
        assert Child(ns, n.name) == Some(n);
      }
    } else {
      parts := PublicFileReached(ns[1..], prefix, x);
      ChildInTail(ns, parts[0]);
    }
  }

  lemma {:induction false} DirectoryFileReached(n: Node, prefix: Path, x: string) returns (parts: Path)
    requires n.Directory? && ValidName(n.name) && WellNamed(n.children) && x in FilesOf(n, prefix)
    ensures |parts| > 1 && parts[0] == n.name && ValidPath(parts) && x == Posix(prefix + parts)
    ensures Locate(n.children, parts[1..]).Some? && Locate(n.children, parts[1..]).value.File?
    ensures parts[|parts| - 1] != SUMS
    decreases n
  {
    var below := PublicFileReached(n.children, prefix + [n.name], x);
    parts := [n.name] + below;
    assert parts[1..] == below;
    assert prefix + [n.name] + below == prefix + parts;
  }

  /** Every public file can be read back under its own relative path, which passes the path checks. */
  lemma PublicFileReadable(root: seq<Node>, x: string)
    requires WellNamed(root) && x in Files(root, [])
    ensures ReadFile(root, x).Some?
    ensures PathAccepted(x)
  {
    var parts := PublicFileReached(root, [], x);
    assert [] + parts == parts;
    PublicPathAccepted(parts);
  }

  // ---------------------------------------------------------------- the checks

  predicate LowerHex(c: char): (b: bool)
    ensures b <==> c in "0123456789abcdef"
  {
    '0' <= c <= '9' || 'a' <= c <= 'f'
  }

  datatype Declaration = Declaration(digest: string, path: string)

  /** The regular expression of one line: 64 hexadecimal digits, two blanks, a path. */
  function ParseLine(line: string): Option<Declaration> {
    if |line| > 66 && (forall i :: 0 <= i < 64 ==> LowerHex(line[i])) && line[64..66] == "  " && '\n' !in line[66..]
    then Some(Declaration(line[..64], line[66..]))
    else None
  }

  /** A line declares a file exactly when it is its digest, two blanks and its path. */
  lemma LineExact(line: string, d: Declaration)
    ensures ParseLine(line) == Some(d) <==>
              && line == d.digest + "  " + d.path
              && |d.digest| == 64 && (forall i :: 0 <= i < 64 ==> LowerHex(d.digest[i]))
              && d.path != "" && '\n' !in d.path
  {
    if ParseLine(line) == Some(d) {
      assert line == line[..64] + line[64..66] + line[66..];
    }
    if line == d.digest + "  " + d.path && |d.digest| == 64 {
      assert line[..64] == d.digest && line[64..66] == "  " && line[66..] == d.path;
      assert forall i :: 0 <= i < 64 ==> line[i] == d.digest[i];
    }
  }

  /** The checks on a declared path, apart from its repetition. */
  predicate PathAccepted(path: string) {
    path != "" && path[0] != '/' && ".." !in Split(path) && path != SUMS
  }

  ghost predicate LinesParse(lines: seq<string>) {
    forall i :: 0 <= i < |lines| ==> ParseLine(lines[i]).Some?
  }

  ghost predicate PathsDistinct(lines: seq<string>)
    requires LinesParse(lines)
  {
    forall i, j :: 0 <= i < j < |lines| ==> ParseLine(lines[i]).value.path != ParseLine(lines[j]).value.path
  }

  ghost predicate PathsAccepted(lines: seq<string>)
    requires LinesParse(lines)
  {
    forall i :: 0 <= i < |lines| ==> PathAccepted(ParseLine(lines[i]).value.path)
  }

  ghost function Declared(lines: seq<string>): map<string, string>
    requires LinesParse(lines)
  {
    if lines == [] then map[]
    else
      var n := |lines| - 1;
      var d := ParseLine(lines[n]).value;
      Declared(lines[..n])[d.path := d.digest]
  }

  lemma {:induction false} DeclaredKeys(lines: seq<string>, path: string)
    requires LinesParse(lines)
    ensures path in Declared(lines) <==> exists i :: 0 <= i < |lines| && ParseLine(lines[i]).value.path == path
  {
    if lines != [] {
      var n := |lines| - 1;
      DeclaredKeys(lines[..n], path);
      assert forall i :: 0 <= i < n ==> lines[..n][i] == lines[i];
    }
  }

  /** The digest of every public file, by its path. */
  ghost function Digests(root: seq<Node>, sha: Sha): map<string, string>
    requires WellNamed(root)
  {
    map x | x in Files(root, []) :: sha(Data(root, x))
  }

  ghost function Data(root: seq<Node>, x: string): Bytes
    requires WellNamed(root) && x in Files(root, [])
  {
    PublicFileReadable(root, x);
    ReadFile(root, x).value
  }

  ghost predicate SizesWithin(root: seq<Node>)
    requires WellNamed(root)
  {
    forall x :: x in Files(root, []) ==> |Data(root, x)| <= MAX_PACK_FILE_BYTES
  }

  ghost predicate Acceptable(lines: seq<string>) {
    LinesParse(lines) && PathsDistinct(lines) && PathsAccepted(lines)
  }

  lemma ParseNext(lines: seq<string>, line: string)
    requires LinesParse(lines)
    ensures LinesParse(lines + [line]) <==> ParseLine(line).Some?
  {
    var more := lines + [line];
    assert more[|lines|] == line;
    assert forall k :: 0 <= k < |lines| ==> more[k] == lines[k];
  }

  lemma DeclaredNext(lines: seq<string>, line: string)
    requires LinesParse(lines) && LinesParse(lines + [line]) && ParseLine(line).Some?
    ensures Declared(lines + [line]) == Declared(lines)[ParseLine(line).value.path := ParseLine(line).value.digest]
  {
    assert (lines + [line])[..|lines|] == lines;
  }

  lemma DistinctNext(lines: seq<string>, line: string)
    requires LinesParse(lines) && LinesParse(lines + [line]) && ParseLine(line).Some? && PathsDistinct(lines)
    ensures PathsDistinct(lines + [line]) <==> ParseLine(line).value.path !in Declared(lines)
  {
    var more, path := lines + [line], ParseLine(line).value.path;
    DeclaredKeys(lines, path);
    assert more[|lines|] == line;
    assert forall k :: 0 <= k < |lines| ==> more[k] == lines[k];
    if path in Declared(lines) {
      var k :| 0 <= k < |lines| && ParseLine(lines[k]).value.path == path;
      assert ParseLine(more[k]).value.path == ParseLine(more[|lines|]).value.path;
    }
  }

  lemma AcceptedNext(lines: seq<string>, line: string)
    requires LinesParse(lines) && LinesParse(lines + [line]) && ParseLine(line).Some? && PathsAccepted(lines)
    ensures PathsAccepted(lines + [line]) <==> PathAccepted(ParseLine(line).value.path)
  {
    var more := lines + [line];
    assert more[|lines|] == line;
    assert forall k :: 0 <= k < |lines| ==> more[k] == lines[k];
  }

  /** What one more line must be for the lines to stay acceptable, and what it declares. */
  lemma AcceptableNext(lines: seq<string>, line: string)
    requires Acceptable(lines)
    ensures Acceptable(lines + [line]) <==>
              && ParseLine(line).Some? && PathAccepted(ParseLine(line).value.path)
              && ParseLine(line).value.path !in Declared(lines)
    ensures ParseLine(line).Some? ==>
              LinesParse(lines + [line])
              && Declared(lines + [line])
                 == Declared(lines)[ParseLine(line).value.path := ParseLine(line).value.digest]
  {
    ParseNext(lines, line);
    if ParseLine(line).Some? {
      DeclaredNext(lines, line);
      DistinctNext(lines, line);
      AcceptedNext(lines, line);
    }
  }

  /** A list of lines with an unacceptable beginning is unacceptable. */
  lemma AcceptablePrefix(lines: seq<string>, n: nat)
    requires n <= |lines| && Acceptable(lines)
    ensures Acceptable(lines[..n])
  {
    assert forall k :: 0 <= k < n ==> lines[..n][k] == lines[k];
  }

  /** The loop over the lines: the declared map, or a raised error. */
  method ReadDeclarations(lines: seq<string>) returns (r: Result<map<string, string>>)
    ensures r.Ok? <==> Acceptable(lines)
    ensures r.Ok? ==> r.value == Declared(lines)
    ensures r.Raised? ==> r.error == "PackError"
  {
    var declared: map<string, string> := map[];
    for i := 0 to |lines|
      invariant Acceptable(lines[..i])
      invariant declared == Declared(lines[..i])
    {
      AcceptableNext(lines[..i], lines[i]);
      assert lines[..i + 1] == lines[..i] + [lines[i]];
      var parsed := ParseLine(lines[i]);
      if parsed.None? || !PathAccepted(parsed.value.path) || parsed.value.path in declared {
        if Acceptable(lines) {
          AcceptablePrefix(lines, i + 1);
        }
        return Raised("PackError");
      }
      declared := declared[parsed.value.path := parsed.value.digest];
    }
    assert lines[..|lines|] == lines;
    return Ok(declared);
  }

  /** The last loop: every declared file is within the size limit and has its declared digest. */
  method CheckDigests(root: seq<Node>, declared: map<string, string>, sha: Sha) returns (ok: bool)
    requires WellNamed(root) && declared.Keys == Files(root, [])
    ensures ok <==> declared == Digests(root, sha) && SizesWithin(root)
  {
    FilesOk(root, declared, sha);
    var todo := declared.Keys;
    while todo != {}
      invariant todo <= declared.Keys
      invariant forall x :: x in declared && x !in todo ==> FileOk(root, declared, sha, x)
      decreases |todo|
    {
      var relative :| relative in todo;
      PublicFileReadable(root, relative);
      var data := ReadFile(root, relative).value;
      if |data| > MAX_PACK_FILE_BYTES || sha(data) != declared[relative] {
        assert !FileOk(root, declared, sha, relative);
        return false;
      }
      todo := todo - {relative};
    }
    return true;
  }

  ghost predicate FileOk(root: seq<Node>, declared: map<string, string>, sha: Sha, x: string)
    requires WellNamed(root) && x in Files(root, []) && x in declared
  {
    |Data(root, x)| <= MAX_PACK_FILE_BYTES && sha(Data(root, x)) == declared[x]
  }

  /** The declared map is right and no file is too large exactly when every file is in order. */
  lemma FilesOk(root: seq<Node>, declared: map<string, string>, sha: Sha)
    requires WellNamed(root) && declared.Keys == Files(root, [])
    ensures declared == Digests(root, sha) && SizesWithin(root)
       <==> forall x :: x in declared ==> FileOk(root, declared, sha, x)
  {
    if declared == Digests(root, sha) && SizesWithin(root) {
      forall x | x in declared ensures FileOk(root, declared, sha, x) {
        assert x in Digests(root, sha);
      }
    }
    if forall x :: x in declared ==> FileOk(root, declared, sha, x) {
      assert Digests(root, sha).Keys == declared.Keys;
      forall x | x in declared ensures declared[x] == Digests(root, sha)[x] {
        assert FileOk(root, declared, sha, x);
      }
    }
  }

  /** `validate_checksums`: accepted exactly when the lines declare, once each, the public files of an
      allowed tree with their digests.  The path checks refuse nothing more.  `lines` is None when
      SHA256SUMS cannot be read, is too large or is not UTF-8. */
  method ValidateChecksums(root: seq<Node>, lines: Option<seq<string>>, sha: Sha) returns (r: Result<()>)
    requires WellNamed(root)
    ensures r.Ok? <==> && lines.Some? && LinesParse(lines.value) && PathsDistinct(lines.value)
                       && Allowed(root, 0) && Entries(root) <= MAX_PACK_ENTRIES
                       && Declared(lines.value) == Digests(root, sha) && SizesWithin(root)
    ensures r.Raised? ==> r.error == "PackError"
  {
    if lines.None? {
      return Raised("PackError");
    }
    var declared := ReadDeclarations(lines.value);
    if declared.Raised? {
      PathChecksRedundant(root, lines.value, sha);
      return Raised("PackError");
    }
    var actual := PublicPackFiles(root);
    if actual.Raised? {
      return Raised("PackError");
    }
    if declared.value.Keys != actual.value {
      assert Digests(root, sha).Keys == Files(root, []);
      return Raised("PackError");
    }
    var ok := CheckDigests(root, declared.value, sha);
    if !ok {
      return Raised("PackError");
    }
    return Ok(());
  }

  /** A declared map that matches the pack has no refused path. */
  lemma PathChecksRedundant(root: seq<Node>, lines: seq<string>, sha: Sha)
    requires WellNamed(root)
    ensures LinesParse(lines) && Declared(lines) == Digests(root, sha) ==> PathsAccepted(lines)
  {
    if LinesParse(lines) && Declared(lines) == Digests(root, sha) {
      forall i | 0 <= i < |lines|
        ensures PathAccepted(ParseLine(lines[i]).value.path)
      {
        var path := ParseLine(lines[i]).value.path;
        DeclaredKeys(lines, path);
        assert path in Digests(root, sha);
        PublicFileReadable(root, path);
      }
    }
  }
}
