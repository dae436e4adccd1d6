/**
 The delegated proof pack: a directory whose manifest records the size of the
 directory, the manifest itself included.
 */
module ProofPack {
  import opened JsonValues
  import opened Outcomes
  import opened Utf8
  import Decimal
  import Lexicographic
  import PrettyJson
  import JsonBytes

  const MANIFEST := "manifest.json"
  const CHECKSUMS := "subject-checksums.txt"
  const SIZE_FIELD := "pack_size_bytes"
  const MAX_PASSES: nat := 10

  type Files = map<string, Bytes>

  /** `total_size`: the sum of the sizes of all files. */
  function TotalSize(files: Files): nat {
    if files == map[] then 0
    else
      var path := Lexicographic.Least(files.Keys);
      |files[path]| + TotalSize(files - {path})
  }

  lemma {:induction false} TotalSizeSplit(files: Files, path: string)
    requires path in files
    ensures TotalSize(files) == |files[path]| + TotalSize(files - {path})
    decreases |files|
  {
    var first := Lexicographic.Least(files.Keys);
    if first != path {
      TotalSizeSplit(files - {first}, path);
      TotalSizeSplit(files - {path}, first);
      assert files - {first} - {path} == files - {path} - {first};
    }
  }

  ghost function SumOfSizes(files: Files, paths: seq<string>): nat
    requires forall p :: p in paths ==> p in files
  {
    if paths == [] then 0 else |files[paths[0]]| + SumOfSizes(files, paths[1..])
  }

  /** However the directory lists its files, the size is the sum over them, each taken once. */
  lemma {:induction false} TotalSizeListed(files: Files, paths: seq<string>)
    requires files.Keys == set p | p in paths
    requires forall i, j :: 0 <= i < j < |paths| ==> paths[i] != paths[j]
    ensures TotalSize(files) == SumOfSizes(files, paths)
    decreases |paths|
  {
    if paths == [] {
      assert files == map[];
    } else {
      var path, rest := paths[0], paths[1..];
      TotalSizeSplit(files, path);
      assert path !in rest;
      assert (files - {path}).Keys == set p | p in rest;
      TotalSizeListed(files - {path}, rest);
      SumWithout(files, path, rest);
    }
  }

  lemma {:induction false} SumWithout(files: Files, path: string, paths: seq<string>)
    requires forall p :: p in paths ==> p in files - {path}
    ensures SumOfSizes(files - {path}, paths) == SumOfSizes(files, paths)
  {
    if paths != [] {
      SumWithout(files, path, paths[1..]);
    }
  }

  lemma TotalSizeAfterWrite(files: Files, path: string, data: Bytes)
    ensures TotalSize(files[path := data]) == TotalSize(files - {path}) + |data|
  {
    TotalSizeSplit(files[path := data], path);
    assert files[path := data] - {path} == files - {path};
  }

  function ManifestText(manifest: Dict): string {
    PrettyJson.Print(Obj(manifest), 0) + "\n"
  }

  lemma StoredManifest(manifest: Dict)
    ensures JsonBytes.Load(Encode(ManifestText(manifest))) == Some(Obj(manifest))
  {
    PrettyJson.RoundTrip(Obj(manifest));
    JsonBytes.LoadText(ManifestText(manifest));
  }

  /** The bytes of the manifest apart from the digits of its size field. */
  ghost function FixedLength(manifest: Dict): (n: nat)
    ensures n >= 1
  {
    |PrettyJson.Print(Obj(manifest[SIZE_FIELD := Int(0)]), 0)|
  }

  lemma ManifestSize(manifest: Dict, n: nat)
    ensures |Encode(ManifestText(manifest[SIZE_FIELD := Int(n)]))| == FixedLength(manifest) + Decimal.Digits(n)
  {
    PrettyJson.MemberLength(manifest, SIZE_FIELD, Int(0), Int(n));
    PrettyJson.TextSize(Obj(manifest[SIZE_FIELD := Int(n)]), 0);
    Decimal.OfNatLength(n);
  }

  // ------------------------------------------------------------ the iteration

  /** The directory size after recording s, when everything but the digits takes c bytes. */
  ghost function NextSize(c: nat, s: nat): nat {
    c + Decimal.Digits(s)
  }

  /** Recording sizes from s on reaches a size that stays, within a number of passes. */
  ghost predicate SettlesWithin(c: nat, s: nat, passes: nat)
    decreases passes
  {
    passes > 0 && (NextSize(c, s) == s || SettlesWithin(c, NextSize(c, s), passes - 1))
  }

  lemma {:induction false} SettlesLater(c: nat, s: nat, few: nat, many: nat)
    requires few <= many && SettlesWithin(c, s, few)
    ensures SettlesWithin(c, s, many)
    decreases few
  {
    if NextSize(c, s) != s {
      SettlesLater(c, NextSize(c, s), few - 1, many - 1);
    }
  }

  /** After some passes from the start without settling, s is the recorded size. */
  ghost predicate Continues(c: nat, start: nat, passes: nat, s: nat) {
    forall k: nat :: SettlesWithin(c, start, passes + k) == SettlesWithin(c, s, k)
  }

  lemma ContinuesNext(c: nat, start: nat, passes: nat, s: nat)
    requires Continues(c, start, passes, s) && NextSize(c, s) != s
    ensures Continues(c, start, passes + 1, NextSize(c, s))
  {
    forall k: nat
      ensures SettlesWithin(c, start, passes + 1 + k) == SettlesWithin(c, NextSize(c, s), k)
    {
      assert SettlesWithin(c, start, passes + (k + 1)) == SettlesWithin(c, s, k + 1);
    }
  }

  lemma Settled(c: nat, start: nat, passes: nat, s: nat)
    requires Continues(c, start, passes, s) && NextSize(c, s) == s && passes < MAX_PASSES
    ensures SettlesWithin(c, start, passes + 1) && !SettlesWithin(c, start, passes)
    ensures SettlesWithin(c, start, MAX_PASSES)
    ensures SettlesWithin(c, start, 4) ==> passes < 4
  {
    assert SettlesWithin(c, start, passes + 1) == SettlesWithin(c, s, 1);
    assert SettlesWithin(c, start, passes + 0) == SettlesWithin(c, s, 0);
    SettlesLater(c, start, passes + 1, MAX_PASSES);
    if SettlesWithin(c, start, 4) && passes >= 4 {
      SettlesLater(c, start, 4, passes);
    }
  }

  lemma DigitsSmall(c: nat)
    requires c >= 1
    ensures Decimal.Digits(c) + 2 <= 9 * c
  {
    Decimal.Pow10AboveIndex(c);
    Decimal.DigitsBound(c, c);
    if c == 1 {
      assert Decimal.Digits(1) == 1;
    }
  }

  /** Between c and ten times c there are two digit counts at most. */
  lemma TwoDigitCounts(c: nat, s: nat)
    requires 1 <= c <= s <= 10 * c
    ensures Decimal.Digits(c) <= Decimal.Digits(s) <= Decimal.Digits(c) + 1
  {
    Decimal.DigitsMonotone(c, s);
    Decimal.DigitsMonotone(s, 10 * c);
    assert Decimal.Digits(10 * c) == 1 + Decimal.Digits(c);
  }

  lemma NearbySettles(c: nat, s: nat)
    requires 1 <= c <= s <= 10 * c
    ensures SettlesWithin(c, s, 3)
  {
    var s1 := NextSize(c, s);
    var s2 := NextSize(c, s1);
    DigitsSmall(c);
    TwoDigitCounts(c, s);
    TwoDigitCounts(c, s1);
    TwoDigitCounts(c, s2);
    if s1 <= s2 {
      Decimal.DigitsMonotone(s1, s2);
    } else {
      Decimal.DigitsMonotone(s2, s1);
    }
    assert NextSize(c, s2) == s2 || s2 == s1;
    assert SettlesWithin(c, s2, 1) || s2 == s1;
    assert SettlesWithin(c, s1, 2);
  }

  // ------------------------------------------------- from which sizes it settles

  /** The greatest size that recording leaves unchanged. */
  ghost function GreatestStable(c: nat): nat {
    c + Decimal.Digits(c + Decimal.Digits(c) + 1)
  }

  lemma GreatestStableFixed(c: nat)
    requires c >= 1
    ensures NextSize(c, GreatestStable(c)) == GreatestStable(c) <= 10 * c
    ensures Decimal.Digits(GreatestStable(c) + 1) == Decimal.Digits(GreatestStable(c))
  {
    var d := Decimal.Digits(c);
    DigitsSmall(c);
    TwoDigitCounts(c, c + d);
    TwoDigitCounts(c, c + d + 1);
    TwoDigitCounts(c, c + d + 2);
    Decimal.DigitsMonotone(c + d, c + d + 1);
    Decimal.DigitsMonotone(c + d + 1, c + d + 2);
  }

  lemma {:induction false} DigitsStep(n: nat)
    ensures Decimal.Digits(n + 1) <= Decimal.Digits(n) + 1
  {
    if n >= 10 && (n + 1) / 10 != n / 10 {
      DigitsStep(n / 10);
      assert (n + 1) / 10 == n / 10 + 1;
    }
  }

  /** Above it, recording makes every size smaller. */
  lemma {:induction false} ShrinksAbove(c: nat, s: nat)
    requires c >= 1 && s > GreatestStable(c)
    ensures GreatestStable(c) <= NextSize(c, s) < s
  {
    var g := GreatestStable(c);
    GreatestStableFixed(c);
    Decimal.DigitsMonotone(g, s);
    if s > g + 1 {
      ShrinksAbove(c, s - 1);
      DigitsStep(s - 1);
    }
  }

  /** The greatest starting size from which a number of passes is enough; each pass more raises ten to it. */
  ghost function Limit(c: nat, passes: nat): (n: nat)
    requires c >= 1 && passes >= 1
    ensures n >= GreatestStable(c)
    decreases passes
  {
    if passes == 1 then GreatestStable(c)
    else
      var k := Limit(c, passes - 1) - c;
      GreatestStableFixed(c);
      Decimal.DigitsBound(GreatestStable(c), k);
      Decimal.Pow10(k) - 1
  }

  /** From the greatest stable size on, a number of passes is enough exactly up to its limit. */
  lemma {:induction false} SettlesAbove(c: nat, s: nat, passes: nat)
    requires c >= 1 && passes >= 1 && s >= GreatestStable(c)
    ensures SettlesWithin(c, s, passes) <==> s <= Limit(c, passes)
    decreases passes
  {
    GreatestStableFixed(c);
    if s > GreatestStable(c) {
      ShrinksAbove(c, s);
      if passes > 1 {
        SettlesAbove(c, NextSize(c, s), passes - 1);
        Decimal.DigitsBound(s, Limit(c, passes - 1) - c);
      }
    }
  }

  /** A start of at most nine times c digits is within the limit of four passes. */
  lemma FourPassesSettle(c: nat, s: nat)
    requires c >= 1 && Decimal.Digits(s) <= 9 * c
    ensures SettlesWithin(c, s, 4)
  {
    NearbySettles(c, NextSize(c, s));
  }

  /** Four passes or more settle exactly from the sizes up to their limit, smaller ones included. */
  lemma SettlesExactly(c: nat, s: nat, passes: nat)
    requires c >= 1 && passes >= 4
    ensures SettlesWithin(c, s, passes) <==> s <= Limit(c, passes)
  {
    var g := GreatestStable(c);
    if s >= g {
      SettlesAbove(c, s, passes);
    } else {
      GreatestStableFixed(c);
      Decimal.DigitsMonotone(s, g);
      FourPassesSettle(c, s);
      SettlesLater(c, s, 4, passes);
    }
  }

  /** In a directory without a manifest the starting size is at most c. */
  lemma FreshDirectorySettles(c: nat, s: nat)
    requires c >= 1 && s <= c
    ensures SettlesWithin(c, s, 4)
  {
    SettlesExactly(c, s, 4);
  }

  lemma NextMonotone(c: nat, s: nat, x: nat)
    requires s <= x && NextSize(c, x) == x
    ensures NextSize(c, s) <= x
  {
    Decimal.DigitsMonotone(s, x);
  }

  /** No size that recording leaves unchanged is smaller than s. */
  ghost predicate BelowFixedPoints(c: nat, s: nat) {
    forall x: nat :: NextSize(c, x) == x ==> s <= x
  }

  lemma StaysBelow(c: nat, s: nat)
    requires BelowFixedPoints(c, s)
    ensures BelowFixedPoints(c, NextSize(c, s))
  {
    forall x: nat | NextSize(c, x) == x
      ensures NextSize(c, s) <= x
    {
      NextMonotone(c, s, x);
    }
  }

  lemma MapFromRest<V>(m: map<string, V>, before: map<string, V>, key: string)
    requires key in m && m - {key} == before - {key}
    ensures m == before[key := m[key]]
  {
    forall k | k in m || k in before
      ensures k == key || (k in m && k in before && m[k] == before[k])
    {
      assert k in m - {key} || k in before - {key} || k == key;
    }
  }

  lemma RestAfterUpdate<V>(m: map<string, V>, k: string, v: V, w: V)
    ensures m[k := v] - {k} == m - {k} && m[k := v][k := w] == m[k := w]
  {
  }

  /** What a directory takes without the digits of the size field. */
  ghost function FixedSize(files: Files, manifest: Dict): (c: nat)
    ensures c >= 1
  {
    TotalSize(files - {MANIFEST}) + FixedLength(manifest)
  }

  /** Every payload has a directory with a left-over manifest from which a number of passes is not enough. */
  lemma NoPassCountIsEnough(payload: Files, manifest: Dict, passes: nat) returns (leftover: Bytes)
    ensures var files := payload[MANIFEST := leftover];
            !SettlesWithin(FixedSize(files, manifest), TotalSize(files), passes)
  {
    var c, many := FixedSize(payload, manifest), passes + 4;
    leftover := seq(Limit(c, many) + 1, _ => 0);
    var files := payload[MANIFEST := leftover];
    assert files - {MANIFEST} == payload - {MANIFEST};
    TotalSizeAfterWrite(payload, MANIFEST, leftover);
    SettlesExactly(c, TotalSize(files), many);
    if SettlesWithin(c, TotalSize(files), passes) {
      SettlesLater(c, TotalSize(files), passes, many);
    }
  }

  // ----------------------------------------------------------------- the pack

  class Pack {
    var files: Files
    var manifest: Dict

    /** A new upload directory with its payload files, and the manifest still to be written. */
    constructor (payload: Files, manifest: Dict)
      ensures files == payload && this.manifest == manifest
    {
      this.files := payload;
      this.manifest := manifest;
    }

    ghost function Base(): (c: nat)
      reads this
      ensures c >= 1
    {
      FixedSize(files, manifest)
    }

    method WriteText(path: string, text: string)
      modifies `files
      ensures files == old(files)[path := Encode(text)]
    {
      files := files[path := Encode(text)];
    }

    /** One pass: record the present size and write the manifest with it. */
    method RecordSize() returns (size: nat)
      modifies this
      ensures size == old(TotalSize(files))
      ensures manifest == old(manifest)[SIZE_FIELD := Int(size)]
      ensures files == old(files)[MANIFEST := Encode(ManifestText(manifest))]
      ensures TotalSize(files) == NextSize(old(Base()), size) && Base() == old(Base())
      ensures files - {MANIFEST} == old(files - {MANIFEST})
      ensures manifest - {SIZE_FIELD} == old(manifest - {SIZE_FIELD})
    {
      size := TotalSize(files);
      ManifestSize(manifest, size);
      RestAfterUpdate(manifest, SIZE_FIELD, Int(size), Int(0));
      manifest := manifest[SIZE_FIELD := Int(size)];
      TotalSizeAfterWrite(files, MANIFEST, Encode(ManifestText(manifest)));
      RestAfterUpdate(files, MANIFEST, Encode(ManifestText(manifest)), []);
      WriteText(MANIFEST, ManifestText(manifest));
    }

    /** `write_manifest`: record the directory size until recording it does not change it. */
    method WriteManifest() returns (r: Result<()>, ghost passes: nat)
      modifies this
      ensures r.Ok? <==> old(TotalSize(files)) <= Limit(old(Base()), MAX_PASSES)
      ensures r.Ok? ==> passes > 0
      ensures r.Ok? ==> SettlesWithin(old(Base()), old(TotalSize(files)), passes)
      ensures r.Ok? ==> !SettlesWithin(old(Base()), old(TotalSize(files)), passes - 1)
      // on return the recorded size is the size of the directory, and nothing else has changed
      ensures r.Ok? ==> manifest == old(manifest)[SIZE_FIELD := Int(TotalSize(files))]
      ensures r.Ok? ==> files == old(files)[MANIFEST := Encode(ManifestText(manifest))]
      // and reading the stored file gives back the manifest
      ensures r.Ok? ==> JsonBytes.Load(files[MANIFEST]) == Some(Obj(manifest))
      // a directory that has no manifest yet always succeeds by the fourth pass, and then
      // the recorded size is the least that is consistent
      ensures old(MANIFEST !in files) ==> r.Ok? && passes <= 4 && BelowFixedPoints(old(Base()), TotalSize(files))
    {
      ghost var c := Base();
      ghost var start := TotalSize(files);
      ghost var empty := MANIFEST !in files;
      SettlesExactly(c, start, MAX_PASSES);
      if empty {
        EmptyStart();
      }
      for pass := 0 to MAX_PASSES
        invariant files - {MANIFEST} == old(files) - {MANIFEST}
        invariant manifest - {SIZE_FIELD} == old(manifest) - {SIZE_FIELD}
        invariant Base() == c
        invariant Continues(c, start, pass, TotalSize(files))
        invariant empty ==> BelowFixedPoints(c, TotalSize(files))
      {
        var size := RecordSize();
        if empty { StaysBelow(c, size); }
        if TotalSize(files) == size {
          Settled(c, start, pass, size);
          MapFromRest(manifest, old(manifest), SIZE_FIELD);
          MapFromRest(files, old(files), MANIFEST);
          StoredManifest(manifest);
          return Ok(()), pass + 1;
        }
        ContinuesNext(c, start, pass, size);
      }
      assert !SettlesWithin(c, TotalSize(files), 0);
      return Raised("ProofPackError"), MAX_PASSES;
    }

    lemma EmptyStart()
      requires MANIFEST !in files
      ensures SettlesWithin(Base(), TotalSize(files), MAX_PASSES)
      ensures SettlesWithin(Base(), TotalSize(files), 4)
      ensures BelowFixedPoints(Base(), TotalSize(files))
    {
      assert files - {MANIFEST} == files;
      FreshDirectorySettles(Base(), TotalSize(files));
      SettlesLater(Base(), TotalSize(files), 4, MAX_PASSES);
    }

    /** The last two steps of `build_manifest`: the checksum file is written after the size is fixed,
        so the directory ends up larger than the recorded size by exactly that file. */
    method Seal(checksums: string) returns (r: Result<()>)
      requires MANIFEST !in files && CHECKSUMS !in files
      modifies this
      ensures r.Ok?
      ensures SIZE_FIELD in manifest && manifest[SIZE_FIELD].Int?
      ensures TotalSize(files) == manifest[SIZE_FIELD].n + |Encode(checksums)|
      ensures MANIFEST in files && JsonBytes.Load(files[MANIFEST]) == Some(Obj(manifest))
    {
      ghost var passes;
      r, passes := WriteManifest();
      assert CHECKSUMS !in files;
      assert files - {CHECKSUMS} == files;
      TotalSizeAfterWrite(files, CHECKSUMS, Encode(checksums));
      WriteText(CHECKSUMS, checksums);
    }
  }
}
