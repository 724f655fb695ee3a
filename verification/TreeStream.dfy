/** The bytes whose digest identifies a source tree: which files go in, in which order, and how they
    are laid out so that nothing can be confused with anything else. */
module TreeStream {
  import opened Posix
  import opened Wrappers
  import opened Strings
  import opened Paths
  import opened Encodings
  import opened Ordering

  /** A path below the root as rglob yields it; `parts` are relative to the root. */
  datatype Entry = Entry(parts: seq<string>, isFile: bool, data: seq<byte>) {
    predicate Valid() {
      parts != [] && AllComponents(parts)
    }

    function Name(): string
      requires parts != []
    {
      parts[|parts| - 1]
    }

    /** relative.as_posix(): what is written. */
    function Posix(): string {
      Join(parts, '/')
    }
  }

  function CodePoints(s: string): (n: seq<int>)
    ensures |n| == |s| && forall i :: 0 <= i < |s| ==> n[i] == s[i] as int
  {
    seq(|s|, i requires 0 <= i < |s| => s[i] as int)
  }

  /** What files are ordered by. */
  function Key(e: Entry): seq<int> {
    CodePoints(e.Posix())
  }

  // ---- which files go in ---------------------------------------------------------------------

  const EXCLUDED_PARTS := {"__pycache__", ".git", ".pytest_cache", ".mypy_cache", ".gradle", "build"}
  const EXCLUDED_SUFFIXES := {".pyc", ".pyo"}
  const EXCLUDED_TOPS := {"release", "evidence"}

  /** str.rfind for one character. */
  function LastIndexOf(s: string, c: char): (i: int)
    ensures -1 <= i < |s| && (i >= 0 ==> s[i] == c) && (forall k :: i < k < |s| ==> s[k] != c)
  {
    if s == [] then -1
    else if s[|s| - 1] == c then |s| - 1
    else LastIndexOf(s[..|s| - 1], c)
  }

  /** PurePath.suffix: from the last dot, if it is neither the first nor the last character. */
  function Suffix(name: string): string {
    var i := LastIndexOf(name, '.');
    if 0 < i < |name| - 1 then name[i..] else ""
  }

  lemma SuffixIs(name: string, ext: string)
    requires |ext| > 1 && ext[0] == '.' && (forall k :: 0 < k < |ext| ==> ext[k] != '.')
    ensures Suffix(name) == ext <==> |name| > |ext| && name[|name| - |ext|..] == ext
  {
    var at := |name| - |ext|;
    if at > 0 && name[at..] == ext {
      assert forall k :: at <= k < |name| ==> name[k] == ext[k - at];
    }
  }

  /** Compiled Python files are those whose names end so, unless that is the whole name. */
  lemma SuffixExactly(name: string)
    ensures Suffix(name) in EXCLUDED_SUFFIXES <==>
              |name| > 4 && (name[|name| - 4..] == ".pyc" || name[|name| - 4..] == ".pyo")
  {
    SuffixIs(name, ".pyc");
    SuffixIs(name, ".pyo");
    hide Suffix;
  }

  predicate Included(e: Entry)
    requires e.parts != []
  {
    && e.isFile
    && (forall part :: part in e.parts ==> part !in EXCLUDED_PARTS)
    && Suffix(e.Name()) !in EXCLUDED_SUFFIXES
    && e.parts[0] !in EXCLUDED_TOPS
    && e.Name() != "local.properties"
  }

  /** In full: a regular file, no part of whose path is a directory to be left out, not in one of the two
      output trees, not compiled Python, and not the local properties. */
  lemma IncludedExactly(e: Entry)
    requires e.parts != []
    ensures var name := e.parts[|e.parts| - 1];
            Included(e) <==>
              && e.isFile && e.parts[0] != "release" && e.parts[0] != "evidence"
              && "__pycache__" !in e.parts && ".git" !in e.parts && ".pytest_cache" !in e.parts
              && ".mypy_cache" !in e.parts && ".gradle" !in e.parts && "build" !in e.parts
              && name != "local.properties"
              && (|name| > 4 ==> name[|name| - 4..] != ".pyc" && name[|name| - 4..] != ".pyo")
  {
    SuffixExactly(e.Name());
    hide Suffix;
    assert forall part :: part in EXCLUDED_PARTS <==>
             part == "__pycache__" || part == ".git" || part == ".pytest_cache" || part == ".mypy_cache"
             || part == ".gradle" || part == "build";
  }

  // ---- included_files ------------------------------------------------------------------------

  /** A text comes before another: it is its beginning, or has the smaller character at the first place
      where they differ. */
  predicate Before(s: string, t: string) {
    s <= t || exists i :: 0 <= i < |s| && i < |t| && s[..i] == t[..i] && s[i] < t[i]
  }

  predicate InOrder(files: seq<Entry>) {
    forall i, j :: 0 <= i < j < |files| ==> Before(files[i].Posix(), files[j].Posix())
  }

  lemma CodePointsUpTo(s: string, t: string, i: nat)
    requires i <= |s| && i <= |t|
    ensures CodePoints(s)[..i] == CodePoints(t)[..i] <==> s[..i] == t[..i]
  {
    if CodePoints(s)[..i] == CodePoints(t)[..i] {
      forall k | 0 <= k < i ensures s[k] == t[k] {
        assert CodePoints(s)[..i][k] == CodePoints(t)[..i][k];
      }
    } else if s[..i] == t[..i] {
      forall k | 0 <= k < i ensures CodePoints(s)[k] == CodePoints(t)[k] {
        assert s[..i][k] == t[..i][k];
      }
    }
  }

  lemma BeforeExactly(s: string, t: string)
    ensures Before(s, t) <==> AtMost(CodePoints(s), CodePoints(t))
  {
    AtMostExactly(CodePoints(s), CodePoints(t));
    forall i | 0 <= i <= |s| && i <= |t| ensures CodePoints(s)[..i] == CodePoints(t)[..i] <==> s[..i] == t[..i] {
      CodePointsUpTo(s, t, i);
    }
    if |s| <= |t| {
      assert s[..|s|] == s && CodePoints(s)[..|s|] == CodePoints(s);
    }
  }

  /** The order of the texts is the order the files are sorted by. */
  lemma InOrderExactly(files: seq<Entry>)
    ensures InOrder(files) <==> Ascending(files, Key)
  {
    hide Before, AtMost, CodePoints;
    forall i, j | 0 <= i < j < |files|
      ensures Before(files[i].Posix(), files[j].Posix()) <==> AtMost(Key(files[i]), Key(files[j]))
    {
      BeforeExactly(files[i].Posix(), files[j].Posix());
    }
  }

  /** What a listing puts in, whatever its order. */
  ghost predicate Selects(listing: seq<Entry>, files: seq<Entry>) {
    && InOrder(files)
    && (forall e :: e in files <==> e in listing && e.parts != [] && Included(e))
    && (DistinctPaths(listing) ==> DistinctPaths(files))
  }

  predicate DistinctPaths(files: seq<Entry>) {
    forall i, j :: 0 <= i < j < |files| ==> files[i].parts != files[j].parts
  }

  /** included_files: the filter loop over what rglob yields, then the sort. */
  method IncludedFiles(listing: seq<Entry>) returns (files: seq<Entry>)
    requires forall e :: e in listing ==> e.Valid()
    ensures Selects(listing, files)
  {
    files := [];
    var i := 0;
    while i < |listing|
      invariant 0 <= i <= |listing|
      invariant forall e :: e in files <==> e in listing[..i] && e.parts != [] && Included(e)
      invariant DistinctPaths(listing) ==> DistinctPaths(files)
    {
      var path := listing[i];
      assert path in listing && path.Valid();
      i := i + 1;
      assert listing[..i] == listing[..i - 1] + [path];
      if !path.isFile {
        continue;
      }
      if exists part :: part in path.parts && part in EXCLUDED_PARTS {
        continue;
      }
      if Suffix(path.Name()) in EXCLUDED_SUFFIXES {
        continue;
      }
      if path.parts[0] in EXCLUDED_TOPS {
        continue;
      }
      if path.Name() == "local.properties" {
        continue;
      }
      NewPath(listing, i - 1, files);
      files := files + [path];
    }
    assert listing[..i] == listing;
    SortedKeepsPaths(files);
    files := Sorted(files, Key);
    InOrderExactly(files);
  }

  lemma NewPath(listing: seq<Entry>, i: nat, files: seq<Entry>)
    requires i < |listing| && forall e :: e in files ==> e in listing[..i]
    requires DistinctPaths(listing) ==> DistinctPaths(files)
    ensures DistinctPaths(listing) ==> DistinctPaths(files + [listing[i]])
  {
    if DistinctPaths(listing) {
      forall j | 0 <= j < |files| ensures files[j].parts != listing[i].parts {
        assert files[j] in files;
        var k :| 0 <= k < i && listing[..i][k] == files[j];
      }
    }
  }

  /** Different paths make different files, and files in one listing with the same path are the same. */
  lemma PathsTellApart(files: seq<Entry>)
    requires DistinctPaths(files)
    ensures Distinct(files) && forall e, f :: e in files && f in files && e.parts == f.parts ==> e == f
  {
  }

  lemma SortedKeepsPaths(files: seq<Entry>)
    ensures var r := Sorted(files, Key);
            && Ascending(r, Key) && (forall e :: e in r <==> e in files) && (DistinctPaths(files) ==> DistinctPaths(r))
  {
    var r := Sorted(files, Key);
    SortedStays(files, Key);
    if DistinctPaths(files) {
      PathsTellApart(files);
      hide Sorted, Ascending, Key;
      forall i, j | 0 <= i < j < |r| ensures r[i].parts != r[j].parts {
        assert r[i] in files && r[j] in files;
      }
    }
  }

  // ---- tree_digest ---------------------------------------------------------------------------

  /** What to_bytes(4) and to_bytes(8) can hold. */
  predicate Fits(e: Entry) {
    |Utf8(e.Posix())| < 0x1_0000_0000 && |e.data| < 0x1_0000_0000_0000_0000
  }

  predicate AllFit(files: seq<Entry>) {
    forall e :: e in files ==> Fits(e)
  }

  function Record(e: Entry): seq<byte> {
    var relative := Utf8(e.Posix());
    BigEndian(|relative|, 4) + relative + BigEndian(|e.data|, 8) + e.data
  }

  function Stream(files: seq<Entry>): seq<byte> {
    if files == [] then [] else Record(files[0]) + Stream(files[1..])
  }

  lemma {:induction false} StreamSnoc(files: seq<Entry>, e: Entry)
    ensures Stream(files + [e]) == Stream(files) + Record(e)
  {
    if files == [] {
      assert files + [e] == [e] && [e][1..] == [];
    } else {
      assert (files + [e])[1..] == files[1..] + [e];
      StreamSnoc(files[1..], e);
    }
  }

  /** tree_digest: what has been fed to the digest when it is finished, or that a length was too big. */
  method TreeDigest(files: seq<Entry>) returns (fed: seq<byte>, overflow: bool)
    ensures overflow <==> !AllFit(files)
    ensures !overflow ==> fed == Stream(files)
  {
    fed, overflow := [], false;
    var i := 0;
    while i < |files|
      invariant 0 <= i <= |files|
      invariant fed == Stream(files[..i]) && AllFit(files[..i])
    {
      assert files[i] in files;
      var relative, data := Utf8(files[i].Posix()), files[i].data;
      if |relative| >= 0x1_0000_0000 {
        return fed, true;
      }
      var digest := fed + BigEndian(|relative|, 4) + relative;
      if |data| >= 0x1_0000_0000_0000_0000 {
        return digest, true;
      }
      digest := digest + BigEndian(|data|, 8) + data;
      assert digest == fed + Record(files[i]);
      StreamSnoc(files[..i], files[i]);
      assert files[..i + 1] == files[..i] + [files[i]];
      fed, i := digest, i + 1;
    }
    assert files[..i] == files;
  }

  // ---- reading the stream back ---------------------------------------------------------------

  /** The records of a stream: encoded path and content. */
  function Decode(b: seq<byte>): Option<seq<(seq<byte>, seq<byte>)>> {
    if b == [] then Some([])
    else if |b| < 4 then None
    else
      var n := FromBigEndian(b[..4]);
      if |b| < 4 + n + 8 then None
      else
        var m := FromBigEndian(b[4 + n..4 + n + 8]);
        if |b| < 4 + n + 8 + m then None
        else
          match Decode(b[4 + n + 8 + m..])
          case None => None
          case Some(rest) => Some([(b[4..4 + n], b[4 + n + 8..4 + n + 8 + m])] + rest)
  }

  function Records(files: seq<Entry>): (r: seq<(seq<byte>, seq<byte>)>)
    ensures |r| == |files| && forall i :: 0 <= i < |files| ==> r[i] == (Utf8(files[i].Posix()), files[i].data)
  {
    if files == [] then [] else [(Utf8(files[0].Posix()), files[0].data)] + Records(files[1..])
  }

  /** How a file lies in the stream: the four bytes of its path's length, its path, the eight bytes of its
      content's length, its content. */
  lemma RecordLayout(e: Entry, i: nat)
    requires i < 8
    ensures var path := Utf8(e.Posix());
            var b, n := Record(e), |path|;
            && |b| == 4 + n + 8 + |e.data| && b[4..4 + n] == path && b[4 + n + 8..] == e.data
            && (i < 4 ==> b[i] == n / Pow256(3 - i) % 256) && b[4 + n + i] == |e.data| / Pow256(7 - i) % 256
  {
    var relative := Utf8(e.Posix());
    var l, k := BigEndian(|relative|, 4), BigEndian(|e.data|, 8);
    assert Record(e) == l + relative + k + e.data;
    hide *;
    var b := l + relative + k + e.data;
    RecordParts(l, relative, k, e.data, []);
    assert b + [] == b;
    if i < 4 {
      BigEndianDigits(|relative|, 4, i);
      assert b[i] == l[i];
    }
    BigEndianDigits(|e.data|, 8, i);
    assert b[4 + |relative| + i] == k[i];
  }

  /** Every stream reads back as its files' records: nothing runs into anything else. */
  lemma {:induction false} StreamDecodes(files: seq<Entry>)
    requires AllFit(files)
    ensures Decode(Stream(files)) == Some(Records(files))
  {
    if files != [] {
      var e, rest := files[0], Stream(files[1..]);
      var relative := Utf8(e.Posix());
      var b := Stream(files);
      assert Fits(e);
      Widths();
      BigEndianDecodes(|relative|, 4);
      BigEndianDecodes(|e.data|, 8);
      RecordParts(BigEndian(|relative|, 4), relative, BigEndian(|e.data|, 8), e.data, rest);
      StreamDecodes(files[1..]);
    }
  }

  lemma RecordParts(l: seq<byte>, relative: seq<byte>, k: seq<byte>, data: seq<byte>, rest: seq<byte>)
    requires |l| == 4 && |k| == 8
    ensures var b, n := l + relative + k + data + rest, |relative|;
            && b[..4] == l && b[4..4 + n] == relative && b[4 + n..4 + n + 8] == k
            && b[4 + n + 8..4 + n + 8 + |data|] == data && b[4 + n + 8 + |data|..] == rest
  {
  }

  // ---- one stream, one tree ------------------------------------------------------------------

  /** The included files of a listing as relative path and content. */
  ghost function Pairs(listing: seq<Entry>): set<(seq<string>, seq<byte>)> {
    set e | e in listing && e.parts != [] && Included(e) :: (e.parts, e.data)
  }

  ghost predicate AllValid(files: seq<Entry>) {
    forall e :: e in files ==> e.Valid()
  }

  lemma CodePointsInjective(s: string, t: string)
    ensures CodePoints(s) == CodePoints(t) ==> s == t
  {
    if CodePoints(s) == CodePoints(t) {
      forall i | 0 <= i < |s| ensures s[i] == t[i] {
        assert CodePoints(s)[i] == CodePoints(t)[i];
      }
    }
  }

  lemma PosixInjective(a: Entry, b: Entry)
    requires a.Valid() && b.Valid()
    ensures a.Posix() == b.Posix() ==> a.parts == b.parts
    ensures Key(a) == Key(b) ==> a.parts == b.parts
  {
    assert Key(a) == Key(b) ==> a.Posix() == b.Posix() by { CodePointsInjective(a.Posix(), b.Posix()); }
    SplitJoin(a.parts, '/');
    SplitJoin(b.parts, '/');
  }

  /** Distinct paths have distinct keys. */
  lemma KeysTellApart(files: seq<Entry>)
    requires AllValid(files) && DistinctPaths(files)
    ensures forall e, f :: e in files && f in files && Key(e) == Key(f) ==> e == f
  {
    PathsTellApart(files);
    forall e, f | e in files && f in files && Key(e) == Key(f) ensures e == f {
      PosixInjective(e, f);
    }
  }

  /** Whatever order their directories are listed in, two trees with the same included files, by path
      and content, give the same sequence of files; and two streams are equal exactly when the trees
      have the same included files. */
  lemma SameStreamExactly(a: seq<Entry>, b: seq<Entry>, filesA: seq<Entry>, filesB: seq<Entry>)
    requires AllValid(a) && AllValid(b) && DistinctPaths(a) && DistinctPaths(b)
    requires Selects(a, filesA) && Selects(b, filesB)
    ensures Pairs(a) == Pairs(b) ==> filesA == filesB
    ensures AllFit(filesA) && AllFit(filesB) ==> (Stream(filesA) == Stream(filesB) <==> Pairs(a) == Pairs(b))
  {
    if Pairs(a) == Pairs(b) {
      SamePairsSameFiles(a, b, filesA, filesB);
      SamePairsSameFiles(b, a, filesB, filesA);
      PathsTellApart(filesA);
      PathsTellApart(filesB);
      KeysTellApart(filesA);
      InOrderExactly(filesA);
      InOrderExactly(filesB);
      hide Key, Pairs;
      OneOrder(filesA, filesB, Key);
    }
    if AllFit(filesA) && AllFit(filesB) && Stream(filesA) == Stream(filesB) {
      StreamDecodes(filesA);
      StreamDecodes(filesB);
      SameRecordsSamePairs(a, b, filesA, filesB);
      SameRecordsSamePairs(b, a, filesB, filesA);
    }
  }

  lemma SamePairsSameFiles(a: seq<Entry>, b: seq<Entry>, filesA: seq<Entry>, filesB: seq<Entry>)
    requires Selects(a, filesA) && Selects(b, filesB) && Pairs(a) <= Pairs(b)
    ensures forall e :: e in filesA ==> e in filesB
  {
    forall e | e in filesA ensures e in filesB {
      assert (e.parts, e.data) in Pairs(a);
      var f :| f in b && f.parts != [] && Included(f) && (f.parts, f.data) == (e.parts, e.data);
      assert e == f;
    }
  }

  lemma SameRecordsSamePairs(a: seq<Entry>, b: seq<Entry>, filesA: seq<Entry>, filesB: seq<Entry>)
    requires AllValid(a) && AllValid(b) && Selects(a, filesA) && Selects(b, filesB) && Records(filesA) == Records(filesB)
    ensures Pairs(a) <= Pairs(b)
  {
    forall e | e in a && e.parts != [] && Included(e) ensures (e.parts, e.data) in Pairs(b) {
      var i :| 0 <= i < |filesA| && filesA[i] == e;
      var f := filesB[i];
      assert Records(filesA)[i] == Records(filesB)[i];
      assert f in filesB && f in b;
      Utf8Injective(e.Posix(), f.Posix());
      PosixInjective(e, f);
    }
  }
}
