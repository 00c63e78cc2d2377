/** The byte stream that `_code_source_fingerprint` feeds to its hash
    (`scripts/run_stage2_teacher_forced_e2e.py`).

    A path is the list of its parts below the repository root, each part given
    by its UTF-8 bytes; comparing those bytes is comparing code points. */
module Fingerprint {
  import opened Sequences
  import opened Wrappers
  import opened Ordering

  newtype Byte = n: int | 0 <= n < 256

  type Bytes = seq<Byte>
  type Path = seq<Bytes>

  const SLASH: Byte := 47
  const NUL: Byte := 0
  const NEWLINE: Byte := 10

  /** File names hold neither NUL nor '/', and are not empty. */
  predicate IsPath(path: Path) {
    path != [] && forall i :: 0 <= i < |path| ==> path[i] != [] && NUL !in path[i] && SLASH !in path[i]
  }

  // ------------------------------------------------------------------- sorting

  predicate ByteLess(a: Byte, b: Byte) {
    a < b
  }

  predicate BytesLess(a: Bytes, b: Bytes) {
    LexLess(ByteLess, a, b)
  }

  /** Paths are compared part by part. */
  predicate PathLess(a: Path, b: Path) {
    LexLess(BytesLess, a, b)
  }

  lemma PathLessStrictTotal()
    ensures StrictTotal(PathLess)
  {
    LexStrictTotal(ByteLess);
    var bytes := (a: Bytes, b: Bytes) => LexLess(ByteLess, a, b);
    assert forall a: Bytes, b: Bytes :: BytesLess(a, b) == bytes(a, b);
    LexStrictTotal(BytesLess);
    var paths := (a: Path, b: Path) => LexLess(BytesLess, a, b);
    assert forall a: Path, b: Path :: PathLess(a, b) == paths(a, b);
  }

  // ------------------------------------------------------------------- framing

  /** `as_posix`: the parts joined by '/'. */
  function Posix(path: Path): Bytes
    requires path != []
  {
    if |path| == 1 then path[0] else path[0] + [SLASH] + Posix(path[1..])
  }

  /** A content hash, reduced to the length of its digests. */
  type Hash = h: Bytes -> Bytes | forall content :: |h(content)| == 32
    witness (content: Bytes) => seq(32, i => NUL)

  datatype Entry = Entry(name: Bytes, digest: Bytes)

  predicate IsEntry(e: Entry) {
    NUL !in e.name && |e.digest| == 32
  }

  function Frame(e: Entry): Bytes {
    e.name + [NUL] + e.digest + [NEWLINE]
  }

  function Frames(entries: seq<Entry>): Bytes {
    if entries == [] then [] else Frame(entries[0]) + Frames(entries[1..])
  }

  // ------------------------------------------------------------------ decoding

  /** The position of the first `b`, or the length of the sequence. */
  function Find(s: Bytes, b: Byte): (k: nat)
    ensures k <= |s| && b !in s[..k] && (k < |s| ==> s[k] == b)
  {
    if s == [] || s[0] == b then 0
    else
      var k := 1 + Find(s[1..], b);
      assert s[..k] == [s[0]] + s[1..][..k - 1];
      k
  }

  lemma FindAfter(front: Bytes, b: Byte, rest: Bytes)
    requires b !in front
    ensures Find(front + [b] + rest, b) == |front|
  {
    var s := front + [b] + rest;
    var k := Find(s, b);
    assert s[|front|] == b;
    assert forall i :: 0 <= i < |front| ==> s[i] == front[i];
    assert forall i :: 0 <= i < k ==> s[..k][i] == s[i];
  }

  /** A reader of the stream that knows nothing but the framing. */
  function Decode(stream: Bytes): Option<seq<Entry>>
    decreases |stream|
  {
    if stream == [] then Some([])
    else
      var k := Find(stream, NUL);
      if k + 34 > |stream| || stream[k + 33] != NEWLINE then None
      else match Decode(stream[k + 34..])
        case None => None
        case Some(rest) => Some([Entry(stream[..k], stream[k + 1..k + 33])] + rest)
  }

  lemma DecodeOne(e: Entry, rest: Bytes)
    requires IsEntry(e)
    ensures Decode(Frame(e) + rest) ==
      match Decode(rest) { case None => None case Some(entries) => Some([e] + entries) }
  {
    var s := Frame(e) + rest;
    assert s == e.name + [NUL] + (e.digest + [NEWLINE] + rest);
    FindAfter(e.name, NUL, e.digest + [NEWLINE] + rest);
    var k := |e.name|;
    assert s[..k] == e.name;
    assert s[k + 1..k + 33] == e.digest;
    assert s[k + 33] == NEWLINE;
    assert s[k + 34..] == rest;
  }

  lemma DecodeNothing()
    ensures Decode([]) == Some([])
  {
  }

  /** The framing is uniquely decodable. */
  lemma {:induction false} DecodeFrames(entries: seq<Entry>)
    requires forall i :: 0 <= i < |entries| ==> IsEntry(entries[i])
    ensures Decode(Frames(entries)) == Some(entries)
  {
    hide Frame, Decode, Find, IsEntry;
    if entries == [] {
      DecodeNothing();
    } else {
      DecodeOne(entries[0], Frames(entries[1..]));
      DecodeFrames(entries[1..]);
      assert entries == [entries[0]] + entries[1..];
    }
  }

  /** The parts of a posix path. */
  function Parts(name: Bytes): Path
    decreases |name|
  {
    var k := Find(name, SLASH);
    if k == |name| then [name] else [name[..k]] + Parts(name[k + 1..])
  }

  lemma {:induction false} PartsOfPosix(path: Path)
    requires IsPath(path)
    ensures Parts(Posix(path)) == path && NUL !in Posix(path)
  {
    var first := path[0];
    if |path| == 1 {
      assert Find(first, SLASH) == |first|;
    } else {
      var rest := Posix(path[1..]);
      PartsOfPosix(path[1..]);
      FindAfter(first, SLASH, rest);
      var name := Posix(path);
      assert name[..|first|] == first && name[|first| + 1..] == rest;
      assert path == [first] + path[1..];
    }
  }

  // --------------------------------------------------------------- the function

  datatype Node = Directory | File(content: Bytes)

  /** Everything below the repository root. */
  type Tree = map<Path, Node>

  const PYCACHE: Bytes := [95, 95, 112, 121, 99, 97, 99, 104, 101, 95, 95]
  const DOT_PYC: Bytes := [46, 112, 121, 99]
  const ROOTS: set<Bytes> := {
    [115, 114, 99],                                 // src
    [115, 99, 114, 105, 112, 116, 115],             // scripts
    [115, 99, 104, 101, 109, 97, 115]}              // schemas
  const MAKEFILE: Path := [[77, 97, 107, 101, 102, 105, 108, 101]]
  const PYPROJECT: Path := [[112, 121, 112, 114, 111, 106, 101, 99, 116, 46, 116, 111, 109, 108]]

  predicate EndsWith(s: Bytes, tail: Bytes) {
    |s| >= |tail| && s[|s| - |tail|..] == tail
  }

  /** The source files, and the two files at the root. */
  predicate Selected(tree: Tree, path: Path) {
    && path in tree && tree[path].File?
    && (path == MAKEFILE || path == PYPROJECT ||
        (|path| > 1 && path[0] in ROOTS && PYCACHE !in path && !EndsWith(path[|path| - 1], DOT_PYC)))
  }

  function Sources(tree: Tree): set<Path> {
    set path | path in tree && Selected(tree, path)
  }

  /** The selected paths with the digests of their contents. */
  function Digests(hash: Hash, tree: Tree): map<Path, Bytes> {
    map path | path in Sources(tree) :: hash(tree[path].content)
  }

  predicate IsTree(tree: Tree) {
    forall path :: path in tree ==> IsPath(path)
  }

  function EntriesFor(digests: map<Path, Bytes>, paths: seq<Path>): seq<Entry>
    requires forall i :: 0 <= i < |paths| ==> paths[i] in digests && paths[i] != []
  {
    seq(|paths|, i requires 0 <= i < |paths| => Entry(Posix(paths[i]), digests[paths[i]]))
  }

  lemma ListedSources(hash: Hash, tree: Tree, paths: seq<Path>)
    requires IsTree(tree) && Elements(paths) == Sources(tree)
    ensures forall i :: 0 <= i < |paths| ==> paths[i] in Digests(hash, tree) && IsPath(paths[i])
  {
    forall i | 0 <= i < |paths|
      ensures paths[i] in Digests(hash, tree) && IsPath(paths[i])
    {
      assert paths[i] in Elements(paths);
    }
  }

  /** The entries of the sources, in the order of their paths. */
  ghost function SortedEntries(hash: Hash, tree: Tree): seq<Entry>
    requires IsTree(tree)
  {
    PathLessStrictTotal();
    var paths := Sorted(PathLess, Sources(tree));
    ListedSources(hash, tree, paths);
    EntriesFor(Digests(hash, tree), paths)
  }

  ghost function Stream(hash: Hash, tree: Tree): Bytes
    requires IsTree(tree)
  {
    Frames(SortedEntries(hash, tree))
  }

  lemma {:induction false} FramesAppend(entries: seq<Entry>, e: Entry)
    ensures Frames(entries + [e]) == Frames(entries) + Frame(e)
  {
    if entries == [] {
      assert [e][1..] == [];
      assert Frame(e) + [] == Frame(e);
    } else {
      assert (entries + [e])[1..] == entries[1..] + [e];
      FramesAppend(entries[1..], e);
    }
  }

  /** `_code_source_fingerprint`, up to the final digest; None when one of the
      two files at the root is missing. */
  method CodeSourceStream(hash: Hash, tree: Tree) returns (stream: Option<Bytes>)
    requires IsTree(tree)
    ensures stream ==
      if MAKEFILE in Sources(tree) && PYPROJECT in Sources(tree) then Some(Stream(hash, tree)) else None
  {
    var files := Sources(tree);
    if MAKEFILE !in files || PYPROJECT !in files {
      return None;
    }
    PathLessStrictTotal();
    var paths := SortSet(PathLess, files);
    ListedSources(hash, tree, paths);
    var fed := Feed(hash, tree, paths, Digests(hash, tree));
    return Some(fed);
  }

  /** The loop that updates the digest. */
  method Feed(hash: Hash, tree: Tree, paths: seq<Path>, ghost digests: map<Path, Bytes>) returns (fed: Bytes)
    requires forall path :: path in digests ==> path in tree && tree[path].File? && digests[path] == hash(tree[path].content)
    requires forall i :: 0 <= i < |paths| ==> paths[i] in digests && paths[i] != []
    ensures fed == Frames(EntriesFor(digests, paths))
  {
    hide Posix, Frames, Frame, EntriesFor;
    ghost var entries := EntriesFor(digests, paths);
    FramesEmpty();
    EntriesLength(digests, paths);
    fed := [];
    assert entries[..0] == [];
    var n := 0;
    while n < |paths|
      invariant 0 <= n <= |paths|
      invariant fed == Frames(entries[..n])
    {
      var path := paths[n];
      EntryAt(digests, paths, n);
      FramesAppend(entries[..n], entries[n]);
      PrefixStep(entries, n);
      fed := fed + Frame(Entry(Posix(path), hash(tree[path].content)));
      n := n + 1;
    }
    assert entries[..n] == entries;
  }

  lemma EntryAt(digests: map<Path, Bytes>, paths: seq<Path>, n: nat)
    requires n < |paths| && forall i :: 0 <= i < |paths| ==> paths[i] in digests && paths[i] != []
    ensures |EntriesFor(digests, paths)| == |paths|
    ensures EntriesFor(digests, paths)[n] == Entry(Posix(paths[n]), digests[paths[n]])
  {
  }

  lemma EntriesLength(digests: map<Path, Bytes>, paths: seq<Path>)
    requires forall i :: 0 <= i < |paths| ==> paths[i] in digests && paths[i] != []
    ensures |EntriesFor(digests, paths)| == |paths|
  {
  }

  lemma FramesEmpty()
    ensures Frames([]) == []
  {
  }

  /** Two source trees feed the same bytes to the hash if and only if they have
      the same source files with the same content digests. */
  lemma StreamDeterminesSources(hash: Hash, a: Tree, b: Tree)
    requires IsTree(a) && IsTree(b)
    ensures Stream(hash, a) == Stream(hash, b) <==> Digests(hash, a) == Digests(hash, b)
  {
    hide Selected, Frames, EntriesFor, IsTree, Digests, Sources, SortedEntries, Decode, IsPath;
    if Digests(hash, a) == Digests(hash, b) {
      SameEntries(hash, a, b);
    }
    if Stream(hash, a) == Stream(hash, b) {
      EntriesDecoded(hash, a);
      EntriesDecoded(hash, b);
      EntriesDetermine(hash, a, b);
      EntriesDetermine(hash, b, a);
      MapsAgree(Digests(hash, a), Digests(hash, b));
    }
  }

  lemma MapsAgree<K, V>(a: map<K, V>, b: map<K, V>)
    requires forall k :: k in a ==> k in b && b[k] == a[k]
    requires forall k :: k in b ==> k in a && a[k] == b[k]
    ensures a == b
  {
  }

  lemma SameEntries(hash: Hash, a: Tree, b: Tree)
    requires IsTree(a) && IsTree(b) && Digests(hash, a) == Digests(hash, b)
    ensures SortedEntries(hash, a) == SortedEntries(hash, b)
  {
    hide Selected;
    PathLessStrictTotal();
    assert Sources(a) == Digests(hash, a).Keys == Digests(hash, b).Keys == Sources(b);
  }

  lemma EntriesDecoded(hash: Hash, tree: Tree)
    requires IsTree(tree)
    ensures Decode(Stream(hash, tree)) == Some(SortedEntries(hash, tree))
  {
    hide Selected, Frames, Decode, Posix;
    PathLessStrictTotal();
    var paths := Sorted(PathLess, Sources(tree));
    ListedSources(hash, tree, paths);
    AreEntries(hash, tree, paths);
    DecodeFrames(SortedEntries(hash, tree));
  }

  lemma EntriesDetermine(hash: Hash, a: Tree, b: Tree)
    requires IsTree(a) && IsTree(b) && SortedEntries(hash, a) == SortedEntries(hash, b)
    ensures forall path :: path in Digests(hash, a) ==>
      path in Digests(hash, b) && Digests(hash, b)[path] == Digests(hash, a)[path]
  {
    hide Selected, Posix;
    PathLessStrictTotal();
    var pathsA, pathsB := Sorted(PathLess, Sources(a)), Sorted(PathLess, Sources(b));
    ListedSources(hash, a, pathsA);
    ListedSources(hash, b, pathsB);
    SameDigests(hash, a, b, pathsA, pathsB);
  }

  lemma AreEntries(hash: Hash, tree: Tree, paths: seq<Path>)
    requires IsTree(tree) && Elements(paths) == Sources(tree)
    requires forall i :: 0 <= i < |paths| ==> paths[i] in Digests(hash, tree) && IsPath(paths[i])
    ensures forall i :: 0 <= i < |paths| ==> IsEntry(EntriesFor(Digests(hash, tree), paths)[i])
  {
    forall i | 0 <= i < |paths|
      ensures IsEntry(EntriesFor(Digests(hash, tree), paths)[i])
    {
      PartsOfPosix(paths[i]);
    }
  }

  lemma SameDigests(hash: Hash, a: Tree, b: Tree, pathsA: seq<Path>, pathsB: seq<Path>)
    requires IsTree(a) && IsTree(b) && Elements(pathsA) == Sources(a) && Elements(pathsB) == Sources(b)
    requires forall i :: 0 <= i < |pathsA| ==> pathsA[i] in Digests(hash, a) && IsPath(pathsA[i])
    requires forall i :: 0 <= i < |pathsB| ==> pathsB[i] in Digests(hash, b) && IsPath(pathsB[i])
    requires EntriesFor(Digests(hash, a), pathsA) == EntriesFor(Digests(hash, b), pathsB)
    ensures forall path :: path in Digests(hash, a) ==>
      path in Digests(hash, b) && Digests(hash, b)[path] == Digests(hash, a)[path]
  {
    var listA, listB := EntriesFor(Digests(hash, a), pathsA), EntriesFor(Digests(hash, b), pathsB);
    forall path | path in Digests(hash, a)
      ensures path in Digests(hash, b) && Digests(hash, b)[path] == Digests(hash, a)[path]
    {
      assert path in Elements(pathsA);
      var i :| 0 <= i < |pathsA| && pathsA[i] == path;
      assert listA[i] == listB[i] && listA[i].name == Posix(path) && listB[i].name == Posix(pathsB[i]);
      PartsOfPosix(path);
      PartsOfPosix(pathsB[i]);
      assert pathsB[i] == path;
    }
  }

  // ----------------------------------------------------------- in plain characters

  /** The bytes of a name in ASCII. */
  function Ascii(name: string): Bytes
    requires forall i :: 0 <= i < |name| ==> name[i] as int < 128
  {
    seq(|name|, i requires 0 <= i < |name| => name[i] as int as Byte)
  }

  lemma RootsMean()
    ensures ROOTS == {Ascii("src"), Ascii("scripts"), Ascii("schemas")}
  {
    assert Ascii("src") == [115, 114, 99];
    assert Ascii("scripts") == [115, 99, 114, 105, 112, 116, 115];
    assert Ascii("schemas") == [115, 99, 104, 101, 109, 97, 115];
  }

  /** Hashed are the files below src, scripts and schemas that no part of the path
      calls `__pycache__` and whose name does not end in `.pyc`, and the two files
      Makefile and pyproject.toml. */
  lemma SelectedMeans(tree: Tree, path: Path)
    ensures Selected(tree, path) <==>
      && path in tree && tree[path].File?
      && (|| path == [Ascii("Makefile")] || path == [Ascii("pyproject.toml")]
          || (|path| > 1 && path[0] in {Ascii("src"), Ascii("scripts"), Ascii("schemas")} && Ascii("__pycache__") !in path
              && forall stem :: path[|path| - 1] != stem + Ascii(".pyc")))
  {
    RootsMean();
    assert Ascii("Makefile") == MAKEFILE[0] && Ascii("pyproject.toml") == PYPROJECT[0];
    assert Ascii("__pycache__") == PYCACHE && Ascii(".pyc") == DOT_PYC;
    if |path| > 1 {
      EndsWithMeans(path[|path| - 1], DOT_PYC);
    }
  }

  lemma EndsWithMeans(s: Bytes, tail: Bytes)
    ensures EndsWith(s, tail) <==> exists stem :: s == stem + tail
  {
    if EndsWith(s, tail) {
      assert s == s[..|s| - |tail|] + tail;
    }
  }

  /** A frame is the path with slashes, a zero byte, the digest and a line feed. */
  lemma FrameMeans(e: Entry, part: Bytes, rest: Path)
    ensures Frame(e) == e.name + [0] + e.digest + [10]
    ensures Posix([part]) == part
    ensures rest != [] ==> Posix([part] + rest) == part + Ascii("/") + Posix(rest)
  {
    assert Ascii("/") == [47];
    assert rest != [] ==> ([part] + rest)[1..] == rest;
  }

  /** Up to `k` the names agree; there the first ends or has the smaller byte. */
  ghost predicate NameBefore(a: Bytes, b: Bytes, k: nat) {
    && k <= |a| && k < |b| && (forall i :: 0 <= i < k ==> a[i] == b[i])
    && (k < |a| ==> a[k] as int < b[k] as int)
  }

  lemma BytesLessMeans(a: Bytes, b: Bytes)
    ensures BytesLess(a, b) <==> exists k: nat :: NameBefore(a, b, k)
  {
    LexMeans(ByteLess, a, b);
    forall k: nat
      ensures SmallerAt(ByteLess, a, b, k) <==> NameBefore(a, b, k)
    {
    }
  }

  /** Up to `k` the paths agree; there the first ends or has the smaller name. */
  ghost predicate PathBefore(a: Path, b: Path, k: nat) {
    && k <= |a| && k < |b| && (forall i :: 0 <= i < k ==> a[i] == b[i])
    && (k < |a| ==> a[k] != b[k] && BytesLess(a[k], b[k]))
  }

  lemma PathLessMeans(a: Path, b: Path)
    ensures PathLess(a, b) <==> exists k: nat :: PathBefore(a, b, k)
  {
    LexMeans(BytesLess, a, b);
    forall k: nat
      ensures SmallerAt(BytesLess, a, b, k) <==> PathBefore(a, b, k)
    {
    }
  }
}
