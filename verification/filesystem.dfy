/** The part of the file system the program touches: `os.mkdir`,
    `open(path, 'w')`, `os.path.exists`, and `makedirs` (mkcodes.py lines
    86-101), which creates a directory and its missing ancestors and drops
    an empty `__init__.py` into each directory it creates. */
module FileSystem {
  import opened Wrappers
  import opened Paths

  /** The name of the package marker `makedirs` writes. */
  const Marker: string := "__init__.py"

  /** Directories and regular files, by path relative to the working
      directory, which is `[]`. */
  datatype FS = FS(dirs: set<Path>, files: map<Path, string>)

  /** The working directory exists, every directory's and every file's
      parent is a directory, and no path is both. */
  ghost predicate Valid(fs: FS)
  {
    && [] in fs.dirs
    && (forall p :: p in fs.dirs && p != [] ==> Parent(p) in fs.dirs)
    && (forall f :: f in fs.files ==> f != [] && Parent(f) in fs.dirs)
    && (forall p :: p in fs.dirs ==> p !in fs.files)
  }

  /** `os.path.exists`. */
  predicate Exists(fs: FS, p: Path)
  {
    p in fs.dirs || p in fs.files
  }

  /** The `OSError` subclasses a failing call raises, with the path it was
      called on. */
  datatype Error =
    | FileExists(path: Path)
    | FileNotFound(path: Path)
    | NotADirectory(path: Path)
    | IsADirectory(path: Path)

  /** The length of the first proper prefix of `p`, from length `k` on, that
      is not a directory; `|p|` when all of them are. */
  function Blocker(fs: FS, p: Path, k: nat): (j: nat)
    requires 1 <= k <= |p|
    ensures k <= j <= |p|
    ensures forall i :: k <= i < j ==> p[..i] in fs.dirs
    ensures j < |p| ==> p[..j] !in fs.dirs
    decreases |p| - k
  {
    if k == |p| || p[..k] !in fs.dirs then k else Blocker(fs, p, k + 1)
  }

  /** The error raised while looking up the directory that would hold `p`:
      the first ancestor that is not a directory is missing
      (`FileNotFoundError`) or is a file (`NotADirectoryError`). */
  function LookupError(fs: FS, p: Path): Option<Error>
    requires p != []
  {
    var j := Blocker(fs, p, 1);
    if j == |p| then None
    else if p[..j] in fs.files then Some(NotADirectory(p))
    else Some(FileNotFound(p))
  }

  /** `os.mkdir(p)`. */
  function Mkdir(fs: FS, p: Path): Result<FS, Error>
    requires p != []
  {
    var e := LookupError(fs, p);
    if e.Some? then Failure(e.value)
    else if Exists(fs, p) then Failure(FileExists(p))
    else Success(fs.(dirs := fs.dirs + {p}))
  }

  /** `open(p, 'w')` followed by writing `content`: the file is created or
      truncated. */
  function WriteFile(fs: FS, p: Path, content: string): Result<FS, Error>
  {
    if p == [] then Failure(IsADirectory(p))
    else
      var e := LookupError(fs, p);
      if e.Some? then Failure(e.value)
      else if p in fs.dirs then Failure(IsADirectory(p))
      else Success(fs.(files := fs.files[p := content]))
  }

  // ---------------------------------------------------------------------
  // Facts about valid file systems

  /** Every prefix of a directory is a directory. */
  lemma {:induction false} DirPrefixes(fs: FS, p: Path, k: nat)
    requires Valid(fs) && p in fs.dirs && k <= |p|
    ensures p[..k] in fs.dirs
    decreases |p| - k
  {
    if k < |p| {
      assert Parent(p) == p[..|p| - 1];
      assert p[..|p| - 1][..k] == p[..k];
      DirPrefixes(fs, p[..|p| - 1], k);
    } else {
      assert p[..k] == p;
    }
  }

  /** In a valid file system the lookup succeeds exactly when the parent is
      a directory. */
  lemma LookupParent(fs: FS, p: Path)
    requires Valid(fs) && p != []
    ensures LookupError(fs, p).None? <==> Parent(p) in fs.dirs
  {
    var j := Blocker(fs, p, 1);
    if Parent(p) in fs.dirs && j < |p| {
      assert Parent(p)[..j] == p[..j];
      DirPrefixes(fs, Parent(p), j);
    }
    if j == |p| && |p| > 1 {
      assert p[..|p| - 1] == Parent(p);
    }
  }

  /** `mkdir` and `open(..., 'w')` keep the file system valid. */
  lemma MkdirValid(fs: FS, p: Path)
    requires Valid(fs) && p != [] && Mkdir(fs, p).Success?
    ensures Valid(Mkdir(fs, p).value)
  {
    LookupParent(fs, p);
  }

  lemma WriteValid(fs: FS, p: Path, content: string)
    requires Valid(fs) && WriteFile(fs, p, content).Success?
    ensures Valid(WriteFile(fs, p, content).value)
  {
    LookupParent(fs, p);
  }

  /** `mkdir` creates the directory exactly when its parent is a directory
      and nothing exists at the path; otherwise the file system is left
      alone. */
  lemma MkdirMeaning(fs: FS, p: Path)
    requires Valid(fs) && p != []
    ensures Mkdir(fs, p).Success? <==> Parent(p) in fs.dirs && !Exists(fs, p)
    ensures Mkdir(fs, p).Success? ==> Mkdir(fs, p).value == fs.(dirs := fs.dirs + {p})
    ensures Exists(fs, p) ==> Mkdir(fs, p) == Failure(FileExists(p))
  {
    LookupParent(fs, p);
    if Exists(fs, p) {
      assert Parent(p) in fs.dirs;
    }
  }

  /** `open(p, 'w')` succeeds exactly when the parent is a directory and `p`
      is not one; it then creates or truncates the file and nothing else.
      Otherwise it raises `IsADirectoryError` on a directory, and
      `NotADirectoryError` or `FileNotFoundError` when an ancestor is a file
      or is missing. */
  lemma WriteMeaning(fs: FS, p: Path, content: string)
    requires Valid(fs)
    ensures WriteFile(fs, p, content).Success? <==> p != [] && Parent(p) in fs.dirs && p !in fs.dirs
    ensures WriteFile(fs, p, content).Success? ==>
      WriteFile(fs, p, content).value == fs.(files := fs.files[p := content])
    ensures p in fs.dirs ==> WriteFile(fs, p, content) == Failure(IsADirectory(p))
    ensures p != [] && Parent(p) !in fs.dirs ==>
      WriteFile(fs, p, content) == Failure(if UnderFile(fs, p) then NotADirectory(p) else FileNotFound(p))
  {
    if p != [] {
      LookupParent(fs, p);
      UnderFileStops(fs, p);
      var j := Blocker(fs, p, 1);
      if j < |p| && p[..j] in fs.files {
        assert 0 < j && UnderFile(fs, p);
      }
    }
  }

  // ---------------------------------------------------------------------
  // makedirs

  /** The prefixes of `d` with lengths `lo` to `hi`. */
  ghost function Prefixes(d: Path, lo: nat, hi: nat): set<Path>
    requires hi <= |d|
  {
    set k | lo <= k <= hi :: d[..k]
  }

  /** `d` and all its ancestors but the working directory. */
  ghost function Ancestors(d: Path): set<Path>
  {
    Prefixes(d, 1, |d|)
  }

  /** The empty `__init__.py` files of the directories in `ds`. */
  ghost function Markers(ds: set<Path>): map<Path, string>
  {
    map p | p in ds :: p + [Marker] := ""
  }

  /** `f` is the `__init__.py` of a directory that is in `fs'` but was
      not in `fs`. */
  ghost predicate NewMarker(fs: FS, fs': FS, f: Path)
  {
    f != [] && Name(f) == Marker && Parent(f) in fs'.dirs && Parent(f) !in fs.dirs
  }

  /** Some ancestor of `d` is a regular file. */
  ghost predicate UnderFile(fs: FS, d: Path)
  {
    exists k :: 0 < k < |d| && d[..k] in fs.files
  }

  /** One of the directories `makedirs(d)` creates has a child on the way to
      `d` named `__init__.py`: the marker written into it is in the way. */
  ghost predicate MarkerInTheWay(fs: FS, d: Path)
  {
    exists k :: 0 < k < |d| && d[..k] !in fs.dirs && d[k] == Marker
  }

  /** `main` cannot write the file `t`: `t` is the working directory or a
      directory, an ancestor of it is a regular file, or its directory is
      missing and `makedirs` would run into one of its own markers. */
  ghost predicate Blocked(fs: FS, t: Path)
  {
    || t == []
    || t in fs.dirs
    || UnderFile(fs, t)
    || (!Exists(fs, Parent(t)) && MarkerInTheWay(fs, Parent(t)))
  }

  /** No prefix of `d` from length `lo` on exists. */
  ghost predicate Missing(fs: FS, d: Path, lo: nat)
  {
    forall k :: lo <= k <= |d| ==> !Exists(fs, d[..k])
  }

  /** `Blocker` is the least length whose prefix is not a directory. */
  lemma BlockerIs(fs: FS, p: Path, j: nat)
    requires 1 <= j <= |p|
    requires forall i :: 1 <= i < j ==> p[..i] in fs.dirs
    requires j == |p| || p[..j] !in fs.dirs
    ensures Blocker(fs, p, 1) == j
  {
  }

  /** The shortest non-directory prefix of a prefix of `d`. */
  lemma BlockerOfPrefix(fs: FS, d: Path, m: nat)
    requires 1 <= m <= |d|
    ensures Blocker(fs, d[..m], 1) == if Blocker(fs, d, 1) < m then Blocker(fs, d, 1) else m
  {
    var b := Blocker(fs, d, 1);
    var j := if b < m then b else m;
    forall i | 1 <= i < j
      ensures d[..m][..i] in fs.dirs
    {
      assert d[..m][..i] == d[..i];
    }
    assert j < m ==> d[..m][..j] == d[..j];
    BlockerIs(fs, d[..m], j);
  }

  /** How `makedirs(d)` will go, read off the file system: `base` is the
      length of the shortest ancestor of `d` that is not a directory. */
  lemma Classify(fs: FS, d: Path)
    requires Valid(fs) && d != []
    ensures var base := Blocker(fs, d, 1);
      && (Exists(fs, d) ==> base == |d|)
      && (!Exists(fs, d) && UnderFile(fs, d) ==> base < |d| && d[..base] in fs.files)
      && (!Exists(fs, d) && !UnderFile(fs, d) ==> Missing(fs, d, base))
      && (base < |d| && d[..base] !in fs.files ==> Missing(fs, d, base))
      && (Missing(fs, d, base) ==> !Exists(fs, d) && !UnderFile(fs, d))
      && (Missing(fs, d, base) ==>
            (MarkerInTheWay(fs, d) <==> exists k :: base <= k < |d| && d[k] == Marker))
  {
    ExistingIsReached(fs, d);
    UnderFileStops(fs, d);
    NothingBeyond(fs, d);
    MissingMeaning(fs, d);
  }

  /** An existing path has every proper prefix a directory. */
  lemma ExistingIsReached(fs: FS, d: Path)
    requires Valid(fs) && d != []
    ensures Exists(fs, d) ==> Blocker(fs, d, 1) == |d|
  {
    var base := Blocker(fs, d, 1);
    if Exists(fs, d) && base < |d| {
      assert Parent(d)[..base] == d[..base];
      DirPrefixes(fs, Parent(d), base);
    }
  }

  /** The lookup stops at the file an ancestor is. */
  lemma UnderFileStops(fs: FS, d: Path)
    requires Valid(fs) && d != []
    ensures UnderFile(fs, d) ==> Blocker(fs, d, 1) < |d| && d[..Blocker(fs, d, 1)] in fs.files
  {
    if UnderFile(fs, d) {
      var k :| 0 < k < |d| && d[..k] in fs.files;
      forall i | 1 <= i < k
        ensures d[..i] in fs.dirs
      {
        assert Parent(d[..k])[..i] == d[..i];
        DirPrefixes(fs, Parent(d[..k]), i);
      }
      BlockerIs(fs, d, k);
    }
  }

  /** Below a missing ancestor nothing exists. */
  lemma NothingBeyond(fs: FS, d: Path)
    requires Valid(fs) && d != []
    ensures var base := Blocker(fs, d, 1);
      && (base < |d| && d[..base] !in fs.files ==> Missing(fs, d, base))
      && (!Exists(fs, d) && !UnderFile(fs, d) ==> Missing(fs, d, base))
  {
    var base := Blocker(fs, d, 1);
    if base < |d| {
      if d[..base] !in fs.files {
        BelowMissing(fs, d, base);
      }
    } else {
      assert d[..|d|] == d;
    }
  }

  lemma BelowMissing(fs: FS, d: Path, base: nat)
    requires Valid(fs) && base <= |d| && !Exists(fs, d[..base])
    ensures Missing(fs, d, base)
  {
    forall k | base <= k <= |d|
      ensures !Exists(fs, d[..k])
    {
      if d[..k] in fs.dirs {
        assert d[..k][..base] == d[..base];
        DirPrefixes(fs, d[..k], base);
      } else if d[..k] in fs.files && base < k {
        assert Parent(d[..k])[..base] == d[..base];
        DirPrefixes(fs, Parent(d[..k]), base);
      }
    }
  }

  /** When everything from `base` on is missing, the path neither exists
      nor lies below a file, and a marker is in the way exactly when a name
      after `base` is `__init__.py`. */
  lemma MissingMeaning(fs: FS, d: Path)
    requires Valid(fs) && d != []
    ensures var base := Blocker(fs, d, 1);
      Missing(fs, d, base) ==>
        && !Exists(fs, d) && !UnderFile(fs, d)
        && (MarkerInTheWay(fs, d) <==> exists k :: base <= k < |d| && d[k] == Marker)
  {
    var base := Blocker(fs, d, 1);
    if Missing(fs, d, base) {
      assert d[..|d|] == d;
      forall k | base <= k < |d|
        ensures d[..k] !in fs.files
      {
        assert !Exists(fs, d[..k]);
      }
      if MarkerInTheWay(fs, d) {
        var k :| 0 < k < |d| && d[..k] !in fs.dirs && d[k] == Marker;
        assert base <= k;
      }
      if exists k :: base <= k < |d| && d[k] == Marker {
        var k :| base <= k < |d| && d[k] == Marker;
        assert !Exists(fs, d[..k]);
        assert 0 < k;
      }
    }
  }

  /** The directory `p` with its marker added. */
  function AddDir(fs: FS, p: Path): FS
  {
    FS(fs.dirs + {p}, fs.files[p + [Marker] := ""])
  }

  /** `makedirs(d)` has created the prefixes of `d` with lengths `base` to
      `m` in the valid file system `fs`, each with its marker, giving `cur`;
      `base` is the length of the shortest ancestor that did not exist, and
      no name after it up to `m` is `__init__.py`. */
  ghost predicate Made(fs: FS, d: Path, base: nat, cur: FS, m: nat)
  {
    && 1 <= base <= |d| && m <= |d|
    && base == Blocker(fs, d, 1)
    && Valid(fs) && Valid(cur) && Missing(fs, d, base)
    && cur.dirs == fs.dirs + Prefixes(d, base, m)
    && cur.files == fs.files + Markers(Prefixes(d, base, m))
    && (forall k :: base <= k < m ==> d[k] != Marker)
  }

  /** The state of the `makedirs` loop, at the top of each iteration.
      `directory` is a prefix of `d` and `toMake` holds, last first, the
      names between it and `d`.  While climbing nothing has changed; once
      the first directory has been created the loop is descending, and
      every directory above the current one has been made. */
  ghost predicate LoopState(fs: FS, d: Path, base: nat, cur: FS, directory: Path, toMake: seq<string>, descending: bool)
  {
    && |directory| + |toMake| == |d| && directory == d[..|directory|]
    && (forall j :: 0 <= j < |toMake| ==> toMake[j] == d[|d| - 1 - j])
    && Valid(fs)
    && (d != [] ==> base == Blocker(fs, d, 1) && base <= |directory|)
    && (!descending ==> cur == fs && (|directory| < |d| ==> Missing(fs, d, base)))
    && (descending ==> base < |directory| && Made(fs, d, base, cur, |directory| - 1))
  }

  /** What `makedirs(d)` does to a valid file system `fs`, ending in
      `fs'` with error `err`. */
  ghost predicate MakeDirsOutcome(fs: FS, d: Path, fs': FS, err: Option<Error>)
  {
    && Valid(fs')
    && (d == [] ==> fs' == fs && err == None)
    && (d != [] && Exists(fs, d) ==> fs' == fs && err == Some(FileExists(d)))
    && (d != [] && !Exists(fs, d) && UnderFile(fs, d) ==> fs' == fs && err == Some(NotADirectory(d)))
    && (d != [] && !Exists(fs, d) && !UnderFile(fs, d) && MarkerInTheWay(fs, d) ==>
          err.Some? && err.value.FileExists?)
    && (d != [] && !Exists(fs, d) && !UnderFile(fs, d) && !MarkerInTheWay(fs, d) ==>
          && err == None
          && fs'.dirs == fs.dirs + Ancestors(d)
          && fs'.files == fs.files + Markers(Ancestors(d) - fs.dirs))
  }
  /** While descending, every proper prefix of the current directory is a
      directory, and the current directory exists only if it is the marker
      of its parent. */
  lemma DescendingLookup(fs: FS, d: Path, base: nat, cur: FS, m: nat)
    requires 1 <= base < m <= |d| && Missing(fs, d, base)
    requires forall i :: 1 <= i < base ==> d[..i] in fs.dirs
    requires cur.dirs == fs.dirs + Prefixes(d, base, m - 1)
    requires cur.files == fs.files + Markers(Prefixes(d, base, m - 1))
    ensures LookupError(cur, d[..m]).None?
    ensures Exists(cur, d[..m]) <==> d[m - 1] == Marker
  {
    var directory := d[..m];
    forall i | 1 <= i < m
      ensures directory[..i] in cur.dirs
    {
      assert directory[..i] == d[..i];
      if i >= base {
        assert d[..i] in Prefixes(d, base, m - 1);
      }
    }
    BlockerIs(cur, directory, m);
    forall k | base <= k <= m - 1
      ensures directory != d[..k]
    {
      assert |d[..k]| == k;
    }
    assert !Exists(fs, directory);
    var parent := d[..m - 1];
    assert directory == parent + [d[m - 1]];
    if d[m - 1] == Marker {
      assert parent in Prefixes(d, base, m - 1);
    } else {
      forall q | q in Prefixes(d, base, m - 1)
        ensures directory != q + [Marker]
      {
      }
    }
  }
  /** While climbing below `d`, `mkdir` either creates the shortest missing
      ancestor or reports a missing parent. */
  lemma ClimbMkdir(fs: FS, d: Path, base: nat, m: nat)
    requires Valid(fs) && 1 <= base <= m < |d| && base == Blocker(fs, d, 1) && Missing(fs, d, base)
    ensures Mkdir(fs, d[..m]).Success? <==> base == m
    ensures Mkdir(fs, d[..m]).Failure? ==> Mkdir(fs, d[..m]).error == FileNotFound(d[..m])
  {
    assert d[..m][..base] == d[..base];
    BlockerOfPrefix(fs, d, m);
  }

  /** `mkdir` reports a missing parent only while climbing, and the climb
      stops at the shortest missing ancestor. */
  lemma StepClimb(fs: FS, d: Path, base: nat, cur: FS, directory: Path, toMake: seq<string>, descending: bool)
    requires LoopState(fs, d, base, cur, directory, toMake, descending) && directory != []
    requires Mkdir(cur, directory) == Failure(FileNotFound(directory))
    ensures !descending
    ensures LoopState(fs, d, base, cur, Parent(directory), toMake + [Name(directory)], false)
  {
    var m := |directory|;
    if descending {
      DescendingLookup(fs, d, base, cur, m);
    } else {
      BlockerOfPrefix(fs, d, m);
      assert directory[..base] == d[..base];
      Classify(fs, d);
      var toMake' := toMake + [Name(directory)];
      forall k | 0 <= k < |toMake'|
        ensures toMake'[k] == d[|d| - 1 - k]
      {
      }
    }
  }

  /** The very first `mkdir` fails: nothing changes. */
  lemma FailFirst(fs: FS, d: Path)
    requires Valid(fs) && d != [] && Mkdir(fs, d).Failure? && !Mkdir(fs, d).error.FileNotFound?
    ensures MakeDirsOutcome(fs, d, fs, Some(Mkdir(fs, d).error))
  {
    Classify(fs, d);
    var base := Blocker(fs, d, 1);
    if base < |d| {
      assert 0 < base && d[..base] in fs.files;
    }
    OutcomeUnchanged(fs, d, Some(Mkdir(fs, d).error));
  }

  /** A `mkdir` fails while descending only when a marker is in the way. */
  lemma FailDescending(fs: FS, d: Path, base: nat, cur: FS, m: nat)
    requires base < m <= |d| && Made(fs, d, base, cur, m - 1) && Mkdir(cur, d[..m]).Failure?
    ensures MakeDirsOutcome(fs, d, cur, Some(Mkdir(cur, d[..m]).error))
  {
    DescendingLookup(fs, d, base, cur, m);
    Classify(fs, d);
    assert base <= m - 1 < |d| && d[m - 1] == Marker;
    OutcomeClash(fs, d, cur, Some(Mkdir(cur, d[..m]).error));
  }

  /** Any error other than a missing parent ends `makedirs`. */
  lemma StepFail(fs: FS, d: Path, base: nat, cur: FS, directory: Path, toMake: seq<string>, descending: bool)
    requires LoopState(fs, d, base, cur, directory, toMake, descending) && directory != []
    requires Mkdir(cur, directory).Failure? && !Mkdir(cur, directory).error.FileNotFound?
    ensures MakeDirsOutcome(fs, d, cur, Some(Mkdir(cur, directory).error))
  {
    var m := |directory|;
    if descending {
      FailDescending(fs, d, base, cur, m);
    } else if m == |d| {
      assert directory == d;
      FailFirst(fs, d);
    } else {
      ClimbMkdir(fs, d, base, m);
    }
  }

  /** The first `mkdir` fails and nothing changes. */
  lemma OutcomeUnchanged(fs: FS, d: Path, err: Option<Error>)
    requires Valid(fs) && d != []
    requires (Exists(fs, d) && err == Some(FileExists(d))) ||
             (!Exists(fs, d) && UnderFile(fs, d) && err == Some(NotADirectory(d)))
    ensures MakeDirsOutcome(fs, d, fs, err)
  {
  }
  /** A marker is in the way: some directories have been made. */
  lemma OutcomeClash(fs: FS, d: Path, cur: FS, err: Option<Error>)
    requires Valid(cur) && d != []
    requires !Exists(fs, d) && !UnderFile(fs, d) && MarkerInTheWay(fs, d)
    requires err.Some? && err.value.FileExists?
    ensures MakeDirsOutcome(fs, d, cur, err)
  {
  }
  /** Every missing directory has been made, each with its marker. */
  lemma OutcomeDone(fs: FS, d: Path, next: FS)
    requires Valid(next) && d != []
    requires !Exists(fs, d) && !UnderFile(fs, d) && !MarkerInTheWay(fs, d)
    requires next.dirs == fs.dirs + Ancestors(d)
    requires next.files == fs.files + Markers(Ancestors(d) - fs.dirs)
    ensures MakeDirsOutcome(fs, d, next, None)
  {
  }
  lemma PrefixesExtend(d: Path, lo: nat, hi: nat)
    requires lo <= hi < |d|
    ensures Prefixes(d, lo, hi + 1) == Prefixes(d, lo, hi) + {d[..hi + 1]}
  {
  }
  lemma MarkersAdd(ds: set<Path>, p: Path)
    ensures Markers(ds + {p}) == Markers(ds)[p + [Marker] := ""]
  {
  }
  /** Once `base` is the shortest missing ancestor, the directories `d` adds
      are exactly its prefixes from `base` on. */
  lemma AncestorsSplit(fs: FS, d: Path, base: nat)
    requires 1 <= base <= |d| && Missing(fs, d, base)
    requires forall i :: 1 <= i < base ==> d[..i] in fs.dirs
    ensures fs.dirs + Ancestors(d) == fs.dirs + Prefixes(d, base, |d|)
    ensures Ancestors(d) - fs.dirs == Prefixes(d, base, |d|)
  {
    forall p | p in Ancestors(d)
      ensures p in fs.dirs <==> p !in Prefixes(d, base, |d|)
    {
      var k :| 1 <= k <= |d| && p == d[..k];
      if k >= base {
        assert !Exists(fs, d[..k]);
      }
      if p in Prefixes(d, base, |d|) {
        var k' :| base <= k' <= |d| && p == d[..k'];
        assert |p| == k == k';
      }
    }
  }
  /** The marker is written into a directory just created, so `open`
      cannot fail there, and the file system stays valid. */
  lemma MarkerWrite(cur: FS, directory: Path)
    requires Valid(cur) && directory != [] && Mkdir(cur, directory).Success?
    ensures WriteFile(Mkdir(cur, directory).value, directory + [Marker], "") == Success(AddDir(cur, directory))
    ensures Valid(AddDir(cur, directory))
  {
    MkdirMeaning(cur, directory);
    var made := Mkdir(cur, directory).value;
    MkdirValid(cur, directory);
    var key := directory + [Marker];
    assert Parent(key) == directory;
    LookupParent(made, key);
    assert key !in cur.dirs;
    WriteValid(made, key, "");
  }

  /** The directories and markers made so far, one level further down. */
  lemma Bookkeeping(fs: FS, d: Path, base: nat, cur: FS, m: nat, descending: bool)
    requires 1 <= base <= m <= |d|
    requires !descending ==> cur == fs && base == m
    requires descending ==>
      && base < m
      && cur.dirs == fs.dirs + Prefixes(d, base, m - 1)
      && cur.files == fs.files + Markers(Prefixes(d, base, m - 1))
    ensures cur.dirs + {d[..m]} == fs.dirs + Prefixes(d, base, m)
    ensures cur.files[d[..m] + [Marker] := ""] == fs.files + Markers(Prefixes(d, base, m))
  {
    if descending {
      var before := Prefixes(d, base, m - 1);
      PrefixesExtend(d, base, m - 1);
      MarkersAdd(before, d[..m]);
      SetStep(fs.dirs, cur.dirs, before, Prefixes(d, base, m), d[..m]);
      MapStep(fs.files, cur.files, Markers(before), Markers(Prefixes(d, base, m)), d[..m] + [Marker], "");
    } else {
      FirstMade(fs, d, m);
    }
  }

  lemma SetStep<T>(a: set<T>, cur: set<T>, b: set<T>, b': set<T>, x: T)
    requires cur == a + b && b' == b + {x}
    ensures cur + {x} == a + b'
  {
  }

  lemma MapStep<K, V>(a: map<K, V>, cur: map<K, V>, b: map<K, V>, b': map<K, V>, k: K, v: V)
    requires cur == a + b && b' == b[k := v]
    ensures cur[k := v] == a + b'
  {
  }

  /** The first directory made, with its marker. */
  lemma FirstMade(fs: FS, d: Path, m: nat)
    requires 1 <= m <= |d|
    ensures fs.dirs + {d[..m]} == fs.dirs + Prefixes(d, m, m)
    ensures fs.files[d[..m] + [Marker] := ""] == fs.files + Markers(Prefixes(d, m, m))
  {
    assert Prefixes(d, m, m) == {d[..m]};
    assert Markers({d[..m]}) == map[d[..m] + [Marker] := ""];
  }

  /** A successful `mkdir` and its marker extend what has been made by one
      level. */
  lemma StepCreate(fs: FS, d: Path, base: nat, cur: FS, directory: Path, toMake: seq<string>, descending: bool)
    requires LoopState(fs, d, base, cur, directory, toMake, descending) && directory != []
    requires Mkdir(cur, directory).Success?
    ensures WriteFile(Mkdir(cur, directory).value, directory + [Marker], "") == Success(AddDir(cur, directory))
    ensures Made(fs, d, base, WriteFile(Mkdir(cur, directory).value, directory + [Marker], "").value, |directory|)
  {
    CreateSite(fs, d, base, cur, directory, toMake, descending);
    MarkerWrite(cur, directory);
    Bookkeeping(fs, d, base, cur, |directory|, descending);
  }

  /** Where a `mkdir` succeeds: at the shortest missing ancestor while
      climbing, and below what has been made while descending. */
  lemma CreateSite(fs: FS, d: Path, base: nat, cur: FS, directory: Path, toMake: seq<string>, descending: bool)
    requires LoopState(fs, d, base, cur, directory, toMake, descending) && directory != []
    requires Mkdir(cur, directory).Success?
    ensures var m := |directory|;
      && directory == d[..m] && 1 <= base <= m <= |d| && base == Blocker(fs, d, 1)
      && Valid(fs) && Valid(cur) && Missing(fs, d, base)
      && (forall k :: base <= k < m ==> d[k] != Marker)
      && (!descending ==> cur == fs && base == m)
      && (descending ==>
            && base < m
            && cur.dirs == fs.dirs + Prefixes(d, base, m - 1)
            && cur.files == fs.files + Markers(Prefixes(d, base, m - 1)))
  {
    var m := |directory|;
    if descending {
      DescendingLookup(fs, d, base, cur, m);
    } else if m == |d| {
      MkdirMeaning(fs, d);
      assert d[..|d|] == d;
      LookupParent(fs, d);
      NothingBeyond(fs, d);
    } else {
      ClimbMkdir(fs, d, base, m);
    }
  }

  /** Going down one level after a directory has been made. */
  lemma Descend(fs: FS, d: Path, base: nat, cur: FS, directory: Path, toMake: seq<string>)
    requires Made(fs, d, base, cur, |directory|) && base <= |directory|
    requires |directory| + |toMake| == |d| && directory == d[..|directory|] && toMake != []
    requires forall j :: 0 <= j < |toMake| ==> toMake[j] == d[|d| - 1 - j]
    ensures LoopState(fs, d, base, cur, directory + [toMake[|toMake| - 1]], toMake[..|toMake| - 1], true)
  {
    var next := directory + [toMake[|toMake| - 1]];
    var rest := toMake[..|toMake| - 1];
    DescendShape(d, directory, toMake);
    MadeSame(fs, d, base, cur, |directory|, |next| - 1);
    DescendState(fs, d, base, cur, next, rest);
  }

  /** The names still to make, one fewer, and the directory one level down. */
  lemma DescendShape(d: Path, directory: Path, toMake: seq<string>)
    requires |directory| + |toMake| == |d| && directory == d[..|directory|] && toMake != []
    requires forall j :: 0 <= j < |toMake| ==> toMake[j] == d[|d| - 1 - j]
    ensures var next := directory + [toMake[|toMake| - 1]];
      && |next| + |toMake| - 1 == |d| && next == d[..|next|]
    ensures var rest := toMake[..|toMake| - 1];
      forall j :: 0 <= j < |rest| ==> rest[j] == d[|d| - 1 - j]
  {
    var m := |directory|;
    assert toMake[|toMake| - 1] == d[m];
    assert directory + [toMake[|toMake| - 1]] == d[..m + 1];
  }

  lemma DescendState(fs: FS, d: Path, base: nat, cur: FS, next: Path, rest: seq<string>)
    requires |next| + |rest| == |d| && next == d[..|next|]
    requires forall j :: 0 <= j < |rest| ==> rest[j] == d[|d| - 1 - j]
    requires base < |next| && Made(fs, d, base, cur, |next| - 1)
    ensures LoopState(fs, d, base, cur, next, rest, true)
  {
  }

  lemma MadeSame(fs: FS, d: Path, base: nat, cur: FS, m: nat, m': nat)
    requires Made(fs, d, base, cur, m) && m == m'
    ensures Made(fs, d, base, cur, m')
  {
  }

  /** Once `d` itself has been made, `makedirs` is done. */
  lemma Done(fs: FS, d: Path, base: nat, cur: FS, m: nat)
    requires m == |d| && Made(fs, d, base, cur, m)
    ensures MakeDirsOutcome(fs, d, cur, None)
  {
    Classify(fs, d);
    AncestorsSplit(fs, d, base);
    OutcomeDone(fs, d, cur);
  }

  /** A `makedirs` that raises nothing only adds: every directory stays a
      directory and every file keeps its content, because a marker is only
      written into a directory that did not exist before. */
  lemma MakeDirsKeeps(fs: FS, d: Path, fs': FS)
    requires Valid(fs) && MakeDirsOutcome(fs, d, fs', None)
    ensures fs.dirs <= fs'.dirs
    ensures forall f :: f in fs.files ==> f in fs'.files && fs'.files[f] == fs.files[f]
    ensures forall q :: q in fs'.dirs && q !in fs.dirs ==> 0 < |q| <= |d| && q == d[..|q|]
    ensures forall f :: f in fs'.files ==> f in fs.files || NewMarker(fs, fs', f)
    ensures forall q :: q in fs'.dirs && q !in fs.dirs ==> q + [Marker] in fs'.files && fs'.files[q + [Marker]] == ""
  {
    if d != [] {
      forall p | p in Ancestors(d) - fs.dirs
        ensures p + [Marker] !in fs.files
      {
        assert Parent(p + [Marker]) == p;
      }
      forall f | f in fs'.files && f !in fs.files
        ensures NewMarker(fs, fs', f)
      {
        var p :| p in Ancestors(d) - fs.dirs && f == p + [Marker];
        assert Parent(f) == p;
      }
    }
  }

  /** `makedirs(d)`: climbs from `d` towards the working directory while
      `mkdir` reports a missing parent, remembering the names it climbed
      over, then creates the directories back down, writing an empty
      `__init__.py` into each one it creates.  An error `makedirs` does not
      catch is returned, together with the file system as it was when the
      error was raised. */
  method MakeDirs(fs: FS, d: Path) returns (fs': FS, err: Option<Error>)
    requires Valid(fs)
    ensures MakeDirsOutcome(fs, d, fs', err)
  {
    fs' := fs;
    err := None;
    var directory := d;
    var toMake: seq<string> := [];
    ghost var descending := false;
    ghost var base := if d == [] then 0 else Blocker(fs, d, 1);
    assert d[..|d|] == d;
    while directory != []
      invariant err == None
      invariant LoopState(fs, d, base, fs', directory, toMake, descending)
      decreases if descending then 0 else 1, if descending then |toMake| else |directory|
    {
      var r := Mkdir(fs', directory);
      if r.Failure? {
        if r.error.FileNotFound? {
          StepClimb(fs, d, base, fs', directory, toMake, descending);
          toMake := toMake + [Name(directory)];
          directory := Parent(directory);
        } else {
          StepFail(fs, d, base, fs', directory, toMake, descending);
          err := Some(r.error);
          return;
        }
      } else {
        StepCreate(fs, d, base, fs', directory, toMake, descending);
        fs' := WriteFile(r.value, directory + [Marker], "").value;
        descending := true;
        if toMake != [] {
          Descend(fs, d, base, fs', directory, toMake);
          directory := directory + [toMake[|toMake| - 1]];
          toMake := toMake[..|toMake| - 1];
        } else {
          Done(fs, d, base, fs', |directory|);
          break;
        }
      }
    }
  }

  // ---------------------------------------------------------------------
  // Where `main` can write a file

  /** When the directory of `t` exists, `main` calls no `makedirs`, and
      `open(t, 'w')` succeeds exactly when `t` is not blocked. */
  lemma PlainWriteBlocked(fs: FS, t: Path, content: string)
    requires Valid(fs) && Exists(fs, Parent(t))
    ensures WriteFile(fs, t, content).Success? <==> !Blocked(fs, t)
  {
    WriteMeaning(fs, t, content);
    if t != [] {
      var d := Parent(t);
      if d in fs.files {
        assert t[..|d|] == d;
      } else {
        forall k | 0 < k < |t|
          ensures t[..k] !in fs.files
        {
          DirPrefixes(fs, d, k);
          assert d[..k] == t[..k];
        }
      }
    }
  }

  /** When the directory `d` of `t` is missing and `makedirs(d)` raises
      nothing, `open(t, 'w')` succeeds, and `t` was not blocked. */
  lemma MadeWriteBlocked(fs: FS, d: Path, fs': FS, t: Path, content: string)
    requires Valid(fs) && t != [] && d == Parent(t) && d != [] && !Exists(fs, d)
    requires MakeDirsOutcome(fs, d, fs', None)
    ensures WriteFile(fs', t, content).Success?
    ensures !Blocked(fs, t)
  {
    assert d[..|d|] == d;
    assert d in Ancestors(d);
    assert t !in fs.dirs;
    WriteMeaning(fs', t, content);
    forall k | 0 < k < |t|
      ensures t[..k] !in fs.files
    {
      assert t[..k] == d[..k];
    }
  }

  /** When `makedirs` raises, the file was blocked. */
  lemma MakeDirsBlocked(fs: FS, d: Path, fs': FS, err: Option<Error>, t: Path)
    requires Valid(fs) && t != [] && d == Parent(t) && d != [] && !Exists(fs, d)
    requires MakeDirsOutcome(fs, d, fs', err) && err.Some?
    ensures Blocked(fs, t)
  {
    if UnderFile(fs, d) {
      var k :| 0 < k < |d| && d[..k] in fs.files;
      assert t[..k] == d[..k];
    }
  }

  /** A file that `fs'` holds, where `fs'` grew from `fs` keeping every
      file and giving each new directory its marker, was not blocked in
      `fs`. */
  lemma Unblocked(fs: FS, fs': FS, t: Path)
    requires Valid(fs) && Valid(fs') && fs.dirs <= fs'.dirs
    requires forall f :: f in fs.files ==> f in fs'.files
    requires forall q :: q in fs'.dirs && q !in fs.dirs ==> q + [Marker] in fs'.files
    requires t in fs'.files
    ensures !Blocked(fs, t)
  {
    var d := Parent(t);
    forall k | 0 < k < |t|
      ensures t[..k] in fs'.dirs && t[..k] !in fs.files
    {
      DirPrefixes(fs', d, k);
      assert d[..k] == t[..k];
    }
    forall k | 0 < k < |d| && d[k] == Marker
      ensures d[..k] in fs.dirs
    {
      DirPrefixes(fs', d, k);
      DirPrefixes(fs', d, k + 1);
      assert d[..k + 1] == d[..k] + [Marker];
    }
  }

  /** A marker of a new directory on the way to `t` was in the way of
      `makedirs` in `fs`. */
  lemma MarkerBelow(fs: FS, fs': FS, t: Path, k: nat)
    requires Valid(fs) && 0 < k < |t|
    ensures NewMarker(fs, fs', t[..k]) ==> Blocked(fs, t)
  {
    if NewMarker(fs, fs', t[..k]) {
      var j := k - 1;
      var d := Parent(t);
      assert Parent(t[..k]) == t[..j] == d[..j];
      assert d[j] == t[..k][j];
      assert t[..0] == [];
      assert d !in fs.dirs by {
        if d in fs.dirs {
          DirPrefixes(fs, d, j);
        }
      }
      if d in fs.files {
        assert t[..|d|] == d;
      } else {
        assert MarkerInTheWay(fs, d);
      }
    }
  }
}
