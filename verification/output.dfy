/** The body of `main` (mkcodes.py lines 116-137): for every document
    `get_files` yields, the code blocks are extracted, and when there are
    any they are written, separated by blank lines, to a file whose path is
    the output template's directory, then the document's directory relative
    to its root, then the template's file name with `{name}` replaced by the
    document's stem.  Missing directories are made with `makedirs` first. */
module Output {
  import opened Wrappers
  import opened Strings
  import opened Paths
  import opened Scanner
  import opened Discovery
  import opened FileSystem

  /** What ends a run: `relative_to` raising `ValueError`, `str.format`
      rejecting the template, or an `OSError` from the file system. */
  datatype RunError =
    | NotRelative(path: Path)
    | BadTemplate(template: string)
    | Os(error: Error)

  /** `'\n\n'.join(codeblocks)`.  A block ends with its last line's own
      newline, so two blank lines separate consecutive blocks. */
  const Separator: string := "\n\n"

  /** `outputbasedir / filedir / outputbasename.format(name=filename)`,
      for the output template `output` and a yielded document. */
  function OutputFile(output: Path, doc: Document): (r: Result<Path, RunError>)
    ensures r.Success? <==>
      doc.root <= Parent(doc.path) && Format(Name(output), Stem(Name(doc.path))).Some?
    ensures !(doc.root <= Parent(doc.path)) ==> r == Failure(NotRelative(doc.path))
    ensures doc.root <= Parent(doc.path) && Format(Name(output), Stem(Name(doc.path))).None? ==>
      r == Failure(BadTemplate(Name(output)))
  {
    var rel := RelativeTo(Parent(doc.path), doc.root);
    if rel.None? then Failure(NotRelative(doc.path))
    else
      var name := Format(Name(output), Stem(Name(doc.path)));
      if name.None? then Failure(BadTemplate(Name(output)))
      else Success(Child(Parent(output) + rel.value, name.value))
  }

  /** The output path is the template's directory, then the directory that
      joined to the root gives the document's directory, then the formatted
      name, unless that name is empty or `.`. */
  lemma OutputFileShape(output: Path, doc: Document, rel: Path, name: string)
    requires Parent(doc.path) == doc.root + rel
    requires Format(Name(output), Stem(Name(doc.path))) == Some(name)
    ensures name != "" && name != "." ==> OutputFile(output, doc) == Success(Parent(output) + rel + [name])
    ensures name == "" || name == "." ==> OutputFile(output, doc) == Success(Parent(output) + rel)
  {
    RelativeToJoin(Parent(doc.path), doc.root, rel);
  }

  /** `relative_to` never raises for a pair `get_files` yields. */
  lemma YieldedRelative(inputs: seq<Input>, doc: Document)
    requires doc in GetFiles(inputs)
    ensures doc.root <= Parent(doc.path)
  {
    GetFilesMembers(inputs, doc);
    var input :| input in inputs && YieldedBy(input, doc);
    YieldedShape(input, doc);
  }

  /** With the default template `{name}.py` a file argument's blocks go to
      the working directory. */
  lemma FileArgumentExample()
    ensures OutputFile(["{name}.py"], Document(["docs", "guide.md"], ["docs"], [])) == Success(["guide.py"])
  {
    DefaultName("guide.md", 5);
    assert "guide.md"[..5] + ".py" == "guide.py";
    assert Name(["{name}.py"]) == "{name}.py" && Name(["docs", "guide.md"]) == "guide.md";
    assert "guide.py" != "" && "guide.py" != ".";
    OutputFileShape(["{name}.py"], Document(["docs", "guide.md"], ["docs"], []), [], "guide.py");
  }

  /** A file found below a directory argument keeps its sub-directory under
      the template's directory. */
  lemma DirectoryArgumentExample()
    ensures OutputFile(["build", "{name}.py"], Document(["docs", "api", "index.md"], ["docs"], []))
      == Success(["build", "api", "index.py"])
  {
    IndexNames();
    OutputFileShape(["build", "{name}.py"], Document(["docs", "api", "index.md"], ["docs"], []), ["api"], "index.py");
    assert ["build"] + ["api"] + ["index.py"] == ["build", "api", "index.py"];
  }

  /** The names and parents the directory example is made of. */
  lemma IndexNames()
    ensures Parent(["docs", "api", "index.md"]) == ["docs"] + ["api"]
    ensures Parent(["build", "{name}.py"]) == ["build"]
    ensures Format(Name(["build", "{name}.py"]), Stem(Name(["docs", "api", "index.md"]))) == Some("index.py")
    ensures "index.py" != "" && "index.py" != "."
  {
    DefaultName("index.md", 5);
    assert "index.md"[..5] + ".py" == "index.py";
    assert Parent(["docs", "api", "index.md"]) == ["docs", "api"] == ["docs"] + ["api"];
    assert Name(["build", "{name}.py"]) == "{name}.py" && Name(["docs", "api", "index.md"]) == "index.md";
  }

  /** The stem of `..md` is `.`, so the template `out/{name}` names the
      path `out` itself, which `open` refuses when `out` is a directory. */
  lemma DotStemExample()
    ensures OutputFile(["out", "{name}"], Document(["..md"], [], [])) == Success(["out"])
  {
    assert LastDot("..md") == 1;
    assert Stem("..md") == ".";
    FormatField("", "", ".");
    assert "" + "{name}" + "" == "{name}" && "" + "." + "" == ".";
    assert Name(["out", "{name}"]) == "{name}" && Name(["..md"]) == "..md";
    assert Parent(["..md"]) == [] + [] && Parent(["out", "{name}"]) == ["out"];
    OutputFileShape(["out", "{name}"], Document(["..md"], [], []), [], ".");
    assert ["out"] + [] == ["out"];
  }

  /** A field other than `{name}` in the template ends the run. */
  lemma UnknownFieldExample()
    ensures OutputFile(["{stem}.py"], Document(["a.md"], [], [])) == Failure(BadTemplate("{stem}.py"))
  {
    var t := "{stem}.py";
    assert t[..6] != "{name}" by { assert t[1] == 's'; }
    assert t[..2] != "{{" && t[..2] != "}}" by { assert t[1] == 's'; }
    assert Format(t, Stem("a.md")) == None;
  }

  /** The default template names the output after the part of a name
      before its only dot. */
  lemma DefaultName(name: string, i: nat)
    requires 0 < i < |name| - 1 && name[i] == '.'
    requires forall j :: 0 <= j < |name| && j != i ==> name[j] != '.'
    ensures Format("{name}.py", Stem(name)) == Some(name[..i] + ".py")
  {
    StemOf(name, i);
    DefaultTemplate(name[..i]);
  }

  /** A name with exactly one dot, at `i`, which is neither first nor last,
      has the part before it as its stem. */
  lemma StemOf(name: string, i: nat)
    requires 0 < i < |name| - 1 && name[i] == '.'
    requires forall j :: 0 <= j < |name| && j != i ==> name[j] != '.'
    ensures Stem(name) == name[..i]
  {
    assert LastDot(name) == i;
  }

  // ---------------------------------------------------------------------
  // Writing

  /** What `main` sets out to do for one document: the blocks found in it
      and the path they are to be written to. */
  datatype Job = Job(blocks: seq<string>, target: Result<Path, RunError>)

  function JobOf(output: Path, doc: Document, safe: bool): Job
  {
    Job(GithubCodeblocks(doc.lines, safe), OutputFile(output, doc))
  }

  /** The jobs of a run, document by document. */
  function Jobs(output: Path, docs: seq<Document>, safe: bool): (jobs: seq<Job>)
    ensures |jobs| == |docs|
    ensures forall i :: 0 <= i < |docs| ==> jobs[i] == JobOf(output, docs[i], safe)
  {
    seq(|docs|, i requires 0 <= i < |docs| => JobOf(output, docs[i], safe))
  }

  /** Job `i` has blocks and writes them to `t`. */
  predicate WritesAt(jobs: seq<Job>, i: nat, t: Path)
  {
    i < |jobs| && jobs[i].blocks != [] && jobs[i].target == Success(t)
  }

  /** The files a run writes, in order: each job with blocks and a valid
      output path puts its joined blocks at that path, and a later job with
      the same output path replaces an earlier one's file. */
  ghost function Written(jobs: seq<Job>): map<Path, string>
  {
    if jobs == [] then map[]
    else
      var earlier := Written(jobs[..|jobs| - 1]);
      var job := jobs[|jobs| - 1];
      if job.blocks != [] && job.target.Success? then earlier[job.target.value := Join(job.blocks, Separator)]
      else earlier
  }

  /** `q` is a proper ancestor of `t`. */
  predicate Above(q: Path, t: Path)
  {
    |q| < |t| && t[..|q|] == q
  }

  /** `fs'` is `fs` with the writes `w` done, and nothing else: the file
      system is valid, every planned path holds its content, every other
      file keeps its content, and the only other changes are new
      directories above planned paths, each with its empty `__init__.py`
      marker. */
  ghost predicate Applied(fs: FS, fs': FS, w: map<Path, string>)
  {
    && Valid(fs')
    && FilesWritten(fs, fs', w)
    && NoOtherFiles(fs, fs', w)
    && DirsGrown(fs, fs', w)
    && MarkersMade(fs, fs', w)
  }

  /** Every planned path holds its content; every other file is kept. */
  ghost predicate FilesWritten(fs: FS, fs': FS, w: map<Path, string>)
  {
    && (forall t :: t in w ==> t in fs'.files && fs'.files[t] == w[t])
    && (forall f :: f in fs.files && f !in w ==> f in fs'.files && fs'.files[f] == fs.files[f])
  }

  /** Every file is old, planned, or the marker of a new directory. */
  ghost predicate NoOtherFiles(fs: FS, fs': FS, w: map<Path, string>)
  {
    forall f :: f in fs'.files ==> f in fs.files || f in w || NewMarker(fs, fs', f)
  }

  /** No directory has gone, and every new one is above a planned path. */
  ghost predicate DirsGrown(fs: FS, fs': FS, w: map<Path, string>)
  {
    && fs.dirs <= fs'.dirs
    && (forall q :: q in fs'.dirs && q !in fs.dirs ==> exists t :: t in w && Above(q, t))
  }

  /** Every new directory holds its marker, empty unless a planned write
      went there. */
  ghost predicate MarkersMade(fs: FS, fs': FS, w: map<Path, string>)
  {
    forall q :: q in fs'.dirs && q !in fs.dirs ==>
      q + [Marker] in fs'.files && (q + [Marker] !in w ==> fs'.files[q + [Marker]] == "")
  }

  /** Writes done one after the other add up, the later winning. */
  lemma AppliedCompose(fs: FS, mid: FS, fs': FS, w1: map<Path, string>, w2: map<Path, string>)
    requires Applied(fs, mid, w1) && Applied(mid, fs', w2)
    ensures Applied(fs, fs', w1 + w2)
  {
    ComposeWritten(fs, mid, fs', w1, w2);
    ComposeOthers(fs, mid, fs', w1, w2);
    ComposeDirs(fs, mid, fs', w1, w2);
    ComposeMarkers(fs, mid, fs', w1, w2);
  }

  lemma ComposeMarkers(fs: FS, mid: FS, fs': FS, w1: map<Path, string>, w2: map<Path, string>)
    requires MarkersMade(fs, mid, w1) && MarkersMade(mid, fs', w2) && FilesWritten(mid, fs', w2)
    requires fs.dirs <= mid.dirs
    ensures MarkersMade(fs, fs', w1 + w2)
  {
  }

  lemma ComposeWritten(fs: FS, mid: FS, fs': FS, w1: map<Path, string>, w2: map<Path, string>)
    requires FilesWritten(fs, mid, w1) && FilesWritten(mid, fs', w2)
    ensures FilesWritten(fs, fs', w1 + w2)
  {
  }

  lemma ComposeOthers(fs: FS, mid: FS, fs': FS, w1: map<Path, string>, w2: map<Path, string>)
    requires NoOtherFiles(fs, mid, w1) && NoOtherFiles(mid, fs', w2)
    requires fs.dirs <= mid.dirs && mid.dirs <= fs'.dirs
    ensures NoOtherFiles(fs, fs', w1 + w2)
  {
  }

  lemma ComposeDirs(fs: FS, mid: FS, fs': FS, w1: map<Path, string>, w2: map<Path, string>)
    requires DirsGrown(fs, mid, w1) && DirsGrown(mid, fs', w2)
    ensures DirsGrown(fs, fs', w1 + w2)
  {
    forall q | q in fs'.dirs && q !in fs.dirs
      ensures exists t :: t in w1 + w2 && Above(q, t)
    {
      if q in mid.dirs {
        var t :| t in w1 && Above(q, t);
        assert t in w1 + w2;
      } else {
        var t :| t in w2 && Above(q, t);
        assert t in w1 + w2;
      }
    }
  }

  /** The writes of two runs of jobs, one after the other, add up. */
  lemma {:induction false} WrittenAppend(a: seq<Job>, b: seq<Job>)
    ensures Written(a + b) == Written(a) + Written(b)
    decreases |b|
  {
    if b == [] {
      assert a + b == a;
    } else {
      var n := |b| - 1;
      assert (a + b)[..|a + b| - 1] == a + b[..n];
      assert (a + b)[|a + b| - 1] == b[n];
      WrittenAppend(a, b[..n]);
      var job := b[n];
      if job.blocks != [] && job.target.Success? {
        UpdateUnion(Written(a), Written(b[..n]), job.target.value, Join(job.blocks, Separator));
      }
    }
  }

  lemma UpdateUnion<K, V>(x: map<K, V>, y: map<K, V>, k: K, v: V)
    ensures (x + y)[k := v] == x + y[k := v]
  {
  }

  /** The jobs of a run are the first document's job, then the rest's. */
  lemma JobsCons(output: Path, docs: seq<Document>, safe: bool)
    requires docs != []
    ensures Jobs(output, docs, safe) == [JobOf(output, docs[0], safe)] + Jobs(output, docs[1..], safe)
  {
    var all := Jobs(output, docs, safe);
    var rest := Jobs(output, docs[1..], safe);
    forall i | 0 < i < |docs|
      ensures all[i] == rest[i - 1]
    {
      assert docs[1..][i - 1] == docs[i];
    }
    SplitFirst(all, rest);
  }

  lemma SplitFirst<T>(all: seq<T>, rest: seq<T>)
    requires |all| == |rest| + 1
    requires forall i :: 0 < i < |all| ==> all[i] == rest[i - 1]
    ensures all == [all[0]] + rest
  {
  }

  /** A path is written exactly when some document with blocks has it as
      its output path: a document without blocks produces no file. */
  lemma WrittenMembers(jobs: seq<Job>, t: Path)
    ensures t in Written(jobs) <==> exists i: nat :: WritesAt(jobs, i, t)
  {
    if t in Written(jobs) {
      var i := WrittenSound(jobs, t);
    }
    forall i: nat | WritesAt(jobs, i, t)
      ensures t in Written(jobs)
    {
      WrittenComplete(jobs, i, t);
    }
  }

  /** Every written path has a job behind it. */
  lemma {:induction false} WrittenSound(jobs: seq<Job>, t: Path) returns (i: nat)
    requires t in Written(jobs)
    ensures WritesAt(jobs, i, t)
  {
    var n := |jobs| - 1;
    WrittenLastStep(jobs, t);
    if t in Written(jobs[..n]) {
      i := WrittenSound(jobs[..n], t);
      assert jobs[..n][i] == jobs[i];
    } else {
      i := n;
    }
  }

  /** Every job with blocks has its output path written. */
  lemma {:induction false} WrittenComplete(jobs: seq<Job>, i: nat, t: Path)
    requires WritesAt(jobs, i, t)
    ensures t in Written(jobs)
  {
    var n := |jobs| - 1;
    WrittenLastStep(jobs, t);
    if i < n {
      assert jobs[..n][i] == jobs[i];
      WrittenComplete(jobs[..n], i, t);
    }
  }

  /** The last job adds its own output path to the earlier ones, and
      leaves the others' content alone. */
  lemma WrittenLastStep(jobs: seq<Job>, t: Path)
    requires jobs != []
    ensures t in Written(jobs) <==> t in Written(jobs[..|jobs| - 1]) || WritesAt(jobs, |jobs| - 1, t)
    ensures !WritesAt(jobs, |jobs| - 1, t) && t in Written(jobs) ==>
      Written(jobs)[t] == Written(jobs[..|jobs| - 1])[t]
    ensures WritesAt(jobs, |jobs| - 1, t) ==> Written(jobs)[t] == Join(jobs[|jobs| - 1].blocks, Separator)
  {
  }

  /** The file at a written path holds the blocks of the last job that
      writes there. */
  lemma {:induction false} WrittenLast(jobs: seq<Job>, i: nat, t: Path)
    requires WritesAt(jobs, i, t)
    requires forall j: nat :: i < j ==> !WritesAt(jobs, j, t)
    ensures t in Written(jobs) && Written(jobs)[t] == Join(jobs[i].blocks, Separator)
  {
    var n := |jobs| - 1;
    WrittenLastStep(jobs, t);
    if i < n {
      forall j: nat | i < j
        ensures !WritesAt(jobs[..n], j, t)
      {
        if j < n {
          assert jobs[..n][j] == jobs[j];
          assert !WritesAt(jobs, j, t);
        }
      }
      assert jobs[..n][i] == jobs[i];
      WrittenLast(jobs[..n], i, t);
      assert !WritesAt(jobs, n, t);
    }
  }

  /** One iteration of `main`'s loop, on the valid file system `fs`.  An
      exception ends the run with the file system as it then was.  A
      document with blocks and an output path is written exactly when that
      path is not blocked: a missing directory is made on the way. */
  method WriteDocument(fs: FS, output: Path, doc: Document, safe: bool) returns (fs': FS, err: Option<RunError>)
    requires Valid(fs)
    ensures Valid(fs')
    ensures GithubCodeblocks(doc.lines, safe) == [] ==> fs' == fs && err == None
    ensures GithubCodeblocks(doc.lines, safe) != [] && OutputFile(output, doc).Failure? ==>
      fs' == fs && err == Some(OutputFile(output, doc).error)
    ensures GithubCodeblocks(doc.lines, safe) != [] && OutputFile(output, doc).Success? ==>
      (err == None <==> !Blocked(fs, OutputFile(output, doc).value))
    ensures err.Some? && !err.value.Os? ==> OutputFile(output, doc) == Failure(err.value)
    ensures err == None ==> Applied(fs, fs', Written([JobOf(output, doc, safe)]))
  {
    var blocks := GithubCodeblocks(doc.lines, safe);
    if blocks == [] {
      return fs, None;
    }
    var target := OutputFile(output, doc);
    if target.Failure? {
      return fs, Some(target.error);
    }
    var e;
    fs', e := WriteTarget(fs, target.value, Join(blocks, Separator));
    WritesOne(output, doc, safe);
    err := if e.Some? then Some(Os(e.value)) else None;
  }

  /** Lines 133-137 for the output path `path`: its directory is made when
      it does not exist, then `content` is written.  An error is raised
      exactly when `path` is blocked; otherwise the file is written and
      nothing else changes but the directories made on the way. */
  method WriteTarget(fs: FS, path: Path, content: string) returns (fs': FS, err: Option<Error>)
    requires Valid(fs)
    ensures Valid(fs')
    ensures err == None <==> !Blocked(fs, path)
    ensures err == None ==> Applied(fs, fs', map[path := content])
  {
    var outDir := Parent(path);
    fs' := fs;
    if outDir == [] || !Exists(fs, outDir) {
      var e;
      fs', e := MakeDirs(fs, outDir);
      if e.Some? {
        MakeDirsBlocked(fs, outDir, fs', e, path);
        return fs', e;
      }
      MadeApplied(fs, fs', path, content);
    } else {
      PlainApplied(fs, path, content);
    }
    var w := WriteFile(fs', path, content);
    if w.Failure? {
      return fs', Some(w.error);
    }
    fs' := w.value;
    err := None;
  }

  /** The write after `makedirs` of the missing directory raised nothing. */
  lemma MadeApplied(fs: FS, mid: FS, path: Path, content: string)
    requires Valid(fs) && (Parent(path) == [] || !Exists(fs, Parent(path)))
    requires MakeDirsOutcome(fs, Parent(path), mid, None)
    ensures WriteFile(mid, path, content).Success? <==> !Blocked(fs, path)
    ensures WriteFile(mid, path, content).Success? ==>
      Applied(fs, WriteFile(mid, path, content).value, map[path := content])
  {
    MakeDirsKeeps(fs, Parent(path), mid);
    MadeAbove(fs, mid, path);
    MadeBlocked(fs, mid, path, content);
    if WriteFile(mid, path, content).Success? {
      AppliedWrite(fs, mid, path, content);
    }
  }

  /** The directories `makedirs` made for the directory of `path` lie
      above `path`. */
  lemma MadeAbove(fs: FS, mid: FS, path: Path)
    requires forall q :: q in mid.dirs && q !in fs.dirs ==> 0 < |q| <= |Parent(path)| && q == Parent(path)[..|q|]
    ensures forall q :: q in mid.dirs && q !in fs.dirs ==> Above(q, path)
  {
    forall q | q in mid.dirs && q !in fs.dirs
      ensures Above(q, path)
    {
      assert path[..|q|] == Parent(path)[..|q|];
    }
  }

  /** After `makedirs` of the missing directory raised nothing, the write
      fails exactly when the path was blocked. */
  lemma MadeBlocked(fs: FS, mid: FS, path: Path, content: string)
    requires Valid(fs) && (Parent(path) == [] || !Exists(fs, Parent(path)))
    requires MakeDirsOutcome(fs, Parent(path), mid, None)
    ensures WriteFile(mid, path, content).Success? <==> !Blocked(fs, path)
  {
    if Parent(path) == [] {
      PlainWriteBlocked(fs, path, content);
    } else {
      MadeWriteBlocked(fs, Parent(path), mid, path, content);
    }
  }

  /** The write into a directory that exists. */
  lemma PlainApplied(fs: FS, path: Path, content: string)
    requires Valid(fs) && Exists(fs, Parent(path))
    ensures WriteFile(fs, path, content).Success? <==> !Blocked(fs, path)
    ensures WriteFile(fs, path, content).Success? ==>
      Applied(fs, WriteFile(fs, path, content).value, map[path := content])
  {
    PlainWriteBlocked(fs, path, content);
    if WriteFile(fs, path, content).Success? {
      AppliedWrite(fs, fs, path, content);
    }
  }

  /** The writes one document plans. */
  lemma WritesOne(output: Path, doc: Document, safe: bool)
    ensures GithubCodeblocks(doc.lines, safe) != [] && OutputFile(output, doc).Success? ==>
      Written([JobOf(output, doc, safe)]) == map[OutputFile(output, doc).value := Join(GithubCodeblocks(doc.lines, safe), Separator)]
    ensures GithubCodeblocks(doc.lines, safe) == [] || OutputFile(output, doc).Failure? ==>
      Written([JobOf(output, doc, safe)]) == map[]
  {
    assert [JobOf(output, doc, safe)][..0] == [];
  }

  /** Writing one file into a file system that only grew from `fs`, by new
      directories above the file and their markers. */
  lemma AppliedWrite(fs: FS, mid: FS, path: Path, content: string)
    requires Valid(mid) && fs.dirs <= mid.dirs
    requires forall f :: f in fs.files ==> f in mid.files && mid.files[f] == fs.files[f]
    requires forall f :: f in mid.files ==> f in fs.files || NewMarker(fs, mid, f)
    requires forall q :: q in mid.dirs && q !in fs.dirs ==> Above(q, path)
    requires forall q :: q in mid.dirs && q !in fs.dirs ==> q + [Marker] in mid.files && mid.files[q + [Marker]] == ""
    requires WriteFile(mid, path, content).Success?
    ensures Applied(fs, WriteFile(mid, path, content).value, map[path := content])
  {
    WriteValid(mid, path, content);
    WriteMeaning(mid, path, content);
    var after := mid.(files := mid.files[path := content]);
    WriteWritten(fs, mid, path, content);
    WriteOthers(fs, mid, path, content);
    WriteDirs(fs, mid, path, content);
    WriteMarkers(fs, mid, path, content);
    assert WriteFile(mid, path, content).value == after;
  }

  lemma WriteWritten(fs: FS, mid: FS, path: Path, content: string)
    requires forall f :: f in fs.files ==> f in mid.files && mid.files[f] == fs.files[f]
    ensures FilesWritten(fs, mid.(files := mid.files[path := content]), map[path := content])
  {
  }

  lemma WriteOthers(fs: FS, mid: FS, path: Path, content: string)
    requires forall f :: f in mid.files ==> f in fs.files || NewMarker(fs, mid, f)
    ensures NoOtherFiles(fs, mid.(files := mid.files[path := content]), map[path := content])
  {
  }

  lemma WriteDirs(fs: FS, mid: FS, path: Path, content: string)
    requires fs.dirs <= mid.dirs
    requires forall q :: q in mid.dirs && q !in fs.dirs ==> Above(q, path)
    ensures DirsGrown(fs, mid.(files := mid.files[path := content]), map[path := content])
  {
    var w := map[path := content];
    forall q | q in mid.dirs && q !in fs.dirs
      ensures exists t :: t in w && Above(q, t)
    {
      assert path in w && Above(q, path);
    }
  }

  lemma WriteMarkers(fs: FS, mid: FS, path: Path, content: string)
    requires forall q :: q in mid.dirs && q !in fs.dirs ==> q + [Marker] in mid.files && mid.files[q + [Marker]] == ""
    ensures MarkersMade(fs, mid.(files := mid.files[path := content]), map[path := content])
  {
  }

  /** A file that a run has added and that is no `__init__.py` marker is the
      output path of a document with blocks: a document without blocks
      produces no file. */
  lemma NewFilesArePlanned(fs: FS, fs': FS, jobs: seq<Job>, f: Path)
    requires Applied(fs, fs', Written(jobs))
    requires f in fs'.files && f !in fs.files && Name(f) != Marker
    ensures exists i: nat :: WritesAt(jobs, i, f)
  {
    WrittenMembers(jobs, f);
  }

  // ---------------------------------------------------------------------
  // When a run raises nothing

  /** Every document with blocks has an output path. */
  predicate Targets(output: Path, docs: seq<Document>, safe: bool)
  {
    forall doc :: doc in docs && GithubCodeblocks(doc.lines, safe) != [] ==> OutputFile(output, doc).Success?
  }

  /** No planned path is blocked in `fs`, and none lies above another. */
  ghost predicate Unhindered(fs: FS, w: map<Path, string>)
  {
    && (forall t :: t in w ==> !Blocked(fs, t))
    && (forall t, t' :: t in w && t' in w ==> !Above(t, t'))
  }

  /** A run over `docs` from `fs` can do all its writes. */
  ghost predicate Feasible(fs: FS, output: Path, docs: seq<Document>, safe: bool)
  {
    Targets(output, docs, safe) && Unhindered(fs, Written(Jobs(output, docs, safe)))
  }

  /** Files that a file system holds do not lie below one another. */
  lemma NotAbove(fs: FS, t: Path, t': Path)
    requires Valid(fs) && t in fs.files && t' in fs.files
    ensures !Above(t, t')
  {
    if |t| < |t'| {
      DirPrefixes(fs, Parent(t'), |t|);
      assert Parent(t')[..|t|] == t'[..|t|];
    }
  }

  /** Writes that have been done were unhindered. */
  lemma AppliedUnhindered(fs: FS, fs': FS, w: map<Path, string>)
    requires Valid(fs) && Applied(fs, fs', w)
    ensures Unhindered(fs, w)
  {
    forall t | t in w
      ensures !Blocked(fs, t)
    {
      Unblocked(fs, fs', t);
    }
    forall t, t' | t in w && t' in w
      ensures !Above(t, t')
    {
      NotAbove(fs', t, t');
    }
  }

  /** A path that was not blocked, and that lies neither above nor below
      the writes `w1`, is not blocked once they are done. */
  lemma StaysUnblocked(fs: FS, mid: FS, w1: map<Path, string>, t: Path)
    requires Valid(fs) && Applied(fs, mid, w1) && !Blocked(fs, t)
    requires forall t1 :: t1 in w1 ==> !Above(t1, t) && !Above(t, t1)
    ensures !Blocked(mid, t)
  {
    forall q | q in mid.dirs && q !in fs.dirs
      ensures q != t
    {
      var t1 :| t1 in w1 && Above(q, t1);
    }
    forall k | 0 < k < |t|
      ensures t[..k] !in mid.files
    {
      FileBelow(fs, mid, w1, t, k);
    }
    var d := Parent(t);
    forall i | 0 < i < |d| && d[..i] !in mid.dirs && d[i] == Marker
      ensures Exists(mid, d)
    {
      assert MarkerInTheWay(fs, d);
    }
  }

  lemma FileBelow(fs: FS, mid: FS, w1: map<Path, string>, t: Path, k: nat)
    requires Valid(fs) && Applied(fs, mid, w1) && !Blocked(fs, t)
    requires forall t1 :: t1 in w1 ==> !Above(t1, t)
    requires 0 < k < |t|
    ensures t[..k] !in mid.files
  {
    MarkerBelow(fs, mid, t, k);
    assert Above(t[..k], t);
  }

  /** Once the first writes are done, the rest are still unhindered. */
  lemma StaysUnhindered(fs: FS, mid: FS, w1: map<Path, string>, w2: map<Path, string>)
    requires Valid(fs) && Applied(fs, mid, w1) && Unhindered(fs, w1 + w2)
    ensures Unhindered(mid, w2)
  {
    forall t | t in w2
      ensures !Blocked(mid, t)
    {
      forall t1 | t1 in w1
        ensures !Above(t1, t) && !Above(t, t1)
      {
        assert t1 in w1 + w2 && t in w1 + w2;
      }
      StaysUnblocked(fs, mid, w1, t);
    }
  }

  /** The plan of a run is the first document's plan, then the rest's. */
  lemma SplitPlan(output: Path, docs: seq<Document>, safe: bool)
    requires docs != []
    ensures Written(Jobs(output, docs, safe)) ==
      Written([JobOf(output, docs[0], safe)]) + Written(Jobs(output, docs[1..], safe))
  {
    JobsCons(output, docs, safe);
    WrittenAppend([JobOf(output, docs[0], safe)], Jobs(output, docs[1..], safe));
  }

  /** A first document that cannot be written makes the run infeasible. */
  lemma FirstBlocked(fs: FS, output: Path, docs: seq<Document>, safe: bool)
    requires docs != [] && GithubCodeblocks(docs[0].lines, safe) != []
    requires OutputFile(output, docs[0]).Success? ==> Blocked(fs, OutputFile(output, docs[0]).value)
    ensures !Feasible(fs, output, docs, safe)
  {
    SplitPlan(output, docs, safe);
    WritesOne(output, docs[0], safe);
  }

  /** After the first document, a feasible run stays feasible. */
  lemma FeasibleRest(fs: FS, mid: FS, output: Path, docs: seq<Document>, safe: bool)
    requires Valid(fs) && docs != []
    requires Applied(fs, mid, Written([JobOf(output, docs[0], safe)]))
    ensures Feasible(fs, output, docs, safe) ==> Feasible(mid, output, docs[1..], safe)
  {
    if Feasible(fs, output, docs, safe) {
      SplitPlan(output, docs, safe);
      StaysUnhindered(fs, mid, Written([JobOf(output, docs[0], safe)]), Written(Jobs(output, docs[1..], safe)));
      forall doc | doc in docs[1..]
        ensures doc in docs
      {
      }
    }
  }

  /** A run whose writes have all been done was feasible. */
  lemma FeasibleDone(fs: FS, fs': FS, output: Path, docs: seq<Document>, safe: bool)
    requires Valid(fs) && docs != []
    requires GithubCodeblocks(docs[0].lines, safe) != [] ==> OutputFile(output, docs[0]).Success?
    requires Targets(output, docs[1..], safe)
    requires Applied(fs, fs', Written(Jobs(output, docs, safe)))
    ensures Feasible(fs, output, docs, safe)
  {
    AppliedUnhindered(fs, fs', Written(Jobs(output, docs, safe)));
    forall doc | doc in docs && doc != docs[0]
      ensures doc in docs[1..]
    {
      var i :| 0 <= i < |docs| && docs[i] == doc;
      assert docs[1..][i - 1] == doc;
    }
  }

  /** `main`: every document `get_files` yields, in order, until the first
      exception.  A run that raises nothing has done exactly the planned
      writes; a run over documents without blocks changes nothing; and the
      only errors are the template's and the file system's. */
  method Mkcodes(fs: FS, inputs: seq<Input>, output: Path, safe: bool) returns (fs': FS, err: Option<RunError>)
    requires Valid(fs)
    ensures Valid(fs')
    ensures err == None ==> Applied(fs, fs', Written(Jobs(output, GetFiles(inputs), safe)))
    ensures err == None <==> Feasible(fs, output, GetFiles(inputs), safe)
    ensures (forall doc :: doc in GetFiles(inputs) ==> GithubCodeblocks(doc.lines, safe) == []) ==>
      fs' == fs && err == None
    ensures err.Some? ==> !err.value.NotRelative?
  {
    var docs := GetFiles(inputs);
    forall doc | doc in docs
      ensures doc.root <= Parent(doc.path)
    {
      YieldedRelative(inputs, doc);
    }
    fs', err := WriteAll(fs, output, docs, safe);
  }

  /** The loop of `main` over the documents `docs`, each of which lies
      below its root. */
  method WriteAll(fs: FS, output: Path, docs: seq<Document>, safe: bool) returns (fs': FS, err: Option<RunError>)
    requires Valid(fs)
    requires forall doc :: doc in docs ==> doc.root <= Parent(doc.path)
    ensures Valid(fs')
    ensures err == None ==> Applied(fs, fs', Written(Jobs(output, docs, safe)))
    ensures err == None <==> Feasible(fs, output, docs, safe)
    ensures (forall doc :: doc in docs ==> GithubCodeblocks(doc.lines, safe) == []) ==>
      fs' == fs && err == None
    ensures err.Some? ==> !err.value.NotRelative?
    decreases |docs|
  {
    if docs == [] {
      return fs, None;
    }
    var mid, e := WriteDocument(fs, output, docs[0], safe);
    if e.Some? {
      FirstBlocked(fs, output, docs, safe);
      return mid, e;
    }
    FeasibleRest(fs, mid, output, docs, safe);
    fs', err := WriteAll(mid, output, docs[1..], safe);
    if err == None {
      SplitPlan(output, docs, safe);
      AppliedCompose(fs, mid, fs', Written([JobOf(output, docs[0], safe)]), Written(Jobs(output, docs[1..], safe)));
      FeasibleDone(fs, fs', output, docs, safe);
    }
  }

  /** Running `main` a second time on the same documents, over the tree
      the first run left, raises nothing and leaves the tree exactly as it
      was: materialising twice gives the same output. */
  method Rerun(fs: FS, inputs: seq<Input>, output: Path, safe: bool)
    returns (fs1: FS, e1: Option<RunError>, fs2: FS, e2: Option<RunError>)
    requires Valid(fs)
    ensures e1 == None ==> e2 == None && fs2 == fs1
  {
    fs1, e1 := Mkcodes(fs, inputs, output, safe);
    fs2, e2 := Mkcodes(fs1, inputs, output, safe);
    if e1 == None {
      var w := Written(Jobs(output, GetFiles(inputs), safe));
      StillUnhindered(fs1, w);
      NoChange(fs1, fs2, w);
    }
  }

  /** Writes to files a file system already holds are unhindered there. */
  lemma StillUnhindered(fs: FS, w: map<Path, string>)
    requires Valid(fs) && forall t :: t in w ==> t in fs.files
    ensures Unhindered(fs, w)
  {
    forall t | t in w
      ensures !Blocked(fs, t)
    {
      Unblocked(fs, fs, t);
    }
    forall t, t' | t in w && t' in w
      ensures !Above(t, t')
    {
      NotAbove(fs, t, t');
    }
  }

  /** Writes that put into every file the content it already holds change
      nothing: no directory is made and no file is added or altered. */
  lemma NoChange(fs: FS, fs': FS, w: map<Path, string>)
    requires Valid(fs) && Applied(fs, fs', w)
    requires forall t :: t in w ==> t in fs.files && fs.files[t] == w[t]
    ensures fs' == fs
  {
    NoNewDirs(fs, fs', w);
    NoNewFiles(fs, fs', w);
  }

  /** A new directory lies above a planned path, so planned paths that are
      already files leave no room for one. */
  lemma NoNewDirs(fs: FS, fs': FS, w: map<Path, string>)
    requires Valid(fs) && DirsGrown(fs, fs', w)
    requires forall t :: t in w ==> t in fs.files
    ensures fs'.dirs == fs.dirs
  {
    forall q | q in fs'.dirs
      ensures q in fs.dirs
    {
      if q !in fs.dirs {
        var t :| t in w && Above(q, t);
        assert Parent(t)[..|q|] == q;
        DirPrefixes(fs, Parent(t), |q|);
      }
    }
  }

  /** With no new directory there is no new marker, so the files are the
      old ones, each with its old content. */
  lemma NoNewFiles(fs: FS, fs': FS, w: map<Path, string>)
    requires fs'.dirs == fs.dirs
    requires FilesWritten(fs, fs', w) && NoOtherFiles(fs, fs', w)
    requires forall t :: t in w ==> t in fs.files && fs.files[t] == w[t]
    ensures fs'.files == fs.files
  {
    assert fs'.files.Keys == fs.files.Keys by {
      forall f | f in fs'.files
        ensures f in fs.files
      {
        assert !NewMarker(fs, fs', f);
      }
    }
    forall f | f in fs.files
      ensures fs'.files[f] == fs.files[f]
    {
      if f in w {
        assert fs'.files[f] == w[f];
      }
    }
  }

  /** The file written for a document holds its blocks in order, each
      verbatim at its offset, every one but the first preceded by a blank
      line; block `k` is the body of the `k`-th kept fence. */
  lemma WrittenContent(lines: seq<string>, safe: bool, k: nat)
    requires k < |GithubCodeblocks(lines, safe)|
    ensures var blocks := GithubCodeblocks(lines, safe);
      var kept := KeptSpans(lines, Fences(lines), safe);
      var text := Join(blocks, Separator);
      var at := PartStart(blocks, Separator, k);
      && |kept| == |blocks|
      && at + |blocks[k]| <= |text|
      && text[at..at + |blocks[k]|] == Body(lines, kept[k])
      && (0 < k ==> text[at - 2..at] == Separator)
  {
    var blocks := GithubCodeblocks(lines, safe);
    CodeblocksProvenance(lines, safe);
    JoinLayout(blocks, Separator, k);
  }
}
