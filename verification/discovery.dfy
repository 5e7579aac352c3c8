/** `get_files` (mkcodes.py lines 71-83): which inputs are documents, and the
    root each one is paired with. */
module Discovery {
  import opened Wrappers
  import opened Paths

  /** `markdown_extensions`, in the program's order. */
  const MarkdownExtensions: seq<string> := [".markdown", ".mdown", ".mkdn", ".mkd", ".md"]

  /** `path.suffix in markdown_extensions`; the comparison is case-sensitive. */
  predicate IsMarkdown(p: Path)
  {
    Suffix(Name(p)) in MarkdownExtensions
  }

  /** A path below a directory argument, as `rglob('*')` lists it: the
      sub-directory it sits in relative to that directory, its name, whether
      it is a regular file, and its lines. */
  datatype Entry = Entry(subdir: Path, name: string, isFile: bool, lines: seq<string>)
  {
    /** The entry's path below `dir`. */
    function Under(dir: Path): Path
    {
      dir + subdir + [name]
    }
  }

  /** One command-line input: a file with its lines, or a directory with
      everything below it in the order `rglob` lists it. */
  datatype Input =
    | FileInput(path: Path, lines: seq<string>)
    | DirInput(path: Path, entries: seq<Entry>)

  /** A yielded pair `(filepath, input_path)`, with the document's lines. */
  datatype Document = Document(path: Path, root: Path, lines: seq<string>)

  /** What one input yields: a markdown file argument paired with its
      parent, and every markdown regular file below a directory argument
      paired with that directory. */
  function FromInput(input: Input): seq<Document>
  {
    match input
    case FileInput(path, lines) =>
      if IsMarkdown(path) then [Document(path, Parent(path), lines)] else []
    case DirInput(path, entries) => FromEntries(path, entries)
  }

  function FromEntries(dir: Path, entries: seq<Entry>): seq<Document>
    decreases |entries|
  {
    if entries == [] then []
    else
      var e := entries[0];
      var child := e.Under(dir);
      (if e.isFile && IsMarkdown(child) then [Document(child, dir, e.lines)] else [])
        + FromEntries(dir, entries[1..])
  }

  /** `get_files(inputs)`: the inputs' documents, input by input. */
  function GetFiles(inputs: seq<Input>): seq<Document>
    decreases |inputs|
  {
    if inputs == [] then [] else FromInput(inputs[0]) + GetFiles(inputs[1..])
  }

  /** The documents a directory yields are exactly its markdown regular
      files, each paired with the directory itself. */
  lemma {:induction false} FromEntriesMembers(dir: Path, entries: seq<Entry>, doc: Document)
    ensures doc in FromEntries(dir, entries) <==>
      exists e :: e in entries && e.isFile && IsMarkdown(e.Under(dir)) && doc == Document(e.Under(dir), dir, e.lines)
    decreases |entries|
  {
    if entries != [] {
      FromEntriesMembers(dir, entries[1..], doc);
      assert forall e :: e in entries <==> e == entries[0] || e in entries[1..];
    }
  }

  /** `doc` is what `input` yields for one of its files. */
  ghost predicate YieldedBy(input: Input, doc: Document)
  {
    match input
    case FileInput(path, lines) =>
      IsMarkdown(path) && doc == Document(path, Parent(path), lines)
    case DirInput(path, entries) =>
      exists e :: e in entries && e.isFile && IsMarkdown(e.Under(path)) && doc == Document(e.Under(path), path, e.lines)
  }

  lemma FromInputMembers(input: Input, doc: Document)
    ensures doc in FromInput(input) <==> YieldedBy(input, doc)
  {
    if input.DirInput? {
      FromEntriesMembers(input.path, input.entries, doc);
    }
  }

  /** A document is yielded exactly when some input yields it. */
  lemma {:induction false} GetFilesMembers(inputs: seq<Input>, doc: Document)
    ensures doc in GetFiles(inputs) <==> exists input :: input in inputs && YieldedBy(input, doc)
    decreases |inputs|
  {
    if inputs != [] {
      GetFilesMembers(inputs[1..], doc);
      FromInputMembers(inputs[0], doc);
      assert forall i :: i in inputs <==> i == inputs[0] || i in inputs[1..];
      if YieldedBy(inputs[0], doc) {
        assert inputs[0] in inputs;
      }
    }
  }

  /** Inputs are handled one after the other. */
  lemma {:induction false} GetFilesAppend(a: seq<Input>, b: seq<Input>)
    ensures GetFiles(a + b) == GetFiles(a) + GetFiles(b)
    decreases |a|
  {
    if a == [] {
      assert a + b == b;
    } else {
      assert (a + b)[1..] == a[1..] + b;
      GetFilesAppend(a[1..], b);
    }
  }

  /** Every yielded document has a markdown suffix, and its directory lies
      below the root it is paired with, so `relative_to` succeeds: it gives
      `.` for a file argument and the sub-directory for a file found below a
      directory argument. */
  lemma YieldedShape(input: Input, doc: Document)
    requires YieldedBy(input, doc)
    ensures IsMarkdown(doc.path)
    ensures RelativeTo(Parent(doc.path), doc.root) ==
      if input.FileInput? then Some([])
      else Some(Parent(doc.path)[|input.path|..])
  {
    match input
    case FileInput(path, lines) =>
      RelativeToJoin(Parent(path), Parent(path), []);
      assert Parent(path) + [] == Parent(path);
    case DirInput(path, entries) =>
      var e :| e in entries && e.isFile && IsMarkdown(e.Under(path)) && doc == Document(e.Under(path), path, e.lines);
      assert Parent(e.Under(path)) == path + e.subdir;
      RelativeToJoin(path + e.subdir, path, e.subdir);
  }

  /** `name` ends with `ext` and has something before it. */
  predicate EndsWith(name: string, ext: string)
  {
    |name| > |ext| && name[|name| - |ext|..] == ext
  }

  /** A name is a markdown name exactly when it ends with one of the five
      extensions and has something before it: `.md` alone is a hidden file
      without a suffix. */
  lemma MarkdownIsEnding(p: Path)
    ensures IsMarkdown(p) <==> exists ext :: ext in MarkdownExtensions && EndsWith(Name(p), ext)
  {
    var name := Name(p);
    SuffixIsEnding(name, ".markdown");
    SuffixIsEnding(name, ".mdown");
    SuffixIsEnding(name, ".mkdn");
    SuffixIsEnding(name, ".mkd");
    SuffixIsEnding(name, ".md");
    if IsMarkdown(p) {
      assert Suffix(name) in MarkdownExtensions && EndsWith(name, Suffix(name));
    }
  }

  /** The suffix test is case-sensitive and needs a stem. */
  lemma MarkdownExamples()
    ensures IsMarkdown(["docs", "README.md"])
    ensures !IsMarkdown(["README.MD"])
    ensures !IsMarkdown(["setup.py"])
    ensures !IsMarkdown([".md"])
  {
    SuffixIsEnding("README.md", ".md");
    SuffixIsEnding("README.MD", ".MD");
    SuffixIsEnding("setup.py", ".py");
    assert ".md"[0] == '.';
  }
}
