# mkcodes, modelled in Dafny

`mkcodes` pulls the Python code blocks out of Markdown documents and writes
them to `.py` files.  The model covers the GitHub-fence path of `mkcodes.py`:

- `github_codeblocks` (the fence scanner) is modelled as a fold of one `Step`
  per line (`Scanner.Step`, `Scanner.Run`). It is proved equal to an
  independent description (`Scanner.Reference`). That description pairs the
  delimiter lines off into fences, keeps the fences whose opening line
  matches the opener pattern, and returns their bodies.
- The two regular expressions of the scanner: `^```.*` is modelled as
  `Fence.IsDelimiter`, and `^```(`*)(py|python)?$` (with `?` only in unsafe
  mode) as `Fence.IsOpener`. The latter is proved equal to the regular
  language it denotes (`Fence.RegexOpener`).
- `get_files`: the suffix filter over the five Markdown extensions, and the
  pairing of each document with its root. A file argument is paired with
  its parent; a file found below a directory argument is paired with that
  directory.
- `makedirs`: modelled as a method with its climbing and descending loop, on
  a small file system of directories and files (`FileSystem.FS`). `os.mkdir`
  and `open(..., 'w')` are `FileSystem.Mkdir` and `FileSystem.WriteFile`.
  They fail with `FileExistsError`, `FileNotFoundError`,
  `NotADirectoryError` or `IsADirectoryError` in the cases stated by
  `FileSystem.MkdirMeaning` and `FileSystem.WriteMeaning`. A path is
  blocked (`FileSystem.Blocked`) when `main` cannot write it: it is the
  working directory or a directory, lies below a regular file, or its
  missing directory cannot be made because `makedirs` would run into one of
  its own `__init__.py` markers.
- The loop of `main`:
  - the output path is the template's directory, then the document's
    directory relative to its root, then the template's file name with
    `{name}` replaced by the stem;
  - missing directories are created first;
  - the blocks are written joined by `"\n\n"`;
  - a document without blocks writes nothing.

A path is the sequence of its segments (`Paths.Path`). The lines of a
document are given as data, as `readlines()` returns them. A directory
argument's contents are given in the order `rglob('*')` lists them.

## Model

| member | source | states |
|---|---|---|
| Scanner.Step | mkcodes.py:28-43 | One line of the loop: outside a block the keep flag stays set and nothing is accumulated. A delimiter always closes an open block. The block list either stays the same or, on a closing delimiter of a kept block, gains exactly the concatenated block lines. |
| Scanner.ScannerIsReference | mkcodes.py:18-44 | The scanner's output equals the reference output for every document and mode. The reference pairs delimiter lines into fences, keeps those whose opening line is an opener, and returns their bodies. |
| Scanner.CodeblocksProvenance | mkcodes.py:29-43 | There is one block per kept fence, in document order. Block k is exactly the text of the lines strictly inside kept fence k. A fence is kept if and only if it is a fence of the document and its opening line is an opener. |
| Scanner.KeptFences | mkcodes.py:29-43 | The kept fences do not overlap and come in document order. Each opens on an opener line and closes on the next delimiter line, with no delimiter line in between. |
| Scanner.FencesCount | mkcodes.py:31-41 | Every fence uses two delimiter lines of its own. At most one delimiter line is left over after the last fence. |
| Scanner.CodeblockCount | mkcodes.py:29-37 | The number of blocks returned is at most half the number of delimiter lines. |
| Scanner.UndelimitedTailIgnored | mkcodes.py:28-44 | Appending lines that contain no delimiter never changes the output. In particular a block still open at the end of the document is dropped. |
| Scanner.SafeIsSubsequenceOfUnsafe | mkcodes.py:21-43 | Safe mode only drops blocks: its output is a subsequence of the unsafe-mode output for the same lines. |
| Scanner.BoundariesIgnoreMode | mkcodes.py:29-41 | The mode never changes where blocks open and close or which lines they collect; it only decides which blocks are kept. |
| Fence.OpenerIsRegex | mkcodes.py:21 | A line passes the opener test if and only if it is three backticks, any further backticks, `py` or `python` (or nothing, in unsafe mode), and at most one final newline. |
| Fence.OpenerModes | mkcodes.py:20-21 | Every safe-mode opener is an unsafe-mode opener, and every opener is a delimiter. |
| Fence.OtherLanguagesRejected | mkcodes.py:21 | Another language, a space before `py`, or `Python` in upper case is not an opener in either mode. |
| Fence.ExtraTicksAndBareFence | mkcodes.py:21 | Extra leading backticks are accepted. A bare fence opens a kept block exactly in unsafe mode. |
| Paths.StemSuffix | mkcodes.py:126 | The stem followed by the suffix gives back the name. A non-empty suffix is a dot, at least one further character and no other dot, and a name with a suffix has a non-empty stem. |
| Paths.SuffixIsEnding | mkcodes.py:79-82 | An extension is a name's suffix if and only if the name ends with it and has something before it. |
| Paths.RelativeToJoin | mkcodes.py:125 | `relative_to` yields `rel` if and only if the path is the root joined with `rel`. |
| Paths.Child | mkcodes.py:130 | Joining a name other than `""` and `.` makes a path whose parent is the base and whose name is that name. Joining an empty name or `.` leaves the path unchanged, as `pathlib` drops both. |
| Paths.FormatField | mkcodes.py:130 | Formatting a template made of literal text around one `{name}` field replaces the field with the stem and keeps the text. |
| Paths.DefaultTemplate | mkcodes.py:107 | The default template `{name}.py` names the output after the document's stem. |
| Paths.OnlyNameField | mkcodes.py:130 | A template with any replacement field other than `{name}`, such as `{ext}`, `{}` or `{0}`, makes formatting fail, whatever literal text comes before it and whatever follows it. |
| Discovery.GetFilesMembers | mkcodes.py:71-83 | A document is yielded if and only if some input yields it. A file argument yields itself with its parent as root, when its suffix is a Markdown extension. A directory argument yields its Markdown regular files, each with the directory as root. |
| Discovery.FromEntriesMembers | mkcodes.py:76-80 | A directory yields exactly its regular files with a Markdown suffix, each paired with the directory. |
| Discovery.GetFilesAppend | mkcodes.py:74-83 | Inputs are processed one after another: the documents of two input lists are those of the first, then those of the second. |
| Discovery.YieldedShape | mkcodes.py:79-83 | Every yielded document has a Markdown suffix, and `relative_to` of its directory against its root succeeds. It gives `.` for a file argument and the sub-directory for a file below a directory argument. |
| Discovery.MarkdownIsEnding | mkcodes.py:73-82 | A path is a Markdown document if and only if its name ends with one of the five extensions and has something before it. |
| Discovery.MarkdownExamples | mkcodes.py:73-82 | `README.md` qualifies. `README.MD`, `setup.py` and the hidden file `.md` do not. |
| FileSystem.MkdirMeaning | mkcodes.py:91-92 | `mkdir` succeeds if and only if the parent is a directory and nothing exists at the path. On success it adds exactly that directory. When the path exists it raises `FileExistsError`. |
| FileSystem.Classify | mkcodes.py:89-101 | The outcome of `makedirs` can be read off the file system through the shortest ancestor that is not a directory. That ancestor is the path itself when the path exists, is a file when an ancestor is a file, and otherwise begins a run of missing prefixes. |
| FileSystem.MakeDirs | mkcodes.py:86-101 | `makedirs("")` does nothing. An existing path raises `FileExistsError`, and a file among the ancestors raises `NotADirectoryError`; in both cases nothing changes. A missing name `__init__.py` below a directory it creates raises `FileExistsError`. Otherwise every ancestor exists afterwards, and an empty `__init__.py` is written into exactly the directories that were missing. |
| FileSystem.WriteMeaning | mkcodes.py:136-137 | `open(path, 'w')` succeeds if and only if the parent is a directory and the path is not a directory. On success it sets exactly that file's content and changes nothing else. A directory raises `IsADirectoryError`. A missing parent raises `NotADirectoryError` when a file lies among the ancestors and `FileNotFoundError` otherwise. |
| FileSystem.PlainWriteBlocked | mkcodes.py:133-137 | When the output directory exists, `open` succeeds if and only if the output path is not blocked. |
| FileSystem.MadeWriteBlocked | mkcodes.py:133-137 | When the output directory is missing and `makedirs` raises nothing, `open` succeeds, and the output path was not blocked. |
| FileSystem.MakeDirsBlocked | mkcodes.py:86-101 | When `makedirs` of the missing output directory (called at mkcodes.py:134) raises, the output path was blocked. |
| FileSystem.MakeDirsKeeps | mkcodes.py:86-101 | A `makedirs` that raises nothing removes no directory and changes no existing file. Every new directory is the path or one of its ancestors and holds an empty `__init__.py`, and every new file is the marker of a new directory. |
| Output.OutputFile | mkcodes.py:116-130 | An output path exists if and only if the document lies below its root and the template formats. Otherwise the error names the document or the template. |
| Output.OutputFileShape | mkcodes.py:116-130 | The output path is the template's directory, then the document's directory relative to its root, then the formatted name. A formatted name that is empty or `.` adds nothing. |
| Output.YieldedRelative | mkcodes.py:119-125 | `relative_to` never fails for a pair `get_files` yields. |
| Output.FileArgumentExample | mkcodes.py:116-130 | With the default template, `docs/guide.md` given as a file is written to `guide.py`. |
| Output.DirectoryArgumentExample | mkcodes.py:116-130 | With template `build/{name}.py`, `docs/api/index.md` found below `docs` is written to `build/api/index.py`. |
| Output.DotStemExample | mkcodes.py:124-130 | The stem of `..md` is `.`, so the template `out/{name}` gives the path `out` itself. |
| Output.UnknownFieldExample | mkcodes.py:130 | The template `{stem}.py` ends the run with a template error. |
| Output.WrittenMembers | mkcodes.py:119-136 | A path is written if and only if some document with at least one block has it as its output path. A document without blocks produces no file. |
| Output.WrittenLast | mkcodes.py:119-137 | When several documents share an output path, the file holds the blocks of the last one. |
| Output.WrittenContent | mkcodes.py:137 | The written text holds every block verbatim at its offset, each but the first preceded by `"\n\n"`. Block k is the body of the k-th kept fence. |
| Output.WriteDocument | mkcodes.py:120-137 | For one document: without blocks nothing changes. When the output path cannot be formed, nothing changes and that error is raised. Otherwise an `OSError` is raised if and only if the output path is blocked. A missing directory is made, not reported. When nothing is raised, the output path holds the joined blocks, no directory is removed, and every other existing file keeps its content. Every new directory is an ancestor of the output path and holds its `__init__.py`, empty unless the output path is that marker. The only other new files are those markers. |
| Output.WrittenAppend | mkcodes.py:119-137 | The writes of two runs of documents, one after the other, are those of the first overridden by those of the second. |
| Output.WriteAll | mkcodes.py:119-137 | The loop over documents that all lie below their roots. A loop that raises nothing writes every planned file, later documents winning. It removes no directory and keeps every other existing file. Every new directory is an ancestor of a planned file and holds its `__init__.py`, empty unless a planned file is that marker. Every other new file is such a marker. It raises nothing if and only if every document with blocks has an output path, no planned path is blocked in the starting file system, and no planned path lies above another. Documents without blocks change nothing, and no error is a `relative_to` error. |
| Output.WriteTarget | mkcodes.py:133-137 | Making the missing directory and writing the file raises if and only if the path is blocked. Otherwise the file holds the content and the only other changes are new directories above it with their markers. |
| Output.AppliedUnhindered | mkcodes.py:119-137 | Writes that have all been done were unhindered: no planned path was blocked and none lies above another. |
| Output.StaysUnblocked | mkcodes.py:119-137 | A path that was not blocked, and lies neither above nor below the files written so far, is still not blocked after those writes. |
| Output.AppliedCompose | mkcodes.py:119-137 | Two rounds of writes, one after the other, change the file system as their merged plan allows, the later round winning. Planned files hold their content and other files are kept. Every new directory is an ancestor of a planned file, and every other new file is the marker of a new directory. |
| Output.NewFilesArePlanned | mkcodes.py:119-137 | After writes that raise nothing, every new file other than an `__init__.py` marker is the output path of some document with blocks. |
| Output.Mkcodes | mkcodes.py:116-137 | A run that raises nothing writes every planned file, later documents winning. It removes no directory and keeps the content of every other existing file. Every new directory is an ancestor of a planned file and holds its `__init__.py`, empty unless a planned file is that marker. Every other new file is such a marker. It raises nothing if and only if every document with blocks has an output path, no planned path is blocked in the starting file system, and no planned path lies above another. A run over documents without blocks changes nothing. `relative_to` never ends a run. |
| Output.Rerun | mkcodes.py:116-137 | Running twice on the same documents, the second run over the tree the first left: when the first run raises nothing, the second raises nothing and leaves the tree exactly as it was. |
| Output.StillUnhindered | mkcodes.py:133-137 | Writing to paths that are already files is never blocked, and such paths do not lie above one another. |
| Output.NoChange | mkcodes.py:133-137 | Writes that put into every file the content it already holds change nothing: no directory is made and no file is added or altered. |

## Left out

- Markdown mode (`markdown_codeblocks`) is not modelled: it hands the document to the `markdown` library. `mkcode_mdx.py`, `setup.py` and the `click` command-line parsing are not part of this model either. The model takes the `--output` template as a path and `--safe` as a flag.
- Real I/O is not modelled. A document's lines are given as data. Reading a file cannot fail in the model, and permission errors and other `OSError`s beyond the four modelled are absent.
- `rglob('*')` recursion is not modelled: a directory argument carries its entries in the order `rglob` lists them.
- Paths are normalised relative paths. Absolute paths, `..`, symbolic links and trailing separators are not modelled.
- Paths.Child: a formatted name `..` (the stem of `...md` under the template `{name}`) is added as an ordinary segment, so the model writes a file named `..`. `pathlib` keeps `..` as a step up, so the program opens a directory and raises `IsADirectoryError`.
- Paths.Format: follows `str.format(name=...)` only for `{name}`, `{{` and `}}`. A format specification, a conversion, an index or an attribute on the field (`{name:>8}`, `{name!r}`, `{name[0]}`) counts as an error, whereas Python would format it.
- Output.Mkcodes: after an exception only the validity of the file system is stated, not what was written before it.
- Output.Mkcodes: every document's lines are fixed before the run. The program reads each document, and lists each directory, only when its loop reaches it, after the earlier writes. A run whose output lands on a Markdown input that is yet to be read therefore differs. Take `x/a.md` and `docs/a.md`, each holding one `py` block, run with the template `docs/{name}.md`. The program writes `x/a.md`'s block to `docs/a.md`, then reads that file back, finds no fence, and leaves it so. The model writes `docs/a.md`'s own block there.
- Output.WriteAll: after an exception only the validity of the file system is stated, not what was written before it.
- Output.WriteDocument: after an `OSError` only the validity of the file system is stated.
- FileSystem.MakeDirs: when a missing name `__init__.py` collides with the marker written into its parent, only the kind of error (`FileExistsError`) is stated, not the directories made before it.
- `mkcodes.py` has no language alias table, no `{ext}` template field and no per-language output. The opener accepts only `py` and `python`, and `{name}` is the only field.
- The code writes `__init__.py` into every directory `makedirs` creates, including the template's own directory when it is missing. The model follows the code.
