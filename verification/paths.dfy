/** The `pathlib` operations the program relies on, on normalised relative
    paths.  A path is the sequence of its segments: `Path("a/b/c.md")` is
    `["a", "b", "c.md"]` and `Path(".")` is `[]`. */
module Paths {
  import opened Wrappers

  type Path = seq<string>

  /** `Path.name`: the last segment, `""` for `Path(".")`. */
  function Name(p: Path): string
  {
    if p == [] then "" else p[|p| - 1]
  }

  /** `Path.parent`: every segment but the last; `.` is its own parent. */
  function Parent(p: Path): (r: Path)
    ensures p != [] ==> r + [Name(p)] == p
    ensures p == [] ==> r == []
  {
    if p == [] then [] else p[..|p| - 1]
  }

  /** `str.rfind('.')`: the index of the last dot, or -1 if there is none. */
  function LastDot(s: string): (r: int)
    ensures -1 <= r < |s|
    ensures r >= 0 ==> s[r] == '.'
    ensures forall j :: r < j < |s| ==> s[j] != '.'
  {
    if |s| == 0 then -1
    else if s[|s| - 1] == '.' then |s| - 1
    else LastDot(s[..|s| - 1])
  }

  /** The last dot splits a name into stem and suffix only when it is
      neither the first character nor the last. */
  predicate HasSuffix(name: string)
  {
    0 < LastDot(name) < |name| - 1
  }

  /** `PurePath.suffix`. */
  function Suffix(name: string): string
  {
    if HasSuffix(name) then name[LastDot(name)..] else ""
  }

  /** `PurePath.stem`. */
  function Stem(name: string): string
  {
    if HasSuffix(name) then name[..LastDot(name)] else name
  }

  /** Stem and suffix split the name: nothing is lost, a non-empty suffix is
      a dot followed by at least one character and no other dot, and a
      name that has a suffix has a non-empty stem. */
  lemma StemSuffix(name: string)
    ensures Stem(name) + Suffix(name) == name
    ensures Suffix(name) != "" ==>
      && |Suffix(name)| >= 2 && Suffix(name)[0] == '.'
      && (forall j :: 0 < j < |Suffix(name)| ==> Suffix(name)[j] != '.')
      && Stem(name) != ""
  {
    if HasSuffix(name) {
      assert name[..LastDot(name)] + name[LastDot(name)..] == name;
    }
  }

  /** `ext` is the suffix of `name` exactly when `name` ends with `ext` and
      has something before it, for any `ext` made of a dot and at least one
      other character that is not a dot. */
  lemma SuffixIsEnding(name: string, ext: string)
    requires |ext| >= 2 && ext[0] == '.' && forall j :: 0 < j < |ext| ==> ext[j] != '.'
    ensures Suffix(name) == ext <==> |name| > |ext| && name[|name| - |ext|..] == ext
  {
    var n := |name| - |ext|;
    if |name| > |ext| && name[n..] == ext {
      assert name[n] == '.';
      assert forall j :: n < j < |name| ==> name[j] == ext[j - n];
      assert LastDot(name) == n;
    }
    if Suffix(name) == ext {
      assert LastDot(name) == n;
    }
  }

  /** `PurePath.relative_to`: the rest of `p` when `root` is a prefix of it;
      `None` where the program raises `ValueError`. */
  function RelativeTo(p: Path, root: Path): Option<Path>
  {
    if |root| <= |p| && p[..|root|] == root then Some(p[|root|..]) else None
  }

  /** `relative_to` undoes `/`, and succeeds only on paths below the root. */
  lemma RelativeToJoin(p: Path, root: Path, rel: Path)
    ensures RelativeTo(p, root) == Some(rel) <==> p == root + rel
  {
    if p == root + rel {
      assert p[..|root|] == root && p[|root|..] == rel;
    }
  }

  /** `p / name` for a single segment: `pathlib` drops an empty name and
      the name `.`, so neither adds anything. */
  function Child(p: Path, name: string): (r: Path)
    ensures name == "" || name == "." ==> r == p
    ensures name != "" && name != "." ==> Parent(r) == p && Name(r) == name
  {
    if name == "" || name == "." then p else p + [name]
  }

  /** What `str.format(name=stem)` makes of one file-name template: `{name}`
      becomes the stem, `{{` and `}}` become single braces, and any other
      brace is an error (`KeyError`, `IndexError` or `ValueError` in the
      program).  Format specifications and conversions (`{name:>8}`,
      `{name!r}`) are counted among the errors. */
  function Format(template: string, stem: string): Option<string>
    decreases |template|
  {
    if template == [] then Some([])
    else if |template| >= 6 && template[..6] == "{name}" then Prepend(stem, Format(template[6..], stem))
    else if |template| >= 2 && (template[..2] == "{{" || template[..2] == "}}") then
      Prepend([template[0]], Format(template[2..], stem))
    else if template[0] == '{' || template[0] == '}' then None
    else Prepend([template[0]], Format(template[1..], stem))
  }

  function Prepend(s: string, r: Option<string>): Option<string>
  {
    if r.None? then None else Some(s + r.value)
  }

  lemma PrependPrepend(a: string, b: string, r: Option<string>)
    ensures Prepend(a, Prepend(b, r)) == Prepend(a + b, r)
  {
    if r.Some? {
      assert a + (b + r.value) == (a + b) + r.value;
    }
  }

  predicate NoBraces(s: string)
  {
    forall j :: 0 <= j < |s| ==> s[j] != '{' && s[j] != '}'
  }

  /** A template without braces is taken literally. */
  lemma {:induction false} FormatLiteral(s: string, rest: string, stem: string)
    requires NoBraces(s)
    ensures Format(s + rest, stem) == Prepend(s, Format(rest, stem))
    decreases |s|
  {
    if s == [] {
      assert s + rest == rest;
      var r := Format(rest, stem);
      assert r.Some? ==> [] + r.value == r.value;
    } else {
      var t := s + rest;
      assert t[0] == s[0];
      assert |t| >= 2 ==> t[..2][0] == s[0];
      assert |t| >= 6 ==> t[..6][0] == s[0];
      assert t[1..] == s[1..] + rest;
      assert Format(t, stem) == Prepend([s[0]], Format(t[1..], stem));
      FormatLiteral(s[1..], rest, stem);
      PrependPrepend([s[0]], s[1..], Format(rest, stem));
      assert [s[0]] + s[1..] == s;
    }
  }

  /** Each `{name}` field between literal text is replaced by the stem. */
  lemma FormatField(pre: string, post: string, stem: string)
    requires NoBraces(pre) && NoBraces(post)
    ensures Format(pre + "{name}" + post, stem) == Some(pre + stem + post)
  {
    var t := "{name}" + post;
    assert pre + "{name}" + post == pre + t;
    FormatLiteral(pre, t, stem);
    assert t[..6] == "{name}" && t[6..] == post;
    assert Format(t, stem) == Prepend(stem, Format(post, stem));
    FormatLiteral(post, [], stem);
    assert post + [] == post;
    assert Format([], stem) == Some([]);
    assert Format(post, stem) == Some(post);
    PrependPrepend(pre, stem, Some(post));
  }

  /** The default output template `{name}.py` names the output after the
      document's stem. */
  lemma DefaultTemplate(stem: string)
    ensures Format("{name}.py", stem) == Some(stem + ".py")
  {
    var t := "{name}.py";
    assert t[..6] == "{name}" && t[6..] == ".py";
    FormatLiteral(".py", [], stem);
    assert ".py" + [] == ".py";
    assert Format([], stem) == Some([]);
  }

  /** `{name}` is the only field: a template with any other replacement
      field, such as `{ext}`, `{}` or `{0}`, makes `format` fail, whatever
      text surrounds it. */
  lemma OnlyNameField(pre: string, field: string, post: string, stem: string)
    requires NoBraces(pre) && NoBraces(field) && field != "name"
    ensures Format(pre + "{" + field + "}" + post, stem) == None
  {
    var rest := "{" + field + "}" + post;
    assert pre + "{" + field + "}" + post == pre + rest;
    FormatLiteral(pre, rest, stem);
    FieldFails(field, post, stem);
  }

  /** A template starting with a field other than `{name}` fails. */
  lemma FieldFails(field: string, post: string, stem: string)
    requires NoBraces(field) && field != "name"
    ensures Format("{" + field + "}" + post, stem) == None
  {
    var t := "{" + field + "}" + post;
    var n := |field|;
    assert t[0] == '{' && t[n + 1] == '}';
    assert t[1..n + 1] == field;
    if |t| >= 6 {
      assert t[..6] != "{name}" by {
        if n < 4 {
          assert t[..6][n + 1] == '}';
        } else if n == 4 {
          assert t[..6][1..5] == field;
        } else {
          assert t[..6][5] == field[4];
        }
      }
    }
    assert t[..2] != "{{" && t[..2] != "}}" by {
      if n == 0 {
        assert t[..2][1] == '}';
      } else {
        assert t[..2][1] == field[0];
      }
    }
  }
}
