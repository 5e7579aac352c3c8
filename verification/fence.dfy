/** The two line patterns of the fence scanner (mkcodes.py lines 20-21).

    A line is one element of Python's `readlines()`: any text, which in
    practice carries at most one trailing newline.  `re.match` anchors at the
    start of the line; `.` does not match a newline, and `$` matches at the
    very end of the line or just before a final newline. */
module Fence {

  /** `k` backtick characters. */
  function Ticks(k: nat): (r: string)
    ensures |r| == k
    ensures forall j :: 0 <= j < k ==> r[j] == '`'
  {
    if k == 0 then "" else "`" + Ticks(k - 1)
  }

  /** `^```.*`: the line starts with three backticks.  Since `.*` may match
      nothing, whatever follows the backticks is irrelevant. */
  predicate IsDelimiter(line: string)
  {
    |line| >= 3 && line[..3] == "```"
  }

  /** Removes the one final newline that Python's `$` may stand before. */
  function StripNewline(s: string): string
  {
    if 0 < |s| && s[|s| - 1] == '\n' then s[..|s| - 1] else s
  }

  /** Removes leading backticks: the `(`*)` group, which is greedy and is
      never forced to give a backtick back because no alternative of the
      language group starts with one. */
  function DropTicks(s: string): string
  {
    if 0 < |s| && s[0] == '`' then DropTicks(s[1..]) else s
  }

  /** `(py|python)` is mandatory in safe mode and optional (`?`) otherwise;
      the comparison is case-sensitive and admits no spaces. */
  predicate LanguageAllowed(lang: string, safe: bool)
  {
    lang == "py" || lang == "python" || (!safe && lang == "")
  }

  /** `^```(`*)(py|python)$` when safe, `^```(`*)(py|python)?$` when not. */
  predicate IsOpener(line: string, safe: bool)
  {
    IsDelimiter(line) && LanguageAllowed(DropTicks(StripNewline(line[3..])), safe)
  }

  /** The line is three backticks, `k` more backticks, `lang`, then `eol`. */
  ghost predicate Shape(line: string, k: nat, lang: string, eol: string)
  {
    line == "```" + Ticks(k) + lang + eol
  }

  /** The set of lines the opener regular expression accepts, written as a
      language: fence, extra backticks, an allowed language, and at most one
      final newline. */
  ghost predicate RegexOpener(line: string, safe: bool)
  {
    exists k: nat, lang: string, eol: string ::
      Shape(line, k, lang, eol) && LanguageAllowed(lang, safe) && (eol == "" || eol == "\n")
  }

  /** Every line of the regular-expression language is recognised. */
  lemma OpenerComplete(k: nat, lang: string, eol: string, safe: bool)
    requires LanguageAllowed(lang, safe) && (eol == "" || eol == "\n")
    ensures IsOpener("```" + Ticks(k) + lang + eol, safe)
  {
    var body := Ticks(k) + lang;
    var rest := body + eol;
    var line := "```" + Ticks(k) + lang + eol;
    assert line == "```" + rest;
    assert line[..3] == "```" && line[3..] == rest;
    StripFinalNewline(k, lang, eol, safe);
    TicksThenLang(k, lang);
  }

  lemma StripFinalNewline(k: nat, lang: string, eol: string, safe: bool)
    requires LanguageAllowed(lang, safe) && (eol == "" || eol == "\n")
    ensures StripNewline(Ticks(k) + lang + eol) == Ticks(k) + lang
  {
    var body := Ticks(k) + lang;
    if eol == "\n" {
      assert (body + eol)[..|body|] == body;
    } else {
      assert body + eol == body;
      if lang == "" {
        assert body == Ticks(k);
      } else {
        assert body[|body| - 1] == lang[|lang| - 1];
      }
    }
  }

  lemma {:induction false} TicksThenLang(k: nat, lang: string)
    requires lang == [] || lang[0] != '`'
    ensures DropTicks(Ticks(k) + lang) == lang
  {
    if k == 0 {
      assert Ticks(k) + lang == lang;
    } else {
      var s := Ticks(k) + lang;
      assert s[0] == '`';
      assert s[1..] == Ticks(k - 1) + lang;
      TicksThenLang(k - 1, lang);
    }
  }

  /** Every recognised line belongs to the regular-expression language. */
  lemma OpenerSound(line: string, safe: bool)
    requires IsOpener(line, safe)
    ensures RegexOpener(line, safe)
  {
    var rest := line[3..];
    var body := StripNewline(rest);
    var eol := if body == rest then "" else "\n";
    var lang := DropTicks(body);
    var k := |body| - |lang|;
    NewlineSplit(rest);
    TicksSplit(body);
    ShapeOf(line, Ticks(k), lang, eol);
    assert Shape(line, k, lang, eol);
  }

  /** A delimiter line is its three backticks followed by the rest. */
  lemma ShapeOf(line: string, ticks: string, lang: string, eol: string)
    requires IsDelimiter(line) && line[3..] == ticks + lang + eol
    ensures line == "```" + ticks + lang + eol
  {
    assert line == line[..3] + line[3..];
  }

  lemma NewlineSplit(s: string)
    ensures s == StripNewline(s) + (if StripNewline(s) == s then "" else "\n")
  {
  }

  /** A string is its leading backticks followed by what `DropTicks` keeps,
      which does not start with a backtick. */
  lemma {:induction false} TicksSplit(s: string)
    ensures |DropTicks(s)| <= |s|
    ensures s == Ticks(|s| - |DropTicks(s)|) + DropTicks(s)
    ensures DropTicks(s) == [] || DropTicks(s)[0] != '`'
  {
    if 0 < |s| && s[0] == '`' {
      TicksSplit(s[1..]);
      assert s == "`" + s[1..];
    }
  }

  /** The scanner's opener test is exactly the regular expression of
      mkcodes.py line 21, in both modes. */
  lemma OpenerIsRegex(line: string, safe: bool)
    ensures IsOpener(line, safe) <==> RegexOpener(line, safe)
  {
    if IsOpener(line, safe) {
      OpenerSound(line, safe);
    }
    if RegexOpener(line, safe) {
      var k: nat, lang: string, eol: string :|
        Shape(line, k, lang, eol) && LanguageAllowed(lang, safe) && (eol == "" || eol == "\n");
      OpenerComplete(k, lang, eol, safe);
    }
  }

  /** Every opener is a delimiter, and every safe-mode opener is an
      unsafe-mode opener. */
  lemma OpenerModes(line: string)
    ensures IsOpener(line, true) ==> IsOpener(line, false)
    ensures IsOpener(line, false) ==> IsDelimiter(line)
  {
  }

  lemma Unfenced(info: string, safe: bool)
    ensures IsDelimiter("```" + info + "\n")
    ensures IsOpener("```" + info + "\n", safe) <==> LanguageAllowed(DropTicks(info), safe)
  {
    var line := "```" + info + "\n";
    assert line[..3] == "```" && line[3..] == info + "\n";
    assert StripNewline(info + "\n") == info;
  }

  /** Fences naming another language, or carrying spaces or upper case, open
      a block that is dropped in both modes. */
  lemma OtherLanguagesRejected(safe: bool)
    ensures !IsOpener("```js\n", safe)
    ensures !IsOpener("``` py\n", safe)
    ensures !IsOpener("```Python\n", safe)
  {
    assert !IsOpener("```js\n", safe) by { Unfenced("js", safe); }
    assert !IsOpener("``` py\n", safe) by { Unfenced(" py", safe); }
    Unfenced("Python", safe);
  }

  /** Extra backticks are accepted before the language; a bare fence opens a
      kept block only in unsafe mode. */
  lemma ExtraTicksAndBareFence(safe: bool)
    ensures IsOpener("````python\n", safe)
    ensures IsOpener("```\n", safe) <==> !safe
  {
    assert IsOpener("````python\n", safe) by {
      Unfenced("`python", safe);
      assert "`python"[1..] == "python";
    }
    Unfenced("", safe);
  }
}
