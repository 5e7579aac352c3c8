/** The GitHub-fence scanner `github_codeblocks` (mkcodes.py lines 18-44).

    The scanner is a left fold of `Step` over the lines of a document.  Its
    result is compared with `Reference`, an independent description of the
    same output: the document's delimiter lines are paired off into fences
    (`FencesFrom`), the fences whose opening line is an opener are kept
    (`KeptSpans`), and the body of each kept fence is returned (`Bodies`). */
module Scanner {
  import opened Strings
  import opened Fence

  /** The loop state of `github_codeblocks`: `in_codeblock`, the keep flag
      the source calls `python`, the current `block` of lines, and the list
      of `codeblocks` returned so far. */
  datatype State = State(inCodeblock: bool, keep: bool, block: seq<string>, codeblocks: seq<string>)

  const Start: State := State(false, true, [], [])

  /** Outside a block the keep flag is set and the accumulator is empty. */
  predicate Resting(st: State)
  {
    !st.inCodeblock ==> st.keep && st.block == []
  }

  /** One iteration of the `for line in f.readlines()` loop. */
  function Step(st: State, line: string, safe: bool): (st': State)
    ensures Resting(st) ==> Resting(st')
    ensures st.inCodeblock && IsDelimiter(line) ==> !st'.inCodeblock
    ensures st'.codeblocks == st.codeblocks ||
      (st.inCodeblock && IsDelimiter(line) && st.keep && st'.codeblocks == st.codeblocks + [Concat(st.block)])
  {
    if st.inCodeblock then
      if IsDelimiter(line) then
        State(false, true, [], if st.keep then st.codeblocks + [Concat(st.block)] else st.codeblocks)
      else
        st.(block := st.block + [line])
    else if IsDelimiter(line) then
      st.(inCodeblock := true, keep := if !IsOpener(line, safe) then false else st.keep)
    else
      st
  }

  /** The loop over all lines, from state `st`. */
  function Run(lines: seq<string>, st: State, safe: bool): State
    decreases |lines|
  {
    if |lines| == 0 then st else Run(lines[1..], Step(st, lines[0], safe), safe)
  }

  /** `github_codeblocks(filepath, safe)` applied to the file's lines. */
  function GithubCodeblocks(lines: seq<string>, safe: bool): seq<string>
  {
    Run(lines, Start, safe).codeblocks
  }

  // ---------------------------------------------------------------------
  // Reference description

  /** One fence: the indices of its opening and closing delimiter lines. */
  datatype Span = Span(open: nat, close: nat)

  /** The index of the first delimiter line at or after `i`, or `|lines|`. */
  function NextDelimiter(lines: seq<string>, i: nat): (j: nat)
    requires i <= |lines|
    ensures i <= j <= |lines|
    ensures j < |lines| ==> IsDelimiter(lines[j])
    decreases |lines| - i
  {
    if i == |lines| || IsDelimiter(lines[i]) then i else NextDelimiter(lines, i + 1)
  }

  /** No delimiter line is skipped on the way to the next one. */
  lemma {:induction false} NothingSkipped(lines: seq<string>, i: nat)
    requires i <= |lines|
    ensures forall k :: i <= k < NextDelimiter(lines, i) ==> !IsDelimiter(lines[k])
    decreases |lines| - i
  {
    if i < |lines| && !IsDelimiter(lines[i]) {
      NothingSkipped(lines, i + 1);
    }
  }

  /** The number of delimiter lines at or after index `i`. */
  function DelimitersFrom(lines: seq<string>, i: nat): nat
    requires i <= |lines|
    decreases |lines| - i
  {
    if i == |lines| then 0 else (if IsDelimiter(lines[i]) then 1 else 0) + DelimitersFrom(lines, i + 1)
  }

  lemma {:induction false} SkipNonDelimiters(lines: seq<string>, i: nat)
    requires i <= |lines|
    ensures DelimitersFrom(lines, i) == DelimitersFrom(lines, NextDelimiter(lines, i))
    decreases |lines| - i
  {
    if i < |lines| && !IsDelimiter(lines[i]) {
      SkipNonDelimiters(lines, i + 1);
    }
  }

  /** The fences of the lines from `i` on: delimiter lines are paired off in
      order, the first opening a fence and the next closing it, whatever
      follows the backticks on either.  A last unpaired delimiter opens no
      fence. */
  function FencesFrom(lines: seq<string>, i: nat): (spans: seq<Span>)
    requires i <= |lines|
    decreases |lines| - i
  {
    var o := NextDelimiter(lines, i);
    if o == |lines| then []
    else
      var c := NextDelimiter(lines, o + 1);
      if c == |lines| then [] else [Span(o, c)] + FencesFrom(lines, c + 1)
  }

  /** A line that is not a delimiter starts no fence. */
  lemma FencesSkip(lines: seq<string>, i: nat)
    requires i < |lines| && !IsDelimiter(lines[i])
    ensures FencesFrom(lines, i) == FencesFrom(lines, i + 1)
  {
    assert NextDelimiter(lines, i) == NextDelimiter(lines, i + 1);
  }

  function Fences(lines: seq<string>): seq<Span>
  {
    FencesFrom(lines, 0)
  }

  /** Where scanning resumes after the last fence from `i` on: `i` when
      there is none. */
  function Resume(lines: seq<string>, i: nat): (r: nat)
    requires i <= |lines|
    ensures i <= r <= |lines|
    decreases |lines| - i
  {
    var o := NextDelimiter(lines, i);
    if o == |lines| then i
    else
      var c := NextDelimiter(lines, o + 1);
      if c == |lines| then i else Resume(lines, c + 1)
  }

  /** Each span opens at the first delimiter at or after `i` (for the first)
      or after the previous span closed, and closes at the first delimiter
      after it opened. */
  ghost predicate Linked(lines: seq<string>, i: nat, spans: seq<Span>)
    requires i <= |lines|
    decreases |spans|
  {
    spans == [] ||
    (&& spans[0].open == NextDelimiter(lines, i)
     && spans[0].open < |lines|
     && spans[0].close == NextDelimiter(lines, spans[0].open + 1)
     && spans[0].close < |lines|
     && Linked(lines, spans[0].close + 1, spans[1..]))
  }

  lemma {:induction false} FencesLinked(lines: seq<string>, i: nat)
    requires i <= |lines|
    ensures Linked(lines, i, FencesFrom(lines, i))
    decreases |lines| - i
  {
    var o := NextDelimiter(lines, i);
    if o < |lines| {
      var c := NextDelimiter(lines, o + 1);
      if c < |lines| {
        FencesLinked(lines, c + 1);
        assert FencesFrom(lines, i)[1..] == FencesFrom(lines, c + 1);
      }
    }
  }

  /** Each span ends before any later one begins. */
  ghost predicate Ordered(spans: seq<Span>)
  {
    forall k, m :: 0 <= k < m < |spans| ==> spans[k].close < spans[m].open
  }

  /** Both ends of every span are delimiter lines and no line strictly
      between them is one. */
  ghost predicate Fenced(lines: seq<string>, spans: seq<Span>)
  {
    forall k :: 0 <= k < |spans| ==>
      && spans[k].open < spans[k].close < |lines|
      && IsDelimiter(lines[spans[k].open])
      && IsDelimiter(lines[spans[k].close])
      && (forall j :: spans[k].open < j < spans[k].close ==> !IsDelimiter(lines[j]))
  }

  /** Linked spans start at or after `i`, come in order, and are fenced. */
  lemma {:induction false} LinkedShape(lines: seq<string>, i: nat, spans: seq<Span>)
    requires i <= |lines| && Linked(lines, i, spans)
    ensures forall k :: 0 <= k < |spans| ==> i <= spans[k].open
    ensures Ordered(spans)
    ensures Fenced(lines, spans)
    decreases |spans|
  {
    if spans != [] {
      var s := spans[0];
      var rest := spans[1..];
      LinkedShape(lines, s.close + 1, rest);
      NothingSkipped(lines, s.open + 1);
      assert spans == [s] + rest;
      StartCons(i, s, rest);
      OrderedCons(s, rest);
      FencedCons(lines, s, rest);
    }
  }

  lemma StartCons(i: nat, s: Span, rest: seq<Span>)
    requires i <= s.open < s.close
    requires forall k :: 0 <= k < |rest| ==> s.close + 1 <= rest[k].open
    ensures forall k :: 0 <= k < |[s] + rest| ==> i <= ([s] + rest)[k].open
  {
    forall k | 0 < k < |[s] + rest|
      ensures i <= ([s] + rest)[k].open
    {
      assert ([s] + rest)[k] == rest[k - 1];
    }
  }

  lemma OrderedCons(s: Span, rest: seq<Span>)
    requires Ordered(rest)
    requires forall k :: 0 <= k < |rest| ==> s.close + 1 <= rest[k].open
    ensures Ordered([s] + rest)
  {
    var spans := [s] + rest;
    forall k, m | 0 <= k < m < |spans|
      ensures spans[k].close < spans[m].open
    {
      assert spans[m] == rest[m - 1];
      if 0 < k {
        assert spans[k] == rest[k - 1];
      }
    }
  }

  lemma FencedCons(lines: seq<string>, s: Span, rest: seq<Span>)
    requires s.open < s.close < |lines|
    requires IsDelimiter(lines[s.open]) && IsDelimiter(lines[s.close])
    requires forall j :: s.open < j < s.close ==> !IsDelimiter(lines[j])
    requires Fenced(lines, rest)
    ensures Fenced(lines, [s] + rest)
  {
    var spans := [s] + rest;
    forall k | 0 < k < |spans|
      ensures spans[k] == rest[k - 1]
    {
    }
  }

  /** Every fence uses two delimiter lines of its own, and at most one
      delimiter line is left over after the last fence. */
  lemma FencesCount(lines: seq<string>, i: nat)
    requires i <= |lines|
    ensures 2 * |FencesFrom(lines, i)| <= DelimitersFrom(lines, i)
    ensures DelimitersFrom(lines, Resume(lines, i)) <= 1
  {
    FencesPair(lines, i);
    FencesLeftover(lines, i);
  }

  lemma {:induction false} FencesPair(lines: seq<string>, i: nat)
    requires i <= |lines|
    ensures 2 * |FencesFrom(lines, i)| <= DelimitersFrom(lines, i)
    decreases |lines| - i
  {
    var c := FenceAt(lines, i);
    if c < |lines| {
      FencesPair(lines, c + 1);
    }
  }

  lemma {:induction false} FencesLeftover(lines: seq<string>, i: nat)
    requires i <= |lines|
    ensures DelimitersFrom(lines, Resume(lines, i)) <= 1
    decreases |lines| - i
  {
    var c := FenceAt(lines, i);
    if c < |lines| {
      FencesLeftover(lines, c + 1);
    }
  }

  /** One step of the pairing from `i`: either a fence closing at `c`, or
      no fence and at most one delimiter line left. */
  lemma FenceAt(lines: seq<string>, i: nat) returns (c: nat)
    requires i <= |lines|
    ensures i <= c <= |lines|
    ensures c < |lines| ==>
      && FencesFrom(lines, i) == [Span(NextDelimiter(lines, i), c)] + FencesFrom(lines, c + 1)
      && Resume(lines, i) == Resume(lines, c + 1)
      && DelimitersFrom(lines, i) == 2 + DelimitersFrom(lines, c + 1)
    ensures c == |lines| ==>
      FencesFrom(lines, i) == [] && Resume(lines, i) == i && DelimitersFrom(lines, i) <= 1
  {
    var o := NextDelimiter(lines, i);
    SkipNonDelimiters(lines, i);
    if o == |lines| {
      c := |lines|;
    } else {
      c := NextDelimiter(lines, o + 1);
      SkipNonDelimiters(lines, o + 1);
      assert DelimitersFrom(lines, i) == 1 + DelimitersFrom(lines, c);
      if c < |lines| {
        assert DelimitersFrom(lines, c) == 1 + DelimitersFrom(lines, c + 1);
      }
    }
  }

  /** The fences pair off the delimiter lines: they come in document order
      without overlapping, both ends of each are delimiter lines with none
      in between, each opens at the first delimiter after the previous one
      closed and closes at the first delimiter after it opened, there are
      at most half as many fences as delimiter lines, and at most one
      delimiter line is left unpaired after the last fence. */
  lemma FencesShape(lines: seq<string>, i: nat)
    requires i <= |lines|
    ensures Linked(lines, i, FencesFrom(lines, i))
    ensures Ordered(FencesFrom(lines, i))
    ensures Fenced(lines, FencesFrom(lines, i))
    ensures 2 * |FencesFrom(lines, i)| <= DelimitersFrom(lines, i)
    ensures DelimitersFrom(lines, Resume(lines, i)) <= 1
  {
    FencesLinked(lines, i);
    LinkedShape(lines, i, FencesFrom(lines, i));
    FencesCount(lines, i);
  }

  /** The span's opening line is an opener. */
  predicate Opens(lines: seq<string>, s: Span, safe: bool)
  {
    s.open < |lines| && IsOpener(lines[s.open], safe)
  }

  /** The fences whose opening line is an opener, in order. */
  function KeptSpans(lines: seq<string>, spans: seq<Span>, safe: bool): seq<Span>
    decreases |spans|
  {
    if spans == [] then []
    else if Opens(lines, spans[0], safe) then [spans[0]] + KeptSpans(lines, spans[1..], safe)
    else KeptSpans(lines, spans[1..], safe)
  }

  /** A fence is kept exactly when its opening line is an opener, and the
      kept fences keep their relative order. */
  lemma {:induction false} KeptSpansMeaning(lines: seq<string>, spans: seq<Span>, safe: bool)
    ensures forall s :: s in KeptSpans(lines, spans, safe) <==> s in spans && Opens(lines, s, safe)
    ensures IsSubsequence(KeptSpans(lines, spans, safe), spans)
    decreases |spans|
  {
    if spans != [] {
      var rest := spans[1..];
      KeptSpansMeaning(lines, rest, safe);
      var kept := KeptSpans(lines, rest, safe);
      assert spans == [spans[0]] + rest;
      if Opens(lines, spans[0], safe) {
        assert ([spans[0]] + kept)[1..] == kept;
      }
    }
  }

  /** The text between a fence's delimiters: its lines, newlines kept. */
  function Body(lines: seq<string>, s: Span): string
  {
    if s.open < s.close <= |lines| then Concat(lines[s.open + 1..s.close]) else ""
  }

  function Bodies(lines: seq<string>, spans: seq<Span>): seq<string>
    decreases |spans|
  {
    if spans == [] then [] else [Body(lines, spans[0])] + Bodies(lines, spans[1..])
  }

  /** One body per span. */
  lemma {:induction false} BodiesLength(lines: seq<string>, spans: seq<Span>)
    ensures |Bodies(lines, spans)| == |spans|
    decreases |spans|
  {
    if spans != [] {
      BodiesLength(lines, spans[1..]);
    }
  }

  /** The `k`-th body is the body of the `k`-th span. */
  lemma {:induction false} BodiesAt(lines: seq<string>, spans: seq<Span>, k: nat)
    requires k < |spans|
    ensures |Bodies(lines, spans)| == |spans|
    ensures Bodies(lines, spans)[k] == Body(lines, spans[k])
    decreases k
  {
    BodiesLength(lines, spans);
    if k > 0 {
      BodiesAt(lines, spans[1..], k - 1);
    }
  }

  /** The expected output of the scanner, stated without its loop. */
  function Reference(lines: seq<string>, safe: bool): seq<string>
  {
    Bodies(lines, KeptSpans(lines, Fences(lines), safe))
  }

  // ---------------------------------------------------------------------
  // The scanner computes the reference output

  lemma RunFirst(lines: seq<string>, i: nat, st: State, safe: bool)
    requires i < |lines|
    ensures Run(lines[i..], st, safe) == Run(lines[i + 1..], Step(st, lines[i], safe), safe)
  {
    assert lines[i..][1..] == lines[i + 1..];
  }

  /** The reference output from a delimiter line at `o` on: the body of the
      fence it opens when that fence is closed and `keep` holds, then the
      reference output after the closing line. */
  function After(lines: seq<string>, o: nat, keep: bool, safe: bool): seq<string>
    requires o < |lines|
  {
    var c := NextDelimiter(lines, o + 1);
    if c == |lines| then []
    else
      var body := if keep then [Body(lines, Span(o, c))] else [];
      body + Bodies(lines, KeptSpans(lines, FencesFrom(lines, c + 1), safe))
  }

  lemma ReferenceFrom(lines: seq<string>, o: nat, safe: bool)
    requires o < |lines| && IsDelimiter(lines[o])
    ensures Bodies(lines, KeptSpans(lines, FencesFrom(lines, o), safe)) == After(lines, o, IsOpener(lines[o], safe), safe)
  {
    var c := NextDelimiter(lines, o + 1);
    if c < |lines| {
      var rest := FencesFrom(lines, c + 1);
      var spans := [Span(o, c)] + rest;
      assert FencesFrom(lines, o) == spans;
      assert spans[1..] == rest;
      var kept := KeptSpans(lines, rest, safe);
      if IsOpener(lines[o], safe) {
        assert KeptSpans(lines, spans, safe) == [Span(o, c)] + kept;
      }
    }
  }

  /** From a resting state at line `i`, the scanner appends exactly the
      reference output of the lines from `i` on. */
  lemma {:induction false} ScanOutside(lines: seq<string>, i: nat, st: State, safe: bool)
    requires i <= |lines| && !st.inCodeblock && Resting(st)
    ensures Run(lines[i..], st, safe).codeblocks ==
      st.codeblocks + Bodies(lines, KeptSpans(lines, FencesFrom(lines, i), safe))
    decreases |lines| - i, 3
  {
    if i == |lines| {
      assert FencesFrom(lines, i) == [];
      assert st.codeblocks + [] == st.codeblocks;
    } else if IsDelimiter(lines[i]) {
      EnterFence(lines, i, st, safe);
    } else {
      RunFirst(lines, i, st, safe);
      assert Step(st, lines[i], safe) == st;
      ScanOutside(lines, i + 1, st, safe);
      FencesSkip(lines, i);
    }
  }

  /** A delimiter line met outside a block opens one, kept exactly when the
      line is an opener. */
  lemma {:induction false} EnterFence(lines: seq<string>, i: nat, st: State, safe: bool)
    requires i < |lines| && IsDelimiter(lines[i]) && !st.inCodeblock && Resting(st)
    ensures Run(lines[i..], st, safe).codeblocks ==
      st.codeblocks + Bodies(lines, KeptSpans(lines, FencesFrom(lines, i), safe))
    decreases |lines| - i, 2
  {
    RunFirst(lines, i, st, safe);
    var st' := Step(st, lines[i], safe);
    assert st' == State(true, IsOpener(lines[i], safe), [], st.codeblocks);
    assert lines[i + 1..i + 1] == [];
    ScanInside(lines, i, i + 1, st', safe);
    ReferenceFrom(lines, i, safe);
  }

  /** Inside a fence opened at line `o` whose lines before `i` have been
      collected, the scanner appends the fence's body if it is kept and the
      fence gets closed, then the reference output after the closing line. */
  lemma {:induction false} ScanInside(lines: seq<string>, o: nat, i: nat, st: State, safe: bool)
    requires o < i <= |lines|
    requires st.inCodeblock && st.block == lines[o + 1..i]
    requires NextDelimiter(lines, o + 1) == NextDelimiter(lines, i)
    ensures Run(lines[i..], st, safe).codeblocks == st.codeblocks + After(lines, o, st.keep, safe)
    decreases |lines| - i, 1
  {
    if i == |lines| {
      InsideAtEnd(lines, o, st, safe);
    } else if IsDelimiter(lines[i]) {
      InsideClose(lines, o, i, st, safe);
    } else {
      InsideCollect(lines, o, i, st, safe);
    }
  }

  /** A block still open at the end of the document is discarded. */
  lemma InsideAtEnd(lines: seq<string>, o: nat, st: State, safe: bool)
    requires o < |lines| && NextDelimiter(lines, o + 1) == |lines|
    ensures Run(lines[|lines|..], st, safe).codeblocks == st.codeblocks + After(lines, o, st.keep, safe)
  {
    assert lines[|lines|..] == [];
    assert st.codeblocks + [] == st.codeblocks;
  }

  lemma {:induction false} InsideClose(lines: seq<string>, o: nat, i: nat, st: State, safe: bool)
    requires o < i < |lines| && IsDelimiter(lines[i])
    requires st.inCodeblock && st.block == lines[o + 1..i]
    requires NextDelimiter(lines, o + 1) == NextDelimiter(lines, i)
    ensures Run(lines[i..], st, safe).codeblocks == st.codeblocks + After(lines, o, st.keep, safe)
    decreases |lines| - i, 0
  {
    RunFirst(lines, i, st, safe);
    ScanOutside(lines, i + 1, Step(st, lines[i], safe), safe);
    CloseFence(lines, o, i, st, safe);
  }

  lemma {:induction false} InsideCollect(lines: seq<string>, o: nat, i: nat, st: State, safe: bool)
    requires o < i < |lines| && !IsDelimiter(lines[i])
    requires st.inCodeblock && st.block == lines[o + 1..i]
    requires NextDelimiter(lines, o + 1) == NextDelimiter(lines, i)
    ensures Run(lines[i..], st, safe).codeblocks == st.codeblocks + After(lines, o, st.keep, safe)
    decreases |lines| - i, 0
  {
    RunFirst(lines, i, st, safe);
    var st' := st.(block := st.block + [lines[i]]);
    assert Step(st, lines[i], safe) == st';
    assert st'.block == lines[o + 1..i + 1];
    assert NextDelimiter(lines, i) == NextDelimiter(lines, i + 1);
    ScanInside(lines, o, i + 1, st', safe);
  }

  /** The closing delimiter at `i` appends the fence's body when it is kept,
      which is where the reference output after line `o` begins. */
  lemma CloseFence(lines: seq<string>, o: nat, i: nat, st: State, safe: bool)
    requires o < i < |lines| && IsDelimiter(lines[i])
    requires st.inCodeblock && st.block == lines[o + 1..i]
    requires NextDelimiter(lines, o + 1) == NextDelimiter(lines, i)
    ensures Step(st, lines[i], safe).codeblocks + Bodies(lines, KeptSpans(lines, FencesFrom(lines, i + 1), safe)) ==
      st.codeblocks + After(lines, o, st.keep, safe)
  {
    CloseStep(lines, o, i, st, safe);
    DelimiterIsNext(lines, i);
    AfterClosed(lines, o, i, st.keep, safe);
    AppendAssoc(st.codeblocks, if st.keep then [Body(lines, Span(o, i))] else [],
      Bodies(lines, KeptSpans(lines, FencesFrom(lines, i + 1), safe)));
  }

  /** A delimiter line inside a block closes it, appending its text when
      it is kept. */
  lemma CloseStep(lines: seq<string>, o: nat, i: nat, st: State, safe: bool)
    requires o < i < |lines| && IsDelimiter(lines[i])
    requires st.inCodeblock && st.block == lines[o + 1..i]
    ensures Step(st, lines[i], safe).codeblocks == st.codeblocks + (if st.keep then [Body(lines, Span(o, i))] else [])
  {
  }

  lemma AppendAssoc<T>(a: seq<T>, b: seq<T>, c: seq<T>)
    ensures a + b + c == a + (b + c)
  {
  }

  lemma AfterClosed(lines: seq<string>, o: nat, c: nat, keep: bool, safe: bool)
    requires o < c < |lines| && NextDelimiter(lines, o + 1) == c
    ensures After(lines, o, keep, safe) ==
      (if keep then [Body(lines, Span(o, c))] else []) + Bodies(lines, KeptSpans(lines, FencesFrom(lines, c + 1), safe))
  {
    var tail := Bodies(lines, KeptSpans(lines, FencesFrom(lines, c + 1), safe));
    assert After(lines, o, keep, safe) == (if keep then [Body(lines, Span(o, c))] else []) + tail;
  }

  lemma DelimiterIsNext(lines: seq<string>, i: nat)
    requires i < |lines| && IsDelimiter(lines[i])
    ensures NextDelimiter(lines, i) == i
  {
  }

  /** `github_codeblocks` returns exactly the reference output. */
  lemma ScannerIsReference(lines: seq<string>, safe: bool)
    ensures GithubCodeblocks(lines, safe) == Reference(lines, safe)
  {
    assert lines[0..] == lines;
    ScanOutside(lines, 0, Start, safe);
  }

  // ---------------------------------------------------------------------
  // Consequences

  /** The blocks returned are exactly the bodies of the fences whose
      opening line is an opener, in document order. */
  lemma CodeblocksProvenance(lines: seq<string>, safe: bool)
    ensures var kept := KeptSpans(lines, Fences(lines), safe);
      && |GithubCodeblocks(lines, safe)| == |kept|
      && (forall k :: 0 <= k < |kept| ==> GithubCodeblocks(lines, safe)[k] == Body(lines, kept[k]))
      && (forall s :: s in kept <==> s in Fences(lines) && Opens(lines, s, safe))
  {
    ScannerIsReference(lines, safe);
    var kept := KeptSpans(lines, Fences(lines), safe);
    KeptSpansMeaning(lines, Fences(lines), safe);
    BodiesLength(lines, kept);
    forall k | 0 <= k < |kept|
      ensures GithubCodeblocks(lines, safe)[k] == Body(lines, kept[k])
    {
      BodiesAt(lines, kept, k);
    }
  }

  /** The kept fences come in document order without overlapping; each runs
      from an opener line to the next delimiter line with no delimiter line
      in between, and its body is the text of the lines strictly inside. */
  lemma KeptFences(lines: seq<string>, safe: bool)
    ensures var kept := KeptSpans(lines, Fences(lines), safe);
      && Ordered(kept) && Fenced(lines, kept)
      && (forall k :: 0 <= k < |kept| ==>
            IsOpener(lines[kept[k].open], safe) &&
            Body(lines, kept[k]) == Concat(lines[kept[k].open + 1..kept[k].close]))
  {
    KeptOrdered(lines, safe);
    KeptFenced(lines, safe);
    KeptOpen(lines, safe);
  }

  lemma KeptOpen(lines: seq<string>, safe: bool)
    ensures var kept := KeptSpans(lines, Fences(lines), safe);
      forall k :: 0 <= k < |kept| ==> Opens(lines, kept[k], safe)
  {
    KeptSpansMeaning(lines, Fences(lines), safe);
  }

  lemma KeptOrdered(lines: seq<string>, safe: bool)
    ensures Ordered(KeptSpans(lines, Fences(lines), safe))
  {
    var spans := Fences(lines);
    FencesShape(lines, 0);
    KeptSpansMeaning(lines, spans, safe);
    SubsequenceOrdered(KeptSpans(lines, spans, safe), spans);
  }

  lemma KeptFenced(lines: seq<string>, safe: bool)
    ensures Fenced(lines, KeptSpans(lines, Fences(lines), safe))
  {
    var spans := Fences(lines);
    FencesShape(lines, 0);
    KeptSpansMeaning(lines, spans, safe);
    var kept := KeptSpans(lines, spans, safe);
    forall k | 0 <= k < |kept|
      ensures kept[k] in spans
    {
    }
  }

  lemma {:induction false} SubsequenceOrdered(a: seq<Span>, b: seq<Span>)
    requires IsSubsequence(a, b) && Ordered(b)
    ensures Ordered(a)
    decreases |b|
  {
    if a != [] {
      if a[0] == b[0] && IsSubsequence(a[1..], b[1..]) {
        SubsequenceOrdered(a[1..], b[1..]);
        SubsequenceMembers(a[1..], b[1..]);
        forall k, m | 0 <= k < m < |a|
          ensures a[k].close < a[m].open
        {
          assert a[m] == a[1..][m - 1];
          assert a[m] in b[1..];
          var j :| 0 <= j < |b[1..]| && b[1..][j] == a[m];
          if k > 0 {
            assert a[k] == a[1..][k - 1];
          }
        }
      } else {
        SubsequenceOrdered(a, b[1..]);
      }
    }
  }

  lemma {:induction false} SubsequenceMembers<T>(a: seq<T>, b: seq<T>)
    requires IsSubsequence(a, b)
    ensures forall x :: x in a ==> x in b
    decreases |b|
  {
    if a != [] {
      if a[0] == b[0] && IsSubsequence(a[1..], b[1..]) {
        SubsequenceMembers(a[1..], b[1..]);
        assert a == [a[0]] + a[1..];
      } else {
        SubsequenceMembers(a, b[1..]);
      }
    }
  }

  lemma {:induction false} KeptModes(lines: seq<string>, spans: seq<Span>)
    ensures IsSubsequence(Bodies(lines, KeptSpans(lines, spans, true)),
                          Bodies(lines, KeptSpans(lines, spans, false)))
    decreases |spans|
  {
    if spans != [] {
      var s := spans[0];
      var rest := spans[1..];
      KeptModes(lines, rest);
      if s.open < |lines| {
        OpenerModes(lines[s.open]);
      }
      var a := KeptSpans(lines, rest, true);
      var b := KeptSpans(lines, rest, false);
      var A := Bodies(lines, a);
      var B := Bodies(lines, b);
      var x := Body(lines, s);
      if Opens(lines, s, true) {
        assert ([s] + a)[1..] == a && ([s] + b)[1..] == b;
        assert ([x] + A)[1..] == A && ([x] + B)[1..] == B;
      } else if Opens(lines, s, false) {
        assert ([s] + b)[1..] == b;
        assert ([x] + B)[1..] == B;
      }
    }
  }

  /** Safe mode only drops blocks: its output is a subsequence of the
      unsafe-mode output on the same lines. */
  lemma SafeIsSubsequenceOfUnsafe(lines: seq<string>)
    ensures IsSubsequence(GithubCodeblocks(lines, true), GithubCodeblocks(lines, false))
  {
    ScannerIsReference(lines, true);
    ScannerIsReference(lines, false);
    KeptModes(lines, Fences(lines));
  }

  /** The `safe` flag never changes where a block opens or closes nor what it
      accumulates: two runs that agree on those agree on them to the end. */
  lemma {:induction false} BoundariesIgnoreMode(lines: seq<string>, st1: State, st2: State)
    requires st1.inCodeblock == st2.inCodeblock && st1.block == st2.block
    ensures Run(lines, st1, true).inCodeblock == Run(lines, st2, false).inCodeblock
    ensures Run(lines, st1, true).block == Run(lines, st2, false).block
    decreases |lines|
  {
    if |lines| > 0 {
      BoundariesIgnoreMode(lines[1..], Step(st1, lines[0], true), Step(st2, lines[0], false));
    }
  }

  /** Every returned block needs two delimiter lines of its own. */
  lemma CodeblockCount(lines: seq<string>, safe: bool)
    ensures 2 * |GithubCodeblocks(lines, safe)| <= DelimitersFrom(lines, 0)
  {
    ScannerIsReference(lines, safe);
    var spans := Fences(lines);
    KeptSpansMeaning(lines, spans, safe);
    SubsequenceLength(KeptSpans(lines, spans, safe), spans);
    BodiesLength(lines, KeptSpans(lines, spans, safe));
    FencesCount(lines, 0);
  }

  lemma {:induction false} SubsequenceLength<T>(a: seq<T>, b: seq<T>)
    requires IsSubsequence(a, b)
    ensures |a| <= |b|
  {
  }

  lemma {:induction false} RunAppend(a: seq<string>, b: seq<string>, st: State, safe: bool)
    ensures Run(a + b, st, safe) == Run(b, Run(a, st, safe), safe)
    decreases |a|
  {
    if |a| > 0 {
      assert (a + b)[1..] == a[1..] + b;
      RunAppend(a[1..], b, Step(st, a[0], safe), safe);
    } else {
      assert a + b == b;
    }
  }

  lemma {:induction false} RunQuiet(lines: seq<string>, st: State, safe: bool)
    requires forall l :: l in lines ==> !IsDelimiter(l)
    ensures Run(lines, st, safe).codeblocks == st.codeblocks
    decreases |lines|
  {
    if |lines| > 0 {
      assert forall l :: l in lines[1..] ==> l in lines;
      RunQuiet(lines[1..], Step(st, lines[0], safe), safe);
    }
  }

  /** Lines after the last delimiter never reach the output: prose after a
      closed block is ignored, and a block still open at the end of the
      document is discarded rather than returned. */
  lemma UndelimitedTailIgnored(lines: seq<string>, tail: seq<string>, safe: bool)
    requires forall l :: l in tail ==> !IsDelimiter(l)
    ensures GithubCodeblocks(lines + tail, safe) == GithubCodeblocks(lines, safe)
  {
    RunAppend(lines, tail, Start, safe);
    RunQuiet(tail, Run(lines, Start, safe), safe);
  }
}
