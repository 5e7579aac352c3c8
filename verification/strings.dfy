/** Text helpers shared by the scanner and the output writer: Python's
    `''.join`, `sep.join`, and the subsequence relation used to compare the
    results of the two extraction modes. */
module Strings {

  /** `''.join(parts)`: the parts laid end to end, nothing in between. */
  function Concat(parts: seq<string>): string
  {
    if |parts| == 0 then "" else Concat(parts[..|parts| - 1]) + parts[|parts| - 1]
  }

  /** `sep.join(parts)`. */
  function Join(parts: seq<string>, sep: string): string
  {
    if |parts| == 0 then ""
    else if |parts| == 1 then parts[0]
    else Join(parts[..|parts| - 1], sep) + sep + parts[|parts| - 1]
  }

  /** Where the `i`-th part starts inside `Join(parts, sep)`. */
  function PartStart(parts: seq<string>, sep: string, i: nat): nat
    requires i < |parts|
  {
    if i == 0 then 0 else |Join(parts[..i], sep)| + |sep|
  }

  /** Joining a prefix of the parts yields a prefix of the whole joined text. */
  lemma {:induction false} JoinPrefix(parts: seq<string>, sep: string, n: nat)
    requires 0 < n <= |parts|
    ensures Join(parts[..n], sep) <= Join(parts, sep)
    decreases |parts| - n
  {
    if n < |parts| {
      JoinPrefix(parts, sep, n + 1);
      assert parts[..n + 1][..n] == parts[..n];
      assert Join(parts[..n + 1], sep) == Join(parts[..n], sep) + sep + parts[n];
    } else {
      assert parts[..n] == parts;
    }
  }

  /** The layout of a joined text: every part appears verbatim at its start
      offset, and every part but the first is immediately preceded by `sep`. */
  lemma JoinLayout(parts: seq<string>, sep: string, i: nat)
    requires i < |parts|
    ensures PartStart(parts, sep, i) + |parts[i]| <= |Join(parts, sep)|
    ensures Join(parts, sep)[PartStart(parts, sep, i)..PartStart(parts, sep, i) + |parts[i]|] == parts[i]
    ensures 0 < i ==>
      Join(parts, sep)[|Join(parts[..i], sep)|..|Join(parts[..i], sep)| + |sep|] == sep
  {
    JoinPrefix(parts, sep, i + 1);
    var whole := Join(parts, sep);
    var upto := Join(parts[..i + 1], sep);
    assert upto == whole[..|upto|];
    if i == 0 {
      assert parts[..1] == [parts[0]];
      assert upto == parts[0];
    } else {
      assert parts[..i + 1][..i] == parts[..i];
      assert upto == Join(parts[..i], sep) + sep + parts[i];
    }
  }

  /** `a` can be obtained from `b` by deleting elements (order kept). */
  predicate IsSubsequence<T(==)>(a: seq<T>, b: seq<T>)
    decreases |b|
  {
    |a| <= |b| &&
    (a == [] || (a[0] == b[0] && IsSubsequence(a[1..], b[1..])) || IsSubsequence(a, b[1..]))
  }
}
