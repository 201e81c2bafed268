/**
 * The Python string operations the event parser relies on: `str.isspace`,
 * `str.strip()`, `str.split(sep)` and `str.split(sep, 1)`, on strings of
 * Unicode code points.
 */
module Text {
  import opened Wrappers

  /** Python's `str.isspace()` for one character: the characters that
      `strip()` removes and that `\s` matches in a `str` regular expression. */
  predicate IsSpace(c: char) {
    || c == ' ' || c == '\t' || c == '\n' || c == '\r' || c == '\U{B}' || c == '\U{C}'
    || ('\U{1C}' <= c <= '\U{1F}')
    || c == '\U{85}' || c == '\U{A0}' || c == '\U{1680}'
    || ('\U{2000}' <= c <= '\U{200A}')
    || c == '\U{2028}' || c == '\U{2029}' || c == '\U{202F}' || c == '\U{205F}' || c == '\U{3000}'
  }

  /** No leading and no trailing whitespace: what `strip()` returns. */
  predicate Stripped(s: string) {
    s == [] || (!IsSpace(s[0]) && !IsSpace(s[|s| - 1]))
  }

  /** Number of whitespace characters at the start of `s`. */
  function LeadingSpaces(s: string): (n: nat)
    ensures n <= |s|
    ensures forall k :: 0 <= k < n ==> IsSpace(s[k])
    ensures n < |s| ==> !IsSpace(s[n])
  {
    if s == [] || !IsSpace(s[0]) then 0 else 1 + LeadingSpaces(s[1..])
  }

  /** Number of whitespace characters at the end of `s`. */
  function TrailingSpaces(s: string): (n: nat)
    ensures n <= |s|
    ensures forall k :: |s| - n <= k < |s| ==> IsSpace(s[k])
    ensures n < |s| ==> !IsSpace(s[|s| - 1 - n])
  {
    if s == [] || !IsSpace(s[|s| - 1]) then 0 else 1 + TrailingSpaces(s[..|s| - 1])
  }

  /** Python's `s.strip()`: the slice `s[lo..hi]` that leaves out every
      whitespace character before `lo` and after `hi`, and nothing else. */
  function Strip(s: string): (r: string)
    ensures Stripped(r) && |r| <= |s|
  {
    var lo := LeadingSpaces(s);
    var t := TrailingSpaces(s);
    var hi := if lo <= |s| - t then |s| - t else lo;
    assert lo < hi ==> !IsSpace(s[hi - 1]);
    s[lo..hi]
  }

  /** What `strip()` removes is whitespace, and only from the two ends. */
  lemma StripIsTrimmedSlice(s: string)
    ensures exists lo, hi ::
              && 0 <= lo <= hi <= |s| && Strip(s) == s[lo..hi]
              && (forall k :: 0 <= k < lo ==> IsSpace(s[k]))
              && (forall k :: hi <= k < |s| ==> IsSpace(s[k]))
  {
    var lo := LeadingSpaces(s);
    var t := TrailingSpaces(s);
    var hi := if lo <= |s| - t then |s| - t else lo;
    assert Strip(s) == s[lo..hi];
  }

  /** Stripping a string that has no surrounding whitespace changes nothing. */
  lemma StripStripped(s: string)
    requires Stripped(s)
    ensures Strip(s) == s
  {
    assert LeadingSpaces(s) == 0;
    assert TrailingSpaces(s) == 0;
  }

  /** Leading whitespace in front of a stripped string is removed by `strip()`. */
  lemma {:induction false} StripAfterSpaces(w: string, s: string)
    requires forall k :: 0 <= k < |w| ==> IsSpace(w[k])
    requires Stripped(s) && s != []
    ensures Strip(w + s) == s
  {
    var ws := w + s;
    LeadingSpacesPrefix(w, s);
    assert TrailingSpaces(ws) == 0 by {
      assert ws[|ws| - 1] == s[|s| - 1];
    }
    assert ws[|w|..|ws|] == s;
  }

  lemma {:induction false} LeadingSpacesPrefix(w: string, s: string)
    requires forall k :: 0 <= k < |w| ==> IsSpace(w[k])
    requires s != [] && !IsSpace(s[0])
    ensures LeadingSpaces(w + s) == |w|
  {
    if w != [] {
      assert (w + s)[1..] == w[1..] + s;
      LeadingSpacesPrefix(w[1..], s);
    }
  }

  /** The position of the first `c` in `s`, if any: Python's `s.find(c)`. */
  function FirstIndex(s: string, c: char): (r: Option<nat>)
    ensures r.None? <==> c !in s
    ensures r.Some? ==> r.value < |s| && s[r.value] == c && c !in s[..r.value]
  {
    if s == [] then None
    else if s[0] == c then Some(0)
    else
      var rest := FirstIndex(s[1..], c);
      assert c in s[1..] ==> c in s;
      assert s[1..] == s[..|s|][1..];
      match rest
      case None => None
      case Some(i) =>
        assert s[..i + 1] == [s[0]] + s[1..][..i];
        Some(i + 1)
  }

  /** Python's `s.split(sep, 1)` when `sep in s`: the text before the first
      separator and the text after it. */
  function SplitFirst(s: string, sep: char): (r: Option<(string, string)>)
    ensures r.None? <==> sep !in s
    ensures r.Some? ==> r.value.0 + [sep] + r.value.1 == s && sep !in r.value.0
  {
    match FirstIndex(s, sep)
    case None => None
    case Some(i) =>
      assert s[..i] + [sep] + s[i + 1..] == s;
      Some((s[..i], s[i + 1..]))
  }

  /** Python's `s.split(sep)` with an explicit one-character separator:
      at least one piece, none containing `sep`, and joining them back
      with `sep` gives `s`. */
  function Split(s: string, sep: char): (r: seq<string>)
    ensures |r| >= 1
    ensures forall k :: 0 <= k < |r| ==> sep !in r[k]
    ensures Join(r, sep) == s
    decreases |s|
  {
    match SplitFirst(s, sep)
    case None => [s]
    case Some((head, tail)) =>
      var rest := Split(tail, sep);
      assert Join([head] + rest, sep) == head + [sep] + Join(rest, sep) by {
        assert ([head] + rest)[1..] == rest;
      }
      [head] + rest
  }

  /** The inverse of `Split`: Python's `sep.join(pieces)`. */
  function Join(pieces: seq<string>, sep: char): string {
    if pieces == [] then []
    else if |pieces| == 1 then pieces[0]
    else pieces[0] + [sep] + Join(pieces[1..], sep)
  }

  /** Splitting what was joined gives the pieces back, provided that no
      piece contains the separator. */
  lemma {:induction false} SplitJoin(pieces: seq<string>, sep: char)
    requires |pieces| >= 1
    requires forall k :: 0 <= k < |pieces| ==> sep !in pieces[k]
    ensures Split(Join(pieces, sep), sep) == pieces
  {
    var s := Join(pieces, sep);
    if |pieces| == 1 {
      assert SplitFirst(s, sep).None?;
    } else {
      var tail := Join(pieces[1..], sep);
      assert s == pieces[0] + [sep] + tail;
      assert s[|pieces[0]|] == sep;
      var sf := SplitFirst(s, sep);
      assert sf.Some?;
      SplitFirstUnique(s, sep, pieces[0], tail);
      SplitJoin(pieces[1..], sep);
    }
  }

  /** `SplitFirst` is determined by its contract. */
  lemma SplitFirstUnique(s: string, sep: char, head: string, tail: string)
    requires head + [sep] + tail == s && sep !in head
    ensures SplitFirst(s, sep) == Some((head, tail))
  {
    var r := SplitFirst(s, sep);
    assert s[|head|] == sep;
    assert r.Some?;
    var (h, t) := r.value;
    assert h == s[..|h|] && head == s[..|head|];
    assert t == s[|h| + 1..] && tail == s[|head| + 1..];
  }
}
