/** The two JavaScript string operations the server relies on:
    `String.prototype.split` with a one-character separator and
    `String.prototype.trim`. */
module Strings {

  /** `s.split(sep)` for a one-character separator: the pieces between
      consecutive separators, empty pieces kept, and always at least one
      piece (`"".split(" ")` is `[""]`). */
  function Split(s: string, sep: char): (parts: seq<string>)
    ensures |parts| >= 1
    ensures forall k :: 0 <= k < |parts| ==> sep !in parts[k]
    decreases |s|
  {
    if |s| == 0 then [""]
    else
      var rest := Split(s[1..], sep);
      if s[0] == sep then [""] + rest
      else [[s[0]] + rest[0]] + rest[1..]
  }

  /** `parts.join(sep)`: the inverse of Split. */
  function Join(parts: seq<string>, sep: char): string
    requires |parts| >= 1
  {
    if |parts| == 1 then parts[0]
    else parts[0] + [sep] + Join(parts[1..], sep)
  }

  /** Joining the pieces of a split gives back the original string. */
  lemma {:induction false} JoinSplit(s: string, sep: char)
    ensures Join(Split(s, sep), sep) == s
    decreases |s|
  {
    if |s| > 0 {
      var rest := Split(s[1..], sep);
      JoinSplit(s[1..], sep);
      if s[0] == sep {
        assert Split(s, sep) == [""] + rest;
        assert ([""] + rest)[1..] == rest;
      } else {
        var parts := Split(s, sep);
        assert parts == [[s[0]] + rest[0]] + rest[1..];
        if |rest| == 1 {
          assert Join(parts, sep) == [s[0]] + rest[0];
        } else {
          assert parts[1..] == rest[1..];
          assert Join(rest, sep) == rest[0] + [sep] + Join(rest[1..], sep);
          assert Join(parts, sep) == [s[0]] + Join(rest, sep);
        }
        assert s == [s[0]] + s[1..];
      }
    }
  }

  /** A string that holds no separator splits into itself alone. */
  lemma {:induction false} SplitWithoutSeparator(p: string, sep: char)
    requires sep !in p
    ensures Split(p, sep) == [p]
    decreases |p|
  {
    if |p| > 0 {
      SplitWithoutSeparator(p[1..], sep);
      assert [p[0]] + p[1..] == p;
    }
  }

  /** A leading separator-free piece followed by a separator splits off as
      the first part; the rest splits on its own. */
  lemma {:induction false} SplitAfterPiece(p: string, r: string, sep: char)
    requires sep !in p
    ensures Split(p + [sep] + r, sep) == [p] + Split(r, sep)
    decreases |p|
  {
    var s := p + [sep] + r;
    if |p| == 0 {
      assert s[0] == sep && s[1..] == r;
    } else {
      assert s[0] == p[0];
      assert s[1..] == p[1..] + [sep] + r;
      SplitAfterPiece(p[1..], r, sep);
      assert [p[0]] + p[1..] == p;
    }
  }

  /** Splitting a join of separator-free pieces recovers the pieces. */
  lemma {:induction false} SplitJoin(parts: seq<string>, sep: char)
    requires |parts| >= 1
    requires forall k :: 0 <= k < |parts| ==> sep !in parts[k]
    ensures Split(Join(parts, sep), sep) == parts
    decreases |parts|
  {
    if |parts| == 1 {
      SplitWithoutSeparator(parts[0], sep);
    } else {
      SplitJoin(parts[1..], sep);
      SplitAfterPiece(parts[0], Join(parts[1..], sep), sep);
      assert [parts[0]] + parts[1..] == parts;
    }
  }

  /** The first piece of a split is the longest separator-free prefix. */
  lemma {:induction false} FirstPiece(s: string, sep: char)
    ensures var p := Split(s, sep)[0];
      && p <= s
      && sep !in p
      && (|p| == |s| || s[|p|] == sep)
  {
    var parts := Split(s, sep);
    JoinSplit(s, sep);
    if |parts| > 1 {
      assert Join(parts, sep) == parts[0] + [sep] + Join(parts[1..], sep);
    }
  }

  /** JavaScript's WhiteSpace and LineTerminator code points, the set that
      `trim` removes. */
  predicate IsJsSpace(c: char) {
    || c == '\t' || c == '\n' || c == '\U{000B}' || c == '\U{000C}' || c == '\r'
    || c == ' ' || c == '\U{00A0}' || c == '\U{1680}'
    || ('\U{2000}' <= c <= '\U{200A}')
    || c == '\U{2028}' || c == '\U{2029}' || c == '\U{202F}' || c == '\U{205F}'
    || c == '\U{3000}' || c == '\U{FEFF}'
  }

  predicate AllSpace(s: string) {
    forall k :: 0 <= k < |s| ==> IsJsSpace(s[k])
  }

  /** `s[lo..hi]` is what is left of `s` once the white space at both ends
      is removed: everything outside the window is white space, and a
      non-empty window starts and ends with a character that is not. */
  predicate TrimWindow(s: string, lo: int, hi: int) {
    && 0 <= lo <= hi <= |s|
    && (forall k :: 0 <= k < lo ==> IsJsSpace(s[k]))
    && (forall k :: hi <= k < |s| ==> IsJsSpace(s[k]))
    && (lo < hi ==> !IsJsSpace(s[lo]) && !IsJsSpace(s[hi - 1]))
  }

  /** The index of the first character at or after `i` that is not white
      space, or `|s|`. */
  function SkipSpace(s: string, i: nat): (j: nat)
    requires i <= |s|
    ensures i <= j <= |s|
    ensures forall k :: i <= k < j ==> IsJsSpace(s[k])
    ensures j == |s| || !IsJsSpace(s[j])
    decreases |s| - i
  {
    if i < |s| && IsJsSpace(s[i]) then SkipSpace(s, i + 1) else i
  }

  /** The index just past the last character before `i` (and not before
      `lo`) that is not white space, or `lo`. */
  function SkipSpaceBack(s: string, lo: nat, i: nat): (j: nat)
    requires lo <= i <= |s|
    ensures lo <= j <= i
    ensures forall k :: j <= k < i ==> IsJsSpace(s[k])
    ensures j == lo || !IsJsSpace(s[j - 1])
    decreases i
  {
    if i > lo && IsJsSpace(s[i - 1]) then SkipSpaceBack(s, lo, i - 1) else i
  }

  /** `s.trim()`. */
  function Trim(s: string): (r: string)
    ensures exists lo, hi :: TrimWindow(s, lo, hi) && r == s[lo..hi]
  {
    var lo := SkipSpace(s, 0);
    var hi := SkipSpaceBack(s, lo, |s|);
    assert TrimWindow(s, lo, hi);
    s[lo..hi]
  }

  /** Two trim windows of the same string select the same text. */
  lemma {:induction false} WindowsAgree(s: string, lo: int, hi: int, lo': int, hi': int)
    requires TrimWindow(s, lo, hi) && TrimWindow(s, lo', hi')
    ensures s[lo..hi] == s[lo'..hi']
  {
  }

  /** Trim is determined by its window: any split of `s` into white space,
      a core that neither starts nor ends with white space, and white space
      is the one Trim finds. */
  lemma {:induction false} TrimUnique(s: string, lo: int, hi: int)
    requires TrimWindow(s, lo, hi)
    ensures Trim(s) == s[lo..hi]
  {
    var lo', hi' :| TrimWindow(s, lo', hi') && Trim(s) == s[lo'..hi'];
    WindowsAgree(s, lo, hi, lo', hi');
  }

  /** Trimming twice is trimming once. */
  lemma {:induction false} TrimIdempotent(s: string)
    ensures Trim(Trim(s)) == Trim(s)
  {
    var r := Trim(s);
    var lo, hi :| TrimWindow(s, lo, hi) && r == s[lo..hi];
    assert TrimWindow(r, 0, |r|) by {
      if |r| > 0 {
        assert r[0] == s[lo] && r[|r| - 1] == s[hi - 1];
      }
    }
    TrimUnique(r, 0, |r|);
  }

  /** A string trims to nothing exactly when it is all white space. */
  lemma {:induction false} TrimEmptyIffAllSpace(s: string)
    ensures Trim(s) == [] <==> AllSpace(s)
  {
    var r := Trim(s);
    var lo, hi :| TrimWindow(s, lo, hi) && r == s[lo..hi];
    if AllSpace(s) {
      assert TrimWindow(s, 0, 0);
      TrimUnique(s, 0, 0);
    }
  }
}
