/**
 * The two JavaScript string operations the core relies on: `String.prototype.trim`
 * and `String.prototype.split` with a one-character separator.
 */
module Text {

  /**
   * The code points ECMAScript counts as WhiteSpace or LineTerminator, which
   * `trim` removes from both ends of a string.
   */
  predicate IsWhitespace(c: char) {
    || c == '\t' || c == '\n' || c == '\U{000B}' || c == '\U{000C}' || c == '\r' || c == ' '
    || c == '\U{00A0}' || c == '\U{1680}' || ('\U{2000}' <= c <= '\U{200A}')
    || c == '\U{2028}' || c == '\U{2029}' || c == '\U{202F}' || c == '\U{205F}'
    || c == '\U{3000}' || c == '\U{FEFF}'
  }

  /** Every character of `s` is whitespace. */
  predicate AllWhitespace(s: string) {
    forall k :: 0 <= k < |s| ==> IsWhitespace(s[k])
  }

  /** The first position at or after `i` that does not hold whitespace (`|s|` if none). */
  function SkipForward(s: string, i: nat): (n: nat)
    requires i <= |s|
    ensures i <= n <= |s|
    ensures forall k :: i <= k < n ==> IsWhitespace(s[k])
    ensures n < |s| ==> !IsWhitespace(s[n])
    decreases |s| - i
  {
    if i < |s| && IsWhitespace(s[i]) then SkipForward(s, i + 1) else i
  }

  /** The end of `s[lo..j]` once the whitespace before position `j` is skipped. */
  function SkipBackward(s: string, lo: nat, j: nat): (e: nat)
    requires lo <= j <= |s|
    ensures lo <= e <= j
    ensures forall k :: e <= k < j ==> IsWhitespace(s[k])
    ensures lo < e ==> !IsWhitespace(s[e - 1])
  {
    if lo < j && IsWhitespace(s[j - 1]) then SkipBackward(s, lo, j - 1) else j
  }

  /**
   * JavaScript `s.trim()`: the infix of `s` left once the whitespace at both ends
   * is removed. It is empty exactly when `s` is all whitespace, and otherwise it
   * starts and ends with a character that is not whitespace.
   */
  function Trim(s: string): (r: string)
    ensures |r| <= |s|
    ensures r == [] <==> AllWhitespace(s)
    ensures r != [] ==> !IsWhitespace(r[0]) && !IsWhitespace(r[|r| - 1])
    ensures exists i :: 0 <= i <= |s| - |r| && r == s[i..i + |r|]
              && AllWhitespace(s[..i]) && AllWhitespace(s[i + |r|..])
  {
    var a := SkipForward(s, 0);
    var e := SkipBackward(s, a, |s|);
    TrimEnds(s, a, e);
    s[a..e]
  }

  /** The whitespace skipped at both ends is all whitespace, and it is all of `s` exactly when `s` is. */
  lemma TrimEnds(s: string, a: nat, e: nat)
    requires a == SkipForward(s, 0) && e == SkipBackward(s, a, |s|)
    ensures AllWhitespace(s[..a]) && AllWhitespace(s[e..])
    ensures a == e <==> AllWhitespace(s)
    ensures a < e ==> s[a..e][0] == s[a] && s[a..e][e - a - 1] == s[e - 1]
  {
    var head, tail := s[..a], s[e..];
    assert AllWhitespace(head) by {
      forall k | 0 <= k < |head| ensures IsWhitespace(head[k]) {
        assert head[k] == s[k];
      }
    }
    assert AllWhitespace(tail) by {
      forall k | 0 <= k < |tail| ensures IsWhitespace(tail[k]) {
        assert tail[k] == s[e + k];
      }
    }
  }

  /** The JavaScript truthiness test `!s.trim()`: the line is blank. */
  predicate IsBlank(s: string): (b: bool)
    ensures b <==> AllWhitespace(s)
  {
    Trim(s) == []
  }

  /** Trimming a string that is already trimmed changes nothing. */
  lemma TrimIdempotent(s: string)
    ensures Trim(Trim(s)) == Trim(s)
  {
    var t := Trim(s);
    if t != [] {
      TrimOfTrimmed(t);
    }
  }

  /** A string that neither starts nor ends with whitespace is its own trim. */
  lemma TrimOfTrimmed(s: string)
    requires s != [] && !IsWhitespace(s[0]) && !IsWhitespace(s[|s| - 1])
    ensures Trim(s) == s
  {
    assert SkipForward(s, 0) == 0;
    assert SkipBackward(s, 0, |s|) == |s|;
  }

  /** Leading whitespace does not survive `trim`. */
  lemma TrimLeadingWhitespace(c: char, s: string)
    requires IsWhitespace(c)
    ensures Trim([c] + s) == Trim(s)
  {
    var a := SkipForward(s, 0);
    var e := SkipBackward(s, a, |s|);
    SkipsShift(c, s);
    TrimIsSlice([c] + s, a + 1, e + 1);
    TrimIsSlice(s, a, e);
    ShiftedSlice(c, s, a, e);
  }

  /** Both skips in `[c] + s` stop one position after where they stop in `s`. */
  lemma SkipsShift(c: char, s: string)
    requires IsWhitespace(c)
    ensures SkipForward([c] + s, 0) == SkipForward(s, 0) + 1
    ensures SkipBackward([c] + s, SkipForward(s, 0) + 1, |s| + 1) == SkipBackward(s, SkipForward(s, 0), |s|) + 1
  {
    SkipForwardShift(c, s, 0);
    SkipBackwardShift(c, s, SkipForward(s, 0), |s|);
  }

  /** Trim is the slice between the two positions the skips stop at. */
  lemma TrimIsSlice(s: string, a: nat, e: nat)
    requires a == SkipForward(s, 0) && a <= |s| && e == SkipBackward(s, a, |s|)
    ensures Trim(s) == s[a..e]
  {
  }

  /** A slice of `[c] + s` one position on is the same slice of `s`. */
  lemma ShiftedSlice(c: char, s: string, i: nat, j: nat)
    requires i <= j <= |s|
    ensures ([c] + s)[i + 1..j + 1] == s[i..j]
  {
  }

  /** Skipping forward in `[c] + s` from `i + 1` is skipping in `s` from `i`, one position later. */
  lemma {:induction false} SkipForwardShift(c: char, s: string, i: nat)
    requires IsWhitespace(c) && i <= |s|
    ensures SkipForward([c] + s, i + 1) == SkipForward(s, i) + 1
    ensures SkipForward([c] + s, 0) == SkipForward([c] + s, 1)
    decreases |s| - i
  {
    var t := [c] + s;
    if i < |s| {
      assert t[i + 1] == s[i];
      if IsWhitespace(s[i]) {
        SkipForwardShift(c, s, i + 1);
      }
    }
  }

  /** Skipping backward in `[c] + s` is skipping in `s`, one position later. */
  lemma {:induction false} SkipBackwardShift(c: char, s: string, lo: nat, j: nat)
    requires lo <= j <= |s|
    ensures SkipBackward([c] + s, lo + 1, j + 1) == SkipBackward(s, lo, j) + 1
  {
    var t := [c] + s;
    if lo < j {
      assert t[j] == s[j - 1];
      SkipBackwardShift(c, s, lo, j - 1);
    }
  }

  /**
   * JavaScript `s.split(sep)`: the pieces of `s` between occurrences of `sep`,
   * including the empty ones; always one more piece than there are separators.
   */
  function Split(s: string, sep: char): (r: seq<string>)
    ensures |r| >= 1
    ensures forall k :: 0 <= k < |r| ==> sep !in r[k]
  {
    if s == [] then [[]]
    else
      var rest := Split(s[1..], sep);
      if s[0] == sep then [[]] + rest
      else [[s[0]] + rest[0]] + rest[1..]
  }

  /** The pieces put back together with `sep` between them (JavaScript `join`). */
  function Join(pieces: seq<string>, sep: char): string
    requires |pieces| >= 1
  {
    if |pieces| == 1 then pieces[0] else pieces[0] + [sep] + Join(pieces[1..], sep)
  }

  /** Splitting loses nothing: joining the pieces gives back the original text. */
  lemma {:induction false} JoinSplit(s: string, sep: char)
    ensures Join(Split(s, sep), sep) == s
  {
    if s != [] {
      var rest := Split(s[1..], sep);
      JoinSplit(s[1..], sep);
      if s[0] != sep && |rest| > 1 {
        assert Split(s, sep)[1..] == rest[1..];
        assert rest == [rest[0]] + rest[1..];
      }
    }
  }

  /** Text without a separator is one piece. */
  lemma {:induction false} SplitNoSeparator(a: string, sep: char)
    requires sep !in a
    ensures Split(a, sep) == [a]
  {
    if a != [] {
      SplitNoSeparator(a[1..], sep);
      assert a == [a[0]] + a[1..];
    }
  }

  /** A separator-free prefix followed by the separator becomes the first piece. */
  lemma {:induction false} SplitAfterPiece(a: string, sep: char, b: string)
    requires sep !in a
    ensures Split(a + [sep] + b, sep) == [a] + Split(b, sep)
  {
    if a == [] {
      assert a + [sep] + b == [sep] + b;
      assert ([sep] + b)[1..] == b;
    } else {
      var s := a + [sep] + b;
      assert s[1..] == a[1..] + [sep] + b;
      SplitAfterPiece(a[1..], sep, b);
      assert a == [a[0]] + a[1..];
    }
  }

  /** Joining separator-free pieces and splitting again gives back the pieces. */
  lemma {:induction false} SplitJoin(pieces: seq<string>, sep: char)
    requires |pieces| >= 1
    requires forall k :: 0 <= k < |pieces| ==> sep !in pieces[k]
    ensures Split(Join(pieces, sep), sep) == pieces
  {
    if |pieces| == 1 {
      SplitNoSeparator(pieces[0], sep);
    } else {
      SplitJoin(pieces[1..], sep);
      SplitAfterPiece(pieces[0], sep, Join(pieces[1..], sep));
      assert pieces == [pieces[0]] + pieces[1..];
    }
  }
}
