/** Python's `str.splitlines(keepends=True)`, restricted to the line
    terminators `\n`, `\r` and `\r\n`. Python also ends a line at `\v`, `\f`,
    `\x1c`, `\x1d`, `\x1e`, `\x85`, U+2028 and U+2029; those characters are
    ordinary text in this model. */
module Lines {
  import opened Strings

  predicate IsBreak(c: char)
  {
    c == '\n' || c == '\r'
  }

  /** No terminator character in `s[lo..hi]`. */
  predicate NoBreakIn(s: string, lo: nat, hi: nat)
    requires lo <= hi <= |s|
  {
    forall i :: lo <= i < hi ==> !IsBreak(s[i])
  }

  predicate NoBreak(s: string)
  {
    NoBreakIn(s, 0, |s|)
  }

  /** Length of the terminator `l` ends with: 2 for `\r\n`, 1 for a lone
      `\n` or `\r`, 0 for none. */
  function TermLen(l: string): nat
  {
    if |l| >= 2 && l[|l| - 2] == '\r' && l[|l| - 1] == '\n' then 2
    else if |l| >= 1 && IsBreak(l[|l| - 1]) then 1
    else 0
  }

  /** Break-free text followed by its terminator `\n`, `\r` or `\r\n`. */
  predicate CompleteLine(l: string)
  {
    TermLen(l) > 0 && NoBreakIn(l, 0, |l| - TermLen(l))
  }

  /** Trailing text that has not been terminated yet. */
  predicate PartialLine(l: string)
  {
    |l| > 0 && NoBreak(l)
  }

  /** A line `y` may start right after `x`: `x` is empty or ends in a
      terminator, and `y` does not turn a final `\r` of `x` into `\r\n`. */
  predicate Joins(x: string, y: string)
  {
    x == "" || (IsBreak(x[|x| - 1]) && !(x[|x| - 1] == '\r' && |y| > 0 && y[0] == '\n'))
  }

  /** The lines of `s`, each keeping its terminator; there are none exactly
      when `s` is empty, and none of them is empty. */
  function SplitLines(s: string): (r: seq<string>)
    ensures |r| == 0 <==> |s| == 0
    ensures forall k :: 0 <= k < |r| ==> |r[k]| > 0
  {
    if |s| == 0 then []
    else if s[0] == '\n' then ["\n"] + SplitLines(s[1..])
    else if s[0] == '\r' then
      if |s| > 1 && s[1] == '\n' then ["\r\n"] + SplitLines(s[2..])
      else ["\r"] + SplitLines(s[1..])
    else
      var rest := SplitLines(s[1..]);
      if |rest| == 0 then [s] else [[s[0]] + rest[0]] + rest[1..]
  }

  /** Concatenating the lines gives back the text. */
  lemma {:induction false} SplitLinesConcat(s: string)
    ensures Concat(SplitLines(s)) == s
    decreases |s|
  {
    if |s| > 0 {
      var r := SplitLines(s);
      if s[0] == '\n' {
        SplitLinesConcat(s[1..]);
        assert r[1..] == SplitLines(s[1..]);
      } else if s[0] == '\r' && |s| > 1 && s[1] == '\n' {
        SplitLinesConcat(s[2..]);
        assert r[1..] == SplitLines(s[2..]);
        assert s == "\r\n" + s[2..];
      } else if s[0] == '\r' {
        SplitLinesConcat(s[1..]);
        assert r[1..] == SplitLines(s[1..]);
      } else {
        var rest := SplitLines(s[1..]);
        SplitLinesConcat(s[1..]);
        if |rest| > 0 {
          assert Concat(rest) == rest[0] + Concat(rest[1..]);
          assert r[1..] == rest[1..];
        }
      }
    }
  }

  /** A single line, complete or not, is split into itself. */
  lemma {:induction false} SplitLinesOne(l: string)
    requires CompleteLine(l) || PartialLine(l)
    ensures SplitLines(l) == [l]
    decreases |l|
  {
    if !IsBreak(l[0]) && |l| > 1 {
      var t := l[1..];
      assert TermLen(t) == TermLen(l);
      SplitLinesOne(t);
      assert [l[0]] + t == l;
    } else if IsBreak(l[0]) {
      assert |l| == TermLen(l);
      if |l| == 2 {
        assert l == "\r\n";
      } else {
        assert l[1..] == "" && l == [l[0]];
      }
    }
  }

  /** Appending one line after a line boundary appends it to the split. */
  lemma {:induction false} SplitLinesAppend(x: string, l: string)
    requires Joins(x, l)
    requires CompleteLine(l) || PartialLine(l)
    ensures SplitLines(x + l) == SplitLines(x) + [l]
    decreases |x|
  {
    var s := x + l;
    if |x| == 0 {
      assert s == l;
      SplitLinesOne(l);
    } else if x[0] == '\r' && |x| == 1 {
      assert s[1..] == l;
      SplitLinesOne(l);
    } else {
      var k := if x[0] == '\r' && |x| > 1 && x[1] == '\n' then 2 else 1;
      assert s[0] == x[0];
      assert |x| > 1 ==> s[1] == x[1];
      assert s[k..] == x[k..] + l;
      SplitLinesAppend(x[k..], l);
    }
  }

  /** Length of the longest prefix of `s[..k]` ending in a terminator
      character (0 when there is none); `s[n..k]` is break-free. */
  function BreakEndAt(s: string, k: nat): (n: nat)
    requires k <= |s|
    ensures n <= k
    ensures n == 0 || IsBreak(s[n - 1])
    ensures NoBreakIn(s, n, k)
  {
    if k == 0 then 0
    else if IsBreak(s[k - 1]) then k
    else BreakEndAt(s, k - 1)
  }

  /** Where the text after the last terminator of `s` starts. */
  function BreakEnd(s: string): nat
  {
    BreakEndAt(s, |s|)
  }

  lemma BreakEndZero(s: string)
    ensures BreakEnd(s) == 0 <==> NoBreak(s)
  {
  }

  /** The unterminated text at the end of `s` (possibly empty). */
  function Fragment(s: string): (f: string)
    ensures f == "" || PartialLine(f)
  {
    var n := BreakEnd(s);
    assert forall i :: 0 <= i < |s| - n ==> s[n..][i] == s[n + i];
    s[n..]
  }

  /** Where the last complete line of `s` starts; it ends at `BreakEnd(s)`. */
  function LastLineStart(s: string): (st: nat)
    requires BreakEnd(s) > 0
    ensures st < BreakEnd(s)
  {
    var n := BreakEnd(s);
    var e := if n >= 2 && s[n - 2] == '\r' && s[n - 1] == '\n' then n - 2 else n - 1;
    BreakEndAt(s, e)
  }

  /** The last line of `s` that carries its terminator. */
  function LastCompleteLine(s: string): string
    requires BreakEnd(s) > 0
  {
    s[LastLineStart(s)..BreakEnd(s)]
  }

  lemma NoBreakSlice(s: string, lo: nat, mid: nat, hi: nat)
    requires lo <= mid <= hi <= |s| && NoBreakIn(s, lo, mid)
    ensures NoBreakIn(s[lo..hi], 0, mid - lo)
  {
    forall i | 0 <= i < mid - lo
      ensures !IsBreak(s[lo..hi][i])
    {
      assert s[lo..hi][i] == s[lo + i];
    }
  }

  lemma LastCompleteLineShape(s: string)
    requires BreakEnd(s) > 0
    ensures CompleteLine(LastCompleteLine(s))
    ensures Joins(s[..LastLineStart(s)], LastCompleteLine(s))
  {
    var n := BreakEnd(s);
    var crlf := n >= 2 && s[n - 2] == '\r' && s[n - 1] == '\n';
    var e := if crlf then n - 2 else n - 1;
    var st := LastLineStart(s);
    var l := s[st..n];
    NoBreakSlice(s, st, e, n);
    assert TermLen(l) == n - e by {
      assert l[|l| - 1] == s[n - 1];
      if |l| >= 2 { assert l[|l| - 2] == s[n - 2]; }
    }
    assert l[0] == s[st];
    assert st > 0 ==> s[..st][st - 1] == s[st - 1];
  }

  lemma SplitLinesWithFragment(s: string)
    requires Fragment(s) != ""
    ensures SplitLines(s) == SplitLines(s[..BreakEnd(s)]) + [Fragment(s)]
  {
    var b := BreakEnd(s);
    var c := s[..b];
    assert s == c + Fragment(s);
    assert c == "" || c[|c| - 1] == s[b - 1];
    SplitLinesAppend(c, Fragment(s));
  }

  lemma SplitLinesEndingInBreak(s: string)
    requires BreakEnd(s) > 0
    ensures SplitLines(s[..BreakEnd(s)]) == SplitLines(s[..LastLineStart(s)]) + [LastCompleteLine(s)]
  {
    var st := LastLineStart(s);
    LastCompleteLineShape(s);
    assert s[..BreakEnd(s)] == s[..st] + LastCompleteLine(s);
    SplitLinesAppend(s[..st], LastCompleteLine(s));
  }

  /** The last lines of `s` described from the back: an unterminated
      fragment, if any, is the last line, and the line before it (or the last
      line, when there is no fragment) is `LastCompleteLine(s)`. */
  lemma SplitLinesTail(s: string)
    requires |s| > 0
    ensures var lines := SplitLines(s);
      && (Fragment(s) != "" ==> lines[|lines| - 1] == Fragment(s))
      && (Fragment(s) != "" && BreakEnd(s) == 0 ==> |lines| == 1)
      && (Fragment(s) != "" && BreakEnd(s) > 0 ==> |lines| >= 2 && lines[|lines| - 2] == LastCompleteLine(s))
      && (Fragment(s) == "" ==> lines[|lines| - 1] == LastCompleteLine(s))
  {
    var b := BreakEnd(s);
    if Fragment(s) != "" {
      SplitLinesWithFragment(s);
      if b > 0 {
        SplitLinesEndingInBreak(s);
      } else {
        assert s[..b] == "";
      }
    } else {
      assert s[..b] == s;
      SplitLinesEndingInBreak(s);
    }
  }
}
