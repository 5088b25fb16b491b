/** The framing step of the sensor read loop: the held-over remainder and
    the newly received text become at most one record for the parser and a
    new remainder. */
module Framer {
  import opened Wrappers
  import opened Strings
  import opened Lines

  /** The remainder to keep and the record to forward, if any. */
  datatype Framed = Framed(rem: string, record: Option<string>)

  /** With nothing buffered the list of lines is empty and indexing its last
      element raises outside the loop's exception handler. */
  datatype FrameError = NothingBuffered

  lemma BreakIsSpace(c: char)
    ensures IsBreak(c) ==> IsSpace(c)
  {
  }

  /** The characters of a line's terminator are terminator characters. */
  lemma TermIsBreak(l: string, k: nat)
    requires TermLen(l) > 0 && |l| - TermLen(l) <= k < |l|
    ensures IsBreak(l[k])
  {
  }

  /** Terminators are whitespace, so stripping a complete line drops them. */
  lemma StripCompleteLine(l: string)
    requires CompleteLine(l)
    ensures NoBreak(Strip(l))
  {
    var r := Strip(l);
    if |r| > 0 {
      var i := StripFrom(l);
      var body := |l| - TermLen(l);
      var j := i + |r| - 1;
      assert !IsSpace(l[j]) by {
        assert r[|r| - 1] == l[j];
      }
      assert j < body by {
        if j >= body {
          TermIsBreak(l, j);
          BreakIsSpace(l[j]);
        }
      }
      forall k | 0 <= k < |r|
        ensures !IsBreak(r[k])
      {
        assert r[k] == l[i + k];
      }
    }
  }

  /** What the framing step reads off the lines of a non-empty buffer: the
      last line ends in a terminator exactly when there is no fragment, and
      the last complete line sits at the end or just before the fragment. */
  lemma LinesOfBuffer(buf: string)
    requires |buf| > 0
    ensures var lines := SplitLines(buf);
      && |lines| > 0 && |lines[|lines| - 1]| > 0
      && (IsBreak(lines[|lines| - 1][|lines[|lines| - 1]| - 1]) <==> Fragment(buf) == "")
      && (Fragment(buf) != "" ==> lines[|lines| - 1] == Fragment(buf))
      && (Fragment(buf) != "" ==> (|lines| == 1 <==> NoBreak(buf)))
      && (Fragment(buf) != "" && |lines| > 1 ==> BreakEnd(buf) > 0 && lines[|lines| - 2] == LastCompleteLine(buf))
      && (Fragment(buf) == "" ==> BreakEnd(buf) > 0 && lines[|lines| - 1] == LastCompleteLine(buf))
  {
    SplitLinesTail(buf);
    BreakEndZero(buf);
    if Fragment(buf) == "" {
      LastCompleteLineShape(buf);
    }
  }

  /** One framing step over `rem + chunk`. Only an unterminated last line
      replaces the remainder; after a terminated one the old remainder is
      kept, not cleared. Only the last complete line is forwarded, stripped. */
  function FrameStep(rem: string, chunk: string): (r: Result<Framed, FrameError>)
    ensures r.Err? <==> rem + chunk == ""
    ensures r.Ok? ==> r.value.rem == (if Fragment(rem + chunk) == "" then rem else Fragment(rem + chunk))
    ensures r.Ok? ==> (r.value.record.None? <==> NoBreak(rem + chunk))
    ensures r.Ok? && r.value.record.Some? ==>
              && BreakEnd(rem + chunk) > 0
              && r.value.record.value == Strip(LastCompleteLine(rem + chunk))
              && NoBreak(r.value.record.value)
  {
    var buf := rem + chunk;
    var lines := SplitLines(buf);
    if |lines| == 0 then Err(NothingBuffered)
    else
      LinesOfBuffer(buf);
      var last := lines[|lines| - 1];
      var incomplete := !IsBreak(last[|last| - 1]);
      var rem' := if incomplete then last else rem;
      var complete := if incomplete then lines[..|lines| - 1] else lines;
      if |complete| == 0 then Ok(Framed(rem', None))
      else
        LastCompleteLineShape(buf);
        StripCompleteLine(LastCompleteLine(buf));
        Ok(Framed(rem', Some(Strip(complete[|complete| - 1]))))
  }

  lemma {:induction false} BreakEndAtClean(s: string, k: nat)
    requires k <= |s| && NoBreakIn(s, 0, k)
    ensures BreakEndAt(s, k) == 0
    decreases k
  {
    if k > 0 {
      BreakEndAtClean(s, k - 1);
    }
  }

  /** Terminator-free text followed by one terminator is a single complete
      line, with nothing left over. */
  lemma OneTerminatedLine(p: string, term: string)
    requires NoBreak(p)
    requires term == "\n" || term == "\r" || term == "\r\n"
    ensures BreakEnd(p + term) == |p + term| && Fragment(p + term) == ""
    ensures LastCompleteLine(p + term) == p + term
    ensures !NoBreak(p + term)
  {
    var buf := p + term;
    var n, e := |buf|, |p|;
    assert buf[n - 1] == term[|term| - 1];
    assert BreakEnd(buf) == n;
    assert forall i :: 0 <= i < e ==> buf[i] == p[i];
    assert NoBreakIn(buf, 0, e);
    BreakEndAtClean(buf, e);
    assert LastLineStart(buf) == 0;
  }

  /** A line completed by any terminator (`\n`, `\r` or `\r\n`) is
      forwarded with everything buffered before it, and the remainder it
      completed is kept rather than cleared. */
  lemma RemainderKeptAfterLine(rem: string, text: string, term: string)
    requires NoBreak(rem + text)
    requires term == "\n" || term == "\r" || term == "\r\n"
    ensures FrameStep(rem, text + term) == Ok(Framed(rem, Some(Strip(rem + text + term))))
  {
    var buf := rem + (text + term);
    assert buf == (rem + text) + term;
    OneTerminatedLine(rem + text, term);
    var f := FrameStep(rem, text + term);
    assert f.Ok? && f.value.rem == rem;
    assert f.value.record == Some(Strip(buf));
  }
}
