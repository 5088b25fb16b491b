/** The delimiter tokenizer `multisplit` (a generator that cuts a string at
    every delimiter character and keeps empty pieces) and Python's
    single-character `str.split`, which behaves the same. */
module Tokenizer {
  import opened Strings

  /** No character of `p` is a delimiter. */
  predicate Free(p: string, delims: string)
  {
    forall i :: 0 <= i < |p| ==> p[i] !in delims
  }

  /** The delimiter characters of `s`, in the order they occur. */
  function DelimsOf(s: string, delims: string): (ds: string)
    ensures forall i :: 0 <= i < |ds| ==> ds[i] in delims
    ensures |ds| == 0 <==> Free(s, delims)
  {
    if |s| == 0 then ""
    else
      var init := DelimsOf(s[..|s| - 1], delims);
      assert forall i :: 0 <= i < |s| - 1 ==> s[..|s| - 1][i] == s[i];
      if s[|s| - 1] in delims then init + [s[|s| - 1]] else init
  }

  /** The pieces `multisplit(s, delims)` yields: one more than the number of
      delimiters in `s`, none of them holding a delimiter. */
  function MultiSplit(s: string, delims: string): (r: seq<string>)
    ensures |r| == |DelimsOf(s, delims)| + 1
    ensures forall k :: 0 <= k < |r| ==> Free(r[k], delims)
  {
    if |s| == 0 then [""]
    else
      var init := MultiSplit(s[..|s| - 1], delims);
      var c := s[|s| - 1];
      if c in delims then init + [""]
      else init[..|init| - 1] + [init[|init| - 1] + [c]]
  }

  /** The pieces joined again, `seps[i]` placed between piece i and i + 1. */
  function Weave(pieces: seq<string>, seps: string): string
    requires |pieces| == |seps| + 1
  {
    if |seps| == 0 then pieces[0]
    else Weave(pieces[..|pieces| - 1], seps[..|seps| - 1]) + [seps[|seps| - 1]] + pieces[|pieces| - 1]
  }

  lemma WeaveExtendLast(pieces: seq<string>, seps: string, x: string)
    requires |pieces| == |seps| + 1
    ensures Weave(pieces[..|pieces| - 1] + [pieces[|pieces| - 1] + x], seps) == Weave(pieces, seps) + x
  {
    var ps := pieces[..|pieces| - 1] + [pieces[|pieces| - 1] + x];
    if |seps| > 0 {
      assert ps[..|ps| - 1] == pieces[..|pieces| - 1];
    }
  }

  /** Joining the pieces with the original delimiters gives back `s`. */
  lemma {:induction false} MultiSplitWeave(s: string, delims: string)
    ensures Weave(MultiSplit(s, delims), DelimsOf(s, delims)) == s
  {
    if |s| > 0 {
      var t, c := s[..|s| - 1], s[|s| - 1];
      assert s == t + [c];
      var init, ds := MultiSplit(t, delims), DelimsOf(t, delims);
      MultiSplitWeave(t, delims);
      if c in delims {
        assert (init + [""])[..|init|] == init;
      } else {
        WeaveExtendLast(init, ds, [c]);
      }
    }
  }

  lemma {:induction false} DelimsOfAppend(a: string, b: string, delims: string)
    ensures DelimsOf(a + b, delims) == DelimsOf(a, delims) + DelimsOf(b, delims)
    decreases |b|
  {
    if |b| == 0 {
      assert a + b == a;
    } else {
      var b' := b[..|b| - 1];
      assert (a + b)[..|a + b| - 1] == a + b';
      DelimsOfAppend(a, b', delims);
    }
  }

  /** A string without delimiters is a single piece. */
  lemma {:induction false} MultiSplitFree(s: string, delims: string)
    requires Free(s, delims)
    ensures MultiSplit(s, delims) == [s]
  {
    if |s| > 0 {
      var t := s[..|s| - 1];
      assert Free(t, delims) by {
        assert forall i :: 0 <= i < |t| ==> t[i] == s[i];
      }
      MultiSplitFree(t, delims);
      assert t + [s[|s| - 1]] == s;
    }
  }

  /** Cutting at one delimiter splits the pieces in two. */
  lemma {:induction false} MultiSplitAtDelim(a: string, d: char, b: string, delims: string)
    requires d in delims
    ensures MultiSplit(a + [d] + b, delims) == MultiSplit(a, delims) + MultiSplit(b, delims)
    decreases |b|
  {
    if |b| == 0 {
      assert a + [d] + b == a + [d];
      assert (a + [d])[..|a|] == a;
    } else {
      var b', c := b[..|b| - 1], b[|b| - 1];
      assert b == b' + [c];
      assert a + [d] + b == (a + [d] + b') + [c];
      MultiSplitAtDelim(a, d, b', delims);
      MultiSplitSnoc(a + [d] + b', c, delims);
      MultiSplitSnoc(b', c, delims);
      ExtendLastOfConcat(MultiSplit(a, delims), MultiSplit(b', delims), c);
    }
  }

  lemma ExtendLastOfConcat(pa: seq<string>, pb: seq<string>, c: char)
    requires |pb| >= 1
    ensures var init := pa + pb;
            && init + [""] == pa + (pb + [""])
            && init[..|init| - 1] + [init[|init| - 1] + [c]] == pa + (pb[..|pb| - 1] + [pb[|pb| - 1] + [c]])
  {
    var init := pa + pb;
    assert init[..|init| - 1] == pa + pb[..|pb| - 1];
  }

  lemma DelimsOfAtDelim(a: string, d: char, b: string, delims: string)
    requires d in delims && Free(b, delims)
    ensures DelimsOf(a + [d] + b, delims) == DelimsOf(a, delims) + [d]
  {
    DelimsOfAppend(a + [d], b, delims);
    DelimsOfAppend(a, [d], delims);
    assert DelimsOf([d], delims) == [d] by {
      assert [d][..0] == "";
    }
  }

  /** The pieces are the only delimiter-free sequence that weaves back into `s`. */
  lemma {:induction false} MultiSplitUnique(s: string, delims: string, pieces: seq<string>)
    requires |pieces| == |DelimsOf(s, delims)| + 1
    requires forall k :: 0 <= k < |pieces| ==> Free(pieces[k], delims)
    requires Weave(pieces, DelimsOf(s, delims)) == s
    ensures pieces == MultiSplit(s, delims)
    decreases |pieces|
  {
    var ds := DelimsOf(s, delims);
    if |ds| == 0 {
      MultiSplitFree(s, delims);
    } else {
      var n, m := |pieces|, |ds|;
      var a, d, b := Weave(pieces[..n - 1], ds[..m - 1]), ds[m - 1], pieces[n - 1];
      assert s == a + [d] + b;
      DelimsOfAtDelim(a, d, b, delims);
      assert DelimsOf(a, delims) == ds[..m - 1];
      MultiSplitUnique(a, delims, pieces[..n - 1]);
      MultiSplitAtDelim(a, d, b, delims);
      MultiSplitFree(b, delims);
      assert pieces == pieces[..n - 1] + [b];
    }
  }

  /** One more character: a delimiter opens a new empty piece, any other
      character extends the last piece. */
  lemma MultiSplitSnoc(t: string, c: char, delims: string)
    ensures var init := MultiSplit(t, delims);
            MultiSplit(t + [c], delims)
            == if c in delims then init + [""] else init[..|init| - 1] + [init[|init| - 1] + [c]]
  {
    assert (t + [c])[..|t|] == t;
  }

  /** One iteration of the scan keeps its pieces in step with `MultiSplit`:
      `piece` is the text since the last delimiter. */
  lemma ScanStep(t: string, c: char, pieces: seq<string>, piece: string, delims: string)
    requires pieces + [piece] == MultiSplit(t, delims)
    ensures c in delims ==> (pieces + [piece]) + [""] == MultiSplit(t + [c], delims)
    ensures c !in delims ==> pieces + [piece + [c]] == MultiSplit(t + [c], delims)
  {
    MultiSplitSnoc(t, c, delims);
    var init := pieces + [piece];
    assert init[..|init| - 1] == pieces && init[|init| - 1] == piece;
  }

  /** One pass of the scan below, in its own indices. */
  lemma ScanAt(s: string, i: nat, pos: nat, pieces: seq<string>, delims: string)
    requires pos <= i < |s|
    requires pieces + [s[pos..i]] == MultiSplit(s[..i], delims)
    ensures s[i] in delims ==> (pieces + [s[pos..i]]) + [s[i + 1..i + 1]] == MultiSplit(s[..i + 1], delims)
    ensures s[i] !in delims ==> pieces + [s[pos..i + 1]] == MultiSplit(s[..i + 1], delims)
  {
    var t, c, piece := s[..i], s[i], s[pos..i];
    assert t + [c] == s[..i + 1];
    assert piece + [c] == s[pos..i + 1];
    ScanStep(t, c, pieces, piece, delims);
    assert s[i + 1..i + 1] == "";
  }

  /** `multisplit` as written: a scan that emits `s[pos:i]` at every
      delimiter and finally the tail `s[pos:]`. */
  method MultiSplitScan(s: string, delims: string) returns (pieces: seq<string>)
    ensures pieces == MultiSplit(s, delims)
  {
    pieces := [];
    var pos := 0;
    var i := 0;
    while i < |s|
      invariant 0 <= pos <= i <= |s|
      invariant pieces + [s[pos..i]] == MultiSplit(s[..i], delims)
    {
      ScanAt(s, i, pos, pieces, delims);
      if s[i] in delims {
        pieces := pieces + [s[pos..i]];
        pos := i + 1;
      }
      i := i + 1;
    }
    assert s[..i] == s;
    pieces := pieces + [s[pos..]];
  }

  /** Python's `s.split(sep)` for a one-character separator. */
  function Split(s: string, sep: char): seq<string>
  {
    MultiSplit(s, [sep])
  }

  /** `list(filter(None, pieces))`: the non-empty pieces in order. */
  function NonEmpty(pieces: seq<string>): (r: seq<string>)
    ensures forall k :: 0 <= k < |r| ==> r[k] != "" && r[k] in pieces
    ensures Concat(r) == Concat(pieces)
    ensures |r| <= |pieces|
    ensures |pieces| == 1 ==> r == (if pieces[0] == "" then [] else pieces)
  {
    if |pieces| == 0 then []
    else
      var rest := NonEmpty(pieces[1..]);
      assert Concat(pieces) == pieces[0] + Concat(pieces[1..]);
      if pieces[0] == "" then rest else [pieces[0]] + rest
  }

  /** Filtering distributes over concatenation: together with the one-piece
      case above this fixes the result as every non-empty piece, in order. */
  lemma {:induction false} NonEmptyAppend(a: seq<string>, b: seq<string>)
    ensures NonEmpty(a + b) == NonEmpty(a) + NonEmpty(b)
  {
    if |a| == 0 {
      assert a + b == b;
    } else {
      assert (a + b)[0] == a[0];
      assert (a + b)[1..] == a[1..] + b;
      NonEmptyAppend(a[1..], b);
    }
  }

  /** A piece is kept exactly when it is non-empty, and the kept pieces keep
      their relative order: the result is the input with the empty pieces
      cut out. */
  lemma NonEmptyKeeps(pieces: seq<string>, i: nat)
    requires i < |pieces|
    ensures NonEmpty(pieces) == NonEmpty(pieces[..i]) + NonEmpty([pieces[i]]) + NonEmpty(pieces[i + 1..])
    ensures pieces[i] != "" ==> NonEmpty(pieces)[|NonEmpty(pieces[..i])|] == pieces[i]
  {
    assert pieces == pieces[..i] + ([pieces[i]] + pieces[i + 1..]);
    NonEmptyAppend(pieces[..i], [pieces[i]] + pieces[i + 1..]);
    NonEmptyAppend([pieces[i]], pieces[i + 1..]);
  }
}
