/** Text helpers with Python's meaning: concatenation of pieces, the
    substring test `sub in s`, and `str.strip()` without arguments. */
module Strings {

  /** `"".join(pieces)` */
  function Concat(pieces: seq<string>): string
  {
    if |pieces| == 0 then "" else pieces[0] + Concat(pieces[1..])
  }

  /** The last element of a non-empty sequence (`xs[-1]`). */
  function Last<T>(xs: seq<T>): T
    requires |xs| > 0
  {
    xs[|xs| - 1]
  }

  /** Python's `sub in s` for strings. */
  predicate Contains(s: string, sub: string)
  {
    if |s| < |sub| then false
    else s[..|sub|] == sub || Contains(s[1..], sub)
  }

  /** The characters `str.isspace()` accepts: ASCII tab to carriage return,
      the four information separators, space, and the Unicode separators. */
  predicate IsSpace(c: char)
  {
    || ('\t' <= c <= '\r')
    || ('\U{1C}' <= c <= '\U{1F}')
    || c == ' '
    || c == '\U{85}' || c == '\U{A0}' || c == '\U{1680}'
    || ('\U{2000}' <= c <= '\U{200A}')
    || c == '\U{2028}' || c == '\U{2029}' || c == '\U{202F}'
    || c == '\U{205F}' || c == '\U{3000}'
  }

  /** `s.lstrip()`: the suffix of `s` left after dropping leading whitespace. */
  function TrimStart(s: string): (r: string)
    ensures |r| <= |s| && r == s[|s| - |r|..]
    ensures forall k :: 0 <= k < |s| - |r| ==> IsSpace(s[k])
    ensures r == "" || !IsSpace(r[0])
  {
    if |s| > 0 && IsSpace(s[0]) then TrimStart(s[1..]) else s
  }

  /** `s.rstrip()`: the prefix of `s` left after dropping trailing whitespace. */
  function TrimEnd(s: string): (r: string)
    ensures |r| <= |s| && r == s[..|r|]
    ensures forall k :: |r| <= k < |s| ==> IsSpace(s[k])
    ensures r == "" || !IsSpace(r[|r| - 1])
  {
    if |s| > 0 && IsSpace(s[|s| - 1]) then TrimEnd(s[..|s| - 1]) else s
  }

  /** Where the stripped text starts inside `s`. */
  function StripFrom(s: string): nat
  {
    |s| - |TrimStart(s)|
  }

  /** `s.strip()`: the contiguous part of `s` between leading and trailing
      whitespace, itself neither starting nor ending with whitespace. */
  function Strip(s: string): (r: string)
    ensures StripFrom(s) + |r| <= |s| && r == s[StripFrom(s)..StripFrom(s) + |r|]
    ensures forall k :: 0 <= k < StripFrom(s) ==> IsSpace(s[k])
    ensures forall k :: StripFrom(s) + |r| <= k < |s| ==> IsSpace(s[k])
    ensures r == "" || (!IsSpace(r[0]) && !IsSpace(r[|r| - 1]))
  {
    TrimEnd(TrimStart(s))
  }

  /** Stripping twice strips nothing more. */
  lemma StripIdempotent(s: string)
    ensures Strip(Strip(s)) == Strip(s)
  {
    var r := Strip(s);
    assert TrimStart(r) == r;
    assert TrimEnd(r) == r;
  }
}
