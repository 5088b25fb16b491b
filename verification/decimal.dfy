/** Python's `str()` of an integer: optional `-`, then decimal digits with no
    leading zero. Used for the values and event numbers written into command
    texts. */
module Decimal {
  import opened Wrappers

  predicate IsDigit(c: char)
  {
    '0' <= c <= '9'
  }

  predicate AllDigits(s: string)
  {
    forall i :: 0 <= i < |s| ==> IsDigit(s[i])
  }

  function DigitChar(d: nat): (c: char)
    requires d < 10
    ensures IsDigit(c)
  {
    "0123456789"[d]
  }

  function DigitValue(c: char): (d: nat)
    requires IsDigit(c)
    ensures d < 10
  {
    (c as int - '0' as int) as nat
  }

  /** A numeral as `str()` writes it: at least one digit, and no leading
      zero unless the numeral is `0` itself. */
  predicate Canonical(s: string)
  {
    |s| >= 1 && AllDigits(s) && (|s| > 1 ==> s[0] != '0')
  }

  /** The decimal numeral of `n`, most significant digit first. */
  function NatToText(n: nat): (s: string)
    ensures Canonical(s)
    ensures s[0] == '0' <==> n == 0
  {
    if n < 10 then [DigitChar(n)]
    else NatToText(n / 10) + [DigitChar(n % 10)]
  }

  /** `str(i)` for an integer `i`. */
  function IntToText(i: int): (s: string)
    ensures |s| >= 1
    ensures s[0] == '-' <==> i < 0
  {
    if i < 0 then "-" + NatToText(-i) else NatToText(i)
  }

  /** The value of a string of digits, read most significant first. */
  function DigitsValue(s: string): nat
    requires AllDigits(s)
  {
    if |s| == 0 then 0
    else DigitsValue(s[..|s| - 1]) * 10 + DigitValue(s[|s| - 1])
  }

  /** Reads a numeral as `str()` writes one: a canonical numeral, or `-`
      followed by a canonical numeral other than `0`. Anything else,
      including `08` and `-0`, is refused. */
  function ParseIntText(s: string): (r: Option<int>)
    ensures r.Some? ==> |s| >= 1
    ensures r.Some? && r.value < 0 ==> s[0] == '-'
  {
    if |s| >= 2 && s[0] == '-' && Canonical(s[1..]) && s[1] != '0' then Some(-(DigitsValue(s[1..]) as int))
    else if Canonical(s) then Some(DigitsValue(s))
    else None
  }

  lemma DigitRoundTrip(d: nat)
    requires d < 10
    ensures DigitValue(DigitChar(d)) == d
  {
  }

  lemma DigitCharOfValue(c: char)
    requires IsDigit(c)
    ensures DigitChar(DigitValue(c)) == c
  {
    assert c in "0123456789";
  }

  /** A numeral whose first digit is not zero has a positive value. */
  lemma {:induction false} LeadingDigitPositive(s: string)
    requires |s| >= 1 && AllDigits(s) && s[0] != '0'
    ensures DigitsValue(s) >= 1
    decreases |s|
  {
    if |s| > 1 {
      LeadingDigitPositive(s[..|s| - 1]);
    }
  }

  /** Every canonical numeral is the text of its own value. */
  lemma {:induction false} CanonicalRoundTrip(s: string)
    requires Canonical(s)
    ensures NatToText(DigitsValue(s)) == s
    decreases |s|
  {
    var init, d := s[..|s| - 1], DigitValue(s[|s| - 1]);
    if |s| == 1 {
      DigitCharOfValue(s[0]);
      assert s == [s[0]];
    } else {
      assert Canonical(init) && init[0] == s[0];
      LeadingDigitPositive(init);
      CanonicalRoundTrip(init);
      var v := DigitsValue(s);
      assert v / 10 == DigitsValue(init) && v % 10 == d;
      DigitCharOfValue(s[|s| - 1]);
      assert s == init + [s[|s| - 1]];
    }
  }

  lemma {:induction false} NatTextRoundTrip(n: nat)
    ensures DigitsValue(NatToText(n)) == n
    decreases n
  {
    var s := NatToText(n);
    if n < 10 {
      DigitRoundTrip(n);
      assert s[..0] == "";
    } else {
      NatTextRoundTrip(n / 10);
      DigitRoundTrip(n % 10);
      assert s[..|s| - 1] == NatToText(n / 10);
    }
  }

  lemma NatTextParses(n: nat)
    ensures ParseIntText(IntToText(n)) == Some(n)
  {
    assert IntToText(n) == NatToText(n);
    var s := NatToText(n);
    NatTextRoundTrip(n);
    assert IsDigit(s[0]);
  }

  lemma NegativeTextParses(n: nat)
    requires n > 0
    ensures ParseIntText(IntToText(-(n as int))) == Some(-(n as int))
  {
    assert IntToText(-(n as int)) == "-" + NatToText(n);
    var t := NatToText(n);
    var s := "-" + t;
    NatTextRoundTrip(n);
    assert s[1..] == t;
    assert AllDigits(s[1..]);
  }

  /** `str` and the integer reading of the same text are inverse. */
  lemma IntTextRoundTrip(i: int)
    ensures ParseIntText(IntToText(i)) == Some(i)
  {
    if i < 0 {
      NegativeTextParses(-i);
    } else {
      NatTextParses(i);
    }
  }

  /** The converse: a text the reading accepts is exactly `str()` of the
      value read, so no other spelling of a number (`08`, `-0`, `+8`) is
      taken for it. */
  lemma ParsedTextIsCanonical(s: string, i: int)
    requires ParseIntText(s) == Some(i)
    ensures s == IntToText(i)
  {
    if |s| >= 2 && s[0] == '-' && Canonical(s[1..]) && s[1] != '0' {
      NegativeIsCanonical(s);
    } else {
      assert Canonical(s) && i == DigitsValue(s);
      CanonicalRoundTrip(s);
    }
  }

  lemma NegativeIsCanonical(s: string)
    requires |s| >= 2 && s[0] == '-' && Canonical(s[1..]) && s[1] != '0'
    ensures s == IntToText(-(DigitsValue(s[1..]) as int))
  {
    var t := s[1..];
    LeadingDigitPositive(t);
    CanonicalRoundTrip(t);
    assert s == "-" + t;
  }

  /** Spellings `str()` never produces are refused. */
  lemma NonCanonicalRefused()
    ensures ParseIntText("08") == None && ParseIntText("-0") == None
    ensures ParseIntText("") == None && ParseIntText("-") == None
  {
  }

  /** Different integers have different texts. */
  lemma IntTextInjective(i: int, j: int)
    requires IntToText(i) == IntToText(j)
    ensures i == j
  {
    IntTextRoundTrip(i);
    IntTextRoundTrip(j);
  }
}
