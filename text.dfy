/** String helpers: substring search (Python's `w in s`) and decimal digits. */
module Text {

  /** `w` occurs in `s` as a contiguous substring, like Python's `w in s`. */
  predicate Contains(s: string, w: string)
    decreases |s|
  {
    |w| <= |s| && (w <= s || Contains(s[1..], w))
  }

  lemma ContainsItself(w: string, t: string)
    ensures Contains(w + t, w)
  {
    assert w <= w + t;
  }

  /** A substring of the tail is a substring of the whole. */
  lemma {:induction false} ContainsAfter(p: string, t: string, w: string)
    requires Contains(t, w)
    ensures Contains(p + t, w)
  {
    if p == [] {
      assert p + t == t;
    } else {
      assert |w| <= |t|;
      assert (p + t)[1..] == p[1..] + t;
      ContainsAfter(p[1..], t, w);
    }
  }

  /** A substring of the head is a substring of the whole. */
  lemma {:induction false} ContainsBefore(s: string, t: string, w: string)
    requires Contains(s, w)
    ensures Contains(s + t, w)
  {
    if w <= s {
      assert w <= s + t;
    } else {
      assert (s + t)[1..] == s[1..] + t;
      ContainsBefore(s[1..], t, w);
    }
  }

  /** A word that holds a character the text lacks never occurs in that text. */
  lemma {:induction false} MissingCharNotContained(s: string, w: string, k: nat)
    requires k < |w|
    requires forall i :: 0 <= i < |s| ==> s[i] != w[k]
    ensures !Contains(s, w)
  {
    if |w| <= |s| {
      assert !(w <= s) by {
        assert s[k] != w[k];
      }
      MissingCharNotContained(s[1..], w, k);
    }
  }

  /**
   * Every 'y' in `s` is followed, inside `s`, by something other than 'e',
   * and `s` has no 'h': such a text cannot hold "year", "years", "month"
   * or "months".
   */
  ghost predicate FreeOfYearAndMonth(s: string)
  {
    (forall i :: 0 <= i < |s| ==> s[i] != 'h') &&
    (forall i :: 0 <= i < |s| && s[i] == 'y' ==> i + 1 < |s| && s[i + 1] != 'e')
  }

  lemma FreeOfYearAndMonthConcat(a: string, b: string)
    requires FreeOfYearAndMonth(a) && FreeOfYearAndMonth(b)
    ensures FreeOfYearAndMonth(a + b)
  {
    var c := a + b;
    forall i | 0 <= i < |c| && c[i] == 'y'
      ensures i + 1 < |c| && c[i + 1] != 'e'
    {
      if i < |a| {
        assert c[i] == a[i];
        assert c[i + 1] == a[i + 1];
      } else {
        assert c[i] == b[i - |a|];
        assert c[i + 1] == b[i - |a| + 1];
      }
    }
  }

  /** A word that starts with "ye" never occurs in a text free of "ye". */
  lemma {:induction false} NoYeNotContained(s: string, w: string)
    requires FreeOfYearAndMonth(s)
    requires |w| >= 2 && w[0] == 'y' && w[1] == 'e'
    ensures !Contains(s, w)
  {
    if |w| <= |s| {
      assert !(w <= s) by {
        if s[0] == 'y' { assert s[1] != 'e'; }
      }
      var u := s[1..];
      assert FreeOfYearAndMonth(u) by {
        forall i | 0 <= i < |u| && u[i] == 'y'
          ensures i + 1 < |u| && u[i + 1] != 'e'
        {
          assert u[i] == s[i + 1];
          assert u[i + 1] == s[i + 2];
        }
      }
      NoYeNotContained(u, w);
    }
  }

  /** None of the four time-unit words occurs in a text free of them. */
  lemma FreeOfYearAndMonthNotContained(s: string)
    requires FreeOfYearAndMonth(s)
    ensures !Contains(s, "year") && !Contains(s, "years")
    ensures !Contains(s, "month") && !Contains(s, "months")
  {
    NoYeNotContained(s, "year");
    NoYeNotContained(s, "years");
    MissingCharNotContained(s, "month", 4);
    MissingCharNotContained(s, "months", 4);
  }

  predicate IsDigit(c: char)
  {
    '0' <= c <= '9'
  }

  function DigitChar(d: int): (c: char)
    requires 0 <= d < 10
    ensures IsDigit(c)
  {
    ('0' as int + d) as char
  }

  function DigitValue(c: char): (d: int)
    requires IsDigit(c)
    ensures 0 <= d < 10 && DigitChar(d) == c
  {
    (c - '0') as int
  }

  lemma DigitValueOfChar(d: int)
    requires 0 <= d < 10
    ensures DigitValue(DigitChar(d)) == d
  {
  }

  /** The decimal form of `n`, without leading zeros (Python's `str(n)`). */
  function NatToString(n: nat): (r: string)
    ensures r != []
    ensures forall i :: 0 <= i < |r| ==> IsDigit(r[i])
    decreases n
  {
    if n < 10 then [DigitChar(n)] else NatToString(n / 10) + [DigitChar(n % 10)]
  }

  /** Python's `str(i)` for any integer: a minus sign before the digits of a negative number. */
  function IntToString(i: int): string
  {
    if i < 0 then "-" + NatToString(-i) else NatToString(i)
  }

  /** The value of a string of decimal digits. */
  function DigitsValue(s: string): nat
    requires forall i :: 0 <= i < |s| ==> IsDigit(s[i])
  {
    if s == [] then 0 else DigitsValue(s[..|s| - 1]) * 10 + DigitValue(s[|s| - 1])
  }

  /** Reading back the digits of `n` gives `n`. */
  lemma {:induction false} NatToStringRoundTrip(n: nat)
    ensures DigitsValue(NatToString(n)) == n
  {
    var r := NatToString(n);
    if n >= 10 {
      assert r[..|r| - 1] == NatToString(n / 10);
      NatToStringRoundTrip(n / 10);
    }
  }

  /** Different numbers have different decimal forms. */
  lemma NatToStringInjective(a: nat, b: nat)
    ensures NatToString(a) == NatToString(b) <==> a == b
  {
    NatToStringRoundTrip(a);
    NatToStringRoundTrip(b);
  }

  /** Digits hold neither "year" nor "month". */
  lemma DigitsFree(s: string)
    requires forall i :: 0 <= i < |s| ==> IsDigit(s[i])
    ensures FreeOfYearAndMonth(s)
  {
  }
}
