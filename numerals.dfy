/** Decimal numerals: Python's `int()` applied to a `str`, and the decimal
    form of a natural number. */
module Numerals {
  import opened Wrappers
  import opened Text

  predicate IsDigit(c: char) { '0' <= c <= '9' }

  predicate AllDigits(d: string) {
    forall k :: 0 <= k < |d| ==> IsDigit(d[k])
  }

  function DigitChar(n: nat): (c: char)
    requires n < 10
    ensures IsDigit(c)
  {
    ('0' as int + n) as char
  }

  /** The number a string of decimal digits denotes (leading zeros allowed). */
  function DigitsValue(d: string): nat
    requires AllDigits(d)
  {
    if |d| == 0 then 0
    else DigitsValue(d[..|d| - 1]) * 10 + (d[|d| - 1] as int - '0' as int)
  }

  /** The decimal form of `n`, without leading zeros: `str(n)`. */
  function Show(n: nat): (r: string)
    ensures |r| > 0 && AllDigits(r)
    ensures DigitsValue(r) == n
  {
    if n < 10 then [DigitChar(n)]
    else
      var r := Show(n / 10) + [DigitChar(n % 10)];
      assert r[..|r| - 1] == Show(n / 10);
      r
  }

  /** Digits with single underscores between them: the body of a numeral
      Python's `int()` accepts. */
  predicate IsDigitRun(t: string) {
    && |t| > 0 && IsDigit(t[0]) && IsDigit(t[|t| - 1])
    && (forall k :: 0 <= k < |t| ==> IsDigit(t[k]) || t[k] == '_')
    && (forall k :: 0 <= k < |t| - 1 ==> t[k] != '_' || t[k + 1] != '_')
  }

  function RunValue(t: string): nat
    requires IsDigitRun(t)
  {
    var d := RemoveChar(t, '_');
    assert forall k :: 0 <= k < |d| ==> d[k] in d;
    DigitsValue(d)
  }

  /** The limit CPython (from 3.11 on) puts by default on the number of
      digits `int()` converts from a `str` and `str()` writes for an `int`;
      past it both raise `ValueError`. */
  const MaxStrDigits: nat := 4300

  function Pow10(k: nat): (r: nat)
    ensures r >= 1
  {
    if k == 0 then 1 else 10 * Pow10(k - 1)
  }

  /** `str(n)` has at most k digits exactly when n < 10^k. */
  lemma {:induction false} ShowLength(n: nat, k: nat)
    requires k >= 1
    ensures |Show(n)| <= k <==> n < Pow10(k)
  {
    if n >= 10 {
      assert |Show(n)| == |Show(n / 10)| + 1;
      if k == 1 {
        assert Pow10(1) == 10;
      } else {
        ShowLength(n / 10, k - 1);
        assert n / 10 < Pow10(k - 1) <==> n < 10 * Pow10(k - 1);
      }
    } else {
      assert Pow10(k) >= 10 by {
        assert Pow10(k) == 10 * Pow10(k - 1);
      }
    }
  }

  /** A digit run `int()` converts: at most `MaxStrDigits` digits, the
      underscores not counted. */
  predicate IsNumeralBody(t: string) {
    IsDigitRun(t) && |RemoveChar(t, '_')| <= MaxStrDigits
  }

  /** The information separators U+001C to U+001F: blanks to `str.isspace()`
      and `strip()`, but not to `int()`, which among the ASCII characters
      skips only 9 to 13 and 32. */
  predicate IsInformationSeparator(c: char) {
    0x1C <= c as int <= 0x1F
  }

  /** `int(s)` for a `str` argument: surrounding whitespace is ignored, an
      optional sign may lead, and `None` stands for the `ValueError` raised
      on anything else, including the empty and the all-blank string. An
      information separator is no digit and is not skipped as a blank, so it
      makes `int()` fail wherever it stands. So does a numeral of more than
      `MaxStrDigits` digits. */
  function ParseInt(s: string): (r: Option<int>)
    ensures AllSpace(s) ==> r == None
    ensures (exists k :: 0 <= k < |s| && IsInformationSeparator(s[k])) ==> r == None
  {
    if exists k :: 0 <= k < |s| && IsInformationSeparator(s[k]) then None
    else
      var t := Strip(s);
      if |t| > 0 && (t[0] == '+' || t[0] == '-') then
        if IsNumeralBody(t[1..]) then
          var m: int := RunValue(t[1..]);
          Some(if t[0] == '-' then -m else m)
        else None
      else if IsNumeralBody(t) then Some(RunValue(t))
      else None
  }

  /** A character that is neither digit, sign, underscore nor blank makes
      `int()` fail wherever it stands; a thousands separator is one. */
  lemma ParseIntRejects(s: string, k: nat)
    requires k < |s| && !IsDigit(s[k]) && !IsSpace(s[k]) && s[k] !in "_+-"
    ensures ParseInt(s) == None
  {
    StripKeeps(s, k);
    var t := Strip(s);
    var j :| 0 <= j < |t| && t[j] == s[k];
    if |t| > 0 && (t[0] == '+' || t[0] == '-') {
      assert t[1..][j - 1] == s[k];
    }
  }

  /** `int()` succeeds only on a string holding a decimal digit. */
  lemma ParseIntHasDigit(s: string)
    requires ParseInt(s).Some?
    ensures exists k :: 0 <= k < |s| && IsDigit(s[k])
  {
    var t := Strip(s);
    var j := if t[0] == '+' || t[0] == '-' then 1 else 0;
    assert IsDigit(t[j]);
    assert t[j] in t;
  }

  /** An information separator anywhere, even among the leading or trailing
      blanks, makes `int()` fail. */
  lemma ParseIntRejectsInformationSeparator(s: string, k: nat)
    requires k < |s| && IsInformationSeparator(s[k])
    ensures ParseInt(s) == None
  {
  }

  /** A run of more than `MaxStrDigits` decimal digits makes `int()` fail,
      whatever surrounds it. */
  lemma ParseIntTooManyDigits(s: string)
    requires AllDigits(Strip(s)) && |Strip(s)| > MaxStrDigits
    ensures ParseInt(s) == None
  {
    var t := Strip(s);
    if !exists k :: 0 <= k < |s| && IsInformationSeparator(s[k]) {
      assert t[0] != '+' && t[0] != '-' by {
        assert IsDigit(t[0]);
      }
      assert !IsNumeralBody(t) by {
        assert '_' !in t;
        assert RemoveChar(t, '_') == t;
      }
    }
  }

  /** `int()` reads back a run of at most `MaxStrDigits` decimal digits,
      whatever blanks other than the information separators surround it. */
  lemma ParseIntDigits(s: string, d: string)
    requires |d| > 0 && AllDigits(d) && Strip(s) == d && |d| <= MaxStrDigits
    requires forall k :: 0 <= k < |s| ==> !IsInformationSeparator(s[k])
    ensures ParseInt(s) == Some(DigitsValue(d))
  {
    assert d[0] != '+' && d[0] != '-' by {
      assert IsDigit(d[0]);
    }
    assert RemoveChar(d, '_') == d by {
      assert '_' !in d;
    }
    assert IsNumeralBody(d);
  }

  /** `int(str(n)) == n` for every n of at most `MaxStrDigits` digits, the
      numbers `str()` converts (by `ShowLength`, those below 10^4300). */
  lemma ParseShow(n: nat)
    requires |Show(n)| <= MaxStrDigits
    ensures ParseInt(Show(n)) == Some(n)
  {
    var d := Show(n);
    assert IsStripped(d) by {
      assert IsDigit(d[0]) && IsDigit(d[|d| - 1]);
    }
    ParseIntDigits(d, d);
  }

  /** `int()` reads a minus sign followed by a run of at most `MaxStrDigits`
      decimal digits as the negated value of the digits. */
  lemma ParseIntNegativeDigits(m: string)
    requires |m| > 1 && m[0] == '-' && AllDigits(m[1..]) && |m| - 1 <= MaxStrDigits
    ensures ParseInt(m) == Some(-(DigitsValue(m[1..]) as int))
  {
    var d := m[1..];
    assert m[|m| - 1] == d[|d| - 1];
    assert Strip(m) == m;
    assert IsDigitRun(d);
    assert RemoveChar(d, '_') == d;
  }

  /** `(a + b) // 2`: the sum halved with Python's floor division. */
  function FloorMean(a: int, b: int): (m: int)
    ensures 2 * m <= a + b < 2 * m + 2
    ensures a <= b ==> a <= m <= b
  {
    (a + b) / 2
  }

  /** A part divided by a non-zero whole gives back the part when multiplied
      by the whole, is 1 when the part is the whole, and lies in [0, 1] when
      the part lies in [0, whole]. */
  lemma ShareOfTotal(part: real, whole: real)
    requires whole != 0.0
    ensures (part / whole) * whole == part
    ensures part == whole ==> part / whole == 1.0
    ensures 0.0 <= part <= whole ==> 0.0 <= part / whole <= 1.0
  {
    var q := part / whole;
    assert q * whole == part;
  }
}
