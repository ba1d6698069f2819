/**
 ASCII decimal numerals as Python's `str.isdigit`, `int(...)` and `str(...)`
 treat them, restricted to the digits '0'..'9'.
 */
module Decimal {

  predicate IsDigit(c: char) {
    '0' <= c <= '9'
  }

  /** Python's `s.isdigit()` on ASCII text: non-empty and made of digits only. */
  predicate AllDigits(s: string)
    ensures AllDigits(s) <==> |s| > 0 && forall c :: c in s ==> IsDigit(c)
  {
    |s| > 0 && forall i :: 0 <= i < |s| ==> IsDigit(s[i])
  }

  function DigitValue(c: char): (d: nat)
    requires IsDigit(c)
    ensures d < 10
  {
    c as int - '0' as int
  }

  function DigitChar(d: nat): (c: char)
    requires d < 10
    ensures IsDigit(c) && DigitValue(c) == d
  {
    ('0' as int + d) as char
  }

  /** 10 to the power k. */
  function Pow10(k: nat): nat {
    if k == 0 then 1 else 10 * Pow10(k - 1)
  }

  /**
   The value of a (possibly empty) run of digits, most significant first: it
   has at most |s| digits, and exactly |s| when the first is not `0`.
   */
  function ParseDigits(s: string): (d: nat)
    requires forall i :: 0 <= i < |s| ==> IsDigit(s[i])
    ensures d < Pow10(|s|)
    ensures |s| > 0 && s[0] != '0' ==> Pow10(|s| - 1) <= d
  {
    if |s| == 0 then 0
    else ParseDigits(s[..|s| - 1]) * 10 + DigitValue(s[|s| - 1])
  }

  /** Python's `int(s)` for a string that passed `s.isdigit()`; leading zeros are accepted. */
  function Parse(s: string): (n: nat)
    requires AllDigits(s)
    ensures n < Pow10(|s|)
    ensures s[0] != '0' ==> Pow10(|s| - 1) <= n
  {
    ParseDigits(s)
  }

  /** Appending a digit shifts every earlier digit one place up. */
  lemma Shift(v: int, w: int, q: int, last: int)
    ensures (v * w + q) * 10 + last == v * (10 * w) + (q * 10 + last)
  {
  }

  /** The first digit weighs 10^(|s|-1): digits are read most significant first. */
  lemma {:induction false} ParseFront(s: string)
    requires |s| > 0 && forall i :: 0 <= i < |s| ==> IsDigit(s[i])
    ensures ParseDigits(s) == DigitValue(s[0]) * Pow10(|s| - 1) + ParseDigits(s[1..])
    decreases |s|
  {
    var p := s[..|s| - 1];
    var last := DigitValue(s[|s| - 1]);
    if |p| == 0 {
      assert s[1..] == [];
    } else {
      ParseFront(p);
      assert s[1..][..|s[1..]| - 1] == p[1..];
      assert ParseDigits(s[1..]) == ParseDigits(p[1..]) * 10 + last;
      var v, w, q := DigitValue(s[0]), Pow10(|p| - 1), ParseDigits(p[1..]);
      assert p[0] == s[0];
      assert Pow10(|s| - 1) == 10 * w;
      Shift(v, w, q, last);
      assert ParseDigits(p) == v * w + q;
    }
  }

  /** Python's `str(n)` for a non-negative integer: no sign, no leading zero. */
  function Show(n: nat): (s: string)
    ensures AllDigits(s)
    ensures s[0] == '0' <==> n == 0
    decreases n
  {
    if n < 10 then [DigitChar(n)]
    else Show(n / 10) + [DigitChar(n % 10)]
  }

  /** `int(str(n)) == n`. */
  lemma {:induction false} ParseShow(n: nat)
    ensures Parse(Show(n)) == n
    decreases n
  {
    var s := Show(n);
    if n < 10 {
      assert s == [DigitChar(n)] && s[..|s| - 1] == [];
      assert ParseDigits(s) == ParseDigits([]) * 10 + DigitValue(DigitChar(n));
    } else {
      assert s[..|s| - 1] == Show(n / 10);
      assert s[|s| - 1] == DigitChar(n % 10);
      ParseShow(n / 10);
    }
  }

  /** A numeral with no leading zero (or "0" itself) has a positive value unless it is "0". */
  lemma {:induction false} ParsePositive(s: string)
    requires AllDigits(s) && s[0] != '0'
    ensures Parse(s) > 0
    decreases |s|
  {
    if |s| > 1 {
      var p := s[..|s| - 1];
      assert p[0] == s[0];
      ParsePositive(p);
    }
  }

  /** `str(int(s)) == s` for every canonical numeral: the other half of the round trip. */
  lemma {:induction false} ShowParse(s: string)
    requires AllDigits(s)
    requires s[0] != '0' || |s| == 1
    ensures Show(Parse(s)) == s
    decreases |s|
  {
    if |s| > 1 {
      var p := s[..|s| - 1];
      assert p[0] == s[0];
      ParsePositive(p);
      ShowParse(p);
      var n := Parse(s);
      assert n == Parse(p) * 10 + DigitValue(s[|s| - 1]);
      assert n / 10 == Parse(p) && n % 10 == DigitValue(s[|s| - 1]);
      assert s == p + [s[|s| - 1]];
    }
  }

  /** A leading zero adds nothing: `int("0" + t) == int(t)`. */
  lemma {:induction false} ParseDropLeadingZero(s: string)
    requires |s| > 1 && s[0] == '0'
    requires forall i :: 0 <= i < |s| ==> IsDigit(s[i])
    ensures ParseDigits(s) == ParseDigits(s[1..])
    decreases |s|
  {
    var p := s[..|s| - 1];
    assert s[1..][..|s[1..]| - 1] == p[1..];
    assert s[1..][|s[1..]| - 1] == s[|s| - 1];
    if |p| > 1 {
      ParseDropLeadingZero(p);
    } else {
      assert p == "0" && p[1..] == [];
    }
  }

  /** The first k characters of `s` are all `0`. */
  predicate ZerosUpTo(s: string, k: nat)
    requires k <= |s|
  {
    forall j :: 0 <= j < k ==> s[j] == '0'
  }

  /** `s` is k leading zeros followed by the canonical spelling of n. */
  predicate PaddedSpelling(s: string, k: nat, n: nat) {
    k < |s| && ZerosUpTo(s, k) && s[k..] == Show(n)
  }

  /** Dropping the first character of a numeral longer than one digit leaves a numeral. */
  lemma DigitsTail(s: string)
    requires AllDigits(s) && |s| > 1
    ensures AllDigits(s[1..])
  {
    assert forall i :: 0 <= i < |s| - 1 ==> s[1..][i] == s[i + 1];
  }

  /** One more leading zero in front of a padded spelling is still a padded spelling. */
  lemma PadOneMore(s: string, k: nat, n: nat)
    requires |s| > 1 && s[0] == '0'
    requires PaddedSpelling(s[1..], k, n)
    ensures PaddedSpelling(s, k + 1, n)
  {
    var t := s[1..];
    assert s[k + 1..] == t[k..];
    forall j | 0 <= j < k + 1
      ensures s[j] == '0'
    {
      if j > 0 {
        assert s[j] == t[j - 1];
      }
    }
  }

  /**
   `int(s)` reads every all-digit string, zero-padded or not: `s` is some
   leading zeros followed by the canonical spelling of its value.
   */
  lemma {:induction false} ParseStripsZeros(s: string)
    requires AllDigits(s)
    ensures exists k: nat :: PaddedSpelling(s, k, Parse(s))
    decreases |s|
  {
    if s[0] != '0' || |s| == 1 {
      ShowParse(s);
      assert s[0..] == s;
      assert PaddedSpelling(s, 0, Parse(s));
    } else {
      DigitsTail(s);
      ParseDropLeadingZero(s);
      ParseStripsZeros(s[1..]);
      var k: nat :| PaddedSpelling(s[1..], k, Parse(s[1..]));
      PadOneMore(s, k, Parse(s));
    }
  }
}
