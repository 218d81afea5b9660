/** Decimal numerals: Python's `str(n)` for a natural number, and `int(s)` on
    strings of ASCII digits. `hash_name` uses the first, the birth-date parser
    the second. */
module Decimal {
  import opened Values

  predicate IsDigit(c: char)
  {
    '0' <= c <= '9'
  }

  predicate AllDigits(s: string)
  {
    forall i :: 0 <= i < |s| ==> IsDigit(s[i])
  }

  function DigitChar(d: nat): (c: char)
    requires d < 10
    ensures IsDigit(c)
  {
    ('0' as int + d) as char
  }

  function DigitValue(c: char): (d: nat)
    requires IsDigit(c)
    ensures d < 10
  {
    c as int - '0' as int
  }

  /** `str(n)`: the shortest decimal numeral of `n`, without leading zeros. */
  function Show(n: nat): (s: string)
    ensures |s| >= 1 && AllDigits(s)
    ensures s[0] == '0' ==> n == 0 && s == "0"
    decreases n
  {
    if n < 10 then [DigitChar(n)] else Show(n / 10) + [DigitChar(n % 10)]
  }

  /** The number a non-empty string of digits denotes (leading zeros allowed). */
  function DigitsValue(s: string): nat
    requires AllDigits(s)
    decreases |s|
  {
    if s == [] then 0 else DigitsValue(s[..|s| - 1]) * 10 + DigitValue(s[|s| - 1])
  }

  /** `int(s)` restricted to ASCII digit strings: `None` where Python raises
      `ValueError` (the empty string, a non-digit character). */
  function ParseNat(s: string): (r: Option<nat>)
    ensures r.Some? <==> |s| >= 1 && AllDigits(s)
  {
    if |s| >= 1 && AllDigits(s) then Some(DigitsValue(s)) else None
  }

  /** `int(str(n)) == n` */
  lemma {:induction false} ParseShow(n: nat)
    ensures ParseNat(Show(n)) == Some(n)
    decreases n
  {
    var s := Show(n);
    if n < 10 {
      assert s[..|s| - 1] == [];
      assert DigitValue(DigitChar(n)) == n;
      assert DigitsValue(s) == DigitsValue([]) * 10 + DigitValue(s[0]);
      assert DigitsValue(s) == n;
    } else {
      ParseShow(n / 10);
      assert s[..|s| - 1] == Show(n / 10);
      assert DigitValue(DigitChar(n % 10)) == n % 10;
    }
  }

  /** Distinct numbers have distinct numerals. */
  lemma ShowInjective(n: nat, m: nat)
    ensures Show(n) == Show(m) <==> n == m
  {
    ParseShow(n);
    ParseShow(m);
  }

  /** A leading zero does not change the value of a digit string. */
  lemma {:induction false} LeadingZeroValue(s: string)
    requires AllDigits(s)
    ensures AllDigits("0" + s) && DigitsValue("0" + s) == DigitsValue(s)
    decreases |s|
  {
    var z := "0" + s;
    if s == [] {
      assert z[..0] == [];
    } else {
      LeadingZeroValue(s[..|s| - 1]);
      assert z[..|z| - 1] == "0" + s[..|s| - 1];
    }
  }

  /** `int` accepts leading zeros: `int("0" + s) == int(s)`. */
  lemma ParseLeadingZero(s: string)
    ensures ParseNat("0" + s) == (if s == [] then Some(0) else ParseNat(s))
  {
    if AllDigits(s) {
      LeadingZeroValue(s);
    } else {
      var k :| 0 <= k < |s| && !IsDigit(s[k]);
      assert ("0" + s)[k + 1] == s[k];
    }
  }

  /** `n` zeros. */
  function Zeros(n: nat): (z: string)
    ensures |z| == n && AllDigits(z)
    ensures forall i :: 0 <= i < n ==> z[i] == '0'
  {
    if n == 0 then [] else "0" + Zeros(n - 1)
  }

  /** `s` left-padded with zeros to width `w`, as in the `DD-MM-YYYY` format. */
  function Pad(s: string, w: nat): (p: string)
    ensures |p| == if |s| < w then w else |s|
    ensures AllDigits(s) ==> AllDigits(p)
    ensures |s| <= |p| && p[|p| - |s|..] == s
  {
    if |s| >= w then s else Zeros(w - |s|) + s
  }

  /** `int` ignores any number of leading zeros. */
  lemma {:induction false} ParseZeros(n: nat, s: string)
    requires |s| >= 1
    ensures ParseNat(Zeros(n) + s) == ParseNat(s)
    decreases n
  {
    if n == 0 {
      assert Zeros(n) + s == s;
    } else {
      assert Zeros(n) + s == "0" + (Zeros(n - 1) + s);
      ParseZeros(n - 1, s);
      ParseLeadingZero(Zeros(n - 1) + s);
    }
  }

  /** `int` reads a zero-padded numeral as its number: `int("04") == 4`. */
  lemma ParsePadded(n: nat, w: nat)
    ensures ParseNat(Pad(Show(n), w)) == Some(n)
  {
    ParseShow(n);
    if |Show(n)| < w {
      ParseZeros(w - |Show(n)|, Show(n));
    }
  }
}
