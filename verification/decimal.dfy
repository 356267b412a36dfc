/** Decimal rendering of integers, as Python's `str` does it for an `int`,
    together with its inverse. Both the file names (`str(i)`) and the matrix
    entries (`str(randint(-50, 50))`) are written this way. */
module Decimal {

  predicate IsDigit(c: char) {
    '0' <= c <= '9'
  }

  /** The character of a single decimal digit. */
  function DigitChar(d: nat): (c: char)
    requires d < 10
    ensures IsDigit(c)
  {
    ('0' as int + d) as char
  }

  /** The value of a digit character (0 for any other character). */
  function DigitValue(c: char): (d: nat)
    ensures d < 10
  {
    if IsDigit(c) then c as int - '0' as int else 0
  }

  /** Decimal digits of a natural number, most significant first, with no
      leading zero. */
  function NatToString(n: nat): (s: string)
    decreases n
  {
    if n < 10 then [DigitChar(n)] else NatToString(n / 10) + [DigitChar(n % 10)]
  }

  /** Python's `str(v)` for an integer `v`: a minus sign for negative values. */
  function IntToString(v: int): (s: string)
  {
    if v < 0 then "-" + NatToString(-v) else NatToString(v)
  }

  /** A non-empty run of digits without a superfluous leading zero. */
  predicate IsCanonicalDigits(s: string) {
    && |s| >= 1
    && (forall k :: 0 <= k < |s| ==> IsDigit(s[k]))
    && (s[0] == '0' ==> |s| == 1)
  }

  /** The decimal form of an integer: canonical digits, optionally preceded by
      a minus sign, and no "-0". */
  predicate IsDecimal(s: string) {
    || IsCanonicalDigits(s)
    || (|s| >= 2 && s[0] == '-' && IsCanonicalDigits(s[1..]) && s[1..] != "0")
  }

  /** Value of a string of digits read left to right. */
  function DigitsValue(s: string): (n: nat)
    decreases |s|
  {
    if s == [] then 0 else DigitsValue(s[..|s| - 1]) * 10 + DigitValue(s[|s| - 1])
  }

  /** Reads back an integer written by IntToString. */
  function ParseInt(s: string): (v: int)
  {
    if |s| >= 1 && s[0] == '-' then -(DigitsValue(s[1..]) as int) else DigitsValue(s)
  }

  lemma {:induction false} NatToStringCanonical(n: nat)
    ensures IsCanonicalDigits(NatToString(n))
    decreases n
  {
    if n >= 10 {
      NatToStringCanonical(n / 10);
      var s := NatToString(n);
      assert s == NatToString(n / 10) + [DigitChar(n % 10)];
      assert s[0] == NatToString(n / 10)[0];
      NatToStringLength(n / 10);
    }
  }

  /** Only 0 renders with a leading '0'; every larger number needs more
      digits the larger it gets. */
  lemma {:induction false} NatToStringLength(n: nat)
    ensures |NatToString(n)| >= 1
    ensures NatToString(n)[0] == '0' <==> n == 0
    ensures n < 10 <==> |NatToString(n)| == 1
    ensures n < 100 <==> |NatToString(n)| <= 2
    decreases n
  {
    if n >= 10 {
      NatToStringLength(n / 10);
      assert NatToString(n) == NatToString(n / 10) + [DigitChar(n % 10)];
    }
  }

  lemma {:induction false} DigitsValueOfNatToString(n: nat)
    ensures DigitsValue(NatToString(n)) == n
    decreases n
  {
    var s := NatToString(n);
    if n < 10 {
      assert s[..|s| - 1] == [];
    } else {
      DigitsValueOfNatToString(n / 10);
      assert s[..|s| - 1] == NatToString(n / 10);
      assert s[|s| - 1] == DigitChar(n % 10);
    }
  }

  /** Reading back the decimal form gives the original integer. */
  lemma {:induction false} ParseIntOfIntToString(v: int)
    ensures ParseInt(IntToString(v)) == v
  {
    var s := IntToString(v);
    if v < 0 {
      assert s[1..] == NatToString(-v);
      DigitsValueOfNatToString(-v);
    } else {
      NatToStringCanonical(v);
      assert IsDigit(s[0]);
      DigitsValueOfNatToString(v);
    }
  }

  /** Distinct integers have distinct decimal forms. */
  lemma {:induction false} IntToStringInjective(a: int, b: int)
    ensures IntToString(a) == IntToString(b) ==> a == b
  {
    ParseIntOfIntToString(a);
    ParseIntOfIntToString(b);
  }

  /** Every integer renders as a decimal numeral: digits with an optional
      leading minus sign, never containing a space or a newline. */
  lemma {:induction false} IntToStringIsDecimal(v: int)
    ensures IsDecimal(IntToString(v))
    ensures forall k :: 0 <= k < |IntToString(v)| ==> IntToString(v)[k] == '-' || IsDigit(IntToString(v)[k])
  {
    var s := IntToString(v);
    if v < 0 {
      NatToStringCanonical(-v);
      NatToStringLength(-v);
      assert s[1..] == NatToString(-v);
      forall k | 1 <= k < |s| ensures IsDigit(s[k]) {
        assert s[k] == s[1..][k - 1];
      }
    } else {
      NatToStringCanonical(v);
    }
  }

  lemma {:induction false} DigitsValuePositive(s: string)
    requires IsCanonicalDigits(s) && s[0] != '0'
    ensures DigitsValue(s) >= 1
    decreases |s|
  {
    if |s| >= 2 {
      assert s[..|s| - 1][0] == s[0];
      DigitsValuePositive(s[..|s| - 1]);
    } else {
      assert s[..|s| - 1] == [];
    }
  }

  lemma {:induction false} NatToStringOfDigitsValue(s: string)
    requires IsCanonicalDigits(s)
    ensures NatToString(DigitsValue(s)) == s
    decreases |s|
  {
    if |s| == 1 {
      assert s[..0] == [];
      assert [DigitChar(DigitValue(s[0]))] == s;
    } else {
      var init := s[..|s| - 1];
      assert init[0] == s[0];
      assert IsCanonicalDigits(init);
      DigitsValuePositive(init);
      NatToStringOfDigitsValue(init);
      var n := DigitsValue(s);
      assert n / 10 == DigitsValue(init) && n % 10 == DigitValue(s[|s| - 1]);
      assert DigitChar(DigitValue(s[|s| - 1])) == s[|s| - 1];
      assert s == init + [s[|s| - 1]];
    }
  }

  /** Conversely, every decimal numeral is the decimal form of the integer
      it denotes: IntToString and ParseInt are inverse bijections between the
      integers and the decimal numerals. */
  lemma {:induction false} IntToStringOfParseInt(s: string)
    requires IsDecimal(s)
    ensures IntToString(ParseInt(s)) == s
  {
    if IsCanonicalDigits(s) {
      NatToStringOfDigitsValue(s);
    } else {
      var digits := s[1..];
      NatToStringOfDigitsValue(digits);
      DigitsValuePositive(digits);
      assert s == "-" + digits;
    }
  }

  /** A value drawn by `randint(-50, 50)` is written with one to three
      characters. */
  lemma {:induction false} SmallIntToStringLength(v: int)
    requires -50 <= v <= 50
    ensures 1 <= |IntToString(v)| <= 3
  {
    if v < 0 {
      NatToStringLength(-v);
    } else {
      NatToStringLength(v);
    }
  }
}
