/**
  The one use of `boost::lexical_cast<std::string>` in the center directive:
  rendering the integer field width in decimal. An integer is written as its
  decimal digits without leading zeros, preceded by '-' when it is negative.
  `ParseDecimal` reads such a string back, and the two round-trip lemmas show
  that the rendering is exactly the canonical decimal form.
 */
module LexicalCast {
  import opened Wrappers

  predicate IsDigit(ch: char) {
    '0' <= ch <= '9'
  }

  predicate AllDigits(s: string) {
    forall i :: 0 <= i < |s| ==> IsDigit(s[i])
  }

  /** A digit string as the cast writes it: non-empty, and no leading zero unless it is "0". */
  predicate Canonical(s: string) {
    |s| >= 1 && AllDigits(s) && (s[0] == '0' ==> |s| == 1)
  }

  function DigitValue(ch: char): (d: nat)
    requires IsDigit(ch)
    ensures d < 10
  {
    ch as int - '0' as int
  }

  function DigitChar(d: nat): (ch: char)
    requires d < 10
    ensures IsDigit(ch) && DigitValue(ch) == d
  {
    ('0' as int + d) as char
  }

  /** The decimal digits of a natural number, most significant first. */
  function Digits(n: nat): (s: string)
    ensures Canonical(s)
    ensures s[0] == '0' <==> n == 0
  {
    if n < 10 then [DigitChar(n)] else Digits(n / 10) + [DigitChar(n % 10)]
  }

  /** The number a string of digits denotes. */
  function ValueOf(s: string): nat
    requires AllDigits(s)
  {
    if s == [] then 0 else ValueOf(s[..|s| - 1]) * 10 + DigitValue(s[|s| - 1])
  }

  lemma {:induction false} ValueOfDigits(n: nat)
    ensures ValueOf(Digits(n)) == n
  {
    if n >= 10 {
      var s := Digits(n);
      assert s[..|s| - 1] == Digits(n / 10);
      ValueOfDigits(n / 10);
    }
  }

  lemma {:induction false} DigitsOfValue(s: string)
    requires Canonical(s)
    ensures Digits(ValueOf(s)) == s
  {
    if |s| > 1 {
      var init, last := s[..|s| - 1], s[|s| - 1];
      assert Canonical(init) by {
        assert init[0] == s[0];
        assert forall i :: 0 <= i < |init| ==> init[i] == s[i];
      }
      DigitsOfValue(init);
      // init does not start with '0', so its value is at least 1
      assert ValueOf(init) != 0;
      var v := ValueOf(s);
      assert v == ValueOf(init) * 10 + DigitValue(last);
      assert v >= 10;
      assert v / 10 == ValueOf(init) && v % 10 == DigitValue(last);
      assert DigitChar(DigitValue(last)) == last;
      assert s == init + [last];
    } else {
      assert s == [DigitChar(DigitValue(s[0]))];
    }
  }

  /** `lexical_cast<std::string>` of an integer. */
  function Decimal(i: int): (s: string)
    ensures |s| >= 1
    ensures s[0] == '-' <==> i < 0
    ensures forall k :: 0 <= k < |s| ==> IsDigit(s[k]) || (k == 0 && s[k] == '-')
  {
    if i < 0 then "-" + Digits(-i) else Digits(i)
  }

  /** Reads back a string in the form `Decimal` writes, and nothing else. */
  function ParseDecimal(s: string): Option<int> {
    if |s| >= 1 && s[0] == '-' then
      var t := s[1..];
      if Canonical(t) && t[0] != '0' then Some(-(ValueOf(t) as int)) else None
    else if Canonical(s) then Some(ValueOf(s))
    else None
  }

  lemma ParseDecimalOfDecimal(i: int)
    ensures ParseDecimal(Decimal(i)) == Some(i)
  {
    if i < 0 {
      assert Decimal(i)[1..] == Digits(-i);
      ValueOfDigits(-i);
    } else {
      ValueOfDigits(i);
    }
  }

  lemma DecimalOfParseDecimal(s: string)
    requires ParseDecimal(s).Some?
    ensures Decimal(ParseDecimal(s).value) == s
  {
    if |s| >= 1 && s[0] == '-' {
      var t := s[1..];
      DigitsOfValue(t);
      assert s == "-" + t;
    } else {
      DigitsOfValue(s);
    }
  }

  /** Different widths are rendered differently. */
  lemma DecimalInjective(i: int, j: int)
    requires Decimal(i) == Decimal(j)
    ensures i == j
  {
    ParseDecimalOfDecimal(i);
    ParseDecimalOfDecimal(j);
  }
}
