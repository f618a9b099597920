/** Decimal numerals: Python's `str(n)` for a page number and `int(s)` for a page index. */
module Numerals {
  import opened Wrappers
  import opened PyStr

  predicate IsDigit(c: char) {
    '0' <= c <= '9'
  }

  function DigitChar(d: nat): (c: char)
    requires d < 10
    ensures IsDigit(c)
  {
    ('0' as int + d) as char
  }

  function DigitValue(c: char): nat
    requires IsDigit(c)
  {
    c as int - '0' as int
  }

  /** `str(n)` (also `f"{n}"`) for `n >= 0`: its decimal digits, with no leading zero. */
  function Decimal(n: nat): (r: string)
    ensures |r| > 0
    ensures forall i :: 0 <= i < |r| ==> IsDigit(r[i])
    ensures n > 0 ==> r[0] != '0'
    decreases n
  {
    if n < 10 then [DigitChar(n)] else Decimal(n / 10) + [DigitChar(n % 10)]
  }

  /**
   * What `int()` accepts as the unsigned part of a base-10 literal: digits,
   * with single underscores allowed between two digits.
   */
  predicate IsNumeral(t: string) {
    && |t| > 0
    && IsDigit(t[0])
    && IsDigit(t[|t| - 1])
    && forall i :: 0 <= i < |t| ==> IsDigit(t[i]) || (t[i] == '_' && i + 1 < |t| && IsDigit(t[i + 1]))
  }

  /** The value of a numeral; underscores carry no value. */
  function NumeralValue(t: string): nat
    decreases |t|
  {
    if t == [] then 0
    else if IsDigit(t[|t| - 1]) then NumeralValue(t[..|t| - 1]) * 10 + DigitValue(t[|t| - 1])
    else NumeralValue(t[..|t| - 1])
  }

  /**
   * `int(s)`: surrounding whitespace is ignored, then an optional sign and a
   * numeral must make up the rest; anything else is the `ValueError` case, `None`.
   */
  function ParseInt(s: string): (r: Option<int>)
    ensures Strip(s) == [] ==> r == None
    ensures IsNumeral(Strip(s)) ==> r == Some(NumeralValue(Strip(s)))
    ensures r.Some? ==> IsNumeral(Strip(s)) || (|Strip(s)| > 1 && (Strip(s)[0] == '+' || Strip(s)[0] == '-') && IsNumeral(Strip(s)[1..]))
  {
    var t := Strip(s);
    if IsNumeral(t) then Some(NumeralValue(t))
    else if |t| > 1 && (t[0] == '+' || t[0] == '-') && IsNumeral(t[1..]) then
      var v: int := NumeralValue(t[1..]);
      Some(if t[0] == '-' then -v else v)
    else None
  }

  lemma {:induction false} DecimalValue(n: nat)
    ensures NumeralValue(Decimal(n)) == n
    decreases n
  {
    if n >= 10 {
      var d := Decimal(n);
      assert d[..|d| - 1] == Decimal(n / 10);
      DecimalValue(n / 10);
    }
  }

  /** `int(str(n)) == n`: every page number written into a name parses back to itself. */
  lemma ParseDecimal(n: nat)
    ensures ParseInt(Decimal(n)) == Some(n)
  {
    var d := Decimal(n);
    assert !IsSpace(d[0]) && !IsSpace(d[|d| - 1]);
    StripTrimmed(d);
    DecimalValue(n);
  }

  /** Two page numbers with the same numeral are equal. */
  lemma DecimalInjective(m: nat, n: nat)
    requires Decimal(m) == Decimal(n)
    ensures m == n
  {
    ParseDecimal(m);
    ParseDecimal(n);
  }

  /** A numeral holds neither separators nor extension dots. */
  lemma DecimalPlain(n: nat)
    ensures '_' !in Decimal(n) && '.' !in Decimal(n) && '/' !in Decimal(n)
  {
  }
}
