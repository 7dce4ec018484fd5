/** Decimal digit strings: the value `strconv.Atoi` reads from a run of ASCII digits,
    and the text `strconv.Itoa` writes for an integer. */
module Decimal {

  /** Go's `\d`: an ASCII digit. */
  predicate IsDigit(c: char) {
    '0' <= c <= '9'
  }

  predicate AllDigits(s: string) {
    forall i :: 0 <= i < |s| ==> IsDigit(s[i])
  }

  function DigitValue(c: char): (d: nat)
    requires IsDigit(c)
    ensures d < 10
  {
    c as int - '0' as int
  }

  function DigitChar(d: nat): (c: char)
    requires d < 10
    ensures IsDigit(c) && DigitValue(c) == d
  {
    ('0' as int + d) as char
  }

  /** The number a run of digits denotes; leading zeros are allowed, as Atoi allows them. */
  function Value(ds: string): nat
    requires AllDigits(ds)
    decreases |ds|
  {
    if ds == [] then 0 else 10 * Value(ds[..|ds| - 1]) + DigitValue(ds[|ds| - 1])
  }

  /** The shortest decimal form of a non-negative number. */
  function Digits(n: nat): (ds: string)
    ensures |ds| > 0 && AllDigits(ds)
    decreases n
  {
    if n < 10 then [DigitChar(n)] else Digits(n / 10) + [DigitChar(n % 10)]
  }

  /** `strconv.Itoa`: a minus sign for a negative number, then the shortest digits. Reading
      the digits back gives the magnitude. */
  function Itoa(n: int): (s: string)
    ensures n >= 0 ==> Canonical(s) && Value(s) == n
    ensures n < 0 ==> |s| > 1 && s[0] == '-' && Canonical(s[1..]) && Value(s[1..]) == -n
  {
    if n < 0 then
      ValueOfDigits(-n);
      assert ("-" + Digits(-n))[1..] == Digits(-n);
      "-" + Digits(-n)
    else
      ValueOfDigits(n);
      Digits(n)
  }

  /** A digit run with no superfluous leading zero, as Itoa writes it. */
  predicate Canonical(ds: string) {
    |ds| > 0 && AllDigits(ds) && (ds[0] == '0' ==> |ds| == 1)
  }

  /** Reading back what Itoa wrote gives the number. */
  lemma {:induction false} ValueOfDigits(n: nat)
    ensures Canonical(Digits(n))
    ensures Value(Digits(n)) == n
    decreases n
  {
    if n >= 10 {
      ValueOfDigits(n / 10);
      var ds := Digits(n);
      assert ds[..|ds| - 1] == Digits(n / 10);
      PositiveValueNoLeadingZero(Digits(n / 10));
    }
  }

  /** A canonical run denoting a positive number starts with a non-zero digit. */
  lemma PositiveValueNoLeadingZero(ds: string)
    requires Canonical(ds) && Value(ds) > 0
    ensures ds[0] != '0'
  {
  }

  /** A canonical run with a non-zero leading digit denotes a positive number. */
  lemma {:induction false} LeadingNonZeroPositive(ds: string)
    requires AllDigits(ds) && |ds| > 0 && ds[0] != '0'
    ensures Value(ds) > 0
    decreases |ds|
  {
    if |ds| > 1 {
      LeadingNonZeroPositive(ds[..|ds| - 1]);
    }
  }

  /** Writing out the value of a canonical digit run gives the run back. */
  lemma {:induction false} DigitsOfValue(ds: string)
    requires Canonical(ds)
    ensures Digits(Value(ds)) == ds
    decreases |ds|
  {
    if |ds| > 1 {
      var init := ds[..|ds| - 1];
      var d := DigitValue(ds[|ds| - 1]);
      LeadingNonZeroPositive(init);
      DigitsOfValue(init);
      assert Value(ds) == 10 * Value(init) + d;
      assert Value(ds) / 10 == Value(init) && Value(ds) % 10 == d;
      assert DigitChar(d) == ds[|ds| - 1];
      assert ds == init + [ds[|ds| - 1]];
    }
  }
}
