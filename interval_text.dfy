/** Text vocabulary shared by the two interval-string parsers: the outcome
    of a parse, ASCII digits and their decimal value, and the search for a
    separator character.  Python's \d is taken as the ASCII digits. */
module IntervalText {

  /** What parse_interval_string reports: the pair, or (None, None) after
      the format warning, or (None, None) after the "start must be below
      end" warning. */
  datatype Parse = Parsed(lo: real, hi: real) | BadFormat | NotIncreasing

  /** The final comparison: the pair is returned only when lo < hi. */
  function Decide(lo: real, hi: real): (r: Parse)
    ensures r.Parsed? <==> lo < hi
    ensures r.Parsed? ==> r.lo == lo && r.hi == hi
    ensures !r.Parsed? ==> r == NotIncreasing
  {
    if lo >= hi then NotIncreasing else Parsed(lo, hi)
  }

  predicate IsDigit(c: char)
  {
    '0' <= c <= '9'
  }

  predicate AllDigits(s: string)
  {
    forall i :: 0 <= i < |s| ==> IsDigit(s[i])
  }

  /** \d+ : one or more digits. */
  predicate IsDigits(s: string)
  {
    |s| > 0 && AllDigits(s)
  }

  function DigitValue(c: char): (d: nat)
    requires IsDigit(c)
    ensures d < 10
  {
    (c as int) - ('0' as int)
  }

  /** The decimal value of a digit string, most significant digit first. */
  function DigitsValue(s: string): nat
    requires AllDigits(s)
  {
    if |s| == 0 then 0
    else DigitsValue(s[..|s| - 1]) * 10 + DigitValue(s[|s| - 1])
  }

  /** The digit character for d < 10. */
  function DigitChar(d: nat): (c: char)
    requires d < 10
    ensures IsDigit(c) && DigitValue(c) == d
  {
    (('0' as int) + d) as char
  }

  /** The usual decimal numeral of n, without leading zeros. */
  function Dec(n: nat): (s: string)
    ensures IsDigits(s)
  {
    if n < 10 then [DigitChar(n)] else Dec(n / 10) + [DigitChar(n % 10)]
  }

  /** Reading a numeral gives back its number. */
  lemma {:induction false} DecValue(n: nat)
    ensures DigitsValue(Dec(n)) == n
  {
    if n >= 10 {
      DecValue(n / 10);
      var s := Dec(n);
      assert s[..|s| - 1] == Dec(n / 10);
    }
  }

  /** A leading zero does not change the value. */
  lemma {:induction false} LeadingZero(s: string)
    requires AllDigits(s)
    ensures AllDigits("0" + s) && DigitsValue("0" + s) == DigitsValue(s)
  {
    var t := "0" + s;
    if |s| > 0 {
      assert t[..|t| - 1] == "0" + s[..|s| - 1];
      LeadingZero(s[..|s| - 1]);
    }
  }

  /** Any run of leading zeros does not change the value. */
  lemma {:induction false} LeadingZeros(z: string, s: string)
    requires forall i :: 0 <= i < |z| ==> z[i] == '0'
    requires AllDigits(s)
    ensures AllDigits(z + s) && DigitsValue(z + s) == DigitsValue(s)
  {
    if |z| > 0 {
      var t := z[1..] + s;
      LeadingZeros(z[1..], s);
      LeadingZero(t);
      assert z + s == "0" + t;
    } else {
      assert z + s == s;
    }
  }

  /** The first position of c in s, or |s| when c does not occur. */
  function IndexOf(s: string, c: char): (k: nat)
    ensures k <= |s|
    ensures forall i :: 0 <= i < k ==> s[i] != c
    ensures k < |s| ==> s[k] == c
  {
    if |s| == 0 then 0
    else if s[0] == c then 0
    else 1 + IndexOf(s[1..], c)
  }

  /** The first separator is found right after a part without one. */
  lemma IndexOfSplit(a: string, c: char, b: string)
    requires forall i :: 0 <= i < |a| ==> a[i] != c
    ensures IndexOf(a + [c] + b, c) == |a|
  {
    var s := a + [c] + b;
    assert s[|a|] == c;
    assert forall i :: 0 <= i < |a| ==> s[i] == a[i];
  }

  /** A string in brackets: the text between them. */
  lemma Bracketed(inner: string)
    ensures var s := "[" + inner + "]";
      |s| >= 2 && s[0] == '[' && s[|s| - 1] == ']' && s[1..|s| - 1] == inner
  {
  }
}
