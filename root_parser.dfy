/** The interval parser of the top-level window helpers: the whole string
    must be "[", a run of digits, ",", a run of digits and "]" (no signs,
    spaces or decimal points), and the two values must be increasing. */
module RootInterval {
  import opened IntervalText

  /** [digits,digits] with the text split into its two numerals. */
  predicate RootShape(s: string, x: string, y: string)
  {
    IsDigits(x) && IsDigits(y) && s == "[" + x + "," + y + "]"
  }

  /** parse_interval_string: match the pattern, convert both numerals, and
      keep the pair only if it is increasing. */
  function ParseRoot(s: string): (r: Parse)
    ensures r.Parsed? ==> r.lo < r.hi
  {
    if |s| < 2 || s[0] != '[' || s[|s| - 1] != ']' then BadFormat
    else
      var body := s[1..|s| - 1];
      var k := IndexOf(body, ',');
      if k == |body| then BadFormat
      else
        var x, y := body[..k], body[k + 1..];
        if IsDigits(x) && IsDigits(y) then Decide(DigitsValue(x) as real, DigitsValue(y) as real)
        else BadFormat
  }

  /** A string of the accepted form yields the values of its two numerals. */
  lemma RootForm(x: string, y: string)
    requires IsDigits(x) && IsDigits(y)
    ensures ParseRoot("[" + x + "," + y + "]") == Decide(DigitsValue(x) as real, DigitsValue(y) as real)
  {
    var inner := x + [','] + y;
    assert "[" + x + "," + y + "]" == "[" + inner + "]";
    Bracketed(inner);
    IndexOfSplit(x, ',', y);
    assert inner[..|x|] == x && inner[|x| + 1..] == y;
  }

  /** The accepted language is exactly the pattern: every string that is not
      reported as malformed has the form [digits,digits], and every string of
      that form is accepted (as a pair or as a non-increasing one). */
  lemma RootLanguage(s: string)
    ensures ParseRoot(s) != BadFormat <==> exists x, y :: RootShape(s, x, y)
  {
    if ParseRoot(s) != BadFormat {
      var body := s[1..|s| - 1];
      var k := IndexOf(body, ',');
      var x, y := body[..k], body[k + 1..];
      assert body == x + [','] + y;
      assert s == [s[0]] + body + [s[|s| - 1]];
      assert RootShape(s, x, y);
    }
    if exists x, y :: RootShape(s, x, y) {
      var x, y :| RootShape(s, x, y);
      RootForm(x, y);
    }
  }

  /** An accepted pair is the two numerals' values, in order, with lo < hi. */
  lemma RootValues(s: string, x: string, y: string)
    requires RootShape(s, x, y)
    ensures ParseRoot(s).Parsed? <==> DigitsValue(x) < DigitsValue(y)
    ensures ParseRoot(s).Parsed? ==>
      ParseRoot(s).lo == DigitsValue(x) as real && ParseRoot(s).hi == DigitsValue(y) as real
    ensures !ParseRoot(s).Parsed? ==> ParseRoot(s) == NotIncreasing
  {
    RootForm(x, y);
  }

  /** Leading zeros are accepted and do not change the values. */
  lemma RootLeadingZeros(z1: string, x: string, z2: string, y: string)
    requires IsDigits(x) && IsDigits(y)
    requires forall i :: 0 <= i < |z1| ==> z1[i] == '0'
    requires forall i :: 0 <= i < |z2| ==> z2[i] == '0'
    ensures ParseRoot("[" + (z1 + x) + "," + (z2 + y) + "]") == ParseRoot("[" + x + "," + y + "]")
  {
    LeadingZeros(z1, x);
    LeadingZeros(z2, y);
    RootForm(z1 + x, z2 + y);
    RootForm(x, y);
  }

  /** Round trip: printing two naturals in the pattern and parsing the
      result gives them back when the first is smaller, and the interval
      warning otherwise. */
  lemma RootRoundTrip(a: nat, b: nat)
    ensures ParseRoot("[" + Dec(a) + "," + Dec(b) + "]")
         == if a < b then Parsed(a as real, b as real) else NotIncreasing
  {
    DecValue(a);
    DecValue(b);
    RootForm(Dec(a), Dec(b));
  }
}
