/** The interval parser of the PYTHONUI helpers: "[", optional whitespace,
    a number, optional whitespace, ",", optional whitespace, a number,
    optional whitespace, "]", where a number is an optional minus sign,
    digits, and optionally a point followed by digits.  The values are
    exact decimals; the pair must be increasing.  Python's \s is taken as
    the ASCII characters that str.isspace accepts. */
module UiInterval {
  import opened IntervalText
  import opened RootInterval

  /** \s on ASCII, as str.isspace: space, tab, newline, vertical tab, form
      feed, carriage return, and the file, group, record and unit
      separators 28 .. 31. */
  predicate IsSpace(c: char)
  {
    c == ' ' || 9 <= c as int <= 13 || 28 <= c as int <= 31
  }

  predicate Spaces(w: string)
  {
    forall i :: 0 <= i < |w| ==> IsSpace(w[i])
  }

  /** Neither end of a non-empty t is whitespace. */
  predicate Trimmed(t: string)
  {
    |t| == 0 || (!IsSpace(t[0]) && !IsSpace(t[|t| - 1]))
  }

  /** s without its leading whitespace. */
  function TrimLeft(s: string): (t: string)
    ensures |t| <= |s| && t == s[|s| - |t|..]
    ensures Spaces(s[..|s| - |t|])
    ensures |t| == 0 || !IsSpace(t[0])
  {
    if |s| > 0 && IsSpace(s[0]) then TrimLeft(s[1..]) else s
  }

  /** s without its trailing whitespace. */
  function TrimRight(s: string): (t: string)
    ensures |t| <= |s| && t == s[..|t|]
    ensures Spaces(s[|t|..])
    ensures |t| == 0 || !IsSpace(t[|t| - 1])
  {
    if |s| > 0 && IsSpace(s[|s| - 1]) then TrimRight(s[..|s| - 1]) else s
  }

  /** The text between the optional whitespace of one number slot. */
  function Trim(s: string): (t: string)
    ensures Trimmed(t)
  {
    var l := TrimLeft(s);
    var t := TrimRight(l);
    assert |t| > 0 ==> t[0] == l[0];
    t
  }

  /** The whitespace Trim removes in front of a slot. */
  function Leading(s: string): string
  {
    s[..|s| - |TrimLeft(s)|]
  }

  /** The whitespace Trim removes behind a slot. */
  function Trailing(s: string): string
  {
    var l := TrimLeft(s);
    l[|TrimRight(l)|..]
  }

  lemma LeadingSplit(s: string)
    ensures Spaces(Leading(s)) && s == Leading(s) + TrimLeft(s)
  {
    var l := TrimLeft(s);
    assert l == s[|s| - |l|..];
  }

  lemma TrailingSplit(l: string)
    ensures Spaces(l[|TrimRight(l)|..]) && l == TrimRight(l) + l[|TrimRight(l)|..]
  {
    var t := TrimRight(l);
    assert t == l[..|t|];
  }

  /** Every slot is its leading whitespace, its trimmed text and its
      trailing whitespace. */
  lemma TrimSplit(s: string)
    ensures Spaces(Leading(s)) && Spaces(Trailing(s))
    ensures s == Leading(s) + Trim(s) + Trailing(s)
  {
    var l := TrimLeft(s);
    LeadingSplit(s);
    TrailingSplit(l);
    assert Trim(s) == TrimRight(l) && Trailing(s) == l[|TrimRight(l)|..];
    Associative(Leading(s), Trim(s), Trailing(s));
  }

  lemma Associative(a: string, b: string, c: string)
    ensures a + (b + c) == a + b + c
  {
  }

  lemma {:induction false} TrimLeftPadded(w: string, t: string)
    requires Spaces(w) && (|t| == 0 || !IsSpace(t[0]))
    ensures TrimLeft(w + t) == t
  {
    if |w| > 0 {
      assert (w + t)[1..] == w[1..] + t;
      TrimLeftPadded(w[1..], t);
    } else {
      assert w + t == t;
    }
  }

  lemma {:induction false} TrimRightPadded(t: string, w: string)
    requires Spaces(w) && (|t| == 0 || !IsSpace(t[|t| - 1]))
    ensures TrimRight(t + w) == t
  {
    if |w| > 0 {
      assert (t + w)[..|t + w| - 1] == t + w[..|w| - 1];
      TrimRightPadded(t, w[..|w| - 1]);
    } else {
      assert t + w == t;
    }
  }

  /** Trimming removes exactly the whitespace put around a trimmed text. */
  lemma TrimPadded(w1: string, t: string, w2: string)
    requires Spaces(w1) && Spaces(w2) && Trimmed(t)
    ensures Trim(w1 + t + w2) == t
  {
    assert w1 + t + w2 == w1 + (t + w2);
    if |t| == 0 {
      assert t + w2 == w2;
      TrimLeftPadded(w1 + w2, "");
      assert w1 + w2 + "" == w1 + w2;
      TrimRightPadded("", "");
    } else {
      TrimLeftPadded(w1, t + w2);
      TrimRightPadded(t, w2);
    }
  }

  /** The number without its optional minus sign. */
  function Unsigned(n: string): string
  {
    if |n| > 0 && n[0] == '-' then n[1..] else n
  }

  /** -?\d+(?:\.\d+)? */
  predicate IsNumber(n: string)
  {
    var u := Unsigned(n);
    var k := IndexOf(u, '.');
    if k == |u| then IsDigits(u) else IsDigits(u[..k]) && IsDigits(u[k + 1..])
  }

  function Pow10(k: nat): (p: nat)
    ensures p >= 1
  {
    if k == 0 then 1 else 10 * Pow10(k - 1)
  }

  /** The digits whole "." fraction read as an exact decimal. */
  function DecimalValue(whole: string, fraction: string): real
    requires AllDigits(whole) && AllDigits(fraction)
  {
    DigitsValue(whole) as real + (DigitsValue(fraction) as real) / (Pow10(|fraction|) as real)
  }

  /** float() of a number, exactly: the integer part plus the fraction's
      digits over 10 to their count, negated under a minus sign. */
  function NumberValue(n: string): real
    requires IsNumber(n)
  {
    var u := Unsigned(n);
    var k := IndexOf(u, '.');
    var magnitude := if k == |u| then DigitsValue(u) as real else DecimalValue(u[..k], u[k + 1..]);
    if |n| > 0 && n[0] == '-' then -magnitude else magnitude
  }

  /** The conversion and comparison of the two captured numbers. */
  function Convert(p: string, q: string): (r: Parse)
    ensures r != BadFormat <==> IsNumber(p) && IsNumber(q)
  {
    if IsNumber(p) && IsNumber(q) then Decide(NumberValue(p), NumberValue(q)) else BadFormat
  }

  /** parse_interval_string: the brackets, the first comma, and in each slot
      a number between optional whitespace. */
  function ParseUi(s: string): (r: Parse)
    ensures r.Parsed? ==> r.lo < r.hi
  {
    if |s| < 2 || s[0] != '[' || s[|s| - 1] != ']' then BadFormat
    else
      var body := s[1..|s| - 1];
      var k := IndexOf(body, ',');
      if k == |body| then BadFormat
      else Convert(Trim(body[..k]), Trim(body[k + 1..]))
  }

  /** The sign, the characters and the two ends of a number: it starts with
      a minus sign or a digit, ends with a digit, and holds nothing but
      digits, one optional minus sign in front and at most one point. */
  lemma NumberShape(n: string)
    requires IsNumber(n)
    ensures |n| > 0 && (n[0] == '-' || IsDigit(n[0])) && IsDigit(n[|n| - 1])
    ensures forall i :: 0 <= i < |n| ==> IsDigit(n[i]) || n[i] == '.' || n[i] == '-'
    ensures forall i :: 1 <= i < |n| ==> n[i] != '-'
    ensures Trimmed(n) && forall i :: 0 <= i < |n| ==> n[i] != ','
  {
    var u := Unsigned(n);
    var k := IndexOf(u, '.');
    if |n| > 0 && n[0] == '-' {
      assert forall i :: 1 <= i < |n| ==> n[i] == u[i - 1];
    }
    if k < |u| {
      assert forall i :: 0 <= i < k ==> u[i] == u[..k][i];
      assert forall i :: k < i < |u| ==> u[i] == u[k + 1..][i - k - 1];
    }
  }

  /** Building a number from its parts: the value is plus or minus the
      integer part plus the fraction over 10 to its length. */
  lemma NumberParts(negative: bool, whole: string, fraction: string)
    requires IsDigits(whole) && IsDigits(fraction)
    ensures var n := (if negative then "-" else "") + whole + "." + fraction;
      IsNumber(n) &&
      NumberValue(n) == if negative then -DecimalValue(whole, fraction) else DecimalValue(whole, fraction)
  {
    var u := whole + ['.'] + fraction;
    SignedSplit(negative, u);
    assert (if negative then "-" else "") + whole + "." + fraction == (if negative then "-" else "") + u;
    PointSplit(whole, fraction);
  }

  /** Removing the optional sign leaves the unsigned text. */
  lemma SignedSplit(negative: bool, u: string)
    requires |u| > 0 && IsDigit(u[0])
    ensures Unsigned((if negative then "-" else "") + u) == u
  {
    if negative {
      assert ("-" + u)[1..] == u;
    } else {
      assert "" + u == u;
    }
  }

  /** The point separates the whole part from the fraction. */
  lemma PointSplit(whole: string, fraction: string)
    requires IsDigits(whole)
    ensures var u := whole + ['.'] + fraction;
      IndexOf(u, '.') == |whole| && u[..|whole|] == whole && u[|whole| + 1..] == fraction
  {
    IndexOfSplit(whole, '.', fraction);
    var u := whole + ['.'] + fraction;
    assert u[..|whole|] == whole;
    assert u[|whole| + 1..] == fraction;
  }

  /** A number without a fraction is an integer. */
  lemma IntegerNumber(negative: bool, whole: string)
    requires IsDigits(whole)
    ensures var n := (if negative then "-" else "") + whole;
      IsNumber(n) && NumberValue(n) == if negative then -(DigitsValue(whole) as real) else DigitsValue(whole) as real
  {
    var n := (if negative then "-" else "") + whole;
    assert Unsigned(n) == whole;
    assert IndexOf(whole, '.') == |whole|;
  }

  predicate NoComma(s: string)
  {
    forall i :: 0 <= i < |s| ==> s[i] != ','
  }

  lemma SpacesNoComma(w: string)
    requires Spaces(w)
    ensures NoComma(w)
  {
    forall i | 0 <= i < |w| ensures w[i] != ',' {
      assert IsSpace(w[i]);
    }
  }

  lemma NoCommaJoin(a: string, b: string, c: string)
    requires NoComma(a) && NoComma(b) && NoComma(c)
    ensures NoComma(a + b + c)
  {
    var s := a + b + c;
    forall i | 0 <= i < |s| ensures s[i] != ',' {
      if i < |a| {
        assert s[i] == a[i];
      } else if i < |a| + |b| {
        assert s[i] == b[i - |a|];
      } else {
        assert s[i] == c[i - |a| - |b|];
      }
    }
  }

  /** A trimmed text is its own trim. */
  lemma TrimFixed(t: string)
    requires Trimmed(t)
    ensures Trim(t) == t
  {
    assert "" + t == t && t + "" == t;
    TrimLeftPadded("", t);
    TrimRightPadded(t, "");
  }

  /** With a comma-free first slot, the parse is the conversion of the two
      trimmed slots. */
  lemma ParseSlots(first: string, second: string)
    requires NoComma(first)
    ensures ParseUi("[" + first + "," + second + "]") == Convert(Trim(first), Trim(second))
  {
    var inner := first + [','] + second;
    assert "[" + first + "," + second + "]" == "[" + inner + "]";
    Bracketed(inner);
    IndexOfSplit(first, ',', second);
    assert inner[..|first|] == first && inner[|first| + 1..] == second;
  }

  /** A string that gets past the bracket and comma checks is its two slots
      around the first comma. */
  lemma SlotsOf(s: string)
    requires |s| >= 2 && s[0] == '[' && s[|s| - 1] == ']'
    requires IndexOf(s[1..|s| - 1], ',') < |s| - 2
    ensures var body := s[1..|s| - 1];
      var k := IndexOf(body, ',');
      NoComma(body[..k]) && s == "[" + body[..k] + "," + body[k + 1..] + "]"
  {
    var body := s[1..|s| - 1];
    var k := IndexOf(body, ',');
    assert body == body[..k] + [','] + body[k + 1..];
    assert s == [s[0]] + body + [s[|s| - 1]];
  }

  /** A string laid out as brackets, whitespace, a comma-free first slot,
      a comma and a second slot: the parse only depends on the two slot
      texts. */
  lemma UiForm(w1: string, p: string, w2: string, w3: string, q: string, w4: string)
    requires Spaces(w1) && Spaces(w2) && Spaces(w3) && Spaces(w4)
    requires Trimmed(p) && Trimmed(q) && NoComma(p)
    ensures ParseUi("[" + (w1 + p + w2) + "," + (w3 + q + w4) + "]") == Convert(p, q)
  {
    SpacesNoComma(w1);
    SpacesNoComma(w2);
    NoCommaJoin(w1, p, w2);
    ParseSlots(w1 + p + w2, w3 + q + w4);
    TrimPadded(w1, p, w2);
    TrimPadded(w3, q, w4);
  }

  /** The accepted layout, split into its whitespace and its two numbers. */
  predicate UiShape(s: string, w1: string, p: string, w2: string, w3: string, q: string, w4: string)
  {
    Spaces(w1) && Spaces(w2) && Spaces(w3) && Spaces(w4) && IsNumber(p) && IsNumber(q) &&
    s == "[" + (w1 + p + w2) + "," + (w3 + q + w4) + "]"
  }

  /** The values of an accepted string are the two numbers' values. */
  lemma UiValues(s: string, w1: string, p: string, w2: string, w3: string, q: string, w4: string)
    requires UiShape(s, w1, p, w2, w3, q, w4)
    ensures ParseUi(s) == Decide(NumberValue(p), NumberValue(q))
  {
    NumberShape(p);
    NumberShape(q);
    UiForm(w1, p, w2, w3, q, w4);
  }

  /** The accepted language is exactly the pattern. */
  lemma UiLanguage(s: string)
    ensures ParseUi(s) != BadFormat <==> exists w1, p, w2, w3, q, w4 :: UiShape(s, w1, p, w2, w3, q, w4)
  {
    if ParseUi(s) != BadFormat {
      SlotsOf(s);
      var body := s[1..|s| - 1];
      var k := IndexOf(body, ',');
      var first, second := body[..k], body[k + 1..];
      TrimSplit(first);
      TrimSplit(second);
      assert UiShape(s, Leading(first), Trim(first), Trailing(first), Leading(second), Trim(second), Trailing(second));
    }
    if exists w1, p, w2, w3, q, w4 :: UiShape(s, w1, p, w2, w3, q, w4) {
      var w1, p, w2, w3, q, w4 :| UiShape(s, w1, p, w2, w3, q, w4);
      UiValues(s, w1, p, w2, w3, q, w4);
    }
  }

  /** Whitespace around the numbers and the comma changes nothing, whatever
      the two slots hold. */
  lemma UiWhitespace(w1: string, p: string, w2: string, w3: string, q: string, w4: string)
    requires Spaces(w1) && Spaces(w2) && Spaces(w3) && Spaces(w4)
    requires Trimmed(p) && Trimmed(q) && NoComma(p)
    ensures ParseUi("[" + (w1 + p + w2) + "," + (w3 + q + w4) + "]") == ParseUi("[" + p + "," + q + "]")
  {
    UiForm(w1, p, w2, w3, q, w4);
    ParseSlots(p, q);
    TrimFixed(p);
    TrimFixed(q);
  }

  /** "1.", ".5", "+1" and exponent forms are not numbers. */
  lemma NumberRejects()
    ensures !IsNumber("1.") && !IsNumber(".5") && !IsNumber("+1") && !IsNumber("1e5") && !IsNumber("1E5")
  {
    if IsNumber("1.") { NumberShape("1."); }
    if IsNumber(".5") { NumberShape(".5"); }
    if IsNumber("+1") { NumberShape("+1"); }
    if IsNumber("1e5") { NumberShape("1e5"); }
    if IsNumber("1E5") { NumberShape("1E5"); }
  }

  /** A first slot that is not a number makes the string malformed. */
  lemma FirstSlotRejected(p: string, q: string)
    requires NoComma(p) && Trimmed(p) && !IsNumber(p)
    ensures ParseUi("[" + p + "," + q + "]") == BadFormat
  {
    ParseSlots(p, q);
    TrimFixed(p);
  }

  /** A first slot holding one of them is reported as malformed, whatever
      the second slot holds: "[1.,q]", "[.5,q]", "[+1,q]", "[1e5,q]". */
  lemma UiRejects(q: string)
    ensures ParseUi("[" + "1." + "," + q + "]") == BadFormat
    ensures ParseUi("[" + ".5" + "," + q + "]") == BadFormat
    ensures ParseUi("[" + "+1" + "," + q + "]") == BadFormat
    ensures ParseUi("[" + "1e5" + "," + q + "]") == BadFormat
  {
    NumberRejects();
    FirstSlotRejected("1.", q);
    FirstSlotRejected(".5", q);
    FirstSlotRejected("+1", q);
    FirstSlotRejected("1e5", q);
  }

  /** The number of the input warning's example, "-1.5", is -1.5. */
  lemma MinusOneAndHalf()
    ensures IsNumber("-1.5") && NumberValue("-1.5") == -1.5
  {
    NumberParts(true, "1", "5");
    assert "-" + "1" + "." + "5" == "-1.5";
    assert DigitsValue("1") == 1 && DigitsValue("5") == 5 && Pow10(1) == 10;
  }

  /** A file separator (U+001C) before the first number is whitespace, so
      it is skipped like a space. */
  lemma SeparatorIsBlank(p: string, q: string)
    requires Trimmed(p) && Trimmed(q) && NoComma(p)
    ensures ParseUi("[" + ("\U{1C}" + p + "") + "," + ("" + q + "") + "]") == ParseUi("[" + p + "," + q + "]")
  {
    UiWhitespace("\U{1C}", p, "", "", q, "");
  }

  /** A digit run is a number whose value is the run's decimal value. */
  lemma DigitsNumber(x: string)
    requires IsDigits(x)
    ensures IsNumber(x) && NumberValue(x) == DigitsValue(x) as real
  {
    assert Unsigned(x) == x;
    assert IndexOf(x, '.') == |x|;
  }

  /** Two digit runs in brackets parse to their decimal values. */
  lemma DigitSlots(x: string, y: string)
    requires IsDigits(x) && IsDigits(y)
    ensures ParseUi("[" + x + "," + y + "]") == Decide(DigitsValue(x) as real, DigitsValue(y) as real)
  {
    assert NoComma(x) && Trimmed(x) && Trimmed(y);
    ParseSlots(x, y);
    TrimFixed(x);
    TrimFixed(y);
    DigitsNumber(x);
    DigitsNumber(y);
  }

  /** Everything the top-level parser accepts is accepted here with the
      same pair: the digits-only language is a sub-language. */
  lemma UiExtendsRoot(s: string)
    requires ParseRoot(s) != BadFormat
    ensures ParseUi(s) == ParseRoot(s)
  {
    RootLanguage(s);
    var x, y :| RootShape(s, x, y);
    RootForm(x, y);
    DigitSlots(x, y);
  }
}
