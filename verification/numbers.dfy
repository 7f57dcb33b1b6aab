/** Decimal text: the subset of Python's `int(text)`, `float(text)` and
    `str(number)` the pipeline uses. Prices and ratings are exact decimals
    rather than binary floats. */
module Numbers {
  import opened Wrappers
  import opened Text

  predicate IsDigit(c: char) {
    '0' <= c <= '9'
  }

  predicate AllDigits(s: string) {
    forall i :: 0 <= i < |s| ==> IsDigit(s[i])
  }

  function Pow10(n: nat): (p: nat)
    ensures p >= 1
  {
    if n == 0 then 1 else 10 * Pow10(n - 1)
  }

  function DigitChar(d: nat): (c: char)
    requires d < 10
    ensures IsDigit(c)
  {
    ('0' as int + d) as char
  }

  /** The number a string of decimal digits denotes, most significant first. */
  function DigitsValue(s: string): nat
    requires AllDigits(s)
  {
    if |s| == 0 then 0
    else 10 * DigitsValue(s[..|s| - 1]) + (s[|s| - 1] as int - '0' as int)
  }

  /** `str(n)` for a natural number: its shortest decimal spelling. */
  function ShowNat(n: nat): (r: string)
    ensures |r| >= 1 && AllDigits(r)
    ensures DigitsValue(r) == n
    ensures |r| > 1 ==> r[0] != '0'
  {
    if n < 10 then [DigitChar(n)]
    else
      var r := ShowNat(n / 10) + [DigitChar(n % 10)];
      assert r[..|r| - 1] == ShowNat(n / 10);
      r
  }

  /** `n` written with exactly `width` digits, zero-padded on the left. */
  function PadDigits(n: nat, width: nat): (r: string)
    requires n < Pow10(width)
    ensures |r| == width && AllDigits(r)
    ensures DigitsValue(r) == n
  {
    if width == 0 then ""
    else
      var r := PadDigits(n / 10, width - 1) + [DigitChar(n % 10)];
      assert r[..|r| - 1] == PadDigits(n / 10, width - 1);
      r
  }

  /** `str(i)` for an integer. */
  function ShowInt(i: int): (r: string)
    ensures |r| >= 1 && NoEdgeSpace(r)
    ensures forall k :: 0 <= k < |r| ==> IsDigit(r[k]) || r[k] == '-'
  {
    var r := if i < 0 then "-" + ShowNat(-i) else ShowNat(i);
    NumeralNoEdge(r);
    r
  }

  /** Text made of digits, points and minus signs has no whitespace of
      either kind at its ends. */
  lemma NumeralNoEdge(r: string)
    requires forall k :: 0 <= k < |r| ==> IsDigit(r[k]) || r[k] == '.' || IsSign(r[k])
    ensures NoEdgeSpace(r) && NoEdge(r, IsNumberSpace)
  {
    if |r| > 0 {
      assert !IsSpace(r[0]) && !IsSpace(r[|r| - 1]);
    }
  }

  /** A non-empty run of digits read as a natural number, else None. */
  function ParseDigits(t: string): (r: Option<nat>)
    ensures r.Some? <==> |t| > 0 && AllDigits(t)
    ensures r.Some? ==> r.value == DigitsValue(t)
  {
    if |t| > 0 && AllDigits(t) then Some(DigitsValue(t)) else None
  }

  /** The whitespace `int()` and `float()` skip around a number: every
      `isspace()` character except the four information separators
      U+001C..U+001F, which `str.strip()` removes but number parsing does
      not. */
  predicate IsNumberSpace(c: char) {
    IsSpace(c) && !('\U{1C}' <= c <= '\U{1F}')
  }

  /** The text a number conversion reads, with its surrounding number
      whitespace removed. */
  function NumberText(text: string): (t: string)
    ensures NoEdge(t, IsNumberSpace)
    ensures var a := LeadingSpaces(text, IsNumberSpace);
      && a + |t| <= |text| && t == text[a..a + |t|]
      && (forall i :: 0 <= i < a ==> IsNumberSpace(text[i]))
      && (forall i :: a + |t| <= i < |text| ==> IsNumberSpace(text[i]))
  {
    StripBy(text, IsNumberSpace)
  }

  /** Python's `int(text)` restricted to ASCII digits: number whitespace
      is ignored, then an optional sign and at least one digit. */
  function ParseInt(text: string): (r: Option<int>)
    ensures NumberText(text) == "" ==> r.None?
    ensures r.Some? && r.value < 0 ==> NumberText(text)[0] == '-'
  {
    var t := NumberText(text);
    if |t| > 0 && (t[0] == '-' || t[0] == '+') then
      match ParseDigits(t[1..])
      case None => None
      case Some(v) =>
        var i: int := v;
        Some(if t[0] == '-' then -i else i)
    else
      match ParseDigits(t)
      case None => None
      case Some(v) => Some(v)
  }

  /** An accepted integer text holds only number whitespace, a sign and
      digits, so no information separator U+001C..U+001F: `int("\x1f5")`
      raises although `"\x1f5".strip()` is `"5"`. */
  lemma {:induction false} ParsedIntHasNoSeparator(text: string)
    requires ParseInt(text).Some?
    ensures forall i :: 0 <= i < |text| ==> !('\U{1C}' <= text[i] <= '\U{1F}')
  {
    var t := NumberText(text);
    var a := LeadingSpaces(text, IsNumberSpace);
    forall i | a <= i < a + |t| ensures IsDigit(text[i]) || text[i] == '-' || text[i] == '+' {
      assert text[i] == t[i - a];
      if i > a {
        assert t[i - a] == t[1..][i - a - 1];
      }
    }
  }

  /** `int("\x1f5")` and `float("\x1f2.5")` raise: the information
      separators are not skipped around a number. */
  lemma SeparatorNotSkipped()
    ensures ParseInt("\U{1F}5") == None
    ensures ParseDecimal("\U{1F}2.5") == None
  {
  }

  /** `int(" 5\n")` is 5: ordinary whitespace is skipped. */
  lemma SpaceSkipped()
    ensures ParseInt(" 5\n") == Some(5)
  {
  }

  /** `int(str(i)) == i`. */
  lemma IntRoundTrip(i: int)
    ensures ParseInt(ShowInt(i)) == Some(i)
  {
    var s := ShowInt(i);
    NumeralNoEdge(s);
    StripByUnchanged(s, IsNumberSpace);
    if i < 0 {
      assert s[1..] == ShowNat(-i);
    }
  }

  /** An exact decimal: the number `units / 10^exp`. */
  datatype Dec = Dec(units: int, exp: nat)

  function Value(d: Dec): real {
    d.units as real / Pow10(d.exp) as real
  }

  /** A decimal with no redundant trailing zero in its fraction: the one
      spelling of its value. */
  predicate IsNormal(d: Dec) {
    d.exp == 0 || d.units % 10 != 0
  }

  lemma ValueShift(u: int, e: nat)
    ensures Value(Dec(10 * u, e + 1)) == Value(Dec(u, e))
  {
    var p := Pow10(e) as real;
    assert Pow10(e + 1) as real == 10.0 * p;
    calc {
      Value(Dec(10 * u, e + 1));
      (10 * u) as real / (10.0 * p);
      (10.0 * u as real) / (10.0 * p);
      u as real / p;
    }
  }

  /** Removes trailing fraction zeros (see NormalizeValue: without changing
      the value). */
  function Normalize(d: Dec): (r: Dec)
    ensures IsNormal(r)
    ensures r.exp <= d.exp
    ensures r.units < 0 <==> d.units < 0
    decreases d.exp
  {
    if d.exp > 0 && d.units % 10 == 0 then Normalize(Dec(d.units / 10, d.exp - 1))
    else d
  }

  lemma {:induction false} NormalizeValue(d: Dec)
    ensures Value(Normalize(d)) == Value(d)
    decreases d.exp
  {
    if d.exp > 0 && d.units % 10 == 0 {
      ValueShift(d.units / 10, d.exp - 1);
      NormalizeValue(Dec(d.units / 10, d.exp - 1));
    }
  }

  /** Two decimals with the same value normalise to the same decimal. */
  lemma {:induction false} NormalizeUnique(a: Dec, b: Dec)
    requires Value(a) == Value(b)
    ensures Normalize(a) == Normalize(b)
    decreases a.exp + b.exp
  {
    if a.exp > 0 && a.units % 10 == 0 {
      ValueShift(a.units / 10, a.exp - 1);
      NormalizeUnique(Dec(a.units / 10, a.exp - 1), b);
    } else if b.exp > 0 && b.units % 10 == 0 {
      ValueShift(b.units / 10, b.exp - 1);
      NormalizeUnique(a, Dec(b.units / 10, b.exp - 1));
    } else {
      NormalCrossEqual(a, b);
    }
  }

  /** Two normal decimals of equal value are identical. */
  lemma NormalCrossEqual(a: Dec, b: Dec)
    requires IsNormal(a) && IsNormal(b)
    requires Value(a) == Value(b)
    ensures a == b
  {
    // a.units * 10^b.exp == b.units * 10^a.exp
    var pa, pb := Pow10(a.exp), Pow10(b.exp);
    assert a.units as real / pa as real == b.units as real / pb as real;
    assert (a.units * pb) as real == (b.units * pa) as real;
    assert a.units * pb == b.units * pa;
    if a.exp < b.exp {
      ShiftedMultiple(a.units, a.exp, b.units, b.exp);
    } else if b.exp < a.exp {
      ShiftedMultiple(b.units, b.exp, a.units, a.exp);
    } else {
      assert pa == pb;
    }
  }

  /** If `u * 10^f == v * 10^e` with `e < f`, then `v` is a multiple of 10, so
      a decimal `Dec(v, f)` with `f > 0` cannot be normal. */
  lemma ShiftedMultiple(u: int, e: nat, v: int, f: nat)
    requires e < f
    requires u * Pow10(f) == v * Pow10(e)
    ensures v % 10 == 0
  {
    var p, big, q := Pow10(e), Pow10(f - e), Pow10(f - e - 1);
    PowSplit(e, f - e);
    assert e + (f - e) == f;
    assert Pow10(f) == p * big;
    MulRotate(u, p, big);
    MulCancel(v, u * big, p);
    assert big == 10 * q;
    MulRotate(u, 10, q);
    assert v == (u * q) * 10;
  }

  lemma DivMod(a: nat, p: nat)
    requires p > 0
    ensures (a / p) * p + a % p == a
    ensures a / p >= 0 && 0 <= a % p < p
  {
  }

  lemma MulRotate(x: int, y: int, z: int)
    ensures x * (y * z) == (x * z) * y
  {
  }

  lemma MulCancel(a: int, b: int, c: int)
    requires c > 0 && a * c == b * c
    ensures a == b
  {
  }

  lemma {:induction false} PowSplit(a: nat, b: nat)
    ensures Pow10(a + b) == Pow10(a) * Pow10(b)
    decreases b
  {
    if b > 0 {
      PowSplit(a, b - 1);
      assert Pow10(a + b) == 10 * Pow10(a + b - 1);
    }
  }

  /** The index of the first `c` in `s`, if any. */
  function IndexOf(s: string, c: char): (r: Option<nat>)
    ensures r.None? <==> c !in s
    ensures r.Some? ==> r.value < |s| && s[r.value] == c && c !in s[..r.value]
  {
    if |s| == 0 then None
    else if s[0] == c then Some(0)
    else match IndexOf(s[1..], c)
      case None => None
      case Some(i) =>
        assert s[..i + 1] == [s[0]] + s[1..][..i];
        Some(i + 1)
  }

  /** The decimal a text spells as `[sign] digits [. digits]` (at least one
      digit in all), already stripped of surrounding whitespace. */
  function ParseUnsignedDecimal(body: string): (r: Option<Dec>)
    ensures r.Some? ==> IsNormal(r.value) && r.value.units >= 0
  {
    var dot := IndexOf(body, '.');
    var whole := if dot.Some? then body[..dot.value] else body;
    var frac := if dot.Some? then body[dot.value + 1..] else "";
    if |whole| + |frac| == 0 || !AllDigits(whole) || !AllDigits(frac) then None
    else Some(PointValue(whole, frac))
  }

  /** The normal decimal `whole.frac` denotes. */
  function PointValue(whole: string, frac: string): (r: Dec)
    requires AllDigits(whole) && AllDigits(frac)
    ensures IsNormal(r) && r.units >= 0
  {
    Normalize(Dec(DigitsValue(whole) * Pow10(|frac|) + DigitsValue(frac), |frac|))
  }

  /** Python's `float(text)` restricted to positional decimal notation,
      computed exactly: number whitespace around it is ignored, an optional
      sign may precede it, and `.5` and `5.` are accepted. */
  function ParseDecimal(text: string): (r: Option<Dec>)
    ensures NumberText(text) == "" ==> r.None?
    ensures r.Some? ==> IsNormal(r.value)
    ensures r.Some? && r.value.units < 0 ==> NumberText(text)[0] == '-'
  {
    ParseSignedDecimal(NumberText(text))
  }

  function ParseSignedDecimal(t: string): (r: Option<Dec>)
    ensures t == "" ==> r.None?
    ensures r.Some? ==> IsNormal(r.value)
    ensures r.Some? && r.value.units < 0 ==> t[0] == '-'
  {
    if |t| > 0 && (t[0] == '-' || t[0] == '+') then
      match ParseUnsignedDecimal(t[1..])
      case None => None
      case Some(d) => Some(if t[0] == '-' then Negate(d) else d)
    else ParseUnsignedDecimal(t)
  }

  function Negate(d: Dec): (r: Dec)
    requires IsNormal(d)
    ensures IsNormal(r)
    ensures r.exp == d.exp && r.units == -d.units
  {
    Dec(-d.units, d.exp)
  }

  /** `whole.frac`: two digit strings around a decimal point. */
  function PointJoin(whole: string, frac: string): (r: string)
    requires |whole| >= 1 && |frac| >= 1 && AllDigits(whole) && AllDigits(frac)
    ensures |r| >= 3 && IsDigit(r[0]) && IsDigit(r[|r| - 1])
    ensures forall k :: 0 <= k < |r| ==> IsDigit(r[k]) || r[k] == '.'
  {
    whole + "." + frac
  }

  /** The digits of a non-negative normal decimal, as Python's `repr` of a
      float writes them in positional notation: at least one fraction digit,
      no trailing zero beyond it. */
  function ShowMagnitude(a: nat, e: nat): (r: string)
    ensures |r| >= 3 && IsDigit(r[0]) && IsDigit(r[|r| - 1])
    ensures forall k :: 0 <= k < |r| ==> IsDigit(r[k]) || r[k] == '.'
  {
    if e == 0 then PointJoin(ShowNat(a), "0")
    else PointJoin(ShowNat(Whole(a, e)), PadDigits(Fraction(a, e), e))
  }

  /** `a // 10^e`: the digits before the point. */
  function Whole(a: nat, e: nat): (q: nat)
    ensures q * Pow10(e) + Fraction(a, e) == a
  {
    var p := Pow10(e);
    DivMod(a, p);
    a / p
  }

  /** `a % 10^e`: the `e` digits after the point. */
  function Fraction(a: nat, e: nat): (f: nat)
    ensures f < Pow10(e)
  {
    var p := Pow10(e);
    DivMod(a, p);
    a % p
  }

  /** `str(x)` for a decimal number. */
  function ShowDec(d: Dec): (r: string)
    ensures NoEdgeSpace(r)
    ensures forall k :: 0 <= k < |r| ==> IsDigit(r[k]) || r[k] == '.' || r[k] == '-'
  {
    var r := ShowNormal(Normalize(d));
    NumeralNoEdge(r);
    r
  }

  /** A digit string, a point and a digit string, at least one digit in
      all, read as the decimal they spell. */
  lemma ParseWithPoint(w: string, f: string)
    requires |w| + |f| >= 1 && AllDigits(w) && AllDigits(f)
    ensures ParseUnsignedDecimal(w + "." + f) == Some(PointValue(w, f))
  {
    var s := w + "." + f;
    assert '.' !in w by {
      forall i | 0 <= i < |w| ensures w[i] != '.' {
        assert IsDigit(w[i]);
      }
    }
    PointFound(w, f);
    assert s[..|w|] == w;
    assert s[|w| + 1..] == f;
  }

  /** The first point of `w.f` is the one after `w` when `w` has none. */
  lemma PointFound(w: string, f: string)
    requires '.' !in w
    ensures IndexOf(w + "." + f, '.') == Some(|w|)
  {
    var s := w + "." + f;
    assert s[|w|] == '.';
    assert s[..|w|] == w;
  }

  lemma WholeRoundTrip(a: nat)
    ensures ParseUnsignedDecimal(ShowMagnitude(a, 0)) == Some(Dec(a, 0))
  {
    var w := ShowNat(a);
    assert ShowMagnitude(a, 0) == w + "." + "0";
    ParseWithPoint(w, "0");
    PointZero(w);
  }

  /** `w.0` is the whole number `w`. */
  lemma PointZero(w: string)
    requires AllDigits(w)
    ensures PointValue(w, "0") == Dec(DigitsValue(w), 0)
  {
    assert DigitsValue("0") == 0;
    assert Pow10(1) == 10;
    var v := DigitsValue(w);
    var d := Dec(v * Pow10(1) + DigitsValue("0"), 1);
    assert d == Dec(10 * v, 1);
    assert (10 * v) % 10 == 0 && (10 * v) / 10 == v;
    assert Normalize(d) == Dec(v, 0);
  }

  lemma FractionRoundTrip(a: nat, e: nat)
    requires e > 0 && a % 10 != 0
    ensures ParseUnsignedDecimal(ShowMagnitude(a, e)) == Some(Dec(a, e))
  {
    var q, r := Whole(a, e), Fraction(a, e);
    var w, f := ShowNat(q), PadDigits(r, e);
    assert ShowMagnitude(a, e) == w + "." + f;
    ParseWithPoint(w, f);
    assert DigitsValue(w) * Pow10(|f|) + DigitsValue(f) == a;
    PointValueIs(w, f, a);
  }

  lemma PointValueIs(w: string, f: string, u: nat)
    requires AllDigits(w) && AllDigits(f)
    requires DigitsValue(w) * Pow10(|f|) + DigitsValue(f) == u
    requires IsNormal(Dec(u, |f|))
    ensures PointValue(w, f) == Dec(u, |f|)
  {
    NormalIsFixed(Dec(u, |f|));
  }

  /** Reading back the digits `ShowMagnitude` writes gives the same normal
      decimal. */
  lemma MagnitudeRoundTrip(a: nat, e: nat)
    requires IsNormal(Dec(a, e))
    ensures ParseUnsignedDecimal(ShowMagnitude(a, e)) == Some(Dec(a, e))
  {
    if e == 0 {
      WholeRoundTrip(a);
    } else {
      FractionRoundTrip(a, e);
    }
  }

  /** `float(str(x))` gives back `x`: rendering a decimal and parsing the text
      yields its normal form, the same value. */
  lemma DecRoundTrip(d: Dec)
    ensures ParseDecimal(ShowDec(d)) == Some(Normalize(d))
  {
    var n := Normalize(d);
    NumeralNoEdge(ShowDec(d));
    StripByUnchanged(ShowDec(d), IsNumberSpace);
    assert ShowDec(d) == ShowNormal(n);
    if n.units < 0 {
      NegativeRoundTrip(n);
    } else {
      NonNegativeRoundTrip(n);
    }
  }

  /** The text ShowDec writes for a decimal already in normal form. */
  function ShowNormal(n: Dec): string
  {
    var m := ShowMagnitude(if n.units < 0 then -n.units else n.units, n.exp);
    if n.units < 0 then "-" + m else m
  }

  lemma NegativeRoundTrip(n: Dec)
    requires IsNormal(n) && n.units < 0
    ensures ParseSignedDecimal(ShowNormal(n)) == Some(n)
  {
    var d := Dec(-n.units, n.exp);
    NegatedNormal(n);
    MagnitudeRoundTrip(d.units, d.exp);
    MinusPrefix(ShowMagnitude(d.units, d.exp), d);
    ShowNegative(n);
    SignedFromParts(ShowNormal(n), ShowMagnitude(d.units, d.exp), d, n);
  }
  lemma SignedFromParts(s: string, m: string, d: Dec, n: Dec)
    requires IsNormal(d) && n == Negate(d)
    requires s == "-" + m && ParseSignedDecimal("-" + m) == Some(Negate(d))
    ensures ParseSignedDecimal(s) == Some(n)
  {
  }
  lemma ShowNegative(n: Dec)
    requires n.units < 0
    ensures ShowNormal(n) == "-" + ShowMagnitude(-n.units, n.exp)
  {
  }

  /** A leading `-` negates what the rest of the text reads as. */
  lemma MinusPrefix(m: string, d: Dec)
    requires ParseUnsignedDecimal(m) == Some(d) && IsNormal(d)
    ensures ParseSignedDecimal("-" + m) == Some(Negate(d))
  {
    assert ("-" + m)[1..] == m;
  }

  lemma NonNegativeRoundTrip(n: Dec)
    requires IsNormal(n) && n.units >= 0
    ensures ParseSignedDecimal(ShowNormal(n)) == Some(n)
  {
    var text := ShowMagnitude(n.units, n.exp);
    assert ShowNormal(n) == text;
    assert IsDigit(text[0]);
    MagnitudeRoundTrip(n.units, n.exp);
  }

  lemma NormalIsFixed(d: Dec)
    requires IsNormal(d)
    ensures Normalize(d) == d
  {
  }

  lemma NegatedNormal(n: Dec)
    requires IsNormal(n)
    ensures IsNormal(Dec(-n.units, n.exp))
  {
  }

  // ---------------------------------------------------------------------
  // What int() and float() accept, and the value they give
  // ---------------------------------------------------------------------

  predicate IsSign(c: char) {
    c == '+' || c == '-'
  }

  /** What `int()` accepts once number whitespace is removed: an optional
      sign, then one or more ASCII digits. */
  predicate IsIntNumeral(t: string) {
    || (|t| > 0 && AllDigits(t))
    || (|t| > 1 && IsSign(t[0]) && AllDigits(t[1..]))
  }

  /** `int(text)` accepts exactly the integer numerals and reads their digits
      in base 10, a leading `-` negating: `int("007")` is 7, `int("+5")` is 5,
      `int("abc")` raises. */
  lemma ParseIntValue(text: string)
    ensures ParseInt(text).Some? <==> IsIntNumeral(NumberText(text))
    ensures var t := NumberText(text);
      |t| > 0 && AllDigits(t) ==> ParseInt(text) == Some(DigitsValue(t))
    ensures var t := NumberText(text);
      |t| > 1 && IsSign(t[0]) && AllDigits(t[1..]) ==>
        ParseInt(text) == Some(if t[0] == '-' then -(DigitsValue(t[1..]) as int) else DigitsValue(t[1..]))
  {
  }

  /** What `float()` accepts in positional notation, without a sign: digits,
      or digits on either side of one point with at least one digit in all. */
  predicate IsPointNumeral(b: string) {
    || (|b| > 0 && AllDigits(b))
    || (exists k :: 0 <= k < |b| && b[k] == '.' && |b| > 1 && AllDigits(b[..k]) && AllDigits(b[k + 1..]))
  }

  /** An optional sign before a point numeral. */
  predicate IsDecimalNumeral(t: string) {
    IsPointNumeral(t) || (|t| > 0 && IsSign(t[0]) && IsPointNumeral(t[1..]))
  }

  /** Digits without a point read as a whole number. */
  lemma ParseWhole(w: string)
    requires |w| > 0 && AllDigits(w)
    ensures ParseUnsignedDecimal(w) == Some(Dec(DigitsValue(w), 0))
  {
    assert '.' !in w by {
      forall i | 0 <= i < |w| ensures w[i] != '.' {
        assert IsDigit(w[i]);
      }
    }
    assert DigitsValue("") == 0;
  }

  /** The unsigned parse succeeds only on point numerals. */
  lemma UnsignedShape(b: string)
    requires ParseUnsignedDecimal(b).Some?
    ensures IsPointNumeral(b)
  {
    var dot := IndexOf(b, '.');
    if dot.Some? {
      var k := dot.value;
      assert b[k] == '.' && AllDigits(b[..k]) && AllDigits(b[k + 1..]);
    }
  }

  /** The unsigned parse succeeds on every point numeral. */
  lemma UnsignedAccepts(b: string)
    requires IsPointNumeral(b)
    ensures ParseUnsignedDecimal(b).Some?
  {
    if |b| > 0 && AllDigits(b) {
      ParseWhole(b);
    } else {
      var k :| 0 <= k < |b| && b[k] == '.' && |b| > 1 && AllDigits(b[..k]) && AllDigits(b[k + 1..]);
      assert b == b[..k] + "." + b[k + 1..];
      ParseWithPoint(b[..k], b[k + 1..]);
    }
  }

  /** A sign in front of an unsigned numeral is read by the signed parse. */
  lemma SignedReads(b: string, d: Dec)
    requires ParseUnsignedDecimal(b) == Some(d) && |b| > 0 && !IsSign(b[0])
    ensures ParseSignedDecimal(b) == Some(d)
    ensures ParseSignedDecimal("+" + b) == Some(d)
    ensures ParseSignedDecimal("-" + b) == Some(Negate(d))
  {
    assert ("+" + b)[1..] == b;
    assert ("-" + b)[1..] == b;
  }

  /** `float(text)` accepts exactly the decimal numerals. */
  lemma ParseDecimalAccepts(text: string)
    ensures ParseDecimal(text).Some? <==> IsDecimalNumeral(NumberText(text))
  {
    var t := NumberText(text);
    if |t| > 0 && IsSign(t[0]) {
      assert !IsPointNumeral(t) by {
        assert !IsDigit(t[0]) && t[0] != '.';
      }
      if ParseUnsignedDecimal(t[1..]).Some? {
        UnsignedShape(t[1..]);
      } else if IsPointNumeral(t[1..]) {
        UnsignedAccepts(t[1..]);
      }
    } else {
      if ParseUnsignedDecimal(t).Some? {
        UnsignedShape(t);
      } else if IsPointNumeral(t) {
        UnsignedAccepts(t);
      }
    }
  }

  /** `float(text)` reads what is left once number whitespace is removed,
      a sign in front of an unsigned numeral included. */
  lemma ReadsNumberText(text: string, b: string, d: Dec, negated: Dec)
    requires ParseUnsignedDecimal(b) == Some(d) && |b| > 0 && !IsSign(b[0])
    requires IsNormal(d) && negated == Negate(d)
    ensures NumberText(text) == b ==> ParseDecimal(text) == Some(d)
    ensures NumberText(text) == "+" + b ==> ParseDecimal(text) == Some(d)
    ensures NumberText(text) == "-" + b ==> ParseDecimal(text) == Some(negated)
  {
    SignedReads(b, d);
  }

  /** The decimal read from `w.f` is worth the whole digits plus the fraction
      digits over the matching power of ten. */
  lemma PointValueMeaning(w: string, f: string)
    requires AllDigits(w) && AllDigits(f)
    ensures Value(PointValue(w, f)) == DigitsValue(w) as real + DigitsValue(f) as real / Pow10(|f|) as real
  {
    NormalizeValue(Dec(DigitsValue(w) * Pow10(|f|) + DigitsValue(f), |f|));
    ScaledValue(DigitsValue(w), DigitsValue(f), |f|);
  }

  lemma ScaledValue(a: nat, b: nat, e: nat)
    ensures Value(Dec(a * Pow10(e) + b, e)) == a as real + b as real / Pow10(e) as real
  {
    var p := Pow10(e);
    CastSum(a, b, p);
    SplitFraction(a as real, b as real, p as real);
  }

  lemma CastSum(a: nat, b: nat, p: nat)
    ensures (a * p + b) as real == a as real * p as real + b as real
  {
  }

  lemma SplitFraction(w: real, f: real, p: real)
    requires p > 0.0
    ensures (w * p + f) / p == w + f / p
  {
  }

  /** `float(text)` of `w.f`, optionally signed: the value of the digits,
      `-` negating; `float("10.50")` is 10.5 and `float(".5")` is 0.5. */
  lemma ParseDecimalPoint(text: string, w: string, f: string)
    requires AllDigits(w) && AllDigits(f) && |w| + |f| >= 1
    ensures NumberText(text) == w + "." + f ==> ParseDecimal(text) == Some(PointValue(w, f))
    ensures NumberText(text) == "+" + w + "." + f ==> ParseDecimal(text) == Some(PointValue(w, f))
    ensures NumberText(text) == "-" + w + "." + f ==> ParseDecimal(text) == Some(Negate(PointValue(w, f)))
  {
    ParseWithPoint(w, f);
    PointUnsigned(w, f);
    ReadsNumberText(text, w + "." + f, PointValue(w, f), Negate(PointValue(w, f)));
  }

  /** `w.f` starts with a digit or the point, and a sign before it is a
      sign before the whole numeral. */
  lemma PointUnsigned(w: string, f: string)
    requires AllDigits(w)
    ensures var b := w + "." + f;
      && |b| > 0 && !IsSign(b[0])
      && "+" + w + "." + f == "+" + b
      && "-" + w + "." + f == "-" + b
  {
    var b := w + "." + f;
    if |w| > 0 {
      assert b[0] == w[0] && IsDigit(w[0]);
    } else {
      assert b[0] == '.';
    }
  }


  /** `float(text)` of digits without a point, optionally signed:
      `float("10")` is 10. */
  lemma ParseDecimalWhole(text: string, w: string)
    requires |w| > 0 && AllDigits(w)
    ensures NumberText(text) == w ==> ParseDecimal(text) == Some(Dec(DigitsValue(w), 0))
    ensures NumberText(text) == "+" + w ==> ParseDecimal(text) == Some(Dec(DigitsValue(w), 0))
    ensures NumberText(text) == "-" + w ==> ParseDecimal(text) == Some(Negate(Dec(DigitsValue(w), 0)))
  {
    ParseWhole(w);
    assert IsDigit(w[0]);
    ReadsNumberText(text, w, Dec(DigitsValue(w), 0), Negate(Dec(DigitsValue(w), 0)));
  }

  /** `int("007")` is 7: leading zeros are read. */
  lemma LeadingZeros()
    ensures ParseInt("007") == Some(7)
  {
    PlainNumber("007");
    assert DigitsValue("007") == 7 by {
      assert "007"[..2] == "00" && "00"[..1] == "0" && "0"[..0] == "";
    }
  }

  /** `int("+5")` is 5: a plus sign is read. */
  lemma PlusSign()
    ensures ParseInt("+5") == Some(5)
  {
    PlainNumber("+5");
    assert "+5"[1..] == "5";
  }

  /** `int("abc")` raises. */
  lemma NotAnInteger()
    ensures ParseInt("abc") == None
  {
    assert !IsSpace('a') && !IsSpace('c');
    StripByUnchanged("abc", IsNumberSpace);
  }

  /** `float("10.50")` is 10.5: a trailing fraction zero is read. */
  lemma TrailingZero()
    ensures ParseDecimal("10.50") == Some(Dec(105, 1))
  {
    PlainNumber("10.50");
    assert "10" + "." + "50" == "10.50";
    ParseDecimalPoint("10.50", "10", "50");
    TenFifty();
  }

  lemma TenFifty()
    ensures PointValue("10", "50") == Dec(105, 1)
  {
    assert DigitsValue("10") == 10 by { assert "10"[..1] == "1"; }
    assert DigitsValue("50") == 50 by { assert "50"[..1] == "5"; }
    assert Pow10(2) == 100;
    assert PointValue("10", "50") == Normalize(Dec(1050, 2));
    assert Normalize(Dec(1050, 2)) == Dec(105, 1);
  }

  /** `float("10")` is 10: no point is needed. */
  lemma NoPoint()
    ensures ParseDecimal("10") == Some(Dec(10, 0))
  {
    PlainNumber("10");
    ParseDecimalWhole("10", "10");
    assert DigitsValue("10") == 10 by { assert "10"[..1] == "1"; }
  }

  /** `float(".5")` is 0.5: the whole part may be empty. */
  lemma EmptyWhole()
    ensures ParseDecimal(".5") == Some(Dec(5, 1))
  {
    PlainNumber(".5");
    assert "" + "." + "5" == ".5";
    ParseDecimalPoint(".5", "", "5");
    assert PointValue("", "5") == Normalize(Dec(5, 1));
  }

  /** `float("5.")` is 5: the fraction may be empty. */
  lemma EmptyFraction()
    ensures ParseDecimal("5.") == Some(Dec(5, 0))
  {
    PlainNumber("5.");
    assert "5" + "." + "" == "5.";
    ParseDecimalPoint("5.", "5", "");
    assert PointValue("5", "") == Normalize(Dec(5, 0));
  }

  /** `float("abc")` raises. */
  lemma NotANumber()
    ensures ParseDecimal("abc") == None
  {
    assert !IsSpace('a') && !IsSpace('c');
    StripByUnchanged("abc", IsNumberSpace);
  }

  /** A numeral without surrounding whitespace is read as it stands. */
  lemma PlainNumber(r: string)
    requires forall k :: 0 <= k < |r| ==> IsDigit(r[k]) || r[k] == '.' || IsSign(r[k])
    ensures NumberText(r) == r
  {
    NumeralNoEdge(r);
    StripByUnchanged(r, IsNumberSpace);
  }
}
