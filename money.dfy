/**
 * Decimal text of the bill's quantity and price fields.
 *
 * Both input patterns allow at most two decimals, so an amount is a `nat`
 * counting hundredths (paise for a price, hundredths of a unit for a
 * quantity). The module holds the validator patterns, the text-to-number
 * step the bill performs with Python's float(), and the "{:,.2f}" display
 * format together with the comma stripping that undoes it.
 */
module Money {
  import opened Optional

  predicate IsDigit(c: char) { '0' <= c <= '9' }

  predicate AllDigits(s: string) { forall i :: 0 <= i < |s| ==> IsDigit(s[i]) }

  function DigitValue(c: char): (d: nat)
    requires IsDigit(c)
    ensures d < 10
  {
    c as int - '0' as int
  }

  function DigitChar(d: nat): (c: char)
    requires d < 10
    ensures IsDigit(c) && DigitValue(c) == d
  {
    ('0' as int + d) as char
  }

  function Pow10(k: nat): (p: nat)
    ensures p >= 1
  {
    if k == 0 then 1 else 10 * Pow10(k - 1)
  }

  lemma {:induction false} Pow10Monotone(k: nat, m: nat)
    requires k <= m
    ensures Pow10(k) <= Pow10(m)
  {
    if k < m {
      Pow10Monotone(k, m - 1);
    }
  }

  /** The number written by a string of decimal digits (most significant first). */
  function DigitsValue(s: string): (n: nat)
    requires AllDigits(s)
    ensures n < Pow10(|s|)
  {
    if s == [] then 0 else DigitsValue(s[..|s| - 1]) * 10 + DigitValue(s[|s| - 1])
  }

  /** The shortest decimal numeral of n: no leading zero unless n is zero itself. */
  function NatToDigits(n: nat): (s: string)
    ensures |s| >= 1 && AllDigits(s)
    ensures DigitsValue(s) == n
    ensures s[0] == '0' ==> n == 0
    ensures |s| > 1 ==> s[0] != '0'
    ensures '.' !in s && ',' !in s
  {
    if n < 10 then [DigitChar(n)]
    else
      var prefix := NatToDigits(n / 10);
      assert (prefix + [DigitChar(n % 10)])[..|prefix|] == prefix;
      assert (prefix + [DigitChar(n % 10)])[0] == prefix[0];
      prefix + [DigitChar(n % 10)]
  }

  /** A numeral that starts with a non-zero digit is at least 1. */
  lemma {:induction false} LeadingDigitPositive(s: string)
    requires AllDigits(s) && |s| >= 1 && s[0] != '0'
    ensures DigitsValue(s) >= 1
  {
    if |s| > 1 {
      var init := s[..|s| - 1];
      assert init[0] == s[0];
      LeadingDigitPositive(init);
    }
  }

  /** Appending a decimal digit d to a, and taking it off again. */
  lemma ShiftDigit(a: nat, d: nat)
    requires d < 10
    ensures (a * 10 + d) / 10 == a && (a * 10 + d) % 10 == d
  {
  }

  /** The only numeral without a leading zero that reads n is NatToDigits(n). */
  lemma {:induction false} NumeralUnique(s: string)
    requires AllDigits(s) && |s| >= 1 && (|s| > 1 ==> s[0] != '0')
    ensures s == NatToDigits(DigitsValue(s))
  {
    var n := DigitsValue(s);
    if |s| == 1 {
      assert s[..0] == [];
      assert s == [DigitChar(n)];
    } else {
      var init, last := s[..|s| - 1], s[|s| - 1];
      assert init[0] == s[0];
      LeadingDigitPositive(init);
      NumeralUnique(init);
      var d := DigitValue(last);
      assert n == DigitsValue(init) * 10 + d;
      ShiftDigit(DigitsValue(init), d);
      assert DigitChar(d) == last;
      assert s == init + [last];
    }
  }

  /** Position of the first '.', or |s| when there is none. */
  function DotIndex(s: string): (k: nat)
    ensures k <= |s|
    ensures k < |s| ==> s[k] == '.'
    ensures forall i :: 0 <= i < k ==> s[i] != '.'
  {
    if s == [] || s[0] == '.' then 0 else 1 + DotIndex(s[1..])
  }

  /**
   * The validator pattern ^\d{1,maxInt}(\.\d{1,2})?$ : one to maxInt digits,
   * optionally followed by a point and one or two digits. The quantity field
   * uses maxInt = 3, the price field maxInt = 8.
   */
  function MatchesPattern(s: string, maxInt: nat): (m: bool)
    ensures m ==> 1 <= |s| <= maxInt + 3 && IsDigit(s[0]) && IsDigit(s[|s| - 1])
    ensures m ==> forall i :: 0 <= i < |s| ==> IsDigit(s[i]) || s[i] == '.'
  {
    var k := DotIndex(s);
    var m := 1 <= k <= maxInt && AllDigits(s[..k]) &&
      (k == |s| || (2 <= |s| - k <= 3 && AllDigits(s[k + 1..])));
    assert m ==> forall i :: 0 <= i < |s| ==> IsDigit(s[i]) || s[i] == '.' by {
      if m {
        DigitsAroundPoint(s, k);
      }
    }
    m
  }

  /** Digits before the first point and digits after it leave only digits and that point. */
  lemma {:induction false} DigitsAroundPoint(s: string, k: nat)
    requires k <= |s| && AllDigits(s[..k])
    requires k < |s| ==> s[k] == '.' && AllDigits(s[k + 1..])
    ensures forall i :: 0 <= i < |s| ==> IsDigit(s[i]) || (s[i] == '.' && i == k)
  {
    forall i | 0 <= i < |s| ensures IsDigit(s[i]) || (s[i] == '.' && i == k) {
      if i < k {
        assert s[i] == s[..k][i];
      } else if i > k {
        assert s[i] == s[k + 1..][i - k - 1];
      }
    }
  }

  /** Value in hundredths of a fraction part of at most two digits. */
  function FractionValue(f: string): (n: nat)
    requires AllDigits(f) && |f| <= 2
    ensures n < 100
  {
    if |f| == 0 then 0
    else if |f| == 1 then DigitValue(f[0]) * 10
    else DigitValue(f[0]) * 10 + DigitValue(f[1])
  }

  /**
   * Python's float() on the decimal forms the fields can hold: digits,
   * optionally a point and at most two more digits, and at least one digit
   * in all ("12", "12.", "12.5", ".5"). The value is in hundredths. Any
   * other text is unparseable (float() raises ValueError).
   */
  function ParseHundredths(s: string): (r: Option<nat>)
    ensures r.Some? ==>
      s != [] && forall i :: 0 <= i < |s| ==> IsDigit(s[i]) || (s[i] == '.' && i == DotIndex(s))
    ensures s != [] && AllDigits(s) ==> r == Some(DigitsValue(s) * 100)
  {
    var k := DotIndex(s);
    var r := ParseParts(s[..k], if k == |s| then None else Some(s[k + 1..]));
    assert r.Some? ==> forall i :: 0 <= i < |s| ==> IsDigit(s[i]) || (s[i] == '.' && i == k) by {
      if r.Some? {
        DigitsAroundPoint(s, k);
      }
    }
    assert AllDigits(s) ==> k == |s| && s[..k] == s;
    r
  }

  /** The value of a whole part and, after the point when there is one, a fraction part. */
  function ParseParts(whole: string, frac: Option<string>): Option<nat> {
    match frac
    case None =>
      if whole != [] && AllDigits(whole) then Some(DigitsValue(whole) * 100) else None
    case Some(f) =>
      if AllDigits(whole) && AllDigits(f) && |f| <= 2 && |whole| + |f| >= 1
      then Some(DigitsValue(whole) * 100 + FractionValue(f))
      else None
  }

  /**
   * Text the pattern with maxInt integer digits accepts always parses, and
   * to a value below 10^maxInt (counted in hundredths).
   */
  lemma {:induction false} PatternBound(s: string, maxInt: nat)
    requires MatchesPattern(s, maxInt)
    ensures ParseHundredths(s).Some?
    ensures ParseHundredths(s).value < Pow10(maxInt) * 100
  {
    var k := DotIndex(s);
    var whole := s[..k];
    var w := DigitsValue(whole);
    Pow10Monotone(|whole|, maxInt);
    assert w + 1 <= Pow10(maxInt);
    if k < |s| {
      var frac := s[k + 1..];
      assert FractionValue(frac) < 100;
      assert w * 100 + 100 <= Pow10(maxInt) * 100;
    }
  }

  /** A quantity accepted by the quantity validator is below 1000.00. */
  lemma {:induction false} QuantityPatternBound(s: string)
    requires MatchesPattern(s, 3)
    ensures ParseHundredths(s).Some? && ParseHundredths(s).value < 100000
  {
    PatternBound(s, 3);
  }

  /** A price accepted by the price validator is below 10^8. */
  lemma {:induction false} PricePatternBound(s: string)
    requires MatchesPattern(s, 8)
    ensures ParseHundredths(s).Some? && ParseHundredths(s).value < 10000000000
  {
    PatternBound(s, 8);
    assert Pow10(8) == 100000000;
  }

  /** str.replace(",", ""): every comma deleted, everything else kept in order. */
  function RemoveCommas(s: string): (t: string)
    ensures ',' !in t
    ensures |t| <= |s|
  {
    if s == [] then []
    else (if s[0] == ',' then [] else [s[0]]) + RemoveCommas(s[1..])
  }

  lemma {:induction false} RemoveCommasConcat(a: string, b: string)
    ensures RemoveCommas(a + b) == RemoveCommas(a) + RemoveCommas(b)
  {
    if a == [] {
      assert a + b == b;
    } else {
      var ab := a + b;
      assert ab[0] == a[0] && ab[1..] == a[1..] + b;
      RemoveCommasConcat(a[1..], b);
      var head := if a[0] == ',' then [] else [a[0]];
      assert RemoveCommas(ab) == head + RemoveCommas(a[1..] + b);
      assert RemoveCommas(a) == head + RemoveCommas(a[1..]);
    }
  }

  lemma {:induction false} RemoveCommasNoComma(s: string)
    requires ',' !in s
    ensures RemoveCommas(s) == s
  {
    if s != [] {
      RemoveCommasNoComma(s[1..]);
    }
  }

  /**
   * Python's ',' grouping of an integer numeral: a comma before every group
   * of three digits counted from the right.
   */
  function GroupThousands(ds: string): (g: string)
    ensures |ds| >= 1 ==> |g| == |ds| + (|ds| - 1) / 3
    ensures ',' !in ds && |ds| >= 1 ==> CommasEveryFourth(g)
    decreases |ds|
  {
    if |ds| <= 3 then ds
    else
      var k := |ds| - 3;
      var g := GroupThousands(ds[..k]) + "," + ds[k..];
      assert ',' !in ds ==> CommasEveryFourth(g) by {
        if ',' !in ds {
          NoCommaInSlices(ds, k);
          CommaJoin(GroupThousands(ds[..k]), ds[k..]);
        }
      }
      g
  }

  /** Counted from the right, every fourth character is a comma and no other one is. */
  predicate CommasEveryFourth(g: string) {
    forall i :: 0 <= i < |g| ==> (g[i] == ',' <==> (|g| - 1 - i) % 4 == 3)
  }

  /** Three comma-free characters joined to a grouped numeral by a comma keep the grouping. */
  lemma {:induction false} CommaJoin(h: string, last: string)
    requires CommasEveryFourth(h) && |last| == 3 && ',' !in last
    ensures CommasEveryFourth(h + "," + last)
  {
    var g := h + "," + last;
    forall i | 0 <= i < |g| ensures g[i] == ',' <==> (|g| - 1 - i) % 4 == 3 {
      if i < |h| {
        assert g[i] == h[i];
        assert |g| - 1 - i == (|h| - 1 - i) + 4;
      } else if i > |h| {
        assert g[i] == last[i - |h| - 1];
      }
    }
  }

  /** A comma joining two pieces disappears and the pieces stay. */
  lemma {:induction false} RemoveCommasAroundComma(a: string, b: string)
    requires ',' !in b
    ensures RemoveCommas(a + "," + b) == RemoveCommas(a) + b
  {
    RemoveCommasConcat(a + ",", b);
    RemoveCommasConcat(a, ",");
    RemoveCommasOfComma();
    RemoveCommasNoComma(b);
  }

  lemma {:induction false} RemoveCommasOfComma()
    ensures RemoveCommas(",") == []
  {
    assert ","[1..] == [];
  }

  lemma {:induction false} NoCommaInSlices(ds: string, k: nat)
    requires ',' !in ds && k <= |ds|
    ensures ',' !in ds[..k] && ',' !in ds[k..]
  {
    assert forall i :: 0 <= i < k ==> ds[..k][i] == ds[i];
    assert forall i :: 0 <= i < |ds| - k ==> ds[k..][i] == ds[k + i];
  }

  /** Removing the separators from a grouped numeral gives the numeral back. */
  lemma {:induction false} UngroupThousands(ds: string)
    requires ',' !in ds
    ensures RemoveCommas(GroupThousands(ds)) == ds
    decreases |ds|
  {
    if |ds| <= 3 {
      RemoveCommasNoComma(ds);
    } else {
      var k := |ds| - 3;
      NoCommaInSlices(ds, k);
      UngroupThousands(ds[..k]);
      RemoveCommasAroundComma(GroupThousands(ds[..k]), ds[k..]);
      assert ds[..k] + ds[k..] == ds;
    }
  }

  function TwoDigits(n: nat): (t: string)
    requires n < 100
    ensures |t| == 2 && AllDigits(t) && FractionValue(t) == n
  {
    [DigitChar(n / 10), DigitChar(n % 10)]
  }

  /**
   * p is how "{:,.2f}" shows v hundredths: the decimal numeral of v div 100,
   * without leading zeros, with a comma before every group of three digits
   * counted from the right, then a point and the two digits of v mod 100.
   */
  predicate PriceText(p: string, v: nat) {
    |p| >= 4 && p[|p| - 3] == '.' &&
    AllDigits(p[|p| - 2..]) && FractionValue(p[|p| - 2..]) == v % 100 &&
    CommasEveryFourth(p[..|p| - 3]) &&
    WholeNumeral(RemoveCommas(p[..|p| - 3]), v / 100)
  }

  /** w is a numeral for n with no leading zero. */
  predicate WholeNumeral(w: string, n: nat) {
    |w| >= 1 && AllDigits(w) && DigitsValue(w) == n && (|w| > 1 ==> w[0] != '0')
  }

  /** "{:,.2f}".format(v / 100). */
  function FormatPrice(v: nat): (p: string)
    ensures PriceText(p, v)
  {
    var whole, frac := NatToDigits(v / 100), TwoDigits(v % 100);
    UngroupThousands(whole);
    FormatShape(v, GroupThousands(whole), frac);
    GroupThousands(whole) + "." + frac
  }

  /** The grouped numeral, the point and the decimals, found again by position from the end. */
  lemma {:induction false} FormatShape(v: nat, g: string, frac: string)
    requires CommasEveryFourth(g) && WholeNumeral(RemoveCommas(g), v / 100)
    requires |frac| == 2 && AllDigits(frac) && FractionValue(frac) == v % 100
    ensures PriceText(g + "." + frac, v)
  {
    var p := g + "." + frac;
    assert p[..|p| - 3] == g && p[|p| - 2..] == frac && p[|p| - 3] == '.';
  }

  /** Without its commas, the whole part of a formatted price is exactly the numeral of v div 100. */
  lemma {:induction false} FormatPriceWhole(v: nat)
    ensures var p := FormatPrice(v); RemoveCommas(p[..|p| - 3]) == NatToDigits(v / 100)
  {
    PriceTextWhole(FormatPrice(v), v);
  }

  /** The whole part of any PriceText, commas removed, is the shortest numeral of v div 100. */
  lemma {:induction false} PriceTextWhole(p: string, v: nat)
    requires PriceText(p, v)
    ensures RemoveCommas(p[..|p| - 3]) == NatToDigits(v / 100)
  {
    var w := RemoveCommas(p[..|p| - 3]);
    assert WholeNumeral(w, v / 100);
    NumeralUnique(w);
  }

  /** The first point of digits followed by a point is right after the digits. */
  lemma {:induction false} DotIndexAfterDigits(d: string, rest: string)
    requires AllDigits(d) && |rest| >= 1 && rest[0] == '.'
    ensures DotIndex(d + rest) == |d|
  {
    if d != [] {
      assert (d + rest)[1..] == d[1..] + rest;
      DotIndexAfterDigits(d[1..], rest);
    }
  }

  /** The decimals read as a numeral, scaled up to hundredths: "5" is 50, "05" is 5. */
  lemma {:induction false} FractionDigits(f: string)
    requires AllDigits(f) && |f| <= 2
    ensures FractionValue(f) == DigitsValue(f) * Pow10(2 - |f|)
  {
    assert Pow10(2) == 100 && Pow10(1) == 10 && Pow10(0) == 1;
    if |f| == 1 {
      assert f[..0] == [];
    } else if |f| == 2 {
      assert f[..1][..0] == [] && f[..1][0] == f[0];
    }
  }

  lemma {:induction false} ParsePartsWithFraction(whole: string, frac: string)
    requires AllDigits(whole) && AllDigits(frac) && |frac| <= 2 && |whole| + |frac| >= 1
    ensures ParseParts(whole, Some(frac)) == Some(DigitsValue(whole) * 100 + FractionValue(frac))
  {
  }

  /**
   * Text with a point parses to the whole part in units plus the decimals
   * in hundredths (FractionDigits gives the decimals' value as a numeral):
   * "12." is 12, "12.5" is 12.50, ".5" is 0.50, "12.34" is 12.34.
   */
  lemma {:induction false} ParseWholeDotFraction(whole: string, frac: string)
    requires AllDigits(whole) && AllDigits(frac) && |frac| <= 2 && |whole| + |frac| >= 1
    ensures ParseHundredths(whole + "." + frac) == Some(DigitsValue(whole) * 100 + FractionValue(frac))
  {
    var s := whole + ['.'] + frac;
    assert s == whole + (['.'] + frac);
    DotIndexAfterDigits(whole, ['.'] + frac);
    var k := DotIndex(s);
    assert k == |whole| && k < |s|;
    assert s[..k] == whole;
    assert s[k + 1..] == frac;
    assert ParseHundredths(s) == ParseParts(whole, Some(frac));
    ParsePartsWithFraction(whole, frac);
  }

  /**
   * float() on "<digits>.<up to two digits>", stated without FractionValue:
   * the whole numeral in units plus the decimal numeral scaled to hundredths.
   */
  lemma {:induction false} ParseDecimal(whole: string, frac: string)
    requires AllDigits(whole) && AllDigits(frac) && |frac| <= 2 && |whole| + |frac| >= 1
    ensures ParseHundredths(whole + "." + frac) ==
      Some(DigitsValue(whole) * 100 + DigitsValue(frac) * Pow10(2 - |frac|))
  {
    ParseWholeDotFraction(whole, frac);
    FractionDigits(frac);
  }

  /** Digits, a point and two decimals read as v when the parts are v's units and hundredths. */
  lemma {:induction false} ParsesTo(whole: string, frac: string, v: nat)
    requires AllDigits(whole) && |whole| >= 1 && DigitsValue(whole) == v / 100
    requires AllDigits(frac) && |frac| == 2 && FractionValue(frac) == v % 100
    ensures ParseHundredths(whole + "." + frac) == Some(v)
  {
    ParseWholeDotFraction(whole, frac);
  }

  /** Any text laid out as PriceText reads back, without its commas, as v. */
  lemma {:induction false} PriceTextParses(p: string, v: nat)
    requires PriceText(p, v)
    ensures ParseHundredths(RemoveCommas(p)) == Some(v)
  {
    var head, frac := p[..|p| - 3], p[|p| - 2..];
    assert p == head + "." + frac;
    RemoveCommasConcat(head + ".", frac);
    RemoveCommasConcat(head, ".");
    assert ',' !in frac by {
      forall i | 0 <= i < |frac| ensures frac[i] != ',' {
        assert IsDigit(frac[i]);
      }
    }
    RemoveCommasNoComma(frac);
    RemoveCommasNoComma(".");
    var w := RemoveCommas(head);
    assert RemoveCommas(p) == w + "." + frac;
    ParsesTo(w, frac, v);
  }

  /** Formatting a price and stripping the commas again parses back to the same value. */
  lemma {:induction false} FormatRoundTrip(v: nat)
    ensures ParseHundredths(RemoveCommas(FormatPrice(v))) == Some(v)
  {
    PriceTextParses(FormatPrice(v), v);
  }

  /**
   * The debounced format_price action on the price field's text: strip the
   * commas, parse, and either show the value formatted or clear the field.
   */
  function FormatPriceField(text: string): (shown: string)
    ensures shown == [] <==> ParseHundredths(RemoveCommas(text)).None?
    ensures shown != [] ==>
      ParseHundredths(RemoveCommas(shown)) == ParseHundredths(RemoveCommas(text))
  {
    match ParseHundredths(RemoveCommas(text))
    case Some(v) => FormatRoundTrip(v); FormatPrice(v)
    case None => []
  }

  /** Formatting an already formatted field changes nothing. */
  lemma {:induction false} FormatPriceFieldIdempotent(text: string)
    ensures FormatPriceField(FormatPriceField(text)) == FormatPriceField(text)
  {
    var shown := FormatPriceField(text);
    if shown == [] {
      assert RemoveCommas(shown) == [];
    }
  }
}
