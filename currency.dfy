/**
 * convert_currency: the grand total in words, "<words> Rupees and <words>
 * Paise" or "<words> Rupees".
 *
 * The amount is a grand total in ten-thousandths of a rupee (see module
 * Ledger). The number-to-words step belongs to the inflect library and is
 * not part of this model: it is the parameter `words`, about which nothing
 * is assumed.
 */
module Currency {
  import opened Optional
  import opened Ledger
  import opened Money

  /** Ten-thousandths in one rupee. */
  const PerRupee: nat := 10000

  /** The split of an amount into whole rupees and paise. */
  datatype Split = Split(rupees: nat, paise: nat)

  /**
   * Python's round() of n / 100 to a whole number: to the nearest integer,
   * a tie going to the even neighbour.
   */
  function RoundPaise(n: nat): (q: nat)
    ensures 2 * n - 100 <= 200 * q <= 2 * n + 100
    ensures 200 * q == 2 * n + 100 || 200 * q == 2 * n - 100 ==> q % 2 == 0
  {
    var q, r := n / 100, n % 100;
    if r > 50 || (r == 50 && q % 2 == 1) then q + 1 else q
  }

  /**
   * The split as convert_currency writes it: rupees = int(amount), the
   * integer part; paise = round((amount - rupees) * 100), the fractional
   * part rounded to whole paise. Nothing stops the paise reaching 100.
   */
  function SplitAsWritten(amount: nat): (s: Split)
    ensures s.rupees * PerRupee <= amount < s.rupees * PerRupee + PerRupee
    ensures s.paise <= 100
    ensures 2 * (amount - s.rupees * PerRupee) - 100 <= 200 * s.paise
    ensures 200 * s.paise <= 2 * (amount - s.rupees * PerRupee) + 100
  {
    Split(amount / PerRupee, RoundPaise(amount % PerRupee))
  }

  /**
   * The split with the carry: the amount is rounded to whole paise first,
   * so that a fraction that rounds up to 100 paise becomes one more rupee.
   */
  function SplitCarry(amount: nat): (s: Split)
    ensures s.paise < 100
    ensures 2 * amount - 100 <= 200 * (s.rupees * 100 + s.paise) <= 2 * amount + 100
  {
    var h := RoundPaise(amount);
    Split(h / 100, h % 100)
  }

  /** n = 100 q + r with r < 100 pins down n / 100 and n % 100. */
  lemma {:induction false} DivMod100(n: nat, q: nat, r: nat)
    requires r < 100 && n == 100 * q + r
    ensures n / 100 == q && n % 100 == r
  {
  }

  /** Whole rupees do not change how the fraction rounds: they only add 100 paise each. */
  lemma {:induction false} RoundPaiseShift(rupees: nat, fraction: nat)
    requires fraction < PerRupee
    ensures RoundPaise(rupees * PerRupee + fraction) == rupees * 100 + RoundPaise(fraction)
  {
    var n := rupees * PerRupee + fraction;
    var q, r := fraction / 100, fraction % 100;
    assert n == 100 * (rupees * 100 + q) + r;
    DivMod100(n, rupees * 100 + q, r);
    assert (rupees * 100 + q) % 2 == q % 2 by {
      assert rupees * 100 + q == 2 * (rupees * 50) + q;
    }
  }

  /**
   * Where the written split stays below 100 paise the carrying split agrees
   * with it; where it reaches 100 paise, the carrying split has one rupee
   * more and no paise.
   */
  lemma {:induction false} CarryAgreesWithWritten(amount: nat)
    ensures SplitAsWritten(amount).paise < 100 ==> SplitCarry(amount) == SplitAsWritten(amount)
    ensures SplitAsWritten(amount).paise == 100 ==>
      SplitCarry(amount) == Split(SplitAsWritten(amount).rupees + 1, 0)
  {
    var rupees, fraction := amount / PerRupee, amount % PerRupee;
    assert amount == rupees * PerRupee + fraction;
    RoundPaiseShift(rupees, fraction);
    var p := RoundPaise(fraction);
    if p < 100 {
      DivMod100(rupees * 100 + p, rupees, p);
    } else {
      DivMod100(rupees * 100 + p, rupees + 1, 0);
    }
  }

  predicate EndsWith(s: string, suffix: string) {
    |suffix| <= |s| && s[|s| - |suffix|..] == suffix
  }

  /** The phrase for a split: paise are mentioned exactly when there are some. */
  function Phrase(s: Split, words: nat -> string): (r: string)
    ensures |words(s.rupees) + " Rupees"| <= |r|
    ensures r[..|words(s.rupees) + " Rupees"|] == words(s.rupees) + " Rupees"
    ensures EndsWith(r, " Paise") <==> s.paise > 0
    ensures EndsWith(r, " Rupees") <==> s.paise == 0
    ensures s.paise == 0 ==> r == words(s.rupees) + " Rupees"
    ensures s.paise > 0 ==> EndsWith(r, " and " + words(s.paise) + " Paise")
    ensures s.paise > 0 ==>
      |r| == |words(s.rupees) + " Rupees"| + |" and " + words(s.paise) + " Paise"|
  {
    var head := words(s.rupees) + " Rupees";
    if s.paise > 0 then
      var r := head + " and " + words(s.paise) + " Paise";
      assert r[..|head|] == head;
      assert r[|r| - |" and " + words(s.paise) + " Paise"|..] == " and " + words(s.paise) + " Paise";
      assert r[|r| - 7..] != " Rupees" by { assert r[|r| - 1] == 'e'; }
      r
    else
      assert head[|head| - 6..] != " Paise" by { assert head[|head| - 1] == 's'; }
      head
  }

  /** convert_currency as the source computes it. */
  function ConvertCurrencyAsWritten(amount: nat, words: nat -> string): (r: string)
    ensures EndsWith(r, " Paise") <==> SplitAsWritten(amount).paise > 0
    ensures SplitAsWritten(amount).paise > 0 ==>
      EndsWith(r, " and " + words(SplitAsWritten(amount).paise) + " Paise")
  {
    Phrase(SplitAsWritten(amount), words)
  }

  /**
   * convert_currency with the paise carried into the rupees: the words of
   * the amount rounded to whole paise, with never more than 99 paise.
   */
  function ConvertCurrency(amount: nat, words: nat -> string): (r: string)
    ensures EndsWith(r, " Paise") <==> SplitCarry(amount).paise > 0
    ensures SplitCarry(amount).paise > 0 ==>
      EndsWith(r, " and " + words(SplitCarry(amount).paise) + " Paise") && SplitCarry(amount).paise < 100
    ensures amount % PerRupee == 0 ==> r == words(amount / PerRupee) + " Rupees"
  {
    assert amount % PerRupee == 0 ==> SplitCarry(amount) == Split(amount / PerRupee, 0);
    Phrase(SplitCarry(amount), words)
  }

  /**
   * A total of 0.9999 rupees: the written split gives 0 rupees and 100
   * paise, the carrying split 1 rupee and no paise.
   */
  lemma {:induction false} PaiseOverflow(words: nat -> string)
    ensures SplitAsWritten(9999) == Split(0, 100)
    ensures ConvertCurrencyAsWritten(9999, words) == words(0) + " Rupees and " + words(100) + " Paise"
    ensures ConvertCurrency(9999, words) == words(1) + " Rupees"
  {
    assert SplitCarry(9999) == Split(1, 0);
  }

  /** The total 0.9999 comes from one row with quantity "0.99" and price "1.01". */
  lemma {:induction false} PaiseOverflowFromEntry()
    ensures QuantityValue("0.99") == Some(99)
    ensures PriceValue("1.01") == Some(101)
    ensures Total([NewRow("Item", 99, 101)]) == 9999
  {
    QuantityExample();
    PriceExample();
    TotalAppend([], NewRow("Item", 99, 101));
  }

  lemma {:induction false} QuantityExample()
    ensures QuantityValue("0.99") == Some(99)
  {
    StripExample();
    ParseQuantityExample();
  }

  lemma {:induction false} StripExample()
    ensures Strip("0.99") == "0.99"
  {
    var q: string := "0.99";
    assert q[0] == '0' && q[|q| - 1] == '9';
    StripTrimmed(q);
  }

  lemma {:induction false} ParseQuantityExample()
    ensures ParseHundredths("0.99") == Some(99)
  {
    ExampleDigits();
    ParseWholeDotFraction("0", "99");
  }

  lemma {:induction false} PriceExample()
    ensures PriceValue("1.01") == Some(101)
  {
    NoCommaExample();
    ParsePriceExample();
  }

  lemma {:induction false} NoCommaExample()
    ensures RemoveCommas("1.01") == "1.01"
  {
    var p: string := "1.01";
    assert p == ['1', '.', '0', '1'];
    assert forall i :: 0 <= i < |p| ==> p[i] != ',';
    RemoveCommasNoComma(p);
  }

  lemma {:induction false} ParsePriceExample()
    ensures ParseHundredths("1.01") == Some(101)
  {
    ExampleDigits();
    ParseWholeDotFraction("1", "01");
  }

  /** The pieces of the example texts "0.99" and "1.01". */
  lemma {:induction false} ExampleDigits()
    ensures DigitsValue("0") == 0 && FractionValue("99") == 99 && "0" + "." + "99" == "0.99"
    ensures DigitsValue("1") == 1 && FractionValue("01") == 1 && "1" + "." + "01" == "1.01"
  {
    assert "0"[..0] == [] && "1"[..0] == [];
  }

  /**
   * The words of a bill's grand total (the last line of download_pdf), with
   * the carry of ConvertCurrency in place of the source's written split:
   * paise are mentioned exactly when the total, rounded to whole paise, has
   * some, and a bill of whole-rupee rows reads "<words> Rupees".
   */
  function TotalInWords(rows: seq<Row>, words: nat -> string): (r: string)
    ensures EndsWith(r, " Paise") <==> SplitCarry(Total(rows)).paise > 0
    ensures (forall i :: 0 <= i < |rows| ==> rows[i].total % PerRupee == 0) ==>
      r == words(Total(rows) / PerRupee) + " Rupees"
  {
    TotalWholeRupees(rows);
    ConvertCurrency(Total(rows), words)
  }

  /** Rows that each total a whole number of rupees add up to a whole number of rupees. */
  lemma {:induction false} TotalWholeRupees(rows: seq<Row>)
    ensures (forall i :: 0 <= i < |rows| ==> rows[i].total % PerRupee == 0) ==>
      Total(rows) % PerRupee == 0
  {
    if rows != [] && forall i :: 0 <= i < |rows| ==> rows[i].total % PerRupee == 0 {
      var prefix, last := rows[..|rows| - 1], rows[|rows| - 1];
      assert forall i :: 0 <= i < |prefix| ==> prefix[i] == rows[i];
      TotalWholeRupees(prefix);
      var x, y := Total(prefix) / PerRupee, last.total / PerRupee;
      assert Total(rows) == PerRupee * (x + y);
    }
  }
}
