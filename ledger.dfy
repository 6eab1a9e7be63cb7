/**
 * The bill ledger behind the "Bill Entry System" table: an ordered list of
 * rows (item name, quantity, price, total), the rules that decide whether
 * an entry may be added, and the grand total.
 *
 * Quantities and prices are counted in hundredths (see module Money); a
 * row total is quantity * price and is therefore counted in
 * ten-thousandths, exactly.
 */
module Ledger {
  import opened Optional
  import opened Sequences
  import opened Money

  /** One table row. quantity and price in hundredths, total in ten-thousandths. */
  datatype Row = Row(name: string, quantity: nat, price: nat, total: nat)

  /** The row save_item_to_db inserts for an accepted entry. */
  function NewRow(name: string, quantity: nat, price: nat): Row {
    Row(name, quantity, price, quantity * price)
  }

  /** Every row that add_item lets through: a name, positive amounts, total = quantity * price. */
  predicate WellFormed(r: Row) {
    r.name != [] && r.quantity > 0 && r.price > 0 && r.total == r.quantity * r.price
  }

  /** Python's str.isspace() on the ASCII range: tab to carriage return, the four separators, space. */
  predicate IsSpace(c: char) {
    '\t' <= c <= '\r' || '\U{001C}' <= c <= ' '
  }

  predicate AllSpace(s: string) { forall i :: 0 <= i < |s| ==> IsSpace(s[i]) }

  /** lstrip(): the leading whitespace removed, and only that. */
  function StripLeft(s: string): (t: string)
    ensures |t| <= |s| && t == s[|s| - |t|..]
    ensures AllSpace(s[..|s| - |t|])
    ensures t == [] <==> AllSpace(s)
    ensures t != [] ==> !IsSpace(t[0])
  {
    if s != [] && IsSpace(s[0]) then
      var t := StripLeft(s[1..]);
      StripLeftStep(s, t);
      t
    else
      assert s[..0] == [];
      s
  }

  /** One leading whitespace character more is one more character dropped. */
  lemma {:induction false} StripLeftStep(s: string, t: string)
    requires s != [] && IsSpace(s[0])
    requires |t| <= |s| - 1 && t == s[1..][|s| - 1 - |t|..] && AllSpace(s[1..][..|s| - 1 - |t|])
    requires t == [] <==> AllSpace(s[1..])
    ensures t == s[|s| - |t|..] && AllSpace(s[..|s| - |t|])
    ensures t == [] <==> AllSpace(s)
  {
    assert s[..|s| - |t|] == [s[0]] + s[1..][..|s| - 1 - |t|];
    assert AllSpace(s) <==> AllSpace(s[1..]) by {
      assert forall i :: 0 <= i < |s| - 1 ==> s[1..][i] == s[i + 1];
    }
  }

  /** rstrip(): the trailing whitespace removed, and only that. */
  function StripRight(s: string): (t: string)
    ensures |t| <= |s| && t == s[..|t|]
    ensures AllSpace(s[|t|..])
    ensures t == [] <==> AllSpace(s)
    ensures t != [] ==> !IsSpace(t[|t| - 1])
  {
    if s != [] && IsSpace(s[|s| - 1]) then
      var t := StripRight(s[..|s| - 1]);
      StripRightStep(s, t);
      t
    else
      assert s[|s|..] == [];
      s
  }

  /** One trailing whitespace character more is one more character dropped. */
  lemma {:induction false} StripRightStep(s: string, t: string)
    requires s != [] && IsSpace(s[|s| - 1])
    requires |t| <= |s| - 1 && t == s[..|s| - 1][..|t|] && AllSpace(s[..|s| - 1][|t|..])
    requires t == [] <==> AllSpace(s[..|s| - 1])
    ensures t == s[..|t|] && AllSpace(s[|t|..])
    ensures t == [] <==> AllSpace(s)
  {
    assert s[|t|..] == s[..|s| - 1][|t|..] + [s[|s| - 1]];
    assert AllSpace(s) <==> AllSpace(s[..|s| - 1]) by {
      assert forall i :: 0 <= i < |s| - 1 ==> s[..|s| - 1][i] == s[i];
    }
  }

  /**
   * str.strip(): a slice of s with only whitespace before and after it,
   * empty exactly for all-whitespace text and otherwise starting and ending
   * with a visible character.
   */
  function Strip(s: string): (t: string)
    ensures exists i :: Surrounds(s, i, t)
    ensures t == [] <==> AllSpace(s)
    ensures t != [] ==> !IsSpace(t[0]) && !IsSpace(t[|t| - 1])
    ensures |t| <= |s|
  {
    var l := StripLeft(s);
    var t := StripRight(l);
    StripSlices(s, l, t);
    t
  }

  /** t sits at position i of s with nothing but whitespace before and after it. */
  predicate Surrounds(s: string, i: int, t: string) {
    0 <= i <= |s| - |t| && t == s[i..i + |t|] && AllSpace(s[..i]) && AllSpace(s[i + |t|..])
  }

  /** The right end of the left-stripped text is the stripped text: what Strip returns. */
  lemma {:induction false} StripSlices(s: string, l: string, t: string)
    requires |l| <= |s| && l == s[|s| - |l|..] && AllSpace(s[..|s| - |l|])
    requires l == [] <==> AllSpace(s)
    requires l != [] ==> !IsSpace(l[0])
    requires |t| <= |l| && t == l[..|t|] && AllSpace(l[|t|..])
    requires t == [] <==> AllSpace(l)
    requires t != [] ==> !IsSpace(t[|t| - 1])
    ensures Surrounds(s, |s| - |l|, t)
    ensures t == [] <==> AllSpace(s)
    ensures t != [] ==> !IsSpace(t[0]) && !IsSpace(t[|t| - 1])
  {
    SliceOfSuffix(s, |s| - |l|, |t|);
    if l != [] {
      assert !AllSpace(l) by { assert !IsSpace(l[0]); }
      assert t[0] == l[0];
    }
  }

  /** Slicing the suffix that starts at i is slicing s from i onwards. */
  lemma {:induction false} SliceOfSuffix(s: string, i: nat, n: nat)
    requires i + n <= |s|
    ensures s[i..][..n] == s[i..i + n] && s[i..][n..] == s[i + n..]
  {
  }

  /** Leading whitespace in front of a visible character is exactly what StripLeft drops. */
  lemma {:induction false} StripLeftPadded(pre: string, x: string)
    requires AllSpace(pre) && x != [] && !IsSpace(x[0])
    ensures StripLeft(pre + x) == x
  {
    if pre != [] {
      assert (pre + x)[1..] == pre[1..] + x;
      StripLeftPadded(pre[1..], x);
    } else {
      assert pre + x == x;
    }
  }

  /** Trailing whitespace behind a visible character is exactly what StripRight drops. */
  lemma {:induction false} StripRightPadded(x: string, post: string)
    requires AllSpace(post) && x != [] && !IsSpace(x[|x| - 1])
    ensures StripRight(x + post) == x
  {
    if post != [] {
      var shorter := post[..|post| - 1];
      assert (x + post)[..|x + post| - 1] == x + shorter;
      StripRightPadded(x, shorter);
    } else {
      assert x + post == x;
    }
  }

  /** Whitespace around a trimmed text is removed and nothing else: strip() recovers the text. */
  lemma {:induction false} StripPadded(pre: string, t: string, post: string)
    requires AllSpace(pre) && AllSpace(post)
    requires t != [] && !IsSpace(t[0]) && !IsSpace(t[|t| - 1])
    ensures Strip(pre + t + post) == t
  {
    assert pre + t + post == pre + (t + post);
    StripLeftPadded(pre, t + post);
    StripRightPadded(t, post);
  }

  /** Text with no surrounding whitespace is left alone by Strip. */
  lemma {:induction false} StripTrimmed(s: string)
    requires s != [] && !IsSpace(s[0]) && !IsSpace(s[|s| - 1])
    ensures Strip(s) == s
  {
    assert [] + s + [] == s;
    StripPadded([], s, []);
  }

  /** float(text.strip() or 1): a blank quantity field means one unit. */
  function QuantityValue(text: string): (q: Option<nat>)
    ensures AllSpace(text) ==> q == Some(100)
  {
    var t := Strip(text);
    if t == [] then Some(100) else ParseHundredths(t)
  }

  /** The quantity field ignores whitespace around the number. */
  lemma {:induction false} QuantityPadded(pre: string, t: string, post: string)
    requires AllSpace(pre) && AllSpace(post)
    requires t != [] && !IsSpace(t[0]) && !IsSpace(t[|t| - 1])
    ensures QuantityValue(pre + t + post) == ParseHundredths(t)
  {
    StripPadded(pre, t, post);
  }

  /** float(text.replace(",", "")): the price field may still show the commas of format_price. */
  function PriceValue(text: string): (v: Option<nat>)
    ensures ',' !in text ==> v == ParseHundredths(text)
  {
    assert ',' !in text ==> RemoveCommas(text) == text by {
      if ',' !in text {
        RemoveCommasNoComma(text);
      }
    }
    ParseHundredths(RemoveCommas(text))
  }

  /** A comma anywhere in the price field is ignored. */
  lemma {:induction false} PriceIgnoresCommas(a: string, b: string)
    ensures PriceValue(a + "," + b) == PriceValue(a + b)
  {
    assert RemoveCommas(a + "," + b) == RemoveCommas(a + b) by {
      RemoveCommasConcat(a + ",", b);
      RemoveCommasConcat(a, ",");
      RemoveCommasOfComma();
      RemoveCommasConcat(a, b);
      assert RemoveCommas(a) + [] == RemoveCommas(a);
    }
  }

  predicate IsPositive(v: Option<nat>) { v.Some? && v.value > 0 }

  /**
   * check_fields: the "Add Item" button is enabled exactly when the name has
   * a visible character and both amounts parse to positive values.
   */
  function CheckFields(name: string, quantityText: string, priceText: string): (enabled: bool)
    ensures enabled <==>
      (exists i :: 0 <= i < |name| && !IsSpace(name[i])) &&
      IsPositive(QuantityValue(quantityText)) && IsPositive(PriceValue(priceText))
  {
    Strip(name) != [] && IsPositive(QuantityValue(quantityText)) && IsPositive(PriceValue(priceText))
  }

  /** Texts that the two validators accept (or a blank quantity) give bounded, parseable amounts. */
  lemma {:induction false} ValidatedAmounts(quantityText: string, priceText: string)
    requires quantityText == [] || MatchesPattern(quantityText, 3)
    requires MatchesPattern(priceText, 8)
    ensures QuantityValue(quantityText).Some? && QuantityValue(quantityText).value <= 99999
    ensures PriceValue(priceText).Some? && PriceValue(priceText).value < 10000000000
  {
    if quantityText != [] {
      QuantityPatternBound(quantityText);
      StripTrimmed(quantityText);
    }
    PricePatternBound(priceText);
    assert ',' !in priceText by {
      forall i | 0 <= i < |priceText| ensures priceText[i] != ',' {
        assert IsDigit(priceText[i]) || priceText[i] == '.';
      }
    }
    RemoveCommasNoComma(priceText);
  }

  /** The grand total: the row totals summed in row order; 0 for an empty table. */
  function Total(rows: seq<Row>): (t: nat)
    ensures rows == [] ==> t == 0
    ensures forall i :: 0 <= i < |rows| ==> rows[i].total <= t
  {
    if rows == [] then 0
    else
      var prefix := rows[..|rows| - 1];
      assert forall i :: 0 <= i < |prefix| ==> prefix[i] == rows[i];
      Total(prefix) + rows[|rows| - 1].total
  }

  lemma {:induction false} TotalConcat(a: seq<Row>, b: seq<Row>)
    ensures Total(a + b) == Total(a) + Total(b)
    decreases |b|
  {
    if b == [] {
      assert a + b == a;
    } else {
      assert (a + b)[..|a + b| - 1] == a + b[..|b| - 1];
      TotalConcat(a, b[..|b| - 1]);
    }
  }

  /** Appending a row adds exactly its total. */
  lemma {:induction false} TotalAppend(rows: seq<Row>, row: Row)
    ensures Total(rows + [row]) == Total(rows) + row.total
  {
    assert (rows + [row])[..|rows|] == rows;
  }

  /** Deleting row r takes exactly that row's total off the grand total. */
  lemma {:induction false} TotalRemoveAt(rows: seq<Row>, r: nat)
    requires r < |rows|
    ensures Total(RemoveAt(rows, r)) + rows[r].total == Total(rows)
  {
    var before, after := rows[..r], rows[r + 1..];
    assert rows[..r + 1] == before + [rows[r]];
    assert rows == rows[..r + 1] + after;
    TotalConcat(before + [rows[r]], after);
    TotalAppend(before, rows[r]);
    assert RemoveAt(rows, r) == before + after;
    TotalConcat(before, after);
  }

  /** What add_item did with the texts it read. */
  datatype AddOutcome =
    | Added
    | Rejected      // empty name or an amount that is not positive
    | Unparseable   // float() raised ValueError before anything changed

  /** The bill table, holding the rows in display order. */
  class Bill {
    var rows: seq<Row>

    ghost predicate Valid()
      reads this
    {
      forall i :: 0 <= i < |rows| ==> WellFormed(rows[i])
    }

    constructor ()
      ensures Valid() && rows == []
    {
      rows := [];
    }

    /**
     * add_item: the name is taken as typed (not stripped), the quantity and
     * the price are parsed, and an entry that passes goes to SaveItem.
     */
    method AddItem(name: string, quantityText: string, priceText: string) returns (outcome: AddOutcome)
      requires Valid()
      modifies this
      ensures Valid()
      ensures outcome == Unparseable <==>
        QuantityValue(quantityText).None? || PriceValue(priceText).None?
      ensures outcome == Added <==>
        name != [] && IsPositive(QuantityValue(quantityText)) && IsPositive(PriceValue(priceText))
      ensures outcome == Added ==>
        var q, p := QuantityValue(quantityText).value, PriceValue(priceText).value;
        rows == old(rows) + [NewRow(name, q, p)] && Total(rows) == old(Total(rows)) + q * p
      ensures outcome != Added ==> rows == old(rows)
    {
      var quantity := QuantityValue(quantityText);
      var price := PriceValue(priceText);
      if quantity.None? || price.None? {
        return Unparseable;
      }
      if name != [] && quantity.value > 0 && price.value > 0 {
        SaveItem(name, quantity.value, price.value);
        outcome := Added;
      } else {
        outcome := Rejected;
      }
    }

    /**
     * save_item_to_db: the row with total = quantity * price is appended at
     * the end of the table, and the grand total grows by exactly that total.
     * The database insert is not modelled.
     */
    method SaveItem(name: string, quantity: nat, price: nat)
      requires Valid() && name != [] && quantity > 0 && price > 0
      modifies this
      ensures Valid()
      ensures rows == old(rows) + [NewRow(name, quantity, price)]
      ensures Total(rows) == old(Total(rows)) + quantity * price
    {
      var row := NewRow(name, quantity, price);
      assert WellFormed(row);
      TotalAppend(rows, row);
      rows := rows + [row];
    }

    /**
     * A click on "Add Item": the button only reacts when check_fields has
     * enabled it, so an entry is added exactly when the stripped name is
     * non-empty and both amounts are positive.
     */
    method ClickAdd(name: string, quantityText: string, priceText: string) returns (added: bool)
      requires Valid()
      modifies this
      ensures Valid()
      ensures added <==> CheckFields(name, quantityText, priceText)
      ensures added ==>
        var q, p := QuantityValue(quantityText).value, PriceValue(priceText).value;
        rows == old(rows) + [NewRow(name, q, p)] && Strip(rows[|rows| - 1].name) != []
      ensures !added ==> rows == old(rows)
    {
      added := false;
      if CheckFields(name, quantityText, priceText) {
        var outcome := AddItem(name, quantityText, priceText);
        added := outcome == Added;
      }
    }

    /**
     * remove_item: selectedRow is the table's current row, -1 when none is
     * selected. The selected row is deleted and later rows move up by one.
     * The source also runs "DELETE FROM bill WHERE item_name = ?", which
     * drops every stored entry with that name while the table loses one row;
     * the database is not modelled.
     */
    method RemoveItem(selectedRow: int)
      requires Valid()
      requires -1 <= selectedRow < |rows|
      modifies this
      ensures Valid()
      ensures selectedRow == -1 ==> rows == old(rows)
      ensures selectedRow >= 0 ==>
        rows == RemoveAt(old(rows), selectedRow) &&
        Total(rows) == old(Total(rows)) - old(rows)[selectedRow].total
    {
      if selectedRow >= 0 {
        TotalRemoveAt(rows, selectedRow);
        rows := RemoveAt(rows, selectedRow);
      }
    }

    /** clear_all: the table ends empty from any state, so clearing twice is clearing once. */
    method ClearAll()
      requires Valid()
      modifies this
      ensures Valid() && rows == [] && Total(rows) == 0
    {
      rows := [];
    }

    /** calculate_total: the sum over the table's rows. */
    method CalculateTotal() returns (total: nat)
      requires Valid()
      ensures total == Total(rows)
      ensures rows == [] ==> total == 0
      ensures forall i :: 0 <= i < |rows| ==> rows[i].total <= total
    {
      total := Total(rows);
    }
  }
}
