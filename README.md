# Bill ledger and PDF merge list: a Dafny model

This project models the two small stateful cores of the repository's desktop tools.

- The **bill** of the "Bill Entry System" (`bill.py`). It is an ordered table of rows: item name, quantity, price and total.
  - The model covers the rules that decide whether an entry may be added, and the append, row removal and clear operations.
  - It covers the grand total and the quantity and price validator patterns.
  - It covers the price field's `"{:,.2f}"` formatting and the comma stripping that undoes it.
  - It covers the rupees/paise split of `convert_currency`.
- The **PDF merge list** (`pdfmerger.py`). It is the ordered list of file names to merge. The model covers appending a selection, removing the selected name, moving an entry up or down, and the merge that hands the list over and then empties it.

Amounts are exact. The validators allow at most two decimals, so a quantity or a price is a `nat` counting hundredths. A row total (quantity × price) and the grand total are `nat`s counting ten-thousandths of a rupee.

Modules:

- `Optional` and `Sequences` (sequences.dfy): the option type and the list edits: delete at a position, Python's `list.remove`, swap.
- `Money` (money.dfy): the validator patterns, the text-to-number step (Python's `float()` on the field text), and the price format.
- `Ledger` (ledger.dfy): `Strip`, `check_fields`, the grand total, and the class `Bill` holding the rows.
- `Currency` (currency.dfy): the split of a total into rupees and paise, and the phrase. The number-to-words call into the inflect library is the parameter `words: nat -> string`, about which nothing is assumed.
- `PdfMerge` (pdfmerge.dfy): the class `Merger`. It holds `pdfFiles` (the merge order), `shown` (the rows of the list widget) and `mergeEnabled` (the merge button).

The model follows the code as written, in particular:

- The words come from `inflect.number_to_words`, not from an Indian-numbering renderer (lakh, crore); the renderer is the `words` parameter.
- Line items have no date.
- Removing with no row selected (row −1) is ignored rather than an error.
- The paise are `round()`ed, which in Python rounds a tie to the even neighbour, not half up; `Currency.RoundPaise` follows that.
- The paise are not carried into the rupees when they round to 100. That is recorded under Findings; the carry is the corrected member, and `Currency.TotalInWords` uses it.

## Model

| member | source | states |
|---|---|---|
| `Sequences.RemoveAt` | bill.py:198 | deleting row r keeps the rows before r, shifts the later ones down by one, shortens by one, and loses exactly one copy of row r |
| `Sequences.RemoveFirst` | pdfmerger.py:69 | `list.remove(x)` shortens the list by exactly one and removes exactly one copy of x |
| `Sequences.FirstIndex` | pdfmerger.py:69 | the index found holds x and no earlier index does |
| `Sequences.RemoveFirstIsRemoveAt` | pdfmerger.py:69-70 | when no earlier row holds the selected name, removing the first copy removes the selected row |
| `Sequences.RemoveFromBoth` | pdfmerger.py:69-70 | list and widget keep the same names after remove_pdf, even when they differ in order |
| `Sequences.Swap` | pdfmerger.py:82 | the two positions exchange their entries and every other entry is unchanged |
| `Sequences.SwapPermutes` | pdfmerger.py:93 | a swap keeps the multiset of entries (a permutation) |
| `Sequences.SwapTwice` | pdfmerger.py:82-93 | swapping the same pair twice restores the list |
| `Money.DigitsValue` | bill.py:54-58 | a numeral of k digits is below 10^k |
| `Money.NatToDigits` | bill.py:140 | the numeral of n reads back as n, has no leading zero (a numeral longer than one digit never starts with 0), and holds no point or comma |
| `Money.NumeralUnique` | bill.py:140 | any numeral without a leading zero is the numeral `NatToDigits` writes for its value, so there is exactly one way to write each whole part |
| `Money.DotIndex` | bill.py:54-58 | the index found is the first decimal point, or the end of the text |
| `Money.MatchesPattern` | bill.py:54-58 | text matching `^\d{1,k}(\.\d{1,2})?$` has between 1 and k + 3 characters, begins and ends with a digit, and holds only digits and a point (so no comma, sign or space); `Money.PatternBound` bounds its value |
| `Money.ParseHundredths` | bill.py:138 | `float()` accepts only text of digits with at most one point, the first one; a plain numeral reads as its value in whole units. `Money.ParseWholeDotFraction` and `Money.FormatRoundTrip` characterise it further |
| `Money.ParseWholeDotFraction` | bill.py:138 | digits, a point and up to two decimals parse to the whole part in units plus the decimals in hundredths; "12." reads as 12 and ".5" as 0.50 |
| `Money.FractionDigits` | bill.py:138 | one decimal counts tens of hundredths and two decimals count hundredths: the decimals' value is their numeral times 10^(2 - count) |
| `Money.ParseDecimal` | bill.py:138 | "<whole>.<frac>" with at most two decimals parses to whole * 100 + frac * 10^(2 - count), so "12.5" is 1250 hundredths and "12." is 1200 |
| `Money.PatternBound` | bill.py:54-58 | text matching `^\d{1,k}(\.\d{1,2})?$` parses, to a value below 10^k |
| `Money.QuantityPatternBound` | bill.py:54 | an accepted quantity parses to less than 1000.00 |
| `Money.PricePatternBound` | bill.py:58 | an accepted price parses to less than 10^8 |
| `Money.RemoveCommas` | bill.py:137 | `replace(",", "")` leaves no comma and never lengthens the text |
| `Money.RemoveCommasConcat` | bill.py:137 | comma stripping distributes over concatenation |
| `Money.GroupThousands` | bill.py:140 | the `,` grouping adds one comma per full group of three digits beyond the first, and counted from the right every fourth character is a comma and no other is |
| `Money.UngroupThousands` | bill.py:137-140 | stripping the commas from a grouped numeral gives the numeral back |
| `Money.TwoDigits` | bill.py:140 | the two decimals of `.2f` read back as the hundredths they print |
| `Money.FormatPrice` | bill.py:140 | `"{:,.2f}"` gives the grouped whole part (commas every three digits from the right), a point and two decimals; the decimals read as v mod 100; the whole part without its commas is a non-empty numeral of v div 100 with no leading zero |
| `Money.FormatPriceWhole` | bill.py:140 | without its commas, the whole part of the formatted price is exactly the decimal numeral of v div 100 |
| `Money.PriceTextParses` | bill.py:137-140 | any text laid out as `"{:,.2f}"` lays out v, with its commas stripped, parses back to v |
| `Money.FormatRoundTrip` | bill.py:137-140 | formatting a price with `,.2f` and then stripping its commas parses back to the same hundredths |
| `Money.FormatPriceField` | bill.py:135-144 | format_price clears the field exactly when the text is unparseable, and otherwise keeps the parsed value |
| `Money.FormatPriceFieldIdempotent` | bill.py:135-144 | formatting an already formatted price field changes nothing |
| `Ledger.StripLeft` | bill.py:148 | the result is a suffix, everything dropped in front of it is whitespace, and it starts with a visible character or is empty exactly for all-whitespace text |
| `Ledger.StripRight` | bill.py:148 | the result is a prefix, everything dropped after it is whitespace, and it ends with a visible character or is empty exactly for all-whitespace text |
| `Ledger.Strip` | bill.py:148 | `strip()` returns a slice of the text with only whitespace before and after it; it is empty exactly for all-whitespace text, and otherwise starts and ends with a visible character |
| `Ledger.StripLeftPadded` | bill.py:148 | leading whitespace before a visible character is exactly what is dropped |
| `Ledger.StripRightPadded` | bill.py:148 | trailing whitespace after a visible character is exactly what is dropped |
| `Ledger.StripPadded` | bill.py:148 | whitespace around a trimmed text is removed and the text itself is recovered |
| `Ledger.StripTrimmed` | bill.py:150 | text without surrounding whitespace is left unchanged |
| `Ledger.QuantityValue` | bill.py:150 | a blank quantity field means one unit |
| `Ledger.QuantityPadded` | bill.py:163 | whitespace around the quantity is ignored: " 12 " reads as "12" |
| `Ledger.PriceValue` | bill.py:164 | a price text without commas is read as it stands |
| `Ledger.PriceIgnoresCommas` | bill.py:164 | a comma anywhere in the price field does not change its value |
| `Ledger.CheckFields` | bill.py:146-159 | Add is enabled exactly when the name has a visible character and both quantity and price parse to positive values |
| `Ledger.ValidatedAmounts` | bill.py:54-58 | field texts the validators accept, or a blank quantity, give parseable amounts below 1000.00 and 10^8 |
| `Ledger.Total` | bill.py:208 | the grand total is 0 for an empty table and no smaller than any row total |
| `Ledger.TotalConcat` | bill.py:208 | the total of two row lists joined is the sum of their totals |
| `Ledger.TotalAppend` | bill.py:176-182 | appending a row adds exactly its total to the grand total |
| `Ledger.TotalRemoveAt` | bill.py:198 | deleting row r takes exactly that row's total off the grand total |
| `Ledger.Bill.constructor` | bill.py:121-128 | the table starts empty |
| `Ledger.Bill.AddItem` | bill.py:161-168 | an unparseable amount changes nothing. An empty name or a non-positive amount changes nothing. Otherwise exactly one row is appended at the end, with total = quantity × price, earlier rows unchanged, and the grand total grows by quantity × price |
| `Ledger.Bill.SaveItem` | bill.py:170-182 | the new row, with total = quantity × price, is appended at the end, earlier rows unchanged, and the grand total grows by exactly quantity × price |
| `Ledger.Bill.ClickAdd` | bill.py:146-168 | a click adds exactly when check_fields enabled the button. The appended row's stripped name is non-empty. A refused click changes nothing |
| `Ledger.Bill.RemoveItem` | bill.py:190-198 | with no selection (−1) nothing changes. Otherwise exactly the selected row is deleted, later rows move up, and the grand total drops by that row's total |
| `Ledger.Bill.ClearAll` | bill.py:200-205 | the table is empty and the total 0 whatever the prior state, so clearing twice equals clearing once |
| `Ledger.Bill.CalculateTotal` | bill.py:207-208 | the total is the sum of the row totals, 0 for an empty table, and no smaller than any single row total |
| `Currency.RoundPaise` | bill.py:243 | `round()` to the nearest whole paisa, within half a paisa, with ties going to the even value |
| `Currency.SplitAsWritten` | bill.py:242-243 | rupees are the truncated integer part. Paise are the fraction rounded to within half a paisa, and may reach 100 |
| `Currency.SplitCarry` | bill.py:242-243 | rupees and paise together are the amount rounded to within half a paisa, with paise below 100 |
| `Currency.CarryAgreesWithWritten` | bill.py:242-243 | the carrying split equals the written one below 100 paise. At 100 paise it has one more rupee and no paise |
| `Currency.Phrase` | bill.py:245-253 | the phrase starts with "<words rupees> Rupees". With no paise it is exactly that; with paise it ends in " and <words paise> Paise". Its length is then exactly that of the two pieces, so nothing stands between them. It ends in " Paise" exactly when paise > 0, and in " Rupees" exactly when paise = 0 |
| `Currency.ConvertCurrencyAsWritten` | bill.py:240-253 | the written convert_currency mentions paise exactly when the written split has some, and then ends in " and <words of those paise> Paise" |
| `Currency.ConvertCurrency` | bill.py:240-253 | the corrected convert_currency mentions paise exactly when the carrying split has some, and then names between 1 and 99 of them. A whole-rupee amount reads "<words> Rupees" |
| `Currency.PaiseOverflow` | bill.py:242-251 | for a total of 0.9999 the written code says "<words 0> Rupees and <words 100> Paise", while the carrying version says "<words 1> Rupees" |
| `Currency.QuantityExample` | bill.py:163 | the quantity text "0.99" parses to 99 hundredths |
| `Currency.PriceExample` | bill.py:164 | the price text "1.01" parses to 101 hundredths |
| `Currency.PaiseOverflowFromEntry` | bill.py:163-167 | one entry with quantity "0.99" and price "1.01" gives the total 0.9999 |
| `Currency.TotalInWords` | bill.py:225-226 | the total-in-words step with the carry applied (the source calls the written convert_currency here): paise are mentioned exactly when the grand total rounded to whole paise has some, and a bill whose rows are all whole rupees reads "<words of the total> Rupees" |
| `Currency.TotalWholeRupees` | bill.py:225 | rows that each total a whole number of rupees sum to a whole number of rupees |
| `PdfMerge.Merger.constructor` | pdfmerger.py:41-48 | the list and the widget start empty, and the merge button starts disabled |
| `PdfMerge.Merger.SelectPdfs` | pdfmerger.py:50-62 | the chosen names are appended at the end in order after the existing prefix. An empty selection changes nothing. Otherwise the widget shows the list and merge is enabled |
| `PdfMerge.Merger.RemovePdf` | pdfmerger.py:64-72 | with no selection nothing changes. Otherwise the list loses the first entry with the selected name, and the widget loses the selected row. The length drops by exactly one, and merge is disabled exactly when the list becomes empty. The widget still shows the merge order when no earlier row has the same name |
| `PdfMerge.Merger.RemoveSelectedPdf` | pdfmerger.py:64-72 | corrected remove: the selected row leaves list and widget alike, so the widget keeps showing the merge order |
| `PdfMerge.Merger.MoveUp` | pdfmerger.py:74-83 | at row r > 0, entries r−1 and r swap and all others stay. At the top row, or with no selection, nothing changes. The entries are a permutation of the old ones |
| `PdfMerge.Merger.MoveDown` | pdfmerger.py:85-94 | at row r < length−1, entries r and r+1 swap and all others stay. At the last row nothing changes. The entries are a permutation of the old ones |
| `PdfMerge.Merger.MergePdfs` | pdfmerger.py:96-115 | an empty list or a cancelled save dialog changes nothing. Otherwise every name is handed to the merger in list order and the list is left empty |
| `PdfMerge.MoveUpThenDown` | pdfmerger.py:78-94 | a move up of row r followed by a move down of row r−1 restores the list |
| `PdfMerge.RemoveFirstExample` | pdfmerger.py:69-70 | in the list [a.pdf, b.pdf, a.pdf], removing the first a.pdf and deleting row 2 give different lists |
| `PdfMerge.DuplicateRemoveDivergence` | pdfmerger.py:54-72 | after selecting a.pdf, b.pdf and then a.pdf again, removing row 2 leaves the widget showing [a.pdf, b.pdf]. The merge order is [b.pdf, a.pdf] |

## Findings

| source | as written | input that shows it | evidently intended | confidence | as-written member | corrected member |
|---|---|---|---|---|---|---|
| bill.py:242-253 | paise = round(fraction × 100) is never carried into the rupees, so the words can say "one hundred Paise" | one entry with quantity 0.99 and price 1.01: total 0.9999, rupees 0, paise 100 | round to whole paise first and carry: "one Rupees" | high (not executed) | `Currency.ConvertCurrencyAsWritten` (shown by `Currency.PaiseOverflow`) | `Currency.ConvertCurrency` (proved by `Currency.CarryAgreesWithWritten`) |
| pdfmerger.py:66-70 | `pdf_files.remove(name)` deletes the first entry with the selected row's name, while the widget deletes the selected row | select a.pdf and b.pdf, then a.pdf again; select row 2 and remove: the widget shows a.pdf, b.pdf but the merge order is b.pdf, a.pdf | delete the selected row from both, so the widget keeps showing the merge order | medium (not executed) | `PdfMerge.Merger.RemovePdf` (shown by `PdfMerge.DuplicateRemoveDivergence`) | `PdfMerge.Merger.RemoveSelectedPdf` |

## Left out

- PyQt widget wiring, layouts, button enabling other than the merge button, the `QTimer` debounce of the price field and the cursor position (bill.py:26-29, bill.py:130-133, bill.py:142). These are user-interface plumbing. `CheckFields` is evaluated at the moment of the click.
- The SQLite persistence (bill.py:31-43, bill.py:172-174, bill.py:195-196, bill.py:202-203) is I/O. A comment in `Ledger.Bill.RemoveItem` records that the database deletes every entry with the same name while the table loses one row.
- The ReportLab document built by `download_pdf` (bill.py:211-233) is a foreign library and file output. Only the total-in-words step is modelled (`Currency.TotalInWords`), and with the paise carry of the corrected `Currency.ConvertCurrency`.
- PyPDF2's `PdfMerger` and the merged file (pdfmerger.py:105-111) are a foreign library and file output. `MergePdfs` returns the names in the order they are appended to the merger.
- `inflect.number_to_words` (bill.py:13, bill.py:246, bill.py:250) is a foreign call. It is the parameter `words`. No lakh/crore renderer is modelled, because the code contains none.
- The file dialogs (bill.py:213, pdfmerger.py:52, pdfmerger.py:101) are I/O. They are the parameters `files` and `savePath`.
- The total label's text, with its currency symbol and `,.2f` rounding (bill.py:205, bill.py:209), is a display string.
- The success label of the merger (pdfmerger.py:113) is a display string.
- Float arithmetic is replaced by exact hundredths and ten-thousandths. `round()` is modelled as round-half-even on the exact value. Binary floating-point artefacts are not modelled.
- The table cells hold text (`str(quantity)`, bill.py:179-182), and `calculate_total` reads the totals back with `float()`. The model keeps the numbers themselves.
- `Money.ParseHundredths` models `float()` only on decimal text: digits, an optional point and at most two decimals. Signs, exponents, surrounding whitespace, underscores, "inf"/"nan" and longer fractions count as unparseable. The validators never let these through. Surrounding whitespace in the quantity text cannot come from the validator either; the code strips it before `float()` all the same, and so does the model.
- `Ledger.Strip` treats only the ASCII whitespace of Python's `str.isspace()` as whitespace, not the non-ASCII Unicode spaces.
- The validators' "intermediate" states are not modelled. The field texts are arbitrary strings, and the pattern bounds are stated as lemmas about text that matches.
- `remove_pdf`, `move_up` and `move_down` loop over the selected items (pdfmerger.py:68, 78, 89). The list widget allows one selection, so each operation takes one selected row or −1.
- After a completed merge, the merge button stays enabled with an empty list. `PdfMerge.Merger.Valid` keeps only "a non-empty list has merge enabled". A further merge of the empty list returns at once (pdfmerger.py:97-98).
- `Currency.TotalInWords`: applies the carry of `Currency.ConvertCurrency`. The words `download_pdf` actually prints are `Currency.ConvertCurrencyAsWritten` of the same total (bill.py:226), which differs only where the written split reaches 100 paise (`Currency.CarryAgreesWithWritten`).
