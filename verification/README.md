# Order-text normaliser of the restaurant data-cleaning script

The script `01_data_cleaning_pipeline/Python/clean_products.py` turns an export
of online orders into one row per ordered product. Each input row holds an
invoice number and a `products` cell. The cell lists every item of the order
in one string, with items separated by `;`. Each item looks like
`2x Lassi de Mango.` and may carry modifiers after a `:`.

The script handles each row as follows:

- it splits the cell on `;`, trims each piece and drops the blank ones;
- for every remaining segment, it keeps only the text before the first `:`;
- it reads an optional count `<digits>x` at the start, defaulting to 1;
- it deletes every `*`, `.` and `"` from the product name and trims the name;
- it appends an (invoice number, quantity, product) record.

Finally, it numbers the records 1, 2, 3, … in order as `transaction_id`.

The model has three modules:

- `PyText` (`text.dfy`) holds the Python string operations the script relies on. These are `str.strip`, `str.split` with a one-character separator, and `int` on a run of digits. Each comes with its algebra: what stripping removes, split round trips, and `int(str(n)) == n`. The script never calls `str.join`; `PyText.Join` is there only as the inverse of `split`, to state the round trips `JoinSplit` and `SplitJoin`.
- `CleanProducts` (`clean_products.dfy`) holds the script's steps:
  - each per-segment step is a function, and the lemmas about it state what the step promises;
  - the two nested loops that build `clean_rows` are methods (`Normalize`, `AppendRowRecords`);
  - the numbering loop is the method `AssignIds`;
  - each method is proved against its own functional specification:
    - `Normalize` against `Numbered(CleanRows(rows), 1)`;
    - `AppendRowRecords` against the records collected so far followed by `RowRecords(invoiceNo, products)`;
    - `AssignIds` against `Numbered(records, 1)`.
- `DocExamples` (`doc_examples.dfy`) holds worked examples:
  - the invoice `LS35713` of the script's header comment, end to end;
  - each of its items;
  - the cases of the quantity pattern;
  - a cell with a trailing `;`;
  - the numbering across two invoices.

The regular expression `(\d+)x\s*(.*)` is modelled by what `re.match` does on it:

- It matches exactly when the segment begins with one or more digits immediately followed by a lower-case `x`. Backtracking cannot find any other split, because `x` is not a digit.
- Group 1 is the whole run of digits.
- Group 2 starts after the whitespace that `\s*` consumes. Because `.` does not match a newline, it ends before the first `\n`.

The header comment of the script shows four items for invoice `LS35713`, but its expected output lists only the first three rows. The model proves all four rows for the header's own text, so `Menú Mayura` is row 4.

## Model

| member | source | states |
|---|---|---|
| PyText.Strip | 01_data_cleaning_pipeline/Python/clean_products.py:56 | `str.strip()` leaves no leading or trailing whitespace, and leaves an already trimmed string unchanged |
| PyText.StripEmpty | 01_data_cleaning_pipeline/Python/clean_products.py:56 | a piece strips to the empty string exactly when it is all whitespace, which is when the `if p.strip()` filter drops it |
| PyText.StripPadded | 01_data_cleaning_pipeline/Python/clean_products.py:56 | whitespace around a trimmed text, empty or not, is all that `strip` removes |
| PyText.Split | 01_data_cleaning_pipeline/Python/clean_products.py:56-61 | `s.split(sep)` always gives at least one piece; `SplitPiecesFree`, `JoinSplit` and `SplitJoin` give its pieces as the separator-free runs between separators |
| PyText.SplitPiecesFree | 01_data_cleaning_pipeline/Python/clean_products.py:56 | no piece of `s.split(sep)` contains `sep` |
| PyText.JoinSplit | 01_data_cleaning_pipeline/Python/clean_products.py:56 | joining the pieces of a split with the separator gives back the original text |
| PyText.SplitJoin | 01_data_cleaning_pipeline/Python/clean_products.py:56 | splitting a join of separator-free pieces gives back those pieces |
| PyText.SplitHead | 01_data_cleaning_pipeline/Python/clean_products.py:61 | the text before the first separator is the first piece, and the rest is split separately |
| PyText.SplitTrailing | 01_data_cleaning_pipeline/Python/clean_products.py:56 | a trailing separator adds one empty piece at the end |
| PyText.DecimalValue | 01_data_cleaning_pipeline/Python/clean_products.py:66 | `int` of `n` digits is below `10^n`; `DecimalRoundTrip` and `LeadingZero` give its value |
| PyText.DecimalRoundTrip | 01_data_cleaning_pipeline/Python/clean_products.py:66 | `int` applied to the decimal rendering of `n` gives `n` |
| PyText.LeadingZero | 01_data_cleaning_pipeline/Python/clean_products.py:66 | leading zeros do not change the value `int` reads |
| CleanProducts.KeepNonBlank | 01_data_cleaning_pipeline/Python/clean_products.py:56 | the comprehension keeps at most one segment per piece; `KeepNonBlankStep`, `KeepNonBlankPosition` and `KeepNonBlankOrigin` give its contents |
| CleanProducts.KeepNonBlankEmpty | 01_data_cleaning_pipeline/Python/clean_products.py:56 | nothing is kept exactly when every piece is whitespace only |
| CleanProducts.KeepNonBlankCount | 01_data_cleaning_pipeline/Python/clean_products.py:56 | the number of segments is the number of pieces that do not strip to the empty string |
| CleanProducts.Segments | 01_data_cleaning_pipeline/Python/clean_products.py:56 | `[p.strip() for p in cell.split(";") if p.strip()]`; it has no contract of its own, and `SegmentsClean`, `SegmentsOfJoin`, `SegmentsOfPieces` and the `KeepNonBlank` lemmas state what it yields |
| CleanProducts.SegmentsClean | 01_data_cleaning_pipeline/Python/clean_products.py:56 | every segment of a cell is non-empty, trimmed and free of `;` |
| CleanProducts.KeepNonBlankStep | 01_data_cleaning_pipeline/Python/clean_products.py:56 | going through the pieces in order, a blank piece adds no segment and a non-blank piece adds itself, trimmed, at the end |
| CleanProducts.KeepNonBlankPosition | 01_data_cleaning_pipeline/Python/clean_products.py:56 | a non-blank piece is kept, trimmed, right after the segments of the pieces before it |
| CleanProducts.KeepNonBlankOrigin | 01_data_cleaning_pipeline/Python/clean_products.py:56 | every kept segment is some non-blank piece, trimmed |
| CleanProducts.KeepNonBlankAppend | 01_data_cleaning_pipeline/Python/clean_products.py:56 | the filtering comprehension distributes over concatenation of the piece list |
| CleanProducts.SegmentsOfJoin | 01_data_cleaning_pipeline/Python/clean_products.py:56 | a cell written as `;`-separated pieces yields exactly its non-blank pieces, trimmed, in order |
| CleanProducts.KeepNonBlankAll | 01_data_cleaning_pipeline/Python/clean_products.py:56 | when no piece is blank, every piece is kept, trimmed, in order |
| CleanProducts.SegmentsOfPieces | 01_data_cleaning_pipeline/Python/clean_products.py:56 | a cell of `n` non-blank pieces has exactly `n` segments, the k-th being the k-th piece trimmed |
| CleanProducts.SegmentsSingle | 01_data_cleaning_pipeline/Python/clean_products.py:56 | a non-blank cell without `;` is a single segment |
| CleanProducts.SegmentsCons | 01_data_cleaning_pipeline/Python/clean_products.py:56 | a non-blank piece before the first `;` is the first segment, and the rest of the cell gives the others |
| CleanProducts.SegmentsTrailingSemicolon | 01_data_cleaning_pipeline/Python/clean_products.py:56 | a trailing `;` adds no segment |
| CleanProducts.StripModifier | 01_data_cleaning_pipeline/Python/clean_products.py:61 | the kept part before the first `:` is trimmed |
| CleanProducts.StripModifierNoColon | 01_data_cleaning_pipeline/Python/clean_products.py:61 | the kept part contains no `:`, so every modifier is gone |
| CleanProducts.StripModifierIgnoresTail | 01_data_cleaning_pipeline/Python/clean_products.py:59-61 | whatever follows the first `:`, only the trimmed text before it is kept |
| CleanProducts.StripModifierWhole | 01_data_cleaning_pipeline/Python/clean_products.py:61 | a segment without `:` is kept whole, trimmed |
| CleanProducts.LeadingDigitsAreDigits | 01_data_cleaning_pipeline/Python/clean_products.py:64 | the greedy `\d+` run consists of digits only, and the character after it is not a digit |
| CleanProducts.MatchCount | 01_data_cleaning_pipeline/Python/clean_products.py:64 | on a match, group 1 is a non-empty run of digits |
| CleanProducts.MatchCountIff | 01_data_cleaning_pipeline/Python/clean_products.py:64-65 | the pattern matches if and only if the text starts with one or more digits followed by a lower-case `x` |
| CleanProducts.MatchCountGroups | 01_data_cleaning_pipeline/Python/clean_products.py:64-67 | on `<digits>x<rest>`, group 1 is all of the digits, and group 2 is the rest after its leading whitespace, up to the first newline |
| CleanProducts.ParseQuantityCounted | 01_data_cleaning_pipeline/Python/clean_products.py:64-67 | with a count prefix, the quantity is the digits' value and the name is what follows the `x` and the whitespace |
| CleanProducts.ParseQuantityOfNumber | 01_data_cleaning_pipeline/Python/clean_products.py:66 | the rendered count `n` followed by `x` gives quantity `n` |
| CleanProducts.ParseQuantityDefault | 01_data_cleaning_pipeline/Python/clean_products.py:68-71 | the match fails exactly when there is no count prefix, and then the quantity is 1 and the whole text is the name |
| CleanProducts.UpperCaseX | 01_data_cleaning_pipeline/Python/clean_products.py:64 | an upper-case `X` after the digits is no count, so the quantity is 1 and the text is kept whole |
| CleanProducts.ParseQuantityGap | 01_data_cleaning_pipeline/Python/clean_products.py:64-67 | `\s*` skips any whitespace between the `x` and a one-line name |
| CleanProducts.ParseQuantity | 01_data_cleaning_pipeline/Python/clean_products.py:64-71 | without a count prefix the result is quantity 1 and the whole text; with one, the quantity is `int` of the whole leading digit run (and `ParseQuantityCounted` gives the name) |
| CleanProducts.RemovePunctuation | 01_data_cleaning_pipeline/Python/clean_products.py:74 | deleting characters never lengthens the name |
| CleanProducts.RemovePunctuationClean | 01_data_cleaning_pipeline/Python/clean_products.py:74 | no `*`, `.` or `"` is left after the substitution |
| CleanProducts.RemovePunctuationKeeps | 01_data_cleaning_pipeline/Python/clean_products.py:74 | every other character is kept as often as it occurs |
| CleanProducts.RemovePunctuationNone | 01_data_cleaning_pipeline/Python/clean_products.py:74 | a name without those characters is unchanged |
| CleanProducts.RemovePunctuationAll | 01_data_cleaning_pipeline/Python/clean_products.py:74 | a run of those characters is deleted entirely |
| CleanProducts.RemovePunctuationAppend | 01_data_cleaning_pipeline/Python/clean_products.py:74 | the substitution works piecewise on a concatenation |
| CleanProducts.CleanName | 01_data_cleaning_pipeline/Python/clean_products.py:74 | the cleaned name is trimmed |
| CleanProducts.CleanNameClean | 01_data_cleaning_pipeline/Python/clean_products.py:74 | the cleaned name contains no `*`, `.` or `"` |
| CleanProducts.CleanNameIdempotent | 01_data_cleaning_pipeline/Python/clean_products.py:74 | cleaning a cleaned name changes nothing |
| CleanProducts.CleanNameDropsPunctuation | 01_data_cleaning_pipeline/Python/clean_products.py:74 | trailing punctuation after a clean, trimmed name is all that cleaning removes |
| CleanProducts.NormalizeSegment | 01_data_cleaning_pipeline/Python/clean_products.py:61-74 | the product name of every segment is trimmed |
| CleanProducts.NormalizeSegmentIgnoresModifiers | 01_data_cleaning_pipeline/Python/clean_products.py:59-61 | the modifiers after the first `:` do not affect the quantity or the name |
| CleanProducts.NormalizeSegmentDefault | 01_data_cleaning_pipeline/Python/clean_products.py:68-74 | a segment with no modifier and no count is one unit of its cleaned text |
| CleanProducts.NormalizeUncounted | 01_data_cleaning_pipeline/Python/clean_products.py:68-74 | an uncounted plain name followed by punctuation is one unit of that name |
| CleanProducts.NormalizeCounted | 01_data_cleaning_pipeline/Python/clean_products.py:61-74 | `<digits>x <name><punctuation><whitespace>` gives the digits' value and the bare name |
| CleanProducts.NormalizeCountedWithModifiers | 01_data_cleaning_pipeline/Python/clean_products.py:59-74 | the same holds with any modifiers after a `:` |
| CleanProducts.NormalizePunctuationOnly | 01_data_cleaning_pipeline/Python/clean_products.py:61-74 | a count followed only by whitespace and punctuation, such as `3x ...`, gives the count and an empty product name: the raw name is the punctuation, and cleaning deletes all of it |
| CleanProducts.MakeRecord | 01_data_cleaning_pipeline/Python/clean_products.py:77-81 | the appended record carries the row's invoice number and a product that is trimmed and free of `*`, `.` and `"` |
| CleanProducts.RowRecords | 01_data_cleaning_pipeline/Python/clean_products.py:58-81 | a row gives exactly one record per segment, each carrying the row's invoice number |
| CleanProducts.RowRecordsSnoc | 01_data_cleaning_pipeline/Python/clean_products.py:58-81 | one more segment appends one more record, carrying the row's invoice number |
| CleanProducts.CleanRowsSnoc | 01_data_cleaning_pipeline/Python/clean_products.py:51-81 | one more row appends exactly that row's records, in segment order |
| CleanProducts.CleanRows | 01_data_cleaning_pipeline/Python/clean_products.py:51-81 | `clean_rows` after the loop; it has no contract of its own, and `CleanRowsSnoc`, `CleanRowsAt`, `CleanRowsCount` and `CleanRowsOrigin` state its length and contents |
| CleanProducts.CleanRowsAppend | 01_data_cleaning_pipeline/Python/clean_products.py:51-81 | the records are grouped by row, in row order |
| CleanProducts.RowOfCleanRows | 01_data_cleaning_pipeline/Python/clean_products.py:52-81 | one row yields one record per segment, each carrying the row's invoice number |
| CleanProducts.CleanRowsAt | 01_data_cleaning_pipeline/Python/clean_products.py:51-81 | segment `j` of row `i` becomes the record right after the records of the rows before row `i` |
| CleanProducts.CleanRowsCount | 01_data_cleaning_pipeline/Python/clean_products.py:56-81 | the number of records is the total number of non-blank pieces of all cells |
| CleanProducts.CleanRowsOrigin | 01_data_cleaning_pipeline/Python/clean_products.py:51-81 | every record comes from some segment of some input row and carries that row's invoice number |
| CleanProducts.CleanRowsProduct | 01_data_cleaning_pipeline/Python/clean_products.py:74-80 | every product name in the output is trimmed and free of `*`, `.` and `"` |
| CleanProducts.Numbered | 01_data_cleaning_pipeline/Python/clean_products.py:88-90 | numbering keeps the number of records |
| CleanProducts.NumberedAt | 01_data_cleaning_pipeline/Python/clean_products.py:88-90 | output row `k` is record `k` with id `k + 1` |
| CleanProducts.IdsContiguous | 01_data_cleaning_pipeline/Python/clean_products.py:88-90 | the ids are exactly 1..n, in output order, with no gap and no repeat |
| CleanProducts.AssignIds | 01_data_cleaning_pipeline/Python/clean_products.py:88-90 | the numbering loop produces the records numbered from 1 |
| CleanProducts.AppendRowRecords | 01_data_cleaning_pipeline/Python/clean_products.py:58-81 | the inner loop appends the row's records, in segment order, to what was collected before |
| CleanProducts.Normalize | 01_data_cleaning_pipeline/Python/clean_products.py:48-90 | the whole run yields the records of every row, row after row, numbered from 1 |
| CleanProducts.NormalizeOutputAt | 01_data_cleaning_pipeline/Python/clean_products.py:51-90 | end to end, segment `j` of row `i` is the output row at its position, numbered by that position plus one |
| DocExamples.ButterNaanRecord | 01_data_cleaning_pipeline/Python/clean_products.py:18 | `1x Butter Naan.` gives (1, `Butter Naan`) |
| DocExamples.SamosaRecord | 01_data_cleaning_pipeline/Python/clean_products.py:19 | `1x Samosa 1 Unidad.:` followed by any modifiers gives (1, `Samosa 1 Unidad`) |
| DocExamples.PolloTikkaRecord | 01_data_cleaning_pipeline/Python/clean_products.py:20 | `1x Pollo Tikka Masala. :` followed by any modifiers gives (1, `Pollo Tikka Masala`) |
| DocExamples.MenuMayuraRecord | 01_data_cleaning_pipeline/Python/clean_products.py:21 | `1x Menú Mayura.:` followed by any modifiers gives (1, `Menú Mayura`) |
| DocExamples.LassiRecord | 01_data_cleaning_pipeline/Python/clean_products.py:63-74 | `2x Lassi de Mango.` gives (2, `Lassi de Mango`) |
| DocExamples.ZeroCountRecord | 01_data_cleaning_pipeline/Python/clean_products.py:64-66 | `0x Raita` gives quantity 0 |
| DocExamples.UpperCaseRecord | 01_data_cleaning_pipeline/Python/clean_products.py:64-71 | `2X Naan.` has no count, so it gives (1, `2X Naan`) |
| DocExamples.BareCountRecord | 01_data_cleaning_pipeline/Python/clean_products.py:64-74 | a bare `3x` gives three of a product with an empty name |
| DocExamples.PunctuationOnlyRecord | 01_data_cleaning_pipeline/Python/clean_products.py:64-74 | `3x ...` gives three of a product with an empty name |
| DocExamples.UncountedRecord | 01_data_cleaning_pipeline/Python/clean_products.py:68-74 | `Naan.` gives (1, `Naan`) |
| DocExamples.CountedEntry | 01_data_cleaning_pipeline/Python/clean_products.py:56-74 | an entry `<digits>x <name><punctuation>` is a segment of its own and gives the digits' value and the name |
| DocExamples.TwoEntryCell | 01_data_cleaning_pipeline/Python/clean_products.py:56 | two entries followed by a trailing `;` form two segments |
| DocExamples.SingleEntry | 01_data_cleaning_pipeline/Python/clean_products.py:56-74 | `1x <name>.` is a segment of its own that gives one unit of `name` |
| DocExamples.TwoEntryRow | 01_data_cleaning_pipeline/Python/clean_products.py:56-81 | a cell of two entries with a trailing `;` gives exactly two records, the first entry's and then the second's |
| DocExamples.TwoEntryRecords | 01_data_cleaning_pipeline/Python/clean_products.py:56-81 | two entries that normalise to `(q1, n1)` and `(q2, n2)` give exactly those two records, in order |
| DocExamples.TrailingSemicolonCell | 01_data_cleaning_pipeline/Python/clean_products.py:56-81 | `1x A.; 1x B.;` gives the records `A` then `B`, and the trailing `;` adds none |
| DocExamples.TwoRowRecords | 01_data_cleaning_pipeline/Python/clean_products.py:51-81 | the records of two rows are the first row's records, then the second's |
| DocExamples.TwoInvoices | 01_data_cleaning_pipeline/Python/clean_products.py:51-90 | invoices with two entries and then one entry give rows 1, 2 and 3, with the first invoice's number twice and then the second's |
| DocExamples.FourEntrySegments | 01_data_cleaning_pipeline/Python/clean_products.py:56 | four entries separated by `;` and whitespace form four segments |
| DocExamples.FourEntryRow | 01_data_cleaning_pipeline/Python/clean_products.py:56-81 | an invoice cell with four segments gives exactly four records, one for each segment, in segment order |
| DocExamples.FourEntryTable | 01_data_cleaning_pipeline/Python/clean_products.py:51-90 | an invoice cell with four segments, each read as quantity 1 and a name, gives rows 1 to 4 carrying the invoice number and those names in segment order |
| DocExamples.InvoiceLS35713Segments | 01_data_cleaning_pipeline/Python/clean_products.py:18-21 | the header's invoice cell has four segments, one per line, whatever modifier texts without `;` and without trailing whitespace follow the `:` |
| DocExamples.InvoiceLS35713 | 01_data_cleaning_pipeline/Python/clean_products.py:14-34 | the header's invoice, with any modifier texts that hold no `;` and do not end in whitespace and any whitespace between the lines, becomes the rows numbered 1 to 4, each with `LS35713` and quantity 1, for `Butter Naan`, `Samosa 1 Unidad`, `Pollo Tikka Masala` and `Menú Mayura` |
| DocExamples.InvoiceLS35713Header | 01_data_cleaning_pipeline/Python/clean_products.py:14-34 | the header's invoice with its own modifier texts and its line break and indentation gives those four rows; rows 1 to 3 are the expected output the header shows |

## Left out

- Reading `products.xlsx` (line 45) and writing `clean_products.csv` (line 94) are file I/O. The model takes the rows as a sequence and returns the numbered records.
- The confirmation and preview printed at the end (lines 96-99) are console output and are left out.
- The `str(...)` coercion of the `products` cell (line 53) is left out; cells are modelled as strings. In the script, an empty cell read as NaN becomes the text `nan`, which then yields one record `(1, "nan")`. A numeric cell would be rendered by pandas. Neither conversion is modelled.
- `invoice_no` is carried through unchanged as a string. Its pandas type and its CSV rendering are not modelled.
- Building the DataFrame and renaming the index column (lines 84, 88-89) are modelled only as the numbering of the record list. Column order and data types are not modelled.
- Characters are modelled, but whitespace and `\d` follow their ASCII members only. Python also treats Unicode whitespace, such as the no-break space, as whitespace for `strip` and `\s`. Python also accepts non-ASCII decimal digits in `\d` and `int`. Names such as `Menú Mayura` are carried through unchanged, as in the script.
- `PyText.Split` is modelled for a one-character separator, which is all the script uses (`;` and `:`). It also serves for the newline at which `.` stops.
- The worked examples for single items keep the modifiers after `:` as parameters, so they hold for any modifiers. The whole invoice `LS35713` is proved once for any modifier texts that hold no `;` and do not end in whitespace (`DocExamples.InvoiceLS35713`), and once for the header's own texts (`DocExamples.InvoiceLS35713Header`).
- The script accepts any count the pattern matches, including `0x`: `0x Raita` gives quantity 0 (`DocExamples.ZeroCountRecord`). The default of 1 applies only when there is no count (lines 68-71).
- PyText.DecimalValue: reads a digit run of any length. Python 3.11 and later limit `int` on a string to 4300 digits by default, and a longer count would make line 66 raise `ValueError` and stop the whole run. That limit and the exception are not modelled.
