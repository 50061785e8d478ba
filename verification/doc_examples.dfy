/**
  The worked examples of the cleaner: the invoice `LS35713` of the script's
  header comment, the cases of the quantity pattern, a cell with a trailing
  `;`, and the numbering of records across two invoices.

  Example texts are written as concatenations of their parts (count, `x`,
  whitespace, name, punctuation, whitespace, `:` and modifiers); the text is
  the same, and the parts are what the general lemmas are stated over. The
  modifiers after a `:` are left as a parameter: whatever they are, and in
  particular the ones of the header comment, the record is the same.
*/
module DocExamples {
  import opened PyText
  import opened CleanProducts


  /** `1x Butter Naan.` is one `Butter Naan`. */
  lemma ButterNaanRecord()
    ensures NormalizeSegment("1" + "x" + " " + "Butter Naan" + "." + "") == (1, "Butter Naan")
  {
    assert DecimalValue("1") == 1;
    assert PlainName("Butter Naan") && AllPunctuation(".");
    NormalizeCounted("1", " ", "Butter Naan", ".", "");
  }

  /** `1x Samosa 1 Unidad.: 1x Sin Salsa Extra, 1x Samosa 1 unidad (vegano)` is
      one `Samosa 1 Unidad`: the modifiers after the `:` are dropped. */
  lemma SamosaRecord(modifiers: string)
    ensures NormalizeSegment("1" + "x" + " " + "Samosa 1 Unidad" + "." + "" + ":" + modifiers)
         == (1, "Samosa 1 Unidad")
  {
    assert DecimalValue("1") == 1;
    assert PlainName("Samosa 1 Unidad") && AllPunctuation(".");
    NormalizeCountedWithModifiers("1", " ", "Samosa 1 Unidad", ".", "", modifiers);
  }

  /** `1x Pollo Tikka Masala. : 1x Arroz al Zeera Vegano., 1x Pollo Tikka Masala`
      is one `Pollo Tikka Masala`: the space before the `:` is trimmed too. */
  lemma PolloTikkaRecord(modifiers: string)
    ensures NormalizeSegment("1" + "x" + " " + "Pollo Tikka Masala" + "." + " " + ":" + modifiers)
         == (1, "Pollo Tikka Masala")
  {
    assert DecimalValue("1") == 1;
    assert PlainName("Pollo Tikka Masala") && AllPunctuation(".");
    NormalizeCountedWithModifiers("1", " ", "Pollo Tikka Masala", ".", " ", modifiers);
  }

  /** `1x Menú Mayura.: 1x Cerveza Moritz, lata 0,33l., 1x Naan., 1x Lassi de
      Mango.` is one `Menú Mayura`: the menu's contents are modifiers. */
  lemma MenuMayuraRecord(modifiers: string)
    ensures NormalizeSegment("1" + "x" + " " + "Menú Mayura" + "." + "" + ":" + modifiers)
         == (1, "Menú Mayura")
  {
    assert DecimalValue("1") == 1;
    assert PlainName("Menú Mayura") && AllPunctuation(".");
    NormalizeCountedWithModifiers("1", " ", "Menú Mayura", ".", "", modifiers);
  }

  /** `2x Lassi de Mango.` is two `Lassi de Mango`. */
  lemma LassiRecord()
    ensures NormalizeSegment("2" + "x" + " " + "Lassi de Mango" + "." + "") == (2, "Lassi de Mango")
  {
    assert DecimalValue("2") == 2;
    assert PlainName("Lassi de Mango") && AllPunctuation(".");
    NormalizeCounted("2", " ", "Lassi de Mango", ".", "");
  }

  /** A count of zero is kept as it is. */
  lemma ZeroCountRecord()
    ensures NormalizeSegment("0" + "x" + " " + "Raita" + "" + "") == (0, "Raita")
  {
    assert DecimalValue("0") == 0;
    assert PlainName("Raita") && AllPunctuation("");
    NormalizeCounted("0", " ", "Raita", "", "");
  }

  /** The count must be followed by a lower-case `x`: `2X Naan.` has no count,
      so it is one `2X Naan`. */
  lemma UpperCaseRecord()
    ensures NormalizeSegment("2X Naan" + ".") == (1, "2X Naan")
  {
    assert "2X Naan" + "." == "2" + "X" + " Naan.";
    UpperCaseX("2", " Naan.");
    assert PlainName("2X Naan") && AllPunctuation(".");
    NormalizeUncounted("2X Naan", ".");
  }

  /** A bare count `3x` is three of a product with an empty name. */
  lemma BareCountRecord()
    ensures NormalizeSegment("3" + "x") == (3, "")
  {
    var segment := "3" + "x";
    StripModifierWhole(segment);
    assert IsStripped(segment);
    assert segment == "3" + "x" + "";
    ParseQuantityCounted("3", "");
    assert DecimalValue("3") == 3;
    SplitFree("", '\n');
    NormalizeSegmentSteps(segment, segment, 3, "", "");
  }

  /** `3x ...` gives three of a product whose name cleaning empties. */
  lemma PunctuationOnlyRecord()
    ensures NormalizeSegment("3" + "x" + " " + "...") == (3, "")
  {
    assert DecimalValue("3") == 3;
    assert AllSpace(" ") && AllPunctuation("...");
    NormalizePunctuationOnly("3", " ", "...");
  }

  /** Without a count the quantity defaults to 1. */
  lemma UncountedRecord()
    ensures NormalizeSegment("Naan" + ".") == (1, "Naan")
  {
    var segment := "Naan" + ".";
    assert LeadingDigits(segment) == 0;
    MatchCountIff(segment);
    assert PlainName("Naan") && AllPunctuation(".");
    NormalizeUncounted("Naan", ".");
  }

  // ---------------------------------------------------------------------------
  // Whole cells

  /** An entry after whitespace is a non-blank piece that trims to the entry. */
  lemma PaddedEntry(gap: string, entry: string)
    requires entry != [] && IsStripped(entry) && ';' !in entry
    requires AllSpace(gap) && ';' !in gap
    ensures ';' !in gap + entry && Strip(gap + entry) == entry
  {
    StripPadded(gap, entry, "");
    assert gap + entry + "" == gap + entry;
  }

  /** A cell of two entries has two segments. */
  lemma TwoEntrySegments(first: string, second: string, gap: string)
    requires first != [] && IsStripped(first) && ';' !in first
    requires second != [] && IsStripped(second) && ';' !in second
    requires AllSpace(gap) && ';' !in gap
    ensures Segments(first + ";" + (gap + second)) == [first, second]
  {
    PaddedEntry(gap, second);
    SegmentsSingle(gap + second);
    SegmentsCons(first, gap + second);
  }

  /** A cell of two entries followed by a trailing `;` has two segments. */
  lemma TwoEntryCell(first: string, second: string, gap: string)
    requires first != [] && IsStripped(first) && ';' !in first
    requires second != [] && IsStripped(second) && ';' !in second
    requires AllSpace(gap) && ';' !in gap
    ensures Segments(first + ";" + (gap + second) + ";") == [first, second]
  {
    TwoEntrySegments(first, second, gap);
    SegmentsTrailingSemicolon(first + ";" + (gap + second));
  }

  /** An entry `<digits>x <name><punctuation>` is non-empty and trimmed. */
  lemma EntryStripped(digits: string, name: string, tail: string)
    requires digits != [] && AllDigits(digits)
    requires PlainName(name) && AllPunctuation(tail)
    ensures var entry := digits + "x" + " " + name + tail;
            entry != [] && IsStripped(entry)
  {
    var entry := digits + "x" + " " + name + tail;
    assert entry[0] == digits[0];
    if tail == [] {
      assert entry[|entry| - 1] == name[|name| - 1];
    } else {
      assert entry[|entry| - 1] == tail[|tail| - 1];
    }
  }

  /** An entry `<digits>x <name><punctuation>` holds no `;` when its name has none. */
  lemma EntryFree(digits: string, name: string, tail: string)
    requires AllDigits(digits) && ';' !in name && AllPunctuation(tail)
    ensures ';' !in digits + "x" + " " + name + tail
  {
  }

  /** An entry `<digits>x <name><punctuation>` is a segment of its own and
      gives `digits` of `name`. */
  lemma CountedEntry(digits: string, name: string, tail: string)
    requires digits != [] && AllDigits(digits)
    requires PlainName(name) && ';' !in name && AllPunctuation(tail)
    ensures var entry := digits + "x" + " " + name + tail;
            entry != [] && IsStripped(entry) && ';' !in entry
            && NormalizeSegment(entry) == (DecimalValue(digits), name)
  {
    NormalizeCounted(digits, " ", name, tail, "");
    assert digits + "x" + " " + name + tail + "" == digits + "x" + " " + name + tail;
    EntryStripped(digits, name, tail);
    EntryFree(digits, name, tail);
  }

  /** The row of such a cell gives the records of its two entries, in order. */
  lemma TwoEntryRow(invoiceNo: string, first: string, second: string, gap: string)
    requires first != [] && IsStripped(first) && ';' !in first
    requires second != [] && IsStripped(second) && ';' !in second
    requires AllSpace(gap) && ';' !in gap
    ensures var records := CleanRows([InvoiceRow(invoiceNo, first + ";" + (gap + second) + ";")]);
            |records| == 2 && records[0] == MakeRecord(invoiceNo, first) && records[1] == MakeRecord(invoiceNo, second)
  {
    TwoEntryCell(first, second, gap);
    RowOfCleanRows(InvoiceRow(invoiceNo, first + ";" + (gap + second) + ";"));
  }

  /** `1x A.; 1x B.;` gives two records, `A` and `B`, in that order: the
      trailing `;` adds none. */
  lemma TrailingSemicolonCell(invoiceNo: string, a: string, b: string)
    requires PlainName(a) && ';' !in a && PlainName(b) && ';' !in b
    ensures var cell := "1" + "x" + " " + a + "." + ";" + (" " + ("1" + "x" + " " + b + ".")) + ";";
            CleanRows([InvoiceRow(invoiceNo, cell)]) == [CleanRow(invoiceNo, 1, a), CleanRow(invoiceNo, 1, b)]
  {
    var first, second := "1" + "x" + " " + a + ".", "1" + "x" + " " + b + ".";
    SingleEntry(a);
    SingleEntry(b);
    TwoEntryRecords(invoiceNo, first, second, " ", 1, a, 1, b);
  }

  /** Two clean entries give the two records they normalise to, in order. */
  lemma TwoEntryRecords(invoiceNo: string, first: string, second: string, gap: string,
                        q1: nat, n1: string, q2: nat, n2: string)
    requires first != [] && IsStripped(first) && ';' !in first
    requires second != [] && IsStripped(second) && ';' !in second
    requires AllSpace(gap) && ';' !in gap
    requires NormalizeSegment(first) == (q1, n1) && NormalizeSegment(second) == (q2, n2)
    ensures CleanRows([InvoiceRow(invoiceNo, first + ";" + (gap + second) + ";")])
         == [CleanRow(invoiceNo, q1, n1), CleanRow(invoiceNo, q2, n2)]
  {
    TwoEntryRow(invoiceNo, first, second, gap);
    RecordOf(invoiceNo, first, q1, n1);
    RecordOf(invoiceNo, second, q2, n2);
  }

  /** `1x <name>.` is a clean segment holding one unit of `name`. */
  lemma SingleEntry(name: string)
    requires PlainName(name) && ';' !in name
    ensures var entry := "1" + "x" + " " + name + ".";
            entry != [] && IsStripped(entry) && ';' !in entry && NormalizeSegment(entry) == (1, name)
  {
    assert DecimalValue("1") == 1;
    assert AllPunctuation(".");
    CountedEntry("1", name, ".");
  }

  /** The record of a segment carries the invoice number and what the segment
      normalises to. */
  lemma RecordOf(invoiceNo: string, segment: string, quantity: nat, name: string)
    requires NormalizeSegment(segment) == (quantity, name)
    ensures MakeRecord(invoiceNo, segment) == CleanRow(invoiceNo, quantity, name)
  {
  }

  /** The records of two rows are the first row's records, then the second's. */
  lemma TwoRowRecords(first: InvoiceRow, second: InvoiceRow)
    ensures CleanRows([first, second])
         == RowRecords(first.invoiceNo, Segments(first.products)) + RowRecords(second.invoiceNo, Segments(second.products))
  {
    assert [first, second] == [first] + [second];
    CleanRowsAppend([first], [second]);
    RowOfCleanRows(first);
    RowOfCleanRows(second);
  }

  /** Two invoices, the first with two entries and the second with one, give
      three rows numbered 1, 2 and 3: both records of the first invoice, then
      the record of the second. */
  lemma TwoInvoices(first: InvoiceRow, second: InvoiceRow)
    requires |Segments(first.products)| == 2 && |Segments(second.products)| == 1
    ensures var table := Numbered(CleanRows([first, second]), 1);
            |table| == 3
            && table[0].transactionId == 1 && table[0].invoiceNo == first.invoiceNo
            && table[1].transactionId == 2 && table[1].invoiceNo == first.invoiceNo
            && table[2].transactionId == 3 && table[2].invoiceNo == second.invoiceNo
  {
    TwoRowRecords(first, second);
    var records := CleanRows([first, second]);
    assert records[0].invoiceNo == first.invoiceNo && records[1].invoiceNo == first.invoiceNo;
    assert records[2].invoiceNo == second.invoiceNo;
    NumberedAt(records, 1, 0);
    NumberedAt(records, 1, 1);
    NumberedAt(records, 1, 2);
  }

  // ---------------------------------------------------------------------------
  // The invoice of the header comment

  /** Modifier text as it follows a `:` within one entry: free of `;` and not
      ending in whitespace (it may start with some). */
  predicate ModifierText(modifiers: string) {
    ';' !in modifiers && (modifiers == [] || !IsSpace(modifiers[|modifiers| - 1]))
  }

  /** An entry followed by `:` and modifier text is still a non-empty, trimmed
      segment free of `;`. */
  lemma ModifiedEntry(entry: string, pad: string, modifiers: string)
    requires entry != [] && IsStripped(entry) && ';' !in entry
    requires AllSpace(pad) && ';' !in pad
    requires ModifierText(modifiers)
    ensures var segment := entry + pad + ":" + modifiers;
            segment != [] && IsStripped(segment) && ';' !in segment
  {
    var segment := entry + pad + ":" + modifiers;
    assert segment[0] == entry[0];
    if modifiers != [] {
      assert segment[|segment| - 1] == modifiers[|modifiers| - 1];
    }
  }

  /** An entry `1x <name>.` with padding, `:` and modifiers is a non-empty,
      trimmed segment free of `;`. */
  lemma NamedEntry(name: string, pad: string, modifiers: string)
    requires PlainName(name) && ';' !in name
    requires AllSpace(pad) && ';' !in pad
    requires ModifierText(modifiers)
    ensures var segment := "1" + "x" + " " + name + "." + pad + ":" + modifiers;
            segment != [] && IsStripped(segment) && ';' !in segment
  {
    assert AllDigits("1") && AllPunctuation(".");
    EntryStripped("1", name, ".");
    EntryFree("1", name, ".");
    ModifiedEntry("1" + "x" + " " + name + ".", pad, modifiers);
  }

  /** An entry after whitespace, before the first `;`, is the first segment. */
  lemma PaddedCons(gap: string, entry: string, rest: string)
    requires entry != [] && IsStripped(entry) && ';' !in entry
    requires AllSpace(gap) && ';' !in gap
    ensures Segments(gap + entry + ";" + rest) == [entry] + Segments(rest)
  {
    PaddedEntry(gap, entry);
    SegmentsCons(gap + entry, rest);
  }

  /** An entry after whitespace, with no `;` after it, is the last segment. */
  lemma PaddedLast(gap: string, entry: string)
    requires entry != [] && IsStripped(entry) && ';' !in entry
    requires AllSpace(gap) && ';' !in gap
    ensures Segments(gap + entry) == [entry]
  {
    PaddedEntry(gap, entry);
    SegmentsSingle(gap + entry);
  }

  /** A cell of four entries separated by `;` and whitespace has four segments. */
  lemma FourEntrySegments(e1: string, e2: string, e3: string, e4: string, gap: string)
    requires e1 != [] && IsStripped(e1) && ';' !in e1
    requires e2 != [] && IsStripped(e2) && ';' !in e2
    requires e3 != [] && IsStripped(e3) && ';' !in e3
    requires e4 != [] && IsStripped(e4) && ';' !in e4
    requires AllSpace(gap) && ';' !in gap
    ensures Segments(e1 + ";" + (gap + e2 + ";" + (gap + e3 + ";" + (gap + e4)))) == [e1, e2, e3, e4]
  {
    PaddedLast(gap, e4);
    PaddedCons(gap, e3, gap + e4);
    PaddedCons(gap, e2, gap + e3 + ";" + (gap + e4));
    assert Strip(e1) == e1;
    SegmentsCons(e1, gap + e2 + ";" + (gap + e3 + ";" + (gap + e4)));
  }

  /** The row of a cell with four segments gives their four records, in order. */
  lemma FourEntryRow(invoiceNo: string, cell: string, e1: string, e2: string, e3: string, e4: string)
    requires Segments(cell) == [e1, e2, e3, e4]
    ensures var records := CleanRows([InvoiceRow(invoiceNo, cell)]);
            |records| == 4
            && records[0] == MakeRecord(invoiceNo, e1) && records[1] == MakeRecord(invoiceNo, e2)
            && records[2] == MakeRecord(invoiceNo, e3) && records[3] == MakeRecord(invoiceNo, e4)
  {
    RowOfCleanRows(InvoiceRow(invoiceNo, cell));
  }

  /**
   * A cell with four segments, each an item of quantity 1, becomes the rows
   * numbered 1 to 4 with those items in segment order.
   */
  lemma FourEntryTable(invoiceNo: string, cell: string, e1: string, e2: string, e3: string, e4: string,
                       n1: string, n2: string, n3: string, n4: string)
    requires Segments(cell) == [e1, e2, e3, e4]
    requires NormalizeSegment(e1) == (1, n1) && NormalizeSegment(e2) == (1, n2)
    requires NormalizeSegment(e3) == (1, n3) && NormalizeSegment(e4) == (1, n4)
    ensures Numbered(CleanRows([InvoiceRow(invoiceNo, cell)]), 1)
         == [Transaction(1, invoiceNo, 1, n1), Transaction(2, invoiceNo, 1, n2),
             Transaction(3, invoiceNo, 1, n3), Transaction(4, invoiceNo, 1, n4)]
  {
    var records := CleanRows([InvoiceRow(invoiceNo, cell)]);
    FourEntryRow(invoiceNo, cell, e1, e2, e3, e4);
    NumberedAt(records, 1, 0);
    NumberedAt(records, 1, 1);
    NumberedAt(records, 1, 2);
    NumberedAt(records, 1, 3);
  }

  /** A name that is a segment's whole product: plain and free of `;`. */
  predicate EntryName(name: string) {
    PlainName(name) && ';' !in name
  }

  // The product names of the invoice `LS35713` need no cleaning.

  lemma ButterNaanName() ensures EntryName("Butter Naan") { }

  lemma SamosaName() ensures EntryName("Samosa 1 Unidad") { }

  lemma PolloTikkaName() ensures EntryName("Pollo Tikka Masala") { }

  lemma MenuMayuraName() ensures EntryName("Menú Mayura") { }

  /** The four entries of the invoice `LS35713` are its four segments. */
  lemma InvoiceLS35713Segments(m1: string, m2: string, m3: string, gap: string)
    requires ModifierText(m1)
    requires ModifierText(m2)
    requires ModifierText(m3)
    requires AllSpace(gap) && ';' !in gap
    ensures var e1 := "1" + "x" + " " + "Butter Naan" + "." + "";
            var e2 := "1" + "x" + " " + "Samosa 1 Unidad" + "." + "" + ":" + m1;
            var e3 := "1" + "x" + " " + "Pollo Tikka Masala" + "." + " " + ":" + m2;
            var e4 := "1" + "x" + " " + "Menú Mayura" + "." + "" + ":" + m3;
            Segments(e1 + ";" + (gap + e2 + ";" + (gap + e3 + ";" + (gap + e4)))) == [e1, e2, e3, e4]
  {
    var e1 := "1" + "x" + " " + "Butter Naan" + "." + "";
    assert e1 == "1" + "x" + " " + "Butter Naan" + ".";
    assert AllDigits("1") && AllPunctuation(".");
    ButterNaanName();
    EntryStripped("1", "Butter Naan", ".");
    EntryFree("1", "Butter Naan", ".");
    SamosaName();
    NamedEntry("Samosa 1 Unidad", "", m1);
    PolloTikkaName();
    NamedEntry("Pollo Tikka Masala", " ", m2);
    MenuMayuraName();
    NamedEntry("Menú Mayura", "", m3);
    FourEntrySegments(e1, "1" + "x" + " " + "Samosa 1 Unidad" + "." + "" + ":" + m1,
                      "1" + "x" + " " + "Pollo Tikka Masala" + "." + " " + ":" + m2,
                      "1" + "x" + " " + "Menú Mayura" + "." + "" + ":" + m3, gap);
  }

  /** The invoice `LS35713` of the header comment, its four entries separated by
      `;` and a line break with indentation (any whitespace `gap`), becomes four
      numbered rows; the header's expected output shows the first three. */
  lemma InvoiceLS35713(m1: string, m2: string, m3: string, gap: string)
    requires ModifierText(m1)
    requires ModifierText(m2)
    requires ModifierText(m3)
    requires AllSpace(gap) && ';' !in gap
    ensures var e1 := "1" + "x" + " " + "Butter Naan" + "." + "";
            var e2 := "1" + "x" + " " + "Samosa 1 Unidad" + "." + "" + ":" + m1;
            var e3 := "1" + "x" + " " + "Pollo Tikka Masala" + "." + " " + ":" + m2;
            var e4 := "1" + "x" + " " + "Menú Mayura" + "." + "" + ":" + m3;
            var cell := e1 + ";" + (gap + e2 + ";" + (gap + e3 + ";" + (gap + e4)));
            Numbered(CleanRows([InvoiceRow("LS35713", cell)]), 1)
              == [Transaction(1, "LS35713", 1, "Butter Naan"),
                  Transaction(2, "LS35713", 1, "Samosa 1 Unidad"),
                  Transaction(3, "LS35713", 1, "Pollo Tikka Masala"),
                  Transaction(4, "LS35713", 1, "Menú Mayura")]
  {
    var e1 := "1" + "x" + " " + "Butter Naan" + "." + "";
    var e2 := "1" + "x" + " " + "Samosa 1 Unidad" + "." + "" + ":" + m1;
    var e3 := "1" + "x" + " " + "Pollo Tikka Masala" + "." + " " + ":" + m2;
    var e4 := "1" + "x" + " " + "Menú Mayura" + "." + "" + ":" + m3;
    var cell := e1 + ";" + (gap + e2 + ";" + (gap + e3 + ";" + (gap + e4)));
    InvoiceLS35713Segments(m1, m2, m3, gap);
    ButterNaanRecord();
    SamosaRecord(m1);
    PolloTikkaRecord(m2);
    MenuMayuraRecord(m3);
    FourEntryTable("LS35713", cell, e1, e2, e3, e4, "Butter Naan", "Samosa 1 Unidad", "Pollo Tikka Masala", "Menú Mayura");
  }

  // The modifier texts and the line break with indentation of the header
  // comment's invoice (long texts are written in parts, the same text).

  lemma SamosaModifiers() ensures ModifierText(" 1x Sin Salsa Extra," + " 1x Samosa 1 unidad (vegano)")
  {
    assert ';' !in " 1x Sin Salsa Extra," && ';' !in " 1x Samosa 1 unidad (vegano)";
  }

  lemma PolloTikkaModifiers() ensures ModifierText(" 1x Arroz al Zeera Vegano.," + " 1x Pollo Tikka Masala")
  {
    assert ';' !in " 1x Arroz al Zeera Vegano.," && ';' !in " 1x Pollo Tikka Masala";
  }

  lemma MenuMayuraModifiers()
    ensures ModifierText(" 1x Cerveza Moritz," + " lata 0,33l.," + " 1x Naan.," + " 1x Lassi de Mango.")
  {
    assert ';' !in " 1x Cerveza Moritz," && ';' !in " lata 0,33l.,";
    assert ';' !in " 1x Naan.," && ';' !in " 1x Lassi de Mango.";
  }

  lemma HeaderLineBreak() ensures AllSpace("\n" + "           ") && ';' !in "\n" + "           " { }

  /** The invoice `LS35713` exactly as the header comment writes it: rows 1 to 3
      are the expected output shown there, and row 4 is its last item. */
  lemma InvoiceLS35713Header()
    ensures var e1 := "1" + "x" + " " + "Butter Naan" + "." + "";
            var e2 := "1" + "x" + " " + "Samosa 1 Unidad" + "." + "" + ":" + (" 1x Sin Salsa Extra," + " 1x Samosa 1 unidad (vegano)");
            var e3 := "1" + "x" + " " + "Pollo Tikka Masala" + "." + " " + ":" + (" 1x Arroz al Zeera Vegano.," + " 1x Pollo Tikka Masala");
            var e4 := "1" + "x" + " " + "Menú Mayura" + "." + "" + ":" + (" 1x Cerveza Moritz," + " lata 0,33l.," + " 1x Naan.," + " 1x Lassi de Mango.");
            var gap := "\n" + "           ";
            var cell := e1 + ";" + (gap + e2 + ";" + (gap + e3 + ";" + (gap + e4)));
            Numbered(CleanRows([InvoiceRow("LS35713", cell)]), 1)
              == [Transaction(1, "LS35713", 1, "Butter Naan"),
                  Transaction(2, "LS35713", 1, "Samosa 1 Unidad"),
                  Transaction(3, "LS35713", 1, "Pollo Tikka Masala"),
                  Transaction(4, "LS35713", 1, "Menú Mayura")]
  {
    SamosaModifiers();
    PolloTikkaModifiers();
    MenuMayuraModifiers();
    HeaderLineBreak();
    InvoiceLS35713(" 1x Sin Salsa Extra," + " 1x Samosa 1 unidad (vegano)",
                   " 1x Arroz al Zeera Vegano.," + " 1x Pollo Tikka Masala",
                   " 1x Cerveza Moritz," + " lata 0,33l.," + " 1x Naan.," + " 1x Lassi de Mango.",
                   "\n" + "           ");
  }
}
