/**
  The order-text normaliser of the restaurant data-cleaning script: every invoice
  row carries one free-text `products` cell listing the purchased products,
  separated by `;`, each possibly followed by `:` and a list of modifiers. The
  cleaner turns the rows into one record per product (invoice number, quantity,
  cleaned product name) and then numbers the records 1, 2, 3, ... in order.
*/
module CleanProducts {
  import opened PyText

  datatype Option<T> = None | Some(value: T)

  /** One row of the spreadsheet: its `invoice_no` and its `products` cell. */
  datatype InvoiceRow = InvoiceRow(invoiceNo: string, products: string)

  /** One entry of `clean_rows`: a purchased product before it is numbered. */
  datatype CleanRow = CleanRow(invoiceNo: string, quantity: nat, product: string)

  /** One row of the output table. */
  datatype Transaction = Transaction(transactionId: nat, invoiceNo: string, quantity: nat, product: string)

  // ---------------------------------------------------------------------------
  // Step 1: segmentation

  /** Every piece is whitespace only. */
  predicate AllBlank(pieces: seq<string>) {
    forall k :: 0 <= k < |pieces| ==> AllSpace(pieces[k])
  }

  /** The list comprehension `[p.strip() for p in pieces if p.strip()]`. */
  function KeepNonBlank(pieces: seq<string>): (segments: seq<string>)
    ensures |segments| <= |pieces|
  {
    if |pieces| == 0 then []
    else
      var t := Strip(pieces[0]);
      (if t == [] then [] else [t]) + KeepNonBlank(pieces[1..])
  }

  /** The comprehension keeps nothing exactly when every piece is whitespace. */
  lemma {:induction false} KeepNonBlankEmpty(pieces: seq<string>)
    ensures KeepNonBlank(pieces) == [] <==> AllBlank(pieces)
  {
    if |pieces| > 0 {
      StripEmpty(pieces[0]);
      KeepNonBlankEmpty(pieces[1..]);
      assert forall k :: 0 < k < |pieces| ==> pieces[k] == pieces[1..][k - 1];
    }
  }

  /** The product entries of one `products` cell: its `;`-separated pieces,
      trimmed, without the blank ones. */
  function Segments(text: string): (segments: seq<string>)
  {
    KeepNonBlank(Split(text, ';'))
  }

  /** Every kept segment is non-empty and trimmed, and a character absent from
      every piece is absent from every kept segment. */
  lemma {:induction false} KeepNonBlankClean(pieces: seq<string>, c: char)
    requires forall j :: 0 <= j < |pieces| ==> c !in pieces[j]
    ensures forall k :: 0 <= k < |KeepNonBlank(pieces)| ==>
              KeepNonBlank(pieces)[k] != [] && IsStripped(KeepNonBlank(pieces)[k]) && c !in KeepNonBlank(pieces)[k]
  {
    if |pieces| > 0 {
      KeepNonBlankClean(pieces[1..], c);
      StripAvoids(pieces[0], c);
    }
  }

  /** The segments of a cell are non-empty, trimmed and free of `;`. */
  lemma SegmentsClean(text: string)
    ensures forall k :: 0 <= k < |Segments(text)| ==>
              Segments(text)[k] != [] && IsStripped(Segments(text)[k]) && ';' !in Segments(text)[k]
  {
    SplitPiecesFree(text, ';');
    KeepNonBlankClean(Split(text, ';'), ';');
  }

  /** The comprehension distributes over concatenation of the piece list. */
  lemma {:induction false} KeepNonBlankAppend(a: seq<string>, b: seq<string>)
    ensures KeepNonBlank(a + b) == KeepNonBlank(a) + KeepNonBlank(b)
  {
    if |a| > 0 {
      var head := if Strip(a[0]) == [] then [] else [Strip(a[0])];
      var rest := a[1..];
      assert (a + b)[0] == a[0] && (a + b)[1..] == rest + b;
      assert KeepNonBlank(a) == head + KeepNonBlank(rest);
      assert KeepNonBlank(a + b) == head + KeepNonBlank(rest + b);
      KeepNonBlankAppend(rest, b);
    } else {
      assert a + b == b;
    }
  }

  /** The segments of a cell written as `;`-separated pieces are exactly the
      non-blank pieces, trimmed, in their order. */
  lemma SegmentsOfJoin(pieces: seq<string>)
    requires |pieces| >= 1
    requires forall k :: 0 <= k < |pieces| ==> ';' !in pieces[k]
    ensures Segments(Join(pieces, ';')) == KeepNonBlank(pieces)
  {
    SplitJoin(pieces, ';');
  }

  /** Going through the pieces one at a time: a blank piece adds no segment,
      and a non-blank one adds itself, trimmed, at the end. */
  lemma KeepNonBlankStep(pieces: seq<string>, k: nat)
    requires k < |pieces|
    ensures Strip(pieces[k]) == [] ==> KeepNonBlank(pieces[..k + 1]) == KeepNonBlank(pieces[..k])
    ensures Strip(pieces[k]) != [] ==>
              KeepNonBlank(pieces[..k + 1]) == KeepNonBlank(pieces[..k]) + [Strip(pieces[k])]
  {
    assert pieces[..k + 1] == pieces[..k] + [pieces[k]];
    KeepNonBlankAppend(pieces[..k], [pieces[k]]);
    assert KeepNonBlank([pieces[k]]) == (if Strip(pieces[k]) == [] then [] else [Strip(pieces[k])]) + KeepNonBlank([]);
  }

  /** A non-blank piece is kept, trimmed, right after the segments of the
      pieces before it. */
  lemma KeepNonBlankPosition(pieces: seq<string>, k: nat)
    requires k < |pieces| && Strip(pieces[k]) != []
    ensures |KeepNonBlank(pieces[..k])| < |KeepNonBlank(pieces)|
    ensures KeepNonBlank(pieces)[|KeepNonBlank(pieces[..k])|] == Strip(pieces[k])
  {
    KeepNonBlankStep(pieces, k);
    assert pieces == pieces[..k + 1] + pieces[k + 1..];
    KeepNonBlankAppend(pieces[..k + 1], pieces[k + 1..]);
  }

  /** Every kept segment is some non-blank piece, trimmed. */
  lemma {:induction false} KeepNonBlankOrigin(pieces: seq<string>, j: nat)
    requires j < |KeepNonBlank(pieces)|
    ensures exists k :: 0 <= k < |pieces| && Strip(pieces[k]) != [] && KeepNonBlank(pieces)[j] == Strip(pieces[k])
  {
    var head := if Strip(pieces[0]) == [] then [] else [Strip(pieces[0])];
    assert KeepNonBlank(pieces) == head + KeepNonBlank(pieces[1..]);
    if j < |head| {
      assert KeepNonBlank(pieces)[j] == Strip(pieces[0]);
    } else {
      KeepNonBlankOrigin(pieces[1..], j - |head|);
      var k :| 0 <= k < |pieces[1..]| && Strip(pieces[1..][k]) != []
               && KeepNonBlank(pieces[1..])[j - |head|] == Strip(pieces[1..][k]);
      assert pieces[1..][k] == pieces[k + 1];
    }
  }

  /** The comprehension keeps one segment for each piece that is not blank. */
  lemma {:induction false} KeepNonBlankCount(pieces: seq<string>)
    ensures |KeepNonBlank(pieces)| == |NonBlankPositions(pieces, |pieces|)|
    decreases |pieces|
  {
    if |pieces| > 0 {
      var n := |pieces| - 1;
      var prefix := pieces[..n];
      KeepNonBlankCount(prefix);
      NonBlankPositionsPrefix(pieces, n);
      NonBlankPositionsStep(pieces, n);
      KeepNonBlankStep(pieces, n);
      assert pieces[..n + 1] == pieces;
    }
  }

  /** The positions below `n` whose piece is not blank. */
  function NonBlankPositions(pieces: seq<string>, n: nat): (positions: set<nat>)
    requires n <= |pieces|
  {
    set k: nat | k < n && Strip(pieces[k]) != []
  }

  /** One more position adds itself exactly when its piece is not blank. */
  lemma NonBlankPositionsStep(pieces: seq<string>, n: nat)
    requires n < |pieces|
    ensures |NonBlankPositions(pieces, n + 1)| == |NonBlankPositions(pieces, n)| + (if Strip(pieces[n]) == [] then 0 else 1)
  {
    var before, after := NonBlankPositions(pieces, n), NonBlankPositions(pieces, n + 1);
    var added := if Strip(pieces[n]) == [] then {} else {n};
    forall k: nat ensures k in after <==> k in before + added {
    }
    assert after == before + added;
    assert before !! added;
  }

  /** A prefix has the same non-blank positions below its length. */
  lemma NonBlankPositionsPrefix(pieces: seq<string>, n: nat)
    requires n <= |pieces|
    ensures NonBlankPositions(pieces[..n], n) == NonBlankPositions(pieces, n)
  {
  }

  /** When no piece is blank, every piece is kept, trimmed, in order. */
  lemma {:induction false} KeepNonBlankAll(pieces: seq<string>)
    requires forall k :: 0 <= k < |pieces| ==> Strip(pieces[k]) != []
    ensures |KeepNonBlank(pieces)| == |pieces|
    ensures forall k :: 0 <= k < |pieces| ==> KeepNonBlank(pieces)[k] == Strip(pieces[k])
  {
    if |pieces| > 0 {
      KeepNonBlankAll(pieces[1..]);
      assert KeepNonBlank(pieces) == [Strip(pieces[0])] + KeepNonBlank(pieces[1..]);
    }
  }

  /** A cell made of `;`-separated pieces none of which is blank has one segment
      per piece: the piece, trimmed. */
  lemma SegmentsOfPieces(pieces: seq<string>)
    requires |pieces| >= 1
    requires forall k :: 0 <= k < |pieces| ==> ';' !in pieces[k] && Strip(pieces[k]) != []
    ensures |Segments(Join(pieces, ';'))| == |pieces|
    ensures forall k :: 0 <= k < |pieces| ==> Segments(Join(pieces, ';'))[k] == Strip(pieces[k])
  {
    SegmentsOfJoin(pieces);
    KeepNonBlankAll(pieces);
  }

  /** A cell without `;` is one segment, unless it is blank. */
  lemma SegmentsSingle(piece: string)
    requires ';' !in piece && Strip(piece) != []
    ensures Segments(piece) == [Strip(piece)]
  {
    SplitFree(piece, ';');
  }

  /** A non-blank piece before the first `;` is the first segment; the rest of
      the cell gives the others. */
  lemma SegmentsCons(piece: string, rest: string)
    requires ';' !in piece && Strip(piece) != []
    ensures Segments(piece + ";" + rest) == [Strip(piece)] + Segments(rest)
  {
    SplitHead(piece, rest, ';');
    var pieces := [piece] + Split(rest, ';');
    assert pieces[0] == piece && pieces[1..] == Split(rest, ';');
  }

  /** A trailing `;` adds no record: the empty piece after it is dropped. */
  lemma SegmentsTrailingSemicolon(text: string)
    ensures Segments(text + ";") == Segments(text)
  {
    SplitTrailing(text, ';');
    KeepNonBlankAppend(Split(text, ';'), [[]]);
    assert KeepNonBlank([[]]) == [];
  }

  // ---------------------------------------------------------------------------
  // Step 2: modifier stripping

  /** `product.split(":")[0].strip()`: the trimmed text before the first `:`. */
  function StripModifier(segment: string): (head: string)
    ensures IsStripped(head)
  {
    Strip(Split(segment, ':')[0])
  }

  /** What is kept holds no `:`: every modifier is gone. */
  lemma StripModifierNoColon(segment: string)
    ensures ':' !in StripModifier(segment)
  {
    SplitPiecesFree(segment, ':');
    StripAvoids(Split(segment, ':')[0], ':');
  }

  /** The text after the first `:` is discarded: whatever follows it, only the
      part before it is kept, trimmed. */
  lemma StripModifierIgnoresTail(name: string, modifiers: string)
    requires ':' !in name
    ensures StripModifier(name + ":" + modifiers) == Strip(name)
  {
    SplitHead(name, modifiers, ':');
  }

  /** A segment without `:` is used whole, trimmed. */
  lemma StripModifierWhole(segment: string)
    requires ':' !in segment
    ensures StripModifier(segment) == Strip(segment)
  {
    SplitFree(segment, ':');
  }

  // ---------------------------------------------------------------------------
  // Step 3: quantity and name

  /** The number of leading ASCII digits of `s` (what `\d+` consumes greedily). */
  function LeadingDigits(s: string): (n: nat)
    ensures n <= |s|
    ensures n < |s| ==> !IsDigit(s[n])
  {
    if |s| > 0 && IsDigit(s[0]) then LeadingDigits(s[1..]) + 1 else 0
  }

  /** What `LeadingDigits` counts are digits. */
  lemma {:induction false} LeadingDigitsAreDigits(s: string)
    ensures forall k :: 0 <= k < LeadingDigits(s) ==> IsDigit(s[k])
  {
    if |s| > 0 && IsDigit(s[0]) {
      LeadingDigitsAreDigits(s[1..]);
      forall k | 0 < k < LeadingDigits(s) ensures IsDigit(s[k]) {
        assert s[k] == s[1..][k - 1];
      }
    }
  }

  /** `s` starts with one or more digits followed by a lower-case `x`. */
  ghost predicate HasCountPrefix(s: string) {
    exists n {:trigger s[..n]} :: 0 < n < |s| && AllDigits(s[..n]) && s[n] == 'x'
  }

  /** `re.match(r"(\d+)x\s*(.*)", s)`: on a match, its groups 1 and 2. Group 2
      starts after the whitespace that `\s*` skips and, since `.` does not
      match a newline, stops before the first `\n`. */
  function MatchCount(s: string): (m: Option<(string, string)>)
    ensures m.Some? ==> |m.value.0| > 0 && AllDigits(m.value.0)
  {
    var n := LeadingDigits(s);
    LeadingDigitsAreDigits(s);
    if 0 < n < |s| && s[n] == 'x' then Some((s[..n], Split(TrimStart(s[n + 1..]), '\n')[0]))
    else None
  }

  /** The pattern matches exactly the segments that start with `<digits>x`. */
  lemma MatchCountIff(s: string)
    ensures MatchCount(s).Some? <==> HasCountPrefix(s)
  {
    var n := LeadingDigits(s);
    LeadingDigitsAreDigits(s);
    if HasCountPrefix(s) {
      var j :| 0 < j < |s| && AllDigits(s[..j]) && s[j] == 'x';
    }
  }

  /** On `<digits>x<rest>`, group 1 is all of the digits and group 2 is the
      rest after skipping whitespace, up to the first newline. */
  lemma MatchCountGroups(digits: string, rest: string)
    requires |digits| > 0 && AllDigits(digits)
    ensures MatchCount(digits + "x" + rest) == Some((digits, Split(TrimStart(rest), '\n')[0]))
  {
    var s := digits + "x" + rest;
    assert s[..|digits|] == digits;
    assert s[|digits|] == 'x';
    LeadingDigitsAreDigits(s);
    assert LeadingDigits(s) == |digits|;
    assert s[|digits| + 1..] == rest;
  }

  /** Lines 64-71: the quantity and the (not yet cleaned) name of a segment. */
  function ParseQuantity(s: string): (r: (nat, string))
    ensures !HasCountPrefix(s) ==> r == (1, s)
    ensures HasCountPrefix(s) ==> AllDigits(s[..LeadingDigits(s)]) && r.0 == DecimalValue(s[..LeadingDigits(s)])
  {
    MatchCountIff(s);
    LeadingDigitsAreDigits(s);
    match MatchCount(s)
    case Some((digits, name)) => (DecimalValue(digits), name)
    case None => (1, s)
  }

  /** With a `<digits>x` prefix the quantity is the decimal value of the digits
      and the name is what follows, after any whitespace, up to a newline. */
  lemma ParseQuantityCounted(digits: string, rest: string)
    requires |digits| > 0 && AllDigits(digits)
    ensures ParseQuantity(digits + "x" + rest) == (DecimalValue(digits), Split(TrimStart(rest), '\n')[0])
    ensures '\n' !in rest ==> ParseQuantity(digits + "x" + rest) == (DecimalValue(digits), TrimStart(rest))
  {
    MatchCountGroups(digits, rest);
    if '\n' !in rest {
      var t := TrimStart(rest);
      SplitFree(t, '\n');
    }
  }

  /** The quantity a rendered count `n` gives is `n` itself. */
  lemma ParseQuantityOfNumber(n: nat, rest: string)
    requires '\n' !in rest
    ensures ParseQuantity(Decimal(n) + "x" + rest) == (n, TrimStart(rest))
  {
    ParseQuantityCounted(Decimal(n), rest);
    DecimalRoundTrip(n);
  }

  /** Without a `<digits>x` prefix the quantity defaults to 1 and the whole
      text is the name; with one, the default is not used. */
  lemma ParseQuantityDefault(s: string)
    ensures !HasCountPrefix(s) <==> MatchCount(s).None?
    ensures !HasCountPrefix(s) ==> ParseQuantity(s) == (1, s)
  {
    MatchCountIff(s);
  }

  /** The pattern is case-sensitive: an upper-case `X` after the digits is no
      count, so the quantity is 1 and the text is kept whole. */
  lemma UpperCaseX(digits: string, rest: string)
    requires |digits| > 0 && AllDigits(digits)
    ensures !HasCountPrefix(digits + "X" + rest)
    ensures ParseQuantity(digits + "X" + rest) == (1, digits + "X" + rest)
  {
    var s := digits + "X" + rest;
    assert s[..|digits|] == digits;
    assert s[|digits|] == 'X';
    LeadingDigitsAreDigits(s);
    assert LeadingDigits(s) == |digits|;
    MatchCountIff(s);
  }

  // ---------------------------------------------------------------------------
  // Step 4: name cleaning

  /** The characters in the class `[\*\.\"]`. */
  predicate IsPunctuation(c: char) {
    c == '*' || c == '.' || c == '"'
  }

  /** `s` holds no `*`, `.` or `"`. */
  predicate NoPunctuation(s: string) {
    forall k :: 0 <= k < |s| ==> !IsPunctuation(s[k])
  }

  /** `s` is made of `*`, `.` and `"` only. */
  predicate AllPunctuation(s: string) {
    forall k :: 0 <= k < |s| ==> IsPunctuation(s[k])
  }

  /** `re.sub(r"[\*\.\"]", "", s)`: `s` with every `*`, `.` and `"` deleted. */
  function RemovePunctuation(s: string): (r: string)
    ensures |r| <= |s|
  {
    if |s| == 0 then []
    else
      var rest := RemovePunctuation(s[1..]);
      (if IsPunctuation(s[0]) then [] else [s[0]]) + rest
  }

  /** No `*`, `.` or `"` is left. */
  lemma {:induction false} RemovePunctuationClean(s: string)
    ensures NoPunctuation(RemovePunctuation(s))
  {
    if |s| > 0 {
      RemovePunctuationClean(s[1..]);
    }
  }

  /** Every other character is kept, as often as it occurs. */
  lemma {:induction false} RemovePunctuationKeeps(s: string, c: char)
    requires !IsPunctuation(c)
    ensures multiset(RemovePunctuation(s))[c] == multiset(s)[c]
  {
    if |s| > 0 {
      RemovePunctuationKeeps(s[1..], c);
      assert s == [s[0]] + s[1..];
    }
  }

  /** A string without punctuation is left as it is. */
  lemma {:induction false} RemovePunctuationNone(s: string)
    requires NoPunctuation(s)
    ensures RemovePunctuation(s) == s
  {
    if |s| > 0 {
      RemovePunctuationNone(s[1..]);
    }
  }

  /** A run of punctuation is deleted entirely. */
  lemma {:induction false} RemovePunctuationAll(s: string)
    requires AllPunctuation(s)
    ensures RemovePunctuation(s) == []
  {
    if |s| > 0 {
      RemovePunctuationAll(s[1..]);
    }
  }

  /** Deleting the punctuation works piecewise on a concatenation. */
  lemma {:induction false} RemovePunctuationAppend(a: string, b: string)
    ensures RemovePunctuation(a + b) == RemovePunctuation(a) + RemovePunctuation(b)
  {
    if |a| > 0 {
      RemovePunctuationAppend(a[1..], b);
      assert (a + b)[1..] == a[1..] + b;
    } else {
      assert a + b == b;
    }
  }

  /** Line 74: the final product name. */
  function CleanName(name: string): (product: string)
    ensures IsStripped(product)
  {
    Strip(RemovePunctuation(name))
  }

  /** The product name has no `*`, `.` or `"`. */
  lemma CleanNameClean(name: string)
    ensures NoPunctuation(CleanName(name))
  {
    var r := RemovePunctuation(name);
    RemovePunctuationClean(name);
    forall c | IsPunctuation(c) ensures c !in Strip(r) {
      StripAvoids(r, c);
    }
  }

  /** Cleaning a cleaned name changes nothing. */
  lemma CleanNameIdempotent(name: string)
    ensures CleanName(CleanName(name)) == CleanName(name)
  {
    CleanNameClean(name);
    RemovePunctuationNone(CleanName(name));
  }

  // ---------------------------------------------------------------------------
  // Steps 2-4 for one segment, and step 5

  /** The quantity and the cleaned product name of one segment. */
  function NormalizeSegment(segment: string): (r: (nat, string))
    ensures IsStripped(r.1)
  {
    var (quantity, name) := ParseQuantity(StripModifier(segment));
    (quantity, CleanName(name))
  }

  /** The modifiers after the first `:` do not affect the record: the segment
      normalises as its part before the `:` alone would. */
  lemma NormalizeSegmentIgnoresModifiers(name: string, modifiers: string)
    requires ':' !in name
    ensures NormalizeSegment(name + ":" + modifiers) == NormalizeSegment(name)
  {
    StripModifierIgnoresTail(name, modifiers);
    StripModifierWhole(name);
  }

  /** A segment with neither a modifier nor a count is one unit of its cleaned
      text. */
  lemma NormalizeSegmentDefault(segment: string)
    requires ':' !in segment && !HasCountPrefix(Strip(segment))
    ensures NormalizeSegment(segment) == (1, CleanName(Strip(segment)))
  {
    StripModifierWhole(segment);
    ParseQuantityDefault(Strip(segment));
  }

  /** Trailing punctuation after a clean name is all that cleaning removes. */
  lemma CleanNameDropsPunctuation(name: string, tail: string)
    requires IsStripped(name)
    requires NoPunctuation(name)
    requires AllPunctuation(tail)
    ensures CleanName(name + tail) == name
  {
    RemovePunctuationAppend(name, tail);
    RemovePunctuationNone(name);
    RemovePunctuationAll(tail);
    assert name + [] == name;
  }

  /** A count prefix, optional whitespace, then text on one line without a
      leading space: the count and that text. */
  lemma ParseQuantityGap(digits: string, gap: string, text: string)
    requires |digits| > 0 && AllDigits(digits) && AllSpace(gap)
    requires '\n' !in text && (text == [] || !IsSpace(text[0]))
    ensures ParseQuantity(digits + "x" + gap + text) == (DecimalValue(digits), text)
  {
    assert digits + "x" + gap + text == digits + "x" + (gap + text);
    ParseQuantityCounted(digits, gap + text);
    TrimStartPadded(gap, text);
    SplitFree(text, '\n');
  }

  /** A product name as it is usually written: non-empty, trimmed, on one
      line, without `:` and without punctuation. */
  predicate PlainName(name: string) {
    name != [] && IsStripped(name) && ':' !in name && '\n' !in name && NoPunctuation(name)
  }

  /** A segment that is a plain name without a count, followed by
      punctuation, is one of that name. */
  lemma NormalizeUncounted(name: string, tail: string)
    requires PlainName(name) && AllPunctuation(tail) && !HasCountPrefix(name + tail)
    ensures NormalizeSegment(name + tail) == (1, name)
  {
    var segment := name + tail;
    assert segment[0] == name[0];
    assert segment[|segment| - 1] == if tail == [] then name[|name| - 1] else tail[|tail| - 1];
    assert ':' !in tail;
    NormalizeSegmentDefault(segment);
    CleanNameDropsPunctuation(name, tail);
  }

  /** The text of a counted segment before its trailing whitespace is
      already trimmed, and no part of the segment holds a `:`. */
  lemma CountedShape(digits: string, gap: string, name: string, tail: string, pad: string)
    requires |digits| > 0 && AllDigits(digits) && AllSpace(gap) && AllSpace(pad)
    requires name != [] && IsStripped(name) && ':' !in name
    requires AllPunctuation(tail)
    ensures IsStripped(digits + "x" + gap + name + tail)
    ensures ':' !in digits + "x" + gap + name + tail + pad
  {
    var prefix := digits + "x" + gap;
    var text := name + tail;
    assert prefix + name + tail == prefix + text;
    assert text[|text| - 1] == if tail == [] then name[|name| - 1] else tail[|tail| - 1];
    assert (prefix + text)[|prefix + text| - 1] == text[|text| - 1];
    assert ':' !in digits && ':' !in gap && ':' !in pad && ':' !in tail;
  }

  /** Modifier stripping leaves a counted segment without its trailing
      whitespace. */
  lemma StripModifierCounted(digits: string, gap: string, name: string, tail: string, pad: string)
    requires |digits| > 0 && AllDigits(digits) && AllSpace(gap) && AllSpace(pad)
    requires name != [] && IsStripped(name) && ':' !in name
    requires AllPunctuation(tail)
    ensures StripModifier(digits + "x" + gap + name + tail + pad) == digits + "x" + gap + name + tail
  {
    var core := digits + "x" + gap + name + tail;
    CountedShape(digits, gap, name, tail, pad);
    StripModifierWhole(core + pad);
    StripTrailing(core, pad);
  }

  /** The quantity and the raw name of a counted segment: the count and the
      name with its trailing punctuation. */
  lemma ParseQuantityNamed(digits: string, gap: string, name: string, tail: string)
    requires |digits| > 0 && AllDigits(digits) && AllSpace(gap)
    requires name != [] && IsStripped(name) && '\n' !in name
    requires AllPunctuation(tail)
    ensures ParseQuantity(digits + "x" + gap + name + tail) == (DecimalValue(digits), name + tail)
  {
    var prefix := digits + "x" + gap;
    assert prefix + name + tail == prefix + (name + tail);
    ParseQuantityGap(digits, gap, name + tail);
  }

  /** A segment's record is its modifier-free head, parsed, with the name cleaned. */
  lemma NormalizeSegmentSteps(segment: string, head: string, quantity: nat, raw: string, product: string)
    requires StripModifier(segment) == head && ParseQuantity(head) == (quantity, raw)
    requires CleanName(raw) == product
    ensures NormalizeSegment(segment) == (quantity, product)
  {
  }

  /** The usual shape of a segment: a count, `x`, optional whitespace, a name,
      some trailing punctuation and whitespace. It yields the count and the
      bare name. */
  lemma NormalizeCounted(digits: string, gap: string, name: string, tail: string, pad: string)
    requires |digits| > 0 && AllDigits(digits) && AllSpace(gap) && AllSpace(pad)
    requires PlainName(name) && AllPunctuation(tail)
    ensures NormalizeSegment(digits + "x" + gap + name + tail + pad) == (DecimalValue(digits), name)
  {
    var core := digits + "x" + gap + name + tail;
    StripModifierCounted(digits, gap, name, tail, pad);
    ParseQuantityNamed(digits, gap, name, tail);
    CleanNameDropsPunctuation(name, tail);
    NormalizeSegmentSteps(core + pad, core, DecimalValue(digits), name + tail, name);
  }

  /** The same with modifiers after a `:`, which are dropped. */
  lemma NormalizeCountedWithModifiers(digits: string, gap: string, name: string, tail: string, pad: string,
                                      modifiers: string)
    requires |digits| > 0 && AllDigits(digits) && AllSpace(gap) && AllSpace(pad)
    requires PlainName(name) && AllPunctuation(tail)
    ensures NormalizeSegment(digits + "x" + gap + name + tail + pad + ":" + modifiers) == (DecimalValue(digits), name)
  {
    var head := digits + "x" + gap + name + tail + pad;
    CountedShape(digits, gap, name, tail, pad);
    NormalizeSegmentIgnoresModifiers(head, modifiers);
    NormalizeCounted(digits, gap, name, tail, pad);
  }

  /** `<digits>x<gap><punctuation>` is trimmed and holds no `:`, and its
      punctuation no newline. */
  lemma PunctuationOnlyShape(digits: string, gap: string, tail: string)
    requires |digits| > 0 && AllDigits(digits) && AllSpace(gap)
    requires tail != [] && AllPunctuation(tail)
    ensures var s := digits + "x" + gap + tail;
            IsStripped(s) && ':' !in s && '\n' !in tail && (tail == [] || !IsSpace(tail[0]))
  {
    var s := digits + "x" + gap + tail;
    assert s[0] == digits[0];
    assert s[|s| - 1] == tail[|tail| - 1];
    assert ':' !in digits && ':' !in gap && ':' !in tail;
  }

  /** A count followed only by punctuation, such as `3x ...`, has a non-empty
      raw name that cleaning empties: the product name is empty. */
  lemma NormalizePunctuationOnly(digits: string, gap: string, tail: string)
    requires |digits| > 0 && AllDigits(digits) && AllSpace(gap)
    requires tail != [] && AllPunctuation(tail)
    ensures NormalizeSegment(digits + "x" + gap + tail) == (DecimalValue(digits), "")
  {
    var s := digits + "x" + gap + tail;
    PunctuationOnlyShape(digits, gap, tail);
    StripModifierWhole(s);
    ParseQuantityGap(digits, gap, tail);
    RemovePunctuationAll(tail);
    NormalizeSegmentSteps(s, s, DecimalValue(digits), tail, "");
  }

  /** The record appended for one segment of an invoice. */
  function MakeRecord(invoiceNo: string, segment: string): (record: CleanRow)
    ensures record.invoiceNo == invoiceNo
    ensures IsStripped(record.product) && NoPunctuation(record.product)
  {
    var record := NormalizeSegment(segment);
    CleanNameClean(ParseQuantity(StripModifier(segment)).1);
    CleanRow(invoiceNo, record.0, record.1)
  }

  /** The records of one row, one per segment, in segment order. */
  function RowRecords(invoiceNo: string, segments: seq<string>): (records: seq<CleanRow>)
    ensures |records| == |segments|
    ensures forall k :: 0 <= k < |records| ==> records[k].invoiceNo == invoiceNo
  {
    seq(|segments|, k requires 0 <= k < |segments| => MakeRecord(invoiceNo, segments[k]))
  }

  lemma RowRecordsSnoc(invoiceNo: string, segments: seq<string>, j: nat)
    requires j < |segments|
    ensures RowRecords(invoiceNo, segments[..j + 1])
         == RowRecords(invoiceNo, segments[..j]) + [MakeRecord(invoiceNo, segments[j])]
  {
    assert segments[..j + 1][..j] == segments[..j];
  }

  /** The concatenation of a sequence of groups, in order. */
  function Flatten<T>(groups: seq<seq<T>>): (flat: seq<T>)
  {
    if |groups| == 0 then [] else Flatten(groups[..|groups| - 1]) + groups[|groups| - 1]
  }

  /** Flattening distributes over concatenation of the groups. */
  lemma {:induction false} FlattenAppend<T>(a: seq<seq<T>>, b: seq<seq<T>>)
    ensures Flatten(a + b) == Flatten(a) + Flatten(b)
    decreases |b|
  {
    if |b| > 0 {
      FlattenAppend(a, b[..|b| - 1]);
      assert (a + b)[..|a + b| - 1] == a + b[..|b| - 1];
    } else {
      assert a + b == a;
    }
  }

  /** Element `j` of group `i` sits right after the elements of the groups
      before it. */
  lemma FlattenAt<T>(groups: seq<seq<T>>, i: nat, j: nat)
    requires i < |groups| && j < |groups[i]|
    ensures |Flatten(groups[..i])| + j < |Flatten(groups)|
    ensures Flatten(groups)[|Flatten(groups[..i])| + j] == groups[i][j]
  {
    assert groups == groups[..i + 1] + groups[i + 1..];
    FlattenAppend(groups[..i + 1], groups[i + 1..]);
    assert groups[..i + 1][..i] == groups[..i];
  }

  /** Every element of the concatenation is an element of some group. */
  lemma {:induction false} FlattenOrigin<T>(groups: seq<seq<T>>, k: nat)
    requires k < |Flatten(groups)|
    ensures exists i, j :: 0 <= i < |groups| && 0 <= j < |groups[i]| && Flatten(groups)[k] == groups[i][j]
  {
    var n := |groups| - 1;
    var init := groups[..n];
    if k < |Flatten(init)| {
      FlattenOrigin(init, k);
      var i, j :| 0 <= i < |init| && 0 <= j < |init[i]| && Flatten(init)[k] == init[i][j];
      assert groups[i] == init[i];
    } else {
      assert Flatten(groups)[k] == groups[n][k - |Flatten(init)|];
    }
  }

  /** The records of each row, row by row. */
  function RowGroups(rows: seq<InvoiceRow>): (groups: seq<seq<CleanRow>>)
    ensures |groups| == |rows|
  {
    seq(|rows|, i requires 0 <= i < |rows| => RowRecords(rows[i].invoiceNo, Segments(rows[i].products)))
  }

  /** The groups of a prefix of the rows are a prefix of the groups. */
  lemma RowGroupsPrefix(rows: seq<InvoiceRow>, i: nat)
    requires i <= |rows|
    ensures RowGroups(rows[..i]) == RowGroups(rows)[..i]
  {
  }

  /** `clean_rows` after the loop over `rows` (a functional specification): the
      records of every row, row after row. */
  function CleanRows(rows: seq<InvoiceRow>): (records: seq<CleanRow>)
  {
    Flatten(RowGroups(rows))
  }

  lemma CleanRowsSnoc(rows: seq<InvoiceRow>, i: nat)
    requires i < |rows|
    ensures CleanRows(rows[..i + 1])
         == CleanRows(rows[..i]) + RowRecords(rows[i].invoiceNo, Segments(rows[i].products))
  {
    assert RowGroups(rows[..i + 1])[..i] == RowGroups(rows[..i]);
  }

  /** Records are grouped by row, in row order. */
  lemma CleanRowsAppend(a: seq<InvoiceRow>, b: seq<InvoiceRow>)
    ensures CleanRows(a + b) == CleanRows(a) + CleanRows(b)
  {
    assert RowGroups(a + b) == RowGroups(a) + RowGroups(b);
    FlattenAppend(RowGroups(a), RowGroups(b));
  }

  /** One row yields one record per segment, each carrying the row's invoice
      number, in segment order. */
  lemma RowOfCleanRows(row: InvoiceRow)
    ensures CleanRows([row]) == RowRecords(row.invoiceNo, Segments(row.products))
    ensures |CleanRows([row])| == |Segments(row.products)|
  {
    var groups := RowGroups([row]);
    assert groups[..0] == [];
    assert Flatten(groups) == Flatten(groups[..0]) + groups[0];
  }

  /** Segment `j` of row `i` gives the record right after the records of the
      rows before it. */
  lemma CleanRowsAt(rows: seq<InvoiceRow>, i: nat, j: nat)
    requires i < |rows| && j < |Segments(rows[i].products)|
    ensures |CleanRows(rows[..i])| + j < |CleanRows(rows)|
    ensures CleanRows(rows)[|CleanRows(rows[..i])| + j] == MakeRecord(rows[i].invoiceNo, Segments(rows[i].products)[j])
  {
    var groups := RowGroups(rows);
    RowGroupsPrefix(rows, i);
    FlattenAt(groups, i, j);
    assert groups[i] == RowRecords(rows[i].invoiceNo, Segments(rows[i].products));
  }

  /** The total number of segments of the rows' cells. */
  function SegmentCount(rows: seq<InvoiceRow>): (count: nat)
  {
    if |rows| == 0 then 0 else SegmentCount(rows[..|rows| - 1]) + |Segments(rows[|rows| - 1].products)|
  }

  /** There is exactly one record per segment of every row. */
  lemma {:induction false} CleanRowsCount(rows: seq<InvoiceRow>)
    ensures |CleanRows(rows)| == SegmentCount(rows)
    decreases |rows|
  {
    if |rows| > 0 {
      var n := |rows| - 1;
      CleanRowsSnoc(rows, n);
      assert rows[..n + 1] == rows;
      CleanRowsCount(rows[..n]);
    }
  }

  /** Every record is the record of some segment of some input row, so it
      carries that row's invoice number. */
  lemma CleanRowsOrigin(rows: seq<InvoiceRow>, k: nat)
    requires k < |CleanRows(rows)|
    ensures exists i, j :: 0 <= i < |rows| && 0 <= j < |Segments(rows[i].products)|
              && CleanRows(rows)[k] == MakeRecord(rows[i].invoiceNo, Segments(rows[i].products)[j])
  {
    var groups := RowGroups(rows);
    FlattenOrigin(groups, k);
    var i, j :| 0 <= i < |groups| && 0 <= j < |groups[i]| && Flatten(groups)[k] == groups[i][j];
    assert groups[i][j] == MakeRecord(rows[i].invoiceNo, Segments(rows[i].products)[j]);
  }

  /** Every product name in the output is trimmed and free of `*`, `.` and `"`. */
  lemma CleanRowsProduct(rows: seq<InvoiceRow>, k: nat)
    requires k < |CleanRows(rows)|
    ensures IsStripped(CleanRows(rows)[k].product)
    ensures NoPunctuation(CleanRows(rows)[k].product)
  {
    CleanRowsOrigin(rows, k);
    var i, j :| 0 <= i < |rows| && 0 <= j < |Segments(rows[i].products)|
                && CleanRows(rows)[k] == MakeRecord(rows[i].invoiceNo, Segments(rows[i].products)[j]);
    var name := ParseQuantity(StripModifier(Segments(rows[i].products)[j])).1;
    CleanNameClean(name);
  }

  // ---------------------------------------------------------------------------
  // Lines 84-90: numbering

  /** `records` numbered consecutively from `firstId`. */
  function Numbered(records: seq<CleanRow>, firstId: nat): (table: seq<Transaction>)
    ensures |table| == |records|
  {
    if |records| == 0 then []
    else
      var r := records[0];
      [Transaction(firstId, r.invoiceNo, r.quantity, r.product)] + Numbered(records[1..], firstId + 1)
  }

  /** Entry `k` of the numbered table is record `k` with id `firstId + k`. */
  lemma {:induction false} NumberedAt(records: seq<CleanRow>, firstId: nat, k: nat)
    requires k < |records|
    ensures Numbered(records, firstId)[k]
         == Transaction(firstId + k, records[k].invoiceNo, records[k].quantity, records[k].product)
  {
    if k > 0 {
      NumberedAt(records[1..], firstId + 1, k - 1);
    }
  }

  /** The set of transaction ids used in a table. */
  function Ids(table: seq<Transaction>): (ids: set<nat>) {
    set k | 0 <= k < |table| :: table[k].transactionId
  }

  /** The ids of a table numbered from 1 are exactly 1..n, in output order,
      with no gap and no repeat. */
  lemma IdsContiguous(records: seq<CleanRow>)
    ensures forall k :: 0 <= k < |records| ==> Numbered(records, 1)[k].transactionId == k + 1
    ensures forall id :: id in Ids(Numbered(records, 1)) <==> 1 <= id <= |records|
  {
    var table := Numbered(records, 1);
    forall k | 0 <= k < |records| ensures table[k].transactionId == k + 1 {
      NumberedAt(records, 1, k);
    }
    forall id | 1 <= id <= |records| ensures id in Ids(table) {
      assert table[id - 1].transactionId == id;
    }
  }

  /** Lines 88-90: `reset_index`, renamed to `transaction_id`, plus one. */
  method AssignIds(records: seq<CleanRow>) returns (table: seq<Transaction>)
    ensures table == Numbered(records, 1)
  {
    table := [];
    var i := 0;
    while i < |records|
      invariant 0 <= i <= |records|
      invariant |table| == i
      invariant forall k :: 0 <= k < i ==>
                  table[k] == Transaction(k + 1, records[k].invoiceNo, records[k].quantity, records[k].product)
    {
      var r := records[i];
      table := table + [Transaction(i + 1, r.invoiceNo, r.quantity, r.product)];
      i := i + 1;
    }
    forall k | 0 <= k < |records| ensures table[k] == Numbered(records, 1)[k] {
      NumberedAt(records, 1, k);
    }
  }

  // ---------------------------------------------------------------------------
  // The whole run, lines 48-90

  /** The inner loop of lines 58-81: the records of one row's segments,
      appended to `cleanRows`. */
  method AppendRowRecords(cleanRows: seq<CleanRow>, invoiceNo: string, products: seq<string>)
    returns (extended: seq<CleanRow>)
    ensures extended == cleanRows + RowRecords(invoiceNo, products)
  {
    extended := cleanRows;
    var j := 0;
    while j < |products|
      invariant 0 <= j <= |products|
      invariant extended == cleanRows + RowRecords(invoiceNo, products[..j])
    {
      var (quantity, productName) := NormalizeSegment(products[j]);
      extended := extended + [CleanRow(invoiceNo, quantity, productName)];
      RowRecordsSnoc(invoiceNo, products, j);
      j := j + 1;
    }
    assert products[..j] == products;
  }

  /** The loops of lines 51-81 building `clean_rows`, then the numbering. */
  method Normalize(rows: seq<InvoiceRow>) returns (table: seq<Transaction>)
    ensures table == Numbered(CleanRows(rows), 1)
  {
    var cleanRows: seq<CleanRow> := [];
    var i := 0;
    while i < |rows|
      invariant 0 <= i <= |rows|
      invariant cleanRows == CleanRows(rows[..i])
    {
      var products := Segments(rows[i].products);
      cleanRows := AppendRowRecords(cleanRows, rows[i].invoiceNo, products);
      CleanRowsSnoc(rows, i);
      i := i + 1;
    }
    assert rows[..i] == rows;
    table := AssignIds(cleanRows);
  }

  /** End to end: segment `j` of row `i` becomes the output row right after the
      records of the rows before it, numbered by its position, carrying the
      row's invoice number and the segment's quantity and product. */
  lemma NormalizeOutputAt(rows: seq<InvoiceRow>, i: nat, j: nat)
    requires i < |rows| && j < |Segments(rows[i].products)|
    ensures |CleanRows(rows[..i])| + j < |Numbered(CleanRows(rows), 1)|
    ensures var position := |CleanRows(rows[..i])| + j;
            var record := MakeRecord(rows[i].invoiceNo, Segments(rows[i].products)[j]);
            Numbered(CleanRows(rows), 1)[position]
              == Transaction(position + 1, record.invoiceNo, record.quantity, record.product)
  {
    CleanRowsAt(rows, i, j);
    NumberedAt(CleanRows(rows), 1, |CleanRows(rows[..i])| + j);
  }
}
