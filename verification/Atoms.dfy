// Cutting parsed blocks into bounded atoms (apps/api/app/atoms/builder.py).
module Atoms {
  import opened Options
  import opened Spans

  datatype AtomType = Paragraph | CodeBlock | TableRow | OcrLine

  // `ocr` is the answer of the source-type and metadata test for OCR blocks.
  datatype ParsedBlock = ParsedBlock(blockId: string, inputId: string, text: string, ocr: bool)

  datatype AtomizationPolicy = AtomizationPolicy(
    minAtomChars: int, maxAtomChars: int, atomIdPrefixLength: int, preserveTableRows: bool, preserveCodeFences: bool)

  // The atom hash is taken to be injective in what it digests.
  datatype AtomId = AtomId(inputId: string, blockId: string, ordinal: nat)

  datatype AnalysisAtom = AnalysisAtom(
    id: AtomId, inputId: string, blockId: string, text: string, range: TextRange, atomType: AtomType, ordinal: nat)

  datatype AtomBuildResult = Built(atoms: seq<AnalysisAtom>) | InvalidAtomizationPolicy

  // Tests this model does not look inside: the fence matcher and the table heuristics.
  datatype Recognizer = Recognizer(fences: string -> seq<TextRange>, isTable: (ParsedBlock, string) -> bool)

  ghost predicate SoundRecognizer(recognizer: Recognizer) {
    forall text :: OrderedSpans(recognizer.fences(text), |text|) && NonEmpty(recognizer.fences(text))
  }

  predicate NonEmpty(ranges: seq<TextRange>) {
    forall k :: 0 <= k < |ranges| ==> ranges[k].start < ranges[k].end
  }

  // ---------------------------------------------------------------- what a split must keep

  // The ranges are non-empty, in order and disjoint inside [lo, hi), and leave out nothing but whitespace.
  predicate Covers(text: string, lo: int, hi: int, ranges: seq<TextRange>)
    requires 0 <= lo && hi <= |text|
  {
    if ranges == [] then lo <= hi && Blank(text, lo, hi)
    else
      var last := ranges[|ranges| - 1];
      && lo <= last.start < last.end <= hi
      && Blank(text, last.end, hi)
      && Covers(text, lo, last.start, ranges[..|ranges| - 1])
  }

  lemma {:induction false} CoversExtend(text: string, lo: int, mid: int, hi: int, ranges: seq<TextRange>)
    requires 0 <= lo && mid <= hi <= |text|
    requires Covers(text, lo, mid, ranges) && Blank(text, mid, hi)
    ensures Covers(text, lo, hi, ranges)
  {
  }

  lemma {:induction false} CoversAppend(text: string, lo: int, mid: int, ranges: seq<TextRange>, next: TextRange)
    requires 0 <= lo && mid <= next.start < next.end <= |text|
    requires Covers(text, lo, mid, ranges) && Blank(text, mid, next.start)
    ensures lo <= mid && Covers(text, lo, next.end, ranges + [next])
  {
    CoversExtend(text, lo, mid, next.start, ranges);
    CoversOrdered(text, lo, mid, ranges);
    assert (ranges + [next])[..|ranges|] == ranges;
  }

  function Extended(ranges: seq<TextRange>, piece: Option<TextRange>): seq<TextRange> {
    if piece.Some? then ranges + [piece.value] else ranges
  }

  // A stretch up to mid contributes its piece, if it has any, and the whitespace up to end contributes nothing.
  lemma {:induction false} CoversPiece(text: string, lo: int, cursor: int, mid: int, end: int, ranges: seq<TextRange>, piece: Option<TextRange>)
    requires 0 <= lo && 0 <= cursor <= mid <= end <= |text| && Covers(text, lo, cursor, ranges) && Blank(text, mid, end)
    requires piece.None? ==> Blank(text, cursor, mid)
    requires piece.Some? ==> cursor <= piece.value.start < piece.value.end <= mid
    requires piece.Some? ==> Blank(text, cursor, piece.value.start) && Blank(text, piece.value.end, mid)
    ensures Covers(text, lo, end, Extended(ranges, piece))
  {
    if piece.Some? {
      CoversAppend(text, lo, cursor, ranges, piece.value);
      CoversExtend(text, lo, piece.value.end, end, ranges + [piece.value]);
    } else {
      CoversExtend(text, lo, cursor, end, ranges);
    }
  }

  lemma {:induction false} CoversConcat(text: string, lo: int, mid: int, hi: int, left: seq<TextRange>, right: seq<TextRange>)
    requires 0 <= lo && mid <= |text| && 0 <= mid && hi <= |text|
    requires Covers(text, lo, mid, left) && Covers(text, mid, hi, right)
    ensures Covers(text, lo, hi, left + right)
    decreases |right|
  {
    CoversOrdered(text, lo, mid, left);
    if right == [] {
      assert left + right == left;
    } else {
      var last := right[|right| - 1];
      CoversConcat(text, lo, mid, last.start, left, right[..|right| - 1]);
      assert (left + right)[..|left + right| - 1] == left + right[..|right| - 1];
    }
  }

  // What Covers means position by position: bounds, order, and every non-whitespace character in exactly one range.
  lemma {:induction false} CoversOrdered(text: string, lo: int, hi: int, ranges: seq<TextRange>)
    requires 0 <= lo && hi <= |text| && Covers(text, lo, hi, ranges)
    ensures lo <= hi
    ensures forall k :: 0 <= k < |ranges| ==> lo <= ranges[k].start < ranges[k].end <= hi
    ensures forall j, k :: 0 <= j < k < |ranges| ==> ranges[j].end <= ranges[k].start
    decreases |ranges|
  {
    if ranges != [] {
      CoversOrdered(text, lo, ranges[|ranges| - 1].start, ranges[..|ranges| - 1]);
    }
  }

  lemma {:induction false} CoversCharacter(text: string, lo: int, hi: int, ranges: seq<TextRange>, i: int)
    requires 0 <= lo && hi <= |text| && Covers(text, lo, hi, ranges)
    requires lo <= i < hi && !IsSpace(text[i])
    ensures exists k :: 0 <= k < |ranges| && ranges[k].Contains(i)
    decreases |ranges|
  {
    var n := |ranges| - 1;
    if i < ranges[n].start {
      CoversCharacter(text, lo, ranges[n].start, ranges[..n], i);
      var k :| 0 <= k < n && ranges[..n][k].Contains(i);
      assert ranges[k].Contains(i);
    } else {
      assert ranges[n].Contains(i);
    }
  }

  // ---------------------------------------------------------------- trimming

  method TrimRange(text: string, range: TextRange) returns (trimmed: Option<TextRange>)
    requires 0 <= range.start <= range.end <= |text|
    ensures trimmed.None? ==> Blank(text, range.start, range.end)
    ensures trimmed.Some? ==>
      var r := trimmed.value;
      && range.start <= r.start < r.end <= range.end
      && Blank(text, range.start, r.start) && Blank(text, r.end, range.end)
      && !IsSpace(text[r.start]) && !IsSpace(text[r.end - 1])
  {
    var start, end := range.start, range.end;
    while start < end && IsSpace(text[start])
      invariant range.start <= start <= end && Blank(text, range.start, start)
    {
      start := start + 1;
    }
    while end > start && IsSpace(text[end - 1])
      invariant start <= end <= range.end && Blank(text, end, range.end)
      invariant start < end ==> !IsSpace(text[start])
    {
      end := end - 1;
    }
    trimmed := if start == end then None else Some(TextRange(start, end));
  }

  // ---------------------------------------------------------------- structural ranges

  // Paragraph separators: a newline, then blanks, then newlines.
  predicate IsInnerBlank(c: char) {
    c == ' ' || c == '\t' || c == '\r' || c as int == 0x0B || c as int == 0x0C
  }

  // A separator starts at i: from the newline there, blanks lead to another newline before hi.
  ghost predicate SeparatorAt(text: string, i: int, hi: int)
    requires 0 <= i < hi <= |text|
  {
    text[i] == '\n' && exists j :: i < j < hi && text[j] == '\n' && forall b :: i < b < j ==> IsInnerBlank(text[b])
  }

  // One past the separator that starts at i, or i itself when none does.
  method SeparatorEnd(text: string, i: int, hi: int) returns (end: int)
    requires 0 <= i < hi <= |text|
    ensures i <= end <= hi && Blank(text, i, end)
    ensures end > i ==> text[i] == '\n' && text[end - 1] == '\n' && (end < hi ==> text[end] != '\n')
    ensures end == i ==> !SeparatorAt(text, i, hi)
    ensures end > i ==> SeparatorAt(text, i, hi)
  {
    if text[i] != '\n' { return i; }
    var j := i + 1;
    while j < hi && IsInnerBlank(text[j])
      invariant i < j <= hi && forall b :: i < b < j ==> IsInnerBlank(text[b])
    {
      j := j + 1;
    }
    if j == hi || text[j] != '\n' { return i; }
    CommonSpaces();
    while j < hi && text[j] == '\n'
      invariant i < j <= hi && Blank(text, i, j)
      invariant text[j - 1] == '\n' || (j < hi && text[j] == '\n')
    {
      j := j + 1;
    }
    return j;
  }

  // No separator starts inside a paragraph.
  ghost predicate NoSeparatorInside(text: string, hi: int, ranges: seq<TextRange>)
    requires hi <= |text|
  {
    forall k, i :: 0 <= k < |ranges| && 0 <= i < hi && ranges[k].Contains(i) ==> !SeparatorAt(text, i, hi)
  }

  // The range neither starts nor ends with whitespace.
  predicate IsTrimmed(text: string, range: TextRange) {
    0 <= range.start < range.end <= |text| && !IsSpace(text[range.start]) && !IsSpace(text[range.end - 1])
  }

  predicate AllTrimmed(text: string, ranges: seq<TextRange>) {
    forall k :: 0 <= k < |ranges| ==> IsTrimmed(text, ranges[k])
  }

  // A separator starts between the end of one range and the start of the next.
  ghost predicate SeparatorIn(text: string, lo: int, mid: int, hi: int)
    requires hi <= |text|
  {
    exists i :: 0 <= i < hi && lo <= i < mid && SeparatorAt(text, i, hi)
  }

  ghost predicate SeparatorsBetween(text: string, hi: int, ranges: seq<TextRange>)
    requires hi <= |text|
  {
    forall k :: 0 < k < |ranges| ==> SeparatorIn(text, ranges[k - 1].end, ranges[k].start, hi)
  }

  // Where the last range ended, or a position before everything when there is none.
  function LastEnd(ranges: seq<TextRange>): int {
    if ranges == [] then 0 else ranges[|ranges| - 1].end
  }

  lemma {:induction false} SeparatorsAppend(text: string, hi: int, ranges: seq<TextRange>, next: TextRange)
    requires hi <= |text| && SeparatorsBetween(text, hi, ranges)
    requires ranges != [] ==> SeparatorIn(text, LastEnd(ranges), next.start, hi)
    ensures SeparatorsBetween(text, hi, ranges + [next])
  {
    var all := ranges + [next];
    forall k | 0 < k < |all| ensures SeparatorIn(text, all[k - 1].end, all[k].start, hi) {
      if k < |ranges| { assert SeparatorIn(text, ranges[k - 1].end, ranges[k].start, hi); }
    }
  }

  lemma {:induction false} SeparatorWidens(text: string, lo: int, mid: int, later: int, hi: int)
    requires hi <= |text| && SeparatorIn(text, lo, mid, hi) && mid <= later
    ensures SeparatorIn(text, lo, later, hi)
  {
  }

  lemma {:induction false} NoSeparatorAppend(text: string, hi: int, ranges: seq<TextRange>, next: TextRange)
    requires hi <= |text| && NoSeparatorInside(text, hi, ranges)
    requires forall i :: 0 <= i < hi && next.Contains(i) ==> !SeparatorAt(text, i, hi)
    ensures NoSeparatorInside(text, hi, ranges + [next])
  {
    var all := ranges + [next];
    forall k, i | 0 <= k < |all| && 0 <= i < hi && all[k].Contains(i) ensures !SeparatorAt(text, i, hi) {
      if k < |ranges| { assert ranges[k].Contains(i); }
    }
  }

  lemma {:induction false} AllTrimmedAppend(text: string, ranges: seq<TextRange>, next: TextRange)
    requires AllTrimmed(text, ranges) && IsTrimmed(text, next)
    ensures AllTrimmed(text, ranges + [next])
  {
  }

  // The paragraphs: what lies between the separators, without its outer whitespace.
  ghost predicate Paragraphs(text: string, content: TextRange, ranges: seq<TextRange>)
    requires 0 <= content.start <= content.end <= |text|
  {
    && Covers(text, content.start, content.end, ranges) && AllTrimmed(text, ranges)
    && NoSeparatorInside(text, content.end, ranges) && SeparatorsBetween(text, content.end, ranges)
  }

  // What holds of the paragraphs found so far; after the last of them a separator started before the cursor.
  ghost predicate ParagraphsUpTo(text: string, cursor: int, hi: int, ranges: seq<TextRange>)
    requires hi <= |text|
  {
    && AllTrimmed(text, ranges) && NoSeparatorInside(text, hi, ranges) && SeparatorsBetween(text, hi, ranges)
    && (ranges != [] ==> SeparatorIn(text, LastEnd(ranges), cursor, hi))
  }

  lemma {:induction false} ParagraphJoins(text: string, cursor: int, mid: int, hi: int, ranges: seq<TextRange>, piece: TextRange)
    requires 0 <= cursor <= mid <= hi <= |text| && ParagraphsUpTo(text, cursor, hi, ranges)
    requires forall j :: cursor <= j < mid && j < hi ==> !SeparatorAt(text, j, hi)
    requires IsTrimmed(text, piece) && cursor <= piece.start < piece.end <= mid
    ensures AllTrimmed(text, ranges + [piece])
    ensures NoSeparatorInside(text, hi, ranges + [piece]) && SeparatorsBetween(text, hi, ranges + [piece])
  {
    if ranges != [] { SeparatorWidens(text, LastEnd(ranges), cursor, piece.start, hi); }
    SeparatorsAppend(text, hi, ranges, piece);
    NoSeparatorAppend(text, hi, ranges, piece);
    AllTrimmedAppend(text, ranges, piece);
  }

  // The piece before a separator, or after the last one, joins the paragraphs unless it is blank.
  method AddParagraph(text: string, lo: int, cursor: int, mid: int, end: int, hi: int, ranges: seq<TextRange>)
    returns (ranges': seq<TextRange>)
    requires 0 <= lo <= cursor <= mid <= end <= hi <= |text|
    requires Covers(text, lo, cursor, ranges) && ParagraphsUpTo(text, cursor, hi, ranges) && Blank(text, mid, end)
    requires forall j :: cursor <= j < mid && j < hi ==> !SeparatorAt(text, j, hi)
    ensures Covers(text, lo, end, ranges')
    ensures AllTrimmed(text, ranges') && NoSeparatorInside(text, hi, ranges') && SeparatorsBetween(text, hi, ranges')
    ensures ranges' == ranges || (ranges' != [] && LastEnd(ranges') <= mid)
  {
    var piece := TrimRange(text, TextRange(cursor, mid));
    CoversPiece(text, lo, cursor, mid, end, ranges, piece);
    ranges' := Extended(ranges, piece);
    if piece.Some? {
      assert ranges' == ranges + [piece.value] && LastEnd(ranges') == piece.value.end;
      ParagraphJoins(text, cursor, mid, hi, ranges, piece.value);
    }
  }

  method SplitParagraphs(text: string, content: TextRange) returns (ranges: seq<TextRange>)
    requires IsTrimmed(text, content)
    ensures Paragraphs(text, content, ranges)
  {
    ranges := [];
    var cursor, i := content.start, content.start;
    while i < content.end
      invariant content.start <= cursor <= i <= content.end
      invariant Covers(text, content.start, cursor, ranges) && ParagraphsUpTo(text, cursor, content.end, ranges)
      invariant forall j :: cursor <= j < i ==> !SeparatorAt(text, j, content.end)
      decreases content.end - i
    {
      var end := SeparatorEnd(text, i, content.end);
      if end > i {
        ghost var before, start := ranges, cursor;
        ranges := AddParagraph(text, content.start, cursor, i, end, content.end, ranges);
        cursor, i := end, end;
        if ranges == before {
          if ranges != [] { SeparatorWidens(text, LastEnd(ranges), start, end, content.end); }
        }
      } else {
        i := i + 1;
      }
    }
    ranges := AddParagraph(text, content.start, cursor, content.end, content.end, content.end, ranges);
    if ranges == [] {
      ranges := [content];
    }
  }

  // text.find("\n", from, hi), with hi standing for "not found".
  method FindNewline(text: string, from: int, hi: int) returns (at: int)
    requires 0 <= from <= hi <= |text|
    ensures from <= at <= hi && (at < hi ==> text[at] == '\n')
    ensures forall i :: from <= i < at ==> text[i] != '\n'
  {
    at := from;
    while at < hi && text[at] != '\n'
      invariant from <= at <= hi && forall i :: from <= i < at ==> text[i] != '\n'
    {
      at := at + 1;
    }
  }

  ghost predicate NoNewlineInside(text: string, ranges: seq<TextRange>) {
    forall k, i :: 0 <= k < |ranges| && 0 <= i < |text| && ranges[k].Contains(i) ==> text[i] != '\n'
  }

  predicate NewlineIn(text: string, lo: int, hi: int) {
    exists i :: 0 <= i < |text| && lo <= i < hi && text[i] == '\n'
  }

  predicate NewlinesBetween(text: string, ranges: seq<TextRange>) {
    forall k :: 0 < k < |ranges| ==> NewlineIn(text, ranges[k - 1].end, ranges[k].start)
  }

  lemma {:induction false} NewlinesAppend(text: string, ranges: seq<TextRange>, next: TextRange)
    requires NewlinesBetween(text, ranges) && (ranges != [] ==> NewlineIn(text, LastEnd(ranges), next.start))
    ensures NewlinesBetween(text, ranges + [next])
  {
    var all := ranges + [next];
    forall k | 0 < k < |all| ensures NewlineIn(text, all[k - 1].end, all[k].start) {
      if k < |ranges| { assert NewlineIn(text, ranges[k - 1].end, ranges[k].start); }
    }
  }

  lemma {:induction false} NewlineWidens(text: string, lo: int, mid: int, later: int)
    requires NewlineIn(text, lo, mid) && mid <= later
    ensures NewlineIn(text, lo, later)
  {
  }

  lemma {:induction false} NoNewlineAppend(text: string, ranges: seq<TextRange>, next: TextRange)
    requires NoNewlineInside(text, ranges) && forall i :: 0 <= i < |text| && next.Contains(i) ==> text[i] != '\n'
    ensures NoNewlineInside(text, ranges + [next])
  {
    var all := ranges + [next];
    forall k, i | 0 <= k < |all| && 0 <= i < |text| && all[k].Contains(i) ensures text[i] != '\n' {
      if k < |ranges| { assert ranges[k].Contains(i); }
    }
  }

  // The rows: what lies between the line breaks, without its outer whitespace.
  ghost predicate Rows(text: string, content: TextRange, ranges: seq<TextRange>)
    requires 0 <= content.start <= content.end <= |text|
  {
    && Covers(text, content.start, content.end, ranges) && AllTrimmed(text, ranges)
    && NoNewlineInside(text, ranges) && NewlinesBetween(text, ranges)
  }

  // What holds of the rows found so far; after the last of them a line break came before the cursor.
  ghost predicate RowsUpTo(text: string, cursor: int, ranges: seq<TextRange>) {
    && AllTrimmed(text, ranges) && NoNewlineInside(text, ranges) && NewlinesBetween(text, ranges)
    && (ranges != [] ==> NewlineIn(text, LastEnd(ranges), cursor))
  }

  lemma {:induction false} RowJoins(text: string, cursor: int, lineEnd: int, ranges: seq<TextRange>, row: TextRange)
    requires 0 <= cursor <= lineEnd <= |text| && RowsUpTo(text, cursor, ranges)
    requires forall i :: cursor <= i < lineEnd ==> text[i] != '\n'
    requires IsTrimmed(text, row) && cursor <= row.start < row.end <= lineEnd
    ensures AllTrimmed(text, ranges + [row]) && NoNewlineInside(text, ranges + [row]) && NewlinesBetween(text, ranges + [row])
  {
    if ranges != [] { NewlineWidens(text, LastEnd(ranges), cursor, row.start); }
    NewlinesAppend(text, ranges, row);
    NoNewlineAppend(text, ranges, row);
    AllTrimmedAppend(text, ranges, row);
  }

  // The line from cursor to lineEnd becomes a row unless it is blank.
  method AddRow(text: string, lo: int, cursor: int, lineEnd: int, next: int, ranges: seq<TextRange>) returns (ranges': seq<TextRange>)
    requires 0 <= lo <= cursor <= lineEnd <= next <= |text| && Blank(text, lineEnd, next)
    requires Covers(text, lo, cursor, ranges) && RowsUpTo(text, cursor, ranges)
    requires forall i :: cursor <= i < lineEnd ==> text[i] != '\n'
    ensures Covers(text, lo, next, ranges')
    ensures AllTrimmed(text, ranges') && NoNewlineInside(text, ranges') && NewlinesBetween(text, ranges')
    ensures ranges' == ranges || (ranges' != [] && LastEnd(ranges') <= lineEnd)
  {
    var row := TrimRange(text, TextRange(cursor, lineEnd));
    CoversPiece(text, lo, cursor, lineEnd, next, ranges, row);
    ranges' := Extended(ranges, row);
    if row.Some? {
      RowJoins(text, cursor, lineEnd, ranges, row.value);
    }
  }

  method SplitTableRows(text: string, content: TextRange) returns (ranges: seq<TextRange>)
    requires 0 <= content.start <= content.end <= |text|
    ensures Rows(text, content, ranges)
  {
    ranges := [];
    var cursor := content.start;
    CommonSpaces();
    while cursor < content.end
      invariant content.start <= cursor <= content.end
      invariant Covers(text, content.start, cursor, ranges)
      invariant if cursor < content.end then RowsUpTo(text, cursor, ranges)
                else AllTrimmed(text, ranges) && NoNewlineInside(text, ranges) && NewlinesBetween(text, ranges)
      decreases content.end - cursor
    {
      var lineEnd := FindNewline(text, cursor, content.end);
      var nextCursor := if lineEnd == content.end then content.end else lineEnd + 1;
      ghost var before, start := ranges, cursor;
      ranges := AddRow(text, content.start, cursor, lineEnd, nextCursor, ranges);
      cursor := nextCursor;
      if ranges == before && ranges != [] { NewlineWidens(text, LastEnd(ranges), start, cursor); }
    }
  }

  method RangeIfNonblank(text: string, range: TextRange) returns (kept: Option<TextRange>)
    requires 0 <= range.start <= range.end <= |text|
    ensures kept.None? <==> Blank(text, range.start, range.end)
    ensures kept.Some? ==> kept.value == range && range.start < range.end
  {
    kept := if Blank(text, range.start, range.end) then None else Some(range);
  }

  // The ranges typed as code, in order.
  function CodeRanges(ranges: seq<TextRange>, types: seq<AtomType>): seq<TextRange>
    requires |ranges| == |types|
  {
    if ranges == [] then []
    else
      var n := |ranges| - 1;
      CodeRanges(ranges[..n], types[..n]) + if types[n] == CodeBlock then [ranges[n]] else []
  }

  function ShiftAll(ranges: seq<TextRange>, offset: int): seq<TextRange> {
    if ranges == [] then [] else ShiftAll(ranges[..|ranges| - 1], offset) + [ranges[|ranges| - 1].Shift(offset)]
  }

  predicate ProseOrCode(types: seq<AtomType>) {
    forall t :: 0 <= t < |types| ==> types[t] == Paragraph || types[t] == CodeBlock
  }

  lemma {:induction false} CodeRangesAppend(ranges: seq<TextRange>, types: seq<AtomType>, range: TextRange, atomType: AtomType)
    requires |ranges| == |types|
    ensures CodeRanges(ranges + [range], types + [atomType])
         == CodeRanges(ranges, types) + if atomType == CodeBlock then [range] else []
    ensures ProseOrCode(types) && ProseOrCode([atomType]) ==> ProseOrCode(types + [atomType])
  {
    assert (ranges + [range])[..|ranges|] == ranges && (types + [atomType])[..|types|] == types;
  }

  lemma {:induction false} ShiftNext(ranges: seq<TextRange>, offset: int, i: nat)
    requires i < |ranges|
    ensures ShiftAll(ranges[..i + 1], offset) == ShiftAll(ranges[..i], offset) + [ranges[i].Shift(offset)]
  {
    assert ranges[..i + 1][..i] == ranges[..i];
  }

  // Every prose range is a whole gap: it begins where the fence before it ends, or at lo, and ends where the next fence
  // begins, or at hi.
  predicate ProseFillsGaps(lo: int, hi: int, ranges: seq<TextRange>, types: seq<AtomType>)
    requires |ranges| == |types|
  {
    forall k :: 0 <= k < |ranges| && types[k] == Paragraph ==> FillsGap(lo, hi, ranges, types, k)
  }

  predicate FillsGap(lo: int, hi: int, ranges: seq<TextRange>, types: seq<AtomType>, k: nat)
    requires k < |ranges| == |types|
  {
    && (if k == 0 then ranges[k].start == lo else types[k - 1] == CodeBlock && ranges[k].start == ranges[k - 1].end)
    && (if k == |ranges| - 1 then ranges[k].end == hi else types[k + 1] == CodeBlock && ranges[k].end == ranges[k + 1].start)
  }

  // The ranges so far end with a fence at the cursor.
  predicate AtFenceEnd(lo: int, cursor: int, ranges: seq<TextRange>, types: seq<AtomType>)
    requires |ranges| == |types|
  {
    if ranges == [] then cursor == lo else types[|types| - 1] == CodeBlock && ranges[|ranges| - 1].end == cursor
  }

  lemma {:induction false} GapProse(lo: int, prose: TextRange, ranges: seq<TextRange>, types: seq<AtomType>)
    requires |ranges| == |types| && ProseFillsGaps(lo, prose.start, ranges, types) && AtFenceEnd(lo, prose.start, ranges, types)
    ensures ProseFillsGaps(lo, prose.end, ranges + [prose], types + [Paragraph])
    ensures ProseFillsGaps(lo, prose.end, ranges, types)
  {
    forall k | 0 <= k < |ranges| && types[k] == Paragraph ensures FillsGap(lo, prose.end, ranges, types, k) {
      assert FillsGap(lo, prose.start, ranges, types, k);
    }
    var all, allTypes := ranges + [prose], types + [Paragraph];
    forall k | 0 <= k < |all| && allTypes[k] == Paragraph ensures FillsGap(lo, prose.end, all, allTypes, k) {
      if k < |ranges| { assert FillsGap(lo, prose.start, ranges, types, k); }
    }
  }

  lemma {:induction false} GapFence(lo: int, fence: TextRange, ranges: seq<TextRange>, types: seq<AtomType>)
    requires |ranges| == |types| && ProseFillsGaps(lo, fence.start, ranges, types)
    ensures ProseFillsGaps(lo, fence.end, ranges + [fence], types + [CodeBlock])
    ensures AtFenceEnd(lo, fence.end, ranges + [fence], types + [CodeBlock])
  {
    var all, allTypes := ranges + [fence], types + [CodeBlock];
    forall k | 0 <= k < |all| && allTypes[k] == Paragraph ensures FillsGap(lo, fence.end, all, allTypes, k) {
      assert FillsGap(lo, fence.start, ranges, types, k);
    }
  }

  // Every fence is one code range, every code range is a fence, and the prose between them is kept whole.
  ghost predicate Fenced(text: string, content: TextRange, fences: seq<TextRange>, ranges: seq<TextRange>, types: seq<AtomType>)
    requires 0 <= content.start <= content.end <= |text|
  {
    && |types| == |ranges| && Covers(text, content.start, content.end, ranges)
    && CodeRanges(ranges, types) == ShiftAll(fences, content.start) && ProseOrCode(types)
    && ProseFillsGaps(content.start, content.end, ranges, types)
  }

  // The prose between two fences, kept unless it is blank.
  method AddProse(text: string, lo: int, prose: TextRange, ranges: seq<TextRange>, types: seq<AtomType>)
    returns (ranges': seq<TextRange>, types': seq<AtomType>)
    requires 0 <= lo <= prose.start <= prose.end <= |text| && Covers(text, lo, prose.start, ranges)
    requires |types| == |ranges| && ProseOrCode(types)
    requires ProseFillsGaps(lo, prose.start, ranges, types) && AtFenceEnd(lo, prose.start, ranges, types)
    ensures Covers(text, lo, prose.end, ranges')
    ensures |types'| == |ranges'| && CodeRanges(ranges', types') == CodeRanges(ranges, types) && ProseOrCode(types')
    ensures ProseFillsGaps(lo, prose.end, ranges', types')
  {
    var kept := RangeIfNonblank(text, prose);
    CoversPiece(text, lo, prose.start, prose.end, prose.end, ranges, kept);
    GapProse(lo, prose, ranges, types);
    if kept.None? {
      return ranges, types;
    }
    CodeRangesAppend(ranges, types, kept.value, Paragraph);
    return ranges + [kept.value], types + [Paragraph];
  }

  method SplitCodeFences(text: string, content: TextRange, fences: seq<TextRange>)
    returns (ranges: seq<TextRange>, types: seq<AtomType>)
    requires 0 <= content.start <= content.end <= |text|
    requires OrderedSpans(fences, content.end - content.start) && NonEmpty(fences)
    ensures Fenced(text, content, fences, ranges, types)
  {
    ranges, types := [], [];
    var cursor := content.start;
    for f := 0 to |fences|
      invariant content.start <= cursor <= content.end
      invariant f < |fences| ==> cursor <= content.start + fences[f].start
      invariant Covers(text, content.start, cursor, ranges)
      invariant |types| == |ranges| && CodeRanges(ranges, types) == ShiftAll(fences[..f], content.start)
      invariant ProseOrCode(types) && ProseFillsGaps(content.start, cursor, ranges, types)
      invariant AtFenceEnd(content.start, cursor, ranges, types)
    {
      ShiftNext(fences, content.start, f);
      var fence := fences[f].Shift(content.start);
      ranges, types := AddProse(text, content.start, TextRange(cursor, fence.start), ranges, types);
      CoversAppend(text, content.start, fence.start, ranges, fence);
      CodeRangesAppend(ranges, types, fence, CodeBlock);
      GapFence(content.start, fence, ranges, types);
      ranges, types := ranges + [fence], types + [CodeBlock];
      cursor := fence.end;
    }
    assert fences[..|fences|] == fences;
    ranges, types := AddProse(text, content.start, TextRange(cursor, content.end), ranges, types);
  }

  predicate FenceMarkAt(text: string, i: int)
    requires 0 <= i <= |text| - 3
  {
    text[i..i + 3] == "```" || text[i..i + 3] == "~~~"
  }

  predicate ContainsFence(text: string) {
    exists i :: 0 <= i <= |text| - 3 && FenceMarkAt(text, i)
  }

  predicate AllOfType(types: seq<AtomType>, atomType: AtomType) {
    forall t :: 0 <= t < |types| ==> types[t] == atomType
  }

  // How the content of a block is divided before any limit on size: an OCR block not at all, one with fences into fences
  // and prose, a table into rows, anything else into paragraphs.
  ghost predicate Structured(block: ParsedBlock, content: TextRange, policy: AtomizationPolicy, recognizer: Recognizer,
                             ranges: seq<TextRange>, types: seq<AtomType>)
    requires 0 <= content.start <= content.end <= |block.text|
  {
    var text := block.text[content.start..content.end];
    && |types| == |ranges|
    && if block.ocr then ranges == [content] && types == [OcrLine]
       else if policy.preserveCodeFences && ContainsFence(text) then Fenced(block.text, content, recognizer.fences(text), ranges, types)
       else if policy.preserveTableRows && recognizer.isTable(block, text) then
         Rows(block.text, content, ranges) && AllOfType(types, TableRow)
       else Paragraphs(block.text, content, ranges) && AllOfType(types, Paragraph)
  }

  method StructuralRanges(block: ParsedBlock, content: TextRange, policy: AtomizationPolicy, recognizer: Recognizer)
    returns (ranges: seq<TextRange>, types: seq<AtomType>)
    requires SoundRecognizer(recognizer) && IsTrimmed(block.text, content)
    ensures Structured(block, content, policy, recognizer, ranges, types)
    ensures Covers(block.text, content.start, content.end, ranges)
  {
    if block.ocr {
      assert [content][..0] == [];
      return [content], [OcrLine];
    }
    var text := block.text[content.start..content.end];
    if policy.preserveCodeFences && ContainsFence(text) {
      ranges, types := SplitCodeFences(block.text, content, recognizer.fences(text));
    } else if policy.preserveTableRows && recognizer.isTable(block, text) {
      ranges := SplitTableRows(block.text, content);
      types := seq(|ranges|, _ => TableRow);
    } else {
      ranges := SplitParagraphs(block.text, content);
      types := seq(|ranges|, _ => Paragraph);
    }
  }

  // ---------------------------------------------------------------- bounded cuts

  predicate IsSentenceBoundary(c: char) {
    c == '.' || c == '!' || c == '?' || c == '\U{3002}' || c == '\U{FF01}' || c == '\U{FF1F}'
  }

  // The last position in (start, limit) whose character passes the test.
  ghost predicate LastIn(text: string, test: char -> bool, start: int, limit: int, at: int)
    requires 0 <= start && limit <= |text|
  {
    start < at < limit && test(text[at]) && forall i :: at < i < limit ==> !test(text[i])
  }

  ghost predicate NoneIn(text: string, test: char -> bool, start: int, limit: int)
    requires 0 <= start && limit <= |text|
  {
    forall i :: start < i < limit ==> !test(text[i])
  }

  method FindLast(text: string, test: char -> bool, start: int, limit: int) returns (at: int)
    requires 0 <= start < limit <= |text|
    ensures at == start || LastIn(text, test, start, limit, at)
    ensures at == start ==> NoneIn(text, test, start, limit)
  {
    at := limit - 1;
    while at > start && !test(text[at])
      invariant start <= at < limit && forall i :: at < i < limit ==> !test(text[i])
    {
      at := at - 1;
    }
  }

  // Cut after the last newline of the window, else after its last sentence end, else after its last space, else at the limit.
  ghost predicate SafeCut(text: string, start: int, limit: int, cut: int)
    requires 0 <= start && limit <= |text|
  {
    var newline := (c: char) => c == '\n';
    if !NoneIn(text, newline, start, limit) then LastIn(text, newline, start, limit, cut - 1)
    else if !NoneIn(text, IsSentenceBoundary, start, limit) then LastIn(text, IsSentenceBoundary, start, limit, cut - 1)
    else if !NoneIn(text, IsSpace, start, limit) then LastIn(text, IsSpace, start, limit, cut - 1)
    else cut == limit
  }

  method FindSplitBoundary(text: string, start: int, limit: int) returns (cut: int)
    requires 0 <= start < limit <= |text|
    ensures start < cut <= limit && SafeCut(text, start, limit, cut)
  {
    var newline := (c: char) => c == '\n';
    var at := FindLast(text, newline, start, limit);
    if at > start { return at + 1; }
    at := FindLast(text, IsSentenceBoundary, start, limit);
    if at > start { return at + 1; }
    at := FindLast(text, IsSpace, start, limit);
    if at > start { return at + 1; }
    return limit;
  }

  predicate Bounded(ranges: seq<TextRange>, maxChars: int) {
    forall k :: 0 <= k < |ranges| ==> ranges[k].Length() <= maxChars
  }

  // Pieces laid end to end from lo to at, each made because more than maxChars were left, and cut at the safe place.
  ghost predicate SafePieces(text: string, lo: int, at: int, hi: int, pieces: seq<TextRange>, maxChars: int)
    requires hi <= |text|
    decreases pieces
  {
    if pieces == [] then at == lo
    else
      var last := pieces[|pieces| - 1];
      && last.end == at && 0 <= last.start && last.start + maxChars < hi
      && SafeCut(text, last.start, last.start + maxChars, at)
      && SafePieces(text, lo, last.start, hi, pieces[..|pieces| - 1], maxChars)
  }

  lemma {:induction false} SafePiecesPush(text: string, lo: int, start: int, hi: int, pieces: seq<TextRange>, maxChars: int, cut: int)
    requires hi <= |text| && 0 <= start && start + maxChars < hi
    requires SafePieces(text, lo, start, hi, pieces, maxChars) && SafeCut(text, start, start + maxChars, cut)
    ensures SafePieces(text, lo, cut, hi, pieces + [TextRange(start, cut)], maxChars)
  {
    assert (pieces + [TextRange(start, cut)])[..|pieces|] == pieces;
  }

  // The range in pieces laid end to end: a last one that fits, and before it pieces cut off only while more was left.
  ghost predicate PiecesOf(text: string, range: TextRange, pieces: seq<TextRange>, maxChars: int)
    requires range.end <= |text|
  {
    if range.start >= range.end then pieces == []
    else
      && pieces != []
      && var last := pieces[|pieces| - 1];
         && last.start < last.end == range.end && last.Length() <= maxChars
         && SafePieces(text, range.start, last.start, range.end, pieces[..|pieces| - 1], maxChars)
  }

  // The loop that cuts pieces off the front, up to the start of the last one.
  method CutPieces(text: string, range: TextRange, maxChars: int) returns (pieces: seq<TextRange>, start: int)
    requires 0 <= range.start <= range.end <= |text| && maxChars > 0
    ensures range.start <= start <= range.end && range.end - start <= maxChars && (range.start < range.end ==> start < range.end)
    ensures Covers(text, range.start, start, pieces) && Bounded(pieces, maxChars)
    ensures SafePieces(text, range.start, start, range.end, pieces, maxChars) && (range.start == range.end ==> pieces == [])
  {
    pieces, start := [], range.start;
    while range.end - start > maxChars
      invariant range.start <= start <= range.end
      invariant Covers(text, range.start, start, pieces) && Bounded(pieces, maxChars)
      invariant range.start < range.end ==> start < range.end
      invariant range.start == range.end ==> pieces == []
      invariant SafePieces(text, range.start, start, range.end, pieces, maxChars)
      decreases range.end - start
    {
      var splitAt := FindSplitBoundary(text, start, start + maxChars);
      CoversAppend(text, range.start, start, pieces, TextRange(start, splitAt));
      SafePiecesPush(text, range.start, start, range.end, pieces, maxChars, splitAt);
      pieces := pieces + [TextRange(start, splitAt)];
      start := splitAt;
    }
  }

  method SplitBySafeBoundary(text: string, range: TextRange, maxChars: int) returns (ranges: seq<TextRange>)
    requires 0 <= range.start <= range.end <= |text| && maxChars > 0
    ensures Covers(text, range.start, range.end, ranges) && Bounded(ranges, maxChars)
    ensures PiecesOf(text, range, ranges, maxChars)
  {
    var start;
    ranges, start := CutPieces(text, range, maxChars);
    if start < range.end {
      CoversAppend(text, range.start, start, ranges, TextRange(start, range.end));
      assert (ranges + [TextRange(start, range.end)])[..|ranges|] == ranges;
      ranges := ranges + [TextRange(start, range.end)];
    }
  }

  // ---------------------------------------------------------------- atoms of one block

  function BuildAtom(block: ParsedBlock, range: TextRange, atomType: AtomType, ordinal: nat): AnalysisAtom
    requires 0 <= range.start <= range.end <= |block.text|
  {
    AnalysisAtom(AtomId(block.inputId, block.blockId, ordinal), block.inputId, block.blockId,
                 block.text[range.start..range.end], range, atomType, ordinal)
  }

  function Ranges(atoms: seq<AnalysisAtom>): (r: seq<TextRange>)
    ensures |r| == |atoms| && forall k :: 0 <= k < |atoms| ==> r[k] == atoms[k].range
  {
    if atoms == [] then [] else Ranges(atoms[..|atoms| - 1]) + [atoms[|atoms| - 1].range]
  }

  // The atom is a bounded slice of the block, with this ordinal.
  predicate AtomOf(block: ParsedBlock, atom: AnalysisAtom, ordinal: nat, maxChars: int) {
    && 0 <= atom.range.start <= atom.range.end <= |block.text|
    && atom.range.Length() <= maxChars
    && atom == BuildAtom(block, atom.range, atom.atomType, ordinal)
  }

  predicate AtomsFrom(block: ParsedBlock, atoms: seq<AnalysisAtom>, startOrdinal: nat, maxChars: int) {
    forall k :: 0 <= k < |atoms| ==> AtomOf(block, atoms[k], startOrdinal + k, maxChars)
  }

  // The atoms are what this block contributes from the given ordinal on.
  predicate BlockAtoms(block: ParsedBlock, atoms: seq<AnalysisAtom>, startOrdinal: nat, maxChars: int) {
    Covers(block.text, 0, |block.text|, Ranges(atoms)) && AtomsFrom(block, atoms, startOrdinal, maxChars)
  }

  lemma {:induction false} AtomsFromConcat(block: ParsedBlock, left: seq<AnalysisAtom>, right: seq<AnalysisAtom>, startOrdinal: nat, maxChars: int)
    requires AtomsFrom(block, left, startOrdinal, maxChars) && AtomsFrom(block, right, startOrdinal + |left|, maxChars)
    ensures AtomsFrom(block, left + right, startOrdinal, maxChars)
  {
  }

  lemma {:induction false} RangesConcat(left: seq<AnalysisAtom>, right: seq<AnalysisAtom>)
    ensures Ranges(left + right) == Ranges(left) + Ranges(right)
  {
  }

  // ---------------------------------------------------------------- from ranges to atoms

  // One structural range: its atoms are its pieces, all of its type.
  ghost predicate PartOf(text: string, part: seq<AnalysisAtom>, range: TextRange, atomType: AtomType, maxChars: int) {
    && range.end <= |text| && PiecesOf(text, range, Ranges(part), maxChars)
    && forall k :: 0 <= k < |part| ==> part[k].atomType == atomType
  }

  function Flatten<T>(parts: seq<seq<T>>): seq<T> {
    if parts == [] then [] else Flatten(parts[..|parts| - 1]) + parts[|parts| - 1]
  }

  // One part for each structural range.
  ghost predicate PartsOf(text: string, parts: seq<seq<AnalysisAtom>>, ranges: seq<TextRange>, types: seq<AtomType>, maxChars: int) {
    && |parts| == |ranges| == |types|
    && forall s :: 0 <= s < |parts| ==> PartOf(text, parts[s], ranges[s], types[s], maxChars)
  }

  lemma {:induction false} PartsAppend(text: string, parts: seq<seq<AnalysisAtom>>, added: seq<AnalysisAtom>, ranges: seq<TextRange>,
                                       types: seq<AtomType>, maxChars: int)
    requires |parts| < |ranges| == |types| && PartsOf(text, parts, ranges[..|parts|], types[..|parts|], maxChars)
    requires PartOf(text, added, ranges[|parts|], types[|parts|], maxChars)
    ensures PartsOf(text, parts + [added], ranges[..|parts| + 1], types[..|parts| + 1], maxChars)
    ensures Flatten(parts + [added]) == Flatten(parts) + added
  {
    var n, more := |parts|, parts + [added];
    assert more[..n] == parts;
    forall s | 0 <= s < n + 1 ensures PartOf(text, more[s], ranges[..n + 1][s], types[..n + 1][s], maxChars) {
      if s < n { assert PartOf(text, parts[s], ranges[..n][s], types[..n][s], maxChars); }
    }
  }

  // The content of a block: its text without the outer whitespace.
  predicate ContentOf(text: string, content: TextRange) {
    IsTrimmed(text, content) && Blank(text, 0, content.start) && Blank(text, content.end, |text|)
  }

  // The atoms of a block: none for a blank text; otherwise the content is divided by structure and the ranges are cut to
  // the limit.
  ghost predicate WellCut(block: ParsedBlock, policy: AtomizationPolicy, recognizer: Recognizer, atoms: seq<AnalysisAtom>) {
    if Blank(block.text, 0, |block.text|) then atoms == []
    else exists content, ranges, types, parts :: CutAs(block, policy, recognizer, content, ranges, types, parts) && atoms == Flatten(parts)
  }

  ghost predicate CutAs(block: ParsedBlock, policy: AtomizationPolicy, recognizer: Recognizer, content: TextRange,
                        ranges: seq<TextRange>, types: seq<AtomType>, parts: seq<seq<AnalysisAtom>>)
  {
    && ContentOf(block.text, content) && Structured(block, content, policy, recognizer, ranges, types)
    && Covers(block.text, content.start, content.end, ranges)
    && PartsOf(block.text, parts, ranges, types, policy.maxAtomChars)
  }

  method AtomizeBlock(block: ParsedBlock, policy: AtomizationPolicy, recognizer: Recognizer, startOrdinal: nat)
    returns (atoms: seq<AnalysisAtom>)
    requires SoundRecognizer(recognizer) && policy.maxAtomChars > 0
    ensures BlockAtoms(block, atoms, startOrdinal, policy.maxAtomChars)
    ensures WellCut(block, policy, recognizer, atoms)
  {
    atoms := [];
    var content := TrimRange(block.text, TextRange(0, |block.text|));
    if content.None? { return; }
    var ranges, types := StructuralRanges(block, content.value, policy, recognizer);
    CoversOrdered(block.text, content.value.start, content.value.end, ranges);
    ghost var parts;
    atoms, parts := AtomizeRanges(block, ranges, types, policy.maxAtomChars, startOrdinal);
    PartsCover(block.text, content.value.start, content.value.end, parts, ranges, types, policy.maxAtomChars);
    assert CutAs(block, policy, recognizer, content.value, ranges, types, parts);
    CoversWhole(block.text, content.value.start, content.value.end, atoms);
  }

  // The outer loop, over the structural ranges.
  method AtomizeRanges(block: ParsedBlock, ranges: seq<TextRange>, types: seq<AtomType>, maxChars: int, startOrdinal: nat)
    returns (atoms: seq<AnalysisAtom>, ghost parts: seq<seq<AnalysisAtom>>)
    requires |types| == |ranges| && maxChars > 0
    requires forall s :: 0 <= s < |ranges| ==> 0 <= ranges[s].start <= ranges[s].end <= |block.text|
    ensures AtomsFrom(block, atoms, startOrdinal, maxChars)
    ensures PartsOf(block.text, parts, ranges, types, maxChars) && atoms == Flatten(parts)
  {
    atoms, parts := [], [];
    for s := 0 to |ranges|
      invariant AtomsFrom(block, atoms, startOrdinal, maxChars)
      invariant |parts| == s && PartsOf(block.text, parts, ranges[..s], types[..s], maxChars) && atoms == Flatten(parts)
    {
      var added := AtomizeRange(block, ranges[s], types[s], maxChars, startOrdinal + |atoms|);
      AtomsFromConcat(block, atoms, added, startOrdinal, maxChars);
      PartsAppend(block.text, parts, added, ranges, types, maxChars);
      atoms, parts := atoms + added, parts + [added];
    }
    assert ranges[..|ranges|] == ranges && types[..|types|] == types;
  }

  // Pieces laid end to end leave nothing out.
  lemma {:induction false} SafePiecesCover(text: string, lo: int, at: int, hi: int, pieces: seq<TextRange>, maxChars: int)
    requires 0 <= lo && hi <= |text| && maxChars > 0 && SafePieces(text, lo, at, hi, pieces, maxChars)
    ensures lo <= at && (at <= |text| ==> Covers(text, lo, at, pieces)) && (pieces != [] ==> at <= hi)
    decreases |pieces|
  {
    if pieces != [] {
      SafePiecesCover(text, lo, pieces[|pieces| - 1].start, hi, pieces[..|pieces| - 1], maxChars);
    }
  }

  lemma {:induction false} PiecesCover(text: string, range: TextRange, pieces: seq<TextRange>, maxChars: int)
    requires 0 <= range.start < range.end <= |text| && maxChars > 0 && PiecesOf(text, range, pieces, maxChars)
    ensures Covers(text, range.start, range.end, pieces)
  {
    SafePiecesCover(text, range.start, pieces[|pieces| - 1].start, range.end, pieces[..|pieces| - 1], maxChars);
  }

  lemma {:induction false} CoversNext(text: string, lo: int, mid: int, end: int, hi: int, left: seq<AnalysisAtom>, right: seq<AnalysisAtom>)
    requires 0 <= lo && 0 <= mid && end <= hi <= |text| && mid <= |text|
    requires Covers(text, lo, mid, Ranges(left)) && Covers(text, mid, end, Ranges(right)) && Blank(text, end, hi)
    ensures Covers(text, lo, hi, Ranges(left + right))
  {
    CoversExtend(text, mid, end, hi, Ranges(right));
    CoversConcat(text, lo, mid, hi, Ranges(left), Ranges(right));
    RangesConcat(left, right);
  }

  lemma {:induction false} PartCovers(text: string, lo: int, hi: int, left: seq<AnalysisAtom>, right: seq<AnalysisAtom>,
                                      last: TextRange, atomType: AtomType, maxChars: int)
    requires 0 <= lo && 0 <= last.start < last.end <= hi <= |text| && maxChars > 0
    requires Covers(text, lo, last.start, Ranges(left)) && PartOf(text, right, last, atomType, maxChars) && Blank(text, last.end, hi)
    ensures Covers(text, lo, hi, Ranges(left + right))
  {
    PiecesCover(text, last, Ranges(right), maxChars);
    CoversNext(text, lo, last.start, last.end, hi, left, right);
  }

  // Cutting the structural ranges leaves out nothing more than they did.
  lemma {:induction false} PartsCover(text: string, lo: int, hi: int, parts: seq<seq<AnalysisAtom>>, ranges: seq<TextRange>,
                                      types: seq<AtomType>, maxChars: int)
    requires 0 <= lo && hi <= |text| && maxChars > 0
    requires Covers(text, lo, hi, ranges) && PartsOf(text, parts, ranges, types, maxChars)
    ensures Covers(text, lo, hi, Ranges(Flatten(parts)))
    decreases |ranges|
  {
    if ranges != [] {
      var n := |ranges| - 1;
      assert PartsOf(text, parts[..n], ranges[..n], types[..n], maxChars);
      PartsCover(text, lo, ranges[n].start, parts[..n], ranges[..n], types[..n], maxChars);
      PartCovers(text, lo, hi, Flatten(parts[..n]), parts[n], ranges[n], types[n], maxChars);
    }
  }

  // Whitespace around the content changes nothing.
  lemma {:induction false} CoversWhole(text: string, lo: int, done: int, atoms: seq<AnalysisAtom>)
    requires 0 <= lo <= done <= |text| && Blank(text, 0, lo) && Blank(text, done, |text|)
    requires Covers(text, lo, done, Ranges(atoms))
    ensures Covers(text, 0, |text|, Ranges(atoms))
  {
    CoversExtend(text, lo, done, |text|, Ranges(atoms));
    CoversConcat(text, 0, lo, |text|, [], Ranges(atoms));
    assert [] + Ranges(atoms) == Ranges(atoms);
  }

  // The inner loop: every non-empty piece of a structural range becomes an atom with the next ordinal.
  method AtomizeRange(block: ParsedBlock, range: TextRange, atomType: AtomType, maxChars: int, ordinal: nat)
    returns (atoms: seq<AnalysisAtom>)
    requires 0 <= range.start <= range.end <= |block.text| && maxChars > 0
    ensures Covers(block.text, range.start, range.end, Ranges(atoms))
    ensures AtomsFrom(block, atoms, ordinal, maxChars)
    ensures PartOf(block.text, atoms, range, atomType, maxChars)
  {
    var pieces := SplitBySafeBoundary(block.text, range, maxChars);
    CoversOrdered(block.text, range.start, range.end, pieces);
    atoms := [];
    for p := 0 to |pieces|
      invariant |atoms| == p && AtomsFrom(block, atoms, ordinal, maxChars)
      invariant forall k :: 0 <= k < p ==> atoms[k].range == pieces[k] && atoms[k].atomType == atomType
    {
      if pieces[p].start < pieces[p].end {
        atoms := atoms + [BuildAtom(block, pieces[p], atomType, ordinal + |atoms|)];
      }
    }
    assert Ranges(atoms) == pieces;
  }

  // ---------------------------------------------------------------- atoms of a document

  // The atoms from starts[b] up to starts[b + 1] are the ones block b contributes.
  predicate BlockPart(blocks: seq<ParsedBlock>, atoms: seq<AnalysisAtom>, starts: seq<nat>, maxChars: int, b: nat)
    requires b < |blocks| && |starts| == |blocks| + 1
  {
    && starts[b] <= starts[b + 1] <= |atoms|
    && BlockAtoms(blocks[b], atoms[starts[b]..starts[b + 1]], starts[b], maxChars)
  }

  predicate DocumentAtoms(blocks: seq<ParsedBlock>, atoms: seq<AnalysisAtom>, starts: seq<nat>, maxChars: int) {
    && |starts| == |blocks| + 1 && starts[0] == 0 && starts[|blocks|] == |atoms|
    && forall b :: 0 <= b < |blocks| ==> BlockPart(blocks, atoms, starts, maxChars, b)
  }

  lemma {:induction false} DocumentAppend(blocks: seq<ParsedBlock>, atoms: seq<AnalysisAtom>, starts: seq<nat>, maxChars: int,
                       block: ParsedBlock, added: seq<AnalysisAtom>)
    requires DocumentAtoms(blocks, atoms, starts, maxChars)
    requires BlockAtoms(block, added, |atoms|, maxChars)
    ensures DocumentAtoms(blocks + [block], atoms + added, starts + [|atoms + added|], maxChars)
  {
    var blocks', atoms', starts' := blocks + [block], atoms + added, starts + [|atoms + added|];
    forall b | 0 <= b < |blocks'| ensures BlockPart(blocks', atoms', starts', maxChars, b) {
      if b < |blocks| {
        assert BlockPart(blocks, atoms, starts, maxChars, b);
        assert atoms'[starts[b]..starts[b + 1]] == atoms[starts[b]..starts[b + 1]];
      } else {
        assert atoms'[|atoms|..|atoms'|] == added;
      }
    }
  }

  // The atoms that block b contributes are cut as its structure demands.
  ghost predicate PartCut(blocks: seq<ParsedBlock>, atoms: seq<AnalysisAtom>, starts: seq<nat>, policy: AtomizationPolicy,
                          recognizer: Recognizer, b: nat)
    requires b < |blocks| && |starts| == |blocks| + 1
  {
    starts[b] <= starts[b + 1] <= |atoms| && WellCut(blocks[b], policy, recognizer, atoms[starts[b]..starts[b + 1]])
  }

  ghost predicate DocumentCut(blocks: seq<ParsedBlock>, atoms: seq<AnalysisAtom>, starts: seq<nat>, policy: AtomizationPolicy,
                              recognizer: Recognizer)
  {
    |starts| == |blocks| + 1 && forall b :: 0 <= b < |blocks| ==> PartCut(blocks, atoms, starts, policy, recognizer, b)
  }

  lemma {:induction false} PartCutKept(blocks: seq<ParsedBlock>, atoms: seq<AnalysisAtom>, starts: seq<nat>, policy: AtomizationPolicy,
                                       recognizer: Recognizer, blocks': seq<ParsedBlock>, atoms': seq<AnalysisAtom>, starts': seq<nat>, b: nat)
    requires |starts| == |blocks| + 1 && b < |blocks| && PartCut(blocks, atoms, starts, policy, recognizer, b)
    requires blocks < blocks' && atoms <= atoms' && starts < starts' && |starts'| == |blocks'| + 1
    ensures PartCut(blocks', atoms', starts', policy, recognizer, b)
  {
    assert atoms'[starts[b]..starts[b + 1]] == atoms[starts[b]..starts[b + 1]];
  }

  lemma {:induction false} PartCutNew(blocks: seq<ParsedBlock>, atoms: seq<AnalysisAtom>, starts: seq<nat>, policy: AtomizationPolicy,
                                      recognizer: Recognizer, b: nat, added: seq<AnalysisAtom>)
    requires |starts| == |blocks| + 1 && b < |blocks| && starts[b] <= starts[b + 1] <= |atoms|
    requires atoms[starts[b]..starts[b + 1]] == added && WellCut(blocks[b], policy, recognizer, added)
    ensures PartCut(blocks, atoms, starts, policy, recognizer, b)
  {
  }

  lemma {:induction false} DocumentCutAppend(blocks: seq<ParsedBlock>, atoms: seq<AnalysisAtom>, starts: seq<nat>,
                                             policy: AtomizationPolicy, recognizer: Recognizer, block: ParsedBlock, added: seq<AnalysisAtom>)
    requires DocumentCut(blocks, atoms, starts, policy, recognizer) && starts[|blocks|] == |atoms|
    requires WellCut(block, policy, recognizer, added)
    ensures DocumentCut(blocks + [block], atoms + added, starts + [|atoms + added|], policy, recognizer)
  {
    var blocks', atoms', starts' := blocks + [block], atoms + added, starts + [|atoms + added|];
    assert atoms'[|atoms|..|atoms'|] == added;
    forall b | 0 <= b < |blocks'| ensures PartCut(blocks', atoms', starts', policy, recognizer, b) {
      if b < |blocks| {
        PartCutKept(blocks, atoms, starts, policy, recognizer, blocks', atoms', starts', b);
      } else {
        PartCutNew(blocks', atoms', starts', policy, recognizer, b, added);
      }
    }
  }

  lemma {:induction false} Upto(blocks: seq<ParsedBlock>, b: nat)
    requires b < |blocks|
    ensures blocks[..b] + [blocks[b]] == blocks[..b + 1]
  {
  }

  method BuildAtoms(blocks: seq<ParsedBlock>, policy: AtomizationPolicy, recognizer: Recognizer)
    returns (result: AtomBuildResult, ghost starts: seq<nat>)
    requires SoundRecognizer(recognizer)
    ensures result.InvalidAtomizationPolicy? <==>
      policy.maxAtomChars <= 0 || policy.minAtomChars < 0 || policy.atomIdPrefixLength <= 0
    ensures result.Built? ==> DocumentAtoms(blocks, result.atoms, starts, policy.maxAtomChars)
    ensures result.Built? ==> DocumentCut(blocks, result.atoms, starts, policy, recognizer)
  {
    starts := [0];
    if policy.maxAtomChars <= 0 || policy.minAtomChars < 0 || policy.atomIdPrefixLength <= 0 {
      return InvalidAtomizationPolicy, starts;
    }
    var atoms := [];
    for b := 0 to |blocks|
      invariant DocumentAtoms(blocks[..b], atoms, starts, policy.maxAtomChars)
      invariant DocumentCut(blocks[..b], atoms, starts, policy, recognizer)
    {
      var added := AtomizeBlock(blocks[b], policy, recognizer, |atoms|);
      DocumentAppend(blocks[..b], atoms, starts, policy.maxAtomChars, blocks[b], added);
      DocumentCutAppend(blocks[..b], atoms, starts, policy, recognizer, blocks[b], added);
      Upto(blocks, b);
      atoms := atoms + added;
      starts := starts + [|atoms|];
    }
    assert blocks[..|blocks|] == blocks;
    result := Built(atoms);
  }

  // Atom k is one of those block b contributed.
  predicate AtomOfBlock(starts: seq<nat>, b: nat, k: int)
    requires b + 1 < |starts|
  {
    starts[b] <= k < starts[b + 1]
  }

  lemma {:induction false} BlockPartAtoms(blocks: seq<ParsedBlock>, atoms: seq<AnalysisAtom>, starts: seq<nat>, maxChars: int, b: nat)
    requires DocumentAtoms(blocks, atoms, starts, maxChars) && b < |blocks|
    ensures starts[b] <= starts[b + 1] <= |atoms|
    ensures forall k :: AtomOfBlock(starts, b, k) ==>
      && 0 <= atoms[k].range.start < atoms[k].range.end <= |blocks[b].text|
      && atoms[k].range.Length() <= maxChars
      && atoms[k] == BuildAtom(blocks[b], atoms[k].range, atoms[k].atomType, k)
    ensures forall j, k :: AtomOfBlock(starts, b, j) && AtomOfBlock(starts, b, k) && j < k ==>
      atoms[j].range.end <= atoms[k].range.start
  {
    assert BlockPart(blocks, atoms, starts, maxChars, b);
    var part := atoms[starts[b]..starts[b + 1]];
    var ranges := Ranges(part);
    CoversOrdered(blocks[b].text, 0, |blocks[b].text|, ranges);
    assert forall k :: AtomOfBlock(starts, b, k) ==> part[k - starts[b]] == atoms[k] && ranges[k - starts[b]] == atoms[k].range;
  }

  lemma {:induction false} CharacterInAtom(block: ParsedBlock, atoms: seq<AnalysisAtom>, i: nat) returns (p: nat)
    requires Covers(block.text, 0, |block.text|, Ranges(atoms))
    requires i < |block.text| && !IsSpace(block.text[i])
    ensures p < |atoms| && atoms[p].range.Contains(i)
  {
    CoversCharacter(block.text, 0, |block.text|, Ranges(atoms), i);
    p :| p < |atoms| && Ranges(atoms)[p].Contains(i);
  }

  // Every non-whitespace character of every block lies in exactly one of that block's atoms.
  lemma {:induction false} CharacterInOneAtom(blocks: seq<ParsedBlock>, atoms: seq<AnalysisAtom>, starts: seq<nat>, maxChars: int, b: nat, i: nat)
    returns (k: nat)
    requires DocumentAtoms(blocks, atoms, starts, maxChars)
    requires b < |blocks| && i < |blocks[b].text| && !IsSpace(blocks[b].text[i])
    ensures starts[b] <= starts[b + 1] <= |atoms|
    ensures AtomOfBlock(starts, b, k) && atoms[k].range.Contains(i)
    ensures forall j :: AtomOfBlock(starts, b, j) && atoms[j].range.Contains(i) ==> j == k
  {
    assert BlockPart(blocks, atoms, starts, maxChars, b);
    var part := atoms[starts[b]..starts[b + 1]];
    var p := CharacterInAtom(blocks[b], part, i);
    k := starts[b] + p;
    BlockPartAtoms(blocks, atoms, starts, maxChars, b);
  }

  // Some block contributed atom k.
  lemma {:induction false} BlockOfAtom(starts: seq<nat>, n: nat, k: nat) returns (b: nat)
    requires n < |starts| && starts[0] == 0 && k < starts[n]
    ensures b < n && AtomOfBlock(starts, b, k)
    decreases n
  {
    if k < starts[n - 1] {
      b := BlockOfAtom(starts, n - 1, k);
    } else {
      b := n - 1;
    }
  }

  // Ordinals number the atoms of the whole document 0, 1, 2, ..., so atom ids are distinct; every atom is a non-empty,
  // bounded slice of the block it names.
  lemma {:induction false} AtomIsSlice(blocks: seq<ParsedBlock>, atoms: seq<AnalysisAtom>, starts: seq<nat>, maxChars: int, k: nat) returns (b: nat)
    requires DocumentAtoms(blocks, atoms, starts, maxChars) && k < |atoms|
    ensures b < |blocks| && AtomOfBlock(starts, b, k) && atoms[k].blockId == blocks[b].blockId
    ensures atoms[k].ordinal == k == atoms[k].id.ordinal
    ensures 0 <= atoms[k].range.start < atoms[k].range.end <= |blocks[b].text|
    ensures atoms[k].range.Length() <= maxChars
    ensures atoms[k].text == blocks[b].text[atoms[k].range.start..atoms[k].range.end]
  {
    b := BlockOfAtom(starts, |blocks|, k);
    BlockPartAtoms(blocks, atoms, starts, maxChars, b);
  }

  // ---------------------------------------------------------------- what the structure of a block means for its atoms

  lemma {:induction false} FlattenAt<T>(parts: seq<seq<T>>, k: nat) returns (s: nat, j: nat)
    requires k < |Flatten(parts)|
    ensures s < |parts| && j < |parts[s]| && parts[s][j] == Flatten(parts)[k]
  {
    var n := |parts| - 1;
    if k < |Flatten(parts[..n])| {
      s, j := FlattenAt(parts[..n], k);
    } else {
      s, j := n, k - |Flatten(parts[..n])|;
    }
  }

  lemma {:induction false} FlattenHas<T>(parts: seq<seq<T>>, s: nat, j: nat) returns (k: nat)
    requires s < |parts| && j < |parts[s]|
    ensures k < |Flatten(parts)| && Flatten(parts)[k] == parts[s][j]
    decreases |parts|
  {
    var n := |parts| - 1;
    if s < n {
      k := FlattenHas(parts[..n], s, j);
    } else {
      k := |Flatten(parts[..n])| + j;
    }
  }

  // Neighbours of the whole are neighbours in a part, or the last and the first of two successive parts.
  lemma {:induction false} FlattenNext<T>(parts: seq<seq<T>>, k: nat) returns (s: nat, j: nat)
    requires (forall i :: 0 <= i < |parts| ==> parts[i] != []) && k + 1 < |Flatten(parts)|
    ensures s < |parts| && j < |parts[s]| && parts[s][j] == Flatten(parts)[k]
    ensures if j + 1 < |parts[s]| then parts[s][j + 1] == Flatten(parts)[k + 1]
            else s + 1 < |parts| && parts[s + 1][0] == Flatten(parts)[k + 1]
  {
    var n := |parts| - 1;
    var before := Flatten(parts[..n]);
    if k + 1 < |before| {
      s, j := FlattenNext(parts[..n], k);
    } else if k < |before| {
      s, j := FlattenLast(parts[..n]);
    } else {
      s, j := n, k - |before|;
    }
  }

  lemma {:induction false} FlattenLast<T>(parts: seq<seq<T>>) returns (s: nat, j: nat)
    requires (forall i :: 0 <= i < |parts| ==> parts[i] != []) && Flatten(parts) != []
    ensures s == |parts| - 1 && j == |parts[s]| - 1 && parts[s][j] == Flatten(parts)[|Flatten(parts)| - 1]
  {
    s := |parts| - 1;
    j := |parts[s]| - 1;
  }

  // The cut between two neighbours inside a stretch that goes on to `end`: made because more than maxChars were left, and
  // at the safe place.
  ghost predicate InnerCut(text: string, a: TextRange, b: TextRange, end: int, maxChars: int) {
    && a.end == b.start && 0 <= a.start && a.start + maxChars < end <= |text|
    && SafeCut(text, a.start, a.start + maxChars, a.end)
  }

  lemma {:induction false} SafePieceAt(text: string, lo: int, at: int, hi: int, pieces: seq<TextRange>, maxChars: int, k: nat)
    requires 0 <= lo && hi <= |text| && maxChars > 0 && SafePieces(text, lo, at, hi, pieces, maxChars) && k < |pieces|
    ensures lo <= pieces[k].start < pieces[k].end <= at && (k == 0 ==> pieces[k].start == lo)
    ensures pieces[k].start + maxChars < hi && SafeCut(text, pieces[k].start, pieces[k].start + maxChars, pieces[k].end)
    ensures pieces[k].end == if k + 1 < |pieces| then pieces[k + 1].start else at
    decreases |pieces|
  {
    var n := |pieces| - 1;
    SafePiecesCover(text, lo, pieces[n].start, hi, pieces[..n], maxChars);
    if k < n { SafePieceAt(text, lo, pieces[n].start, hi, pieces[..n], maxChars, k); }
  }

  lemma {:induction false} PieceAt(text: string, range: TextRange, pieces: seq<TextRange>, maxChars: int, k: nat)
    requires 0 <= range.start <= range.end <= |text| && maxChars > 0 && PiecesOf(text, range, pieces, maxChars) && k < |pieces|
    ensures range.start <= pieces[k].start < pieces[k].end <= range.end && (k == 0 ==> pieces[k].start == range.start)
    ensures if k + 1 < |pieces| then InnerCut(text, pieces[k], pieces[k + 1], range.end, maxChars) else pieces[k].end == range.end
  {
    var n := |pieces| - 1;
    SafePiecesCover(text, range.start, pieces[n].start, range.end, pieces[..n], maxChars);
    if k < n {
      SafePieceAt(text, range.start, pieces[n].start, range.end, pieces[..n], maxChars, k);
    }
  }

  lemma {:induction false} SafePieceOver(text: string, lo: int, at: int, hi: int, pieces: seq<TextRange>, maxChars: int, i: int) returns (k: nat)
    requires 0 <= lo && hi <= |text| && maxChars > 0 && SafePieces(text, lo, at, hi, pieces, maxChars) && lo <= i < at
    ensures k < |pieces| && pieces[k].Contains(i)
    decreases |pieces|
  {
    var n := |pieces| - 1;
    if i < pieces[n].start {
      k := SafePieceOver(text, lo, pieces[n].start, hi, pieces[..n], maxChars, i);
    } else {
      k := n;
    }
  }

  lemma {:induction false} PieceOver(text: string, range: TextRange, pieces: seq<TextRange>, maxChars: int, i: int) returns (k: nat)
    requires 0 <= range.start <= range.end <= |text| && maxChars > 0 && PiecesOf(text, range, pieces, maxChars) && range.Contains(i)
    ensures k < |pieces| && pieces[k].Contains(i)
  {
    var n := |pieces| - 1;
    if i < pieces[n].start {
      k := SafePieceOver(text, range.start, pieces[n].start, range.end, pieces[..n], maxChars, i);
    } else {
      k := n;
    }
  }

  predicate Inside(inner: TextRange, outer: TextRange) {
    outer.start <= inner.start < inner.end <= outer.end
  }

  // Atom k lies in structural range s and has its type.
  predicate LiesIn(atom: AnalysisAtom, range: TextRange, atomType: AtomType) {
    Inside(atom.range, range) && atom.atomType == atomType
  }

  lemma {:induction false} AtomLiesIn(text: string, parts: seq<seq<AnalysisAtom>>, ranges: seq<TextRange>, types: seq<AtomType>,
                                      maxChars: int, k: nat) returns (s: nat)
    requires PartsOf(text, parts, ranges, types, maxChars) && maxChars > 0 && k < |Flatten(parts)|
    requires forall r :: 0 <= r < |ranges| ==> 0 <= ranges[r].start < ranges[r].end <= |text|
    ensures s < |ranges| == |types| && LiesIn(Flatten(parts)[k], ranges[s], types[s])
  {
    var j;
    s, j := FlattenAt(parts, k);
    assert PartOf(text, parts[s], ranges[s], types[s], maxChars);
    PieceAt(text, ranges[s], Ranges(parts[s]), maxChars, j);
  }

  // Every position of a structural range lies in an atom of its type.
  lemma {:induction false} AtomOver(text: string, parts: seq<seq<AnalysisAtom>>, ranges: seq<TextRange>, types: seq<AtomType>,
                                    maxChars: int, s: nat, i: int) returns (k: nat)
    requires PartsOf(text, parts, ranges, types, maxChars) && maxChars > 0 && s < |ranges| && ranges[s].Contains(i)
    requires 0 <= ranges[s].start < ranges[s].end <= |text|
    ensures k < |Flatten(parts)| && Flatten(parts)[k].range.Contains(i) && Flatten(parts)[k].atomType == types[s]
  {
    assert PartOf(text, parts[s], ranges[s], types[s], maxChars);
    var j := PieceOver(text, ranges[s], Ranges(parts[s]), maxChars, i);
    k := FlattenHas(parts, s, j);
  }

  // Two neighbouring atoms are cut apart inside one structural range, or at the end of one and the start of the next.
  ghost predicate CutWithin(text: string, a: TextRange, b: TextRange, range: TextRange, maxChars: int) {
    Inside(a, range) && Inside(b, range) && InnerCut(text, a, b, range.end, maxChars)
  }

  predicate CutBetween(a: TextRange, b: TextRange, ranges: seq<TextRange>, s: nat) {
    s + 1 < |ranges| && a.end == ranges[s].end && b.start == ranges[s + 1].start
  }

  lemma {:induction false} WithinPart(text: string, part: seq<AnalysisAtom>, range: TextRange, atomType: AtomType, maxChars: int, j: nat)
    requires PartOf(text, part, range, atomType, maxChars) && maxChars > 0 && j < |part| && 0 <= range.start < range.end
    ensures if j + 1 < |part| then CutWithin(text, part[j].range, part[j + 1].range, range, maxChars)
            else part[j].range.end == range.end
    ensures part[0].range.start == range.start
  {
    PieceAt(text, range, Ranges(part), maxChars, 0);
    PieceAt(text, range, Ranges(part), maxChars, j);
    if j + 1 < |part| { PieceAt(text, range, Ranges(part), maxChars, j + 1); }
  }

  lemma {:induction false} NeighboursCut(text: string, parts: seq<seq<AnalysisAtom>>, ranges: seq<TextRange>, types: seq<AtomType>,
                                         maxChars: int, k: nat) returns (s: nat)
    requires PartsOf(text, parts, ranges, types, maxChars) && maxChars > 0 && k + 1 < |Flatten(parts)|
    requires forall r :: 0 <= r < |ranges| ==> 0 <= ranges[r].start < ranges[r].end <= |text|
    ensures s < |ranges|
    ensures var a, b := Flatten(parts)[k].range, Flatten(parts)[k + 1].range;
            CutWithin(text, a, b, ranges[s], maxChars) || CutBetween(a, b, ranges, s)
  {
    forall r | 0 <= r < |parts| ensures parts[r] != [] { assert PartOf(text, parts[r], ranges[r], types[r], maxChars); }
    var j;
    s, j := FlattenNext(parts, k);
    assert PartOf(text, parts[s], ranges[s], types[s], maxChars);
    WithinPart(text, parts[s], ranges[s], types[s], maxChars, j);
    if j + 1 == |parts[s]| {
      assert PartOf(text, parts[s + 1], ranges[s + 1], types[s + 1], maxChars);
      WithinPart(text, parts[s + 1], ranges[s + 1], types[s + 1], maxChars, 0);
    }
  }

  // ---------------------------------------------------------------- the three kinds of content

  // Atoms of rows: no line break inside, and two neighbours are parted by one or by the limit on a row.
  ghost predicate RowAtoms(text: string, atoms: seq<AnalysisAtom>, maxChars: int) {
    && (forall k, i :: 0 <= k < |atoms| && 0 <= i < |text| && atoms[k].range.Contains(i) ==> text[i] != '\n')
    && (forall k :: 0 <= k < |atoms| ==> atoms[k].atomType == TableRow)
    && (forall k :: 0 <= k < |atoms| - 1 ==> PartedRows(text, atoms[k].range, atoms[k + 1].range, maxChars))
  }

  ghost predicate PartedRows(text: string, a: TextRange, b: TextRange, maxChars: int) {
    NewlineIn(text, a.end, b.start) || exists end :: InnerCut(text, a, b, end, maxChars) && !NewlineIn(text, a.start, end)
  }

  // Atoms of paragraphs: no separator starts inside, and two neighbours are parted by one or by the limit on a paragraph.
  ghost predicate ParagraphAtoms(text: string, content: TextRange, atoms: seq<AnalysisAtom>, maxChars: int)
    requires content.end <= |text|
  {
    && (forall k, i :: 0 <= k < |atoms| && 0 <= i < content.end && atoms[k].range.Contains(i) ==> !SeparatorAt(text, i, content.end))
    && (forall k :: 0 <= k < |atoms| ==> atoms[k].atomType == Paragraph)
    && (forall k :: 0 <= k < |atoms| - 1 ==> PartedParagraphs(text, content, atoms[k].range, atoms[k + 1].range, maxChars))
  }

  ghost predicate PartedParagraphs(text: string, content: TextRange, a: TextRange, b: TextRange, maxChars: int)
    requires content.end <= |text|
  {
    SeparatorIn(text, a.end, b.start, content.end)
    || exists end :: InnerCut(text, a, b, end, maxChars) && !SeparatorIn(text, a.start, end, content.end)
  }

  // Atoms around fences: the code atoms lie in fences and cover them, every other atom is prose outside all of them, and
  // two neighbours are parted by the border of a fence or by the limit on the stretch up to the next border.
  ghost predicate FencedAtoms(text: string, content: TextRange, fences: seq<TextRange>, atoms: seq<AnalysisAtom>, maxChars: int) {
    && (forall f, i :: 0 <= f < |fences| && fences[f].Contains(i) ==> CodeOver(atoms, content.start + i))
    && (forall k :: 0 <= k < |atoms| ==> CodeOrProse(content, fences, atoms[k]))
    && (forall k :: 0 <= k < |atoms| - 1 ==> PartedByFence(text, content, fences, atoms[k].range, atoms[k + 1].range, maxChars))
  }

  ghost predicate PartedByFence(text: string, content: TextRange, fences: seq<TextRange>, a: TextRange, b: TextRange, maxChars: int) {
    || (exists f :: 0 <= f < |fences| && Borders(a, fences[f].Shift(content.start), b))
    || (exists end :: InnerCut(text, a, b, end, maxChars) && NoBorderIn(content, fences, a.start, end))
  }

  predicate Borders(a: TextRange, fence: TextRange, b: TextRange) {
    a.end == fence.end || b.start == fence.start
  }

  predicate NoBorderIn(content: TextRange, fences: seq<TextRange>, lo: int, hi: int) {
    forall f :: 0 <= f < |fences| ==> BorderOutside(fences[f].Shift(content.start), lo, hi)
  }

  predicate BorderOutside(fence: TextRange, lo: int, hi: int) {
    !(lo < fence.start < hi) && !(lo < fence.end < hi)
  }

  predicate CodeOver(atoms: seq<AnalysisAtom>, i: int) {
    exists k :: 0 <= k < |atoms| && atoms[k].range.Contains(i) && atoms[k].atomType == CodeBlock
  }

  predicate CodeOrProse(content: TextRange, fences: seq<TextRange>, atom: AnalysisAtom) {
    if atom.atomType == CodeBlock then exists f :: 0 <= f < |fences| && Inside(atom.range, fences[f].Shift(content.start))
    else atom.atomType == Paragraph && forall f :: 0 <= f < |fences| ==> !Overlaps(atom.range, fences[f].Shift(content.start))
  }

  lemma {:induction false} ShiftAllAt(ranges: seq<TextRange>, offset: int)
    ensures |ShiftAll(ranges, offset)| == |ranges|
    ensures forall f :: 0 <= f < |ranges| ==> ShiftAll(ranges, offset)[f] == ranges[f].Shift(offset)
  {
    if ranges != [] { ShiftAllAt(ranges[..|ranges| - 1], offset); }
  }

  lemma {:induction false} CodeRangesExactly(ranges: seq<TextRange>, types: seq<AtomType>, r: TextRange)
    requires |ranges| == |types|
    ensures r in CodeRanges(ranges, types) <==> exists s :: 0 <= s < |ranges| && types[s] == CodeBlock && ranges[s] == r
  {
    if ranges != [] {
      var n := |ranges| - 1;
      CodeRangesExactly(ranges[..n], types[..n], r);
      assert forall s :: 0 <= s < n ==> ranges[..n][s] == ranges[s] && types[..n][s] == types[s];
    }
  }

  // The structural ranges typed as code are the fences.
  lemma {:induction false} FenceRange(content: TextRange, fences: seq<TextRange>, ranges: seq<TextRange>, types: seq<AtomType>, f: nat)
    returns (s: nat)
    requires |ranges| == |types| && CodeRanges(ranges, types) == ShiftAll(fences, content.start) && f < |fences|
    ensures s < |ranges| && types[s] == CodeBlock && ranges[s] == fences[f].Shift(content.start)
  {
    ShiftAllAt(fences, content.start);
    var r := fences[f].Shift(content.start);
    assert ShiftAll(fences, content.start)[f] == r;
    CodeRangesExactly(ranges, types, r);
    s :| 0 <= s < |ranges| && types[s] == CodeBlock && ranges[s] == r;
  }

  lemma {:induction false} RangeFence(content: TextRange, fences: seq<TextRange>, ranges: seq<TextRange>, types: seq<AtomType>, s: nat)
    returns (f: nat)
    requires |ranges| == |types| && CodeRanges(ranges, types) == ShiftAll(fences, content.start)
    requires s < |ranges| && types[s] == CodeBlock
    ensures f < |fences| && ranges[s] == fences[f].Shift(content.start)
  {
    ShiftAllAt(fences, content.start);
    CodeRangesExactly(ranges, types, ranges[s]);
    f :| 0 <= f < |fences| && ShiftAll(fences, content.start)[f] == ranges[s];
  }

  lemma {:induction false} FencedParts(text: string, content: TextRange, fences: seq<TextRange>, parts: seq<seq<AnalysisAtom>>,
                                       ranges: seq<TextRange>, types: seq<AtomType>, maxChars: int)
    requires 0 <= content.start <= content.end <= |text| && maxChars > 0
    requires Fenced(text, content, fences, ranges, types) && PartsOf(text, parts, ranges, types, maxChars)
    ensures FencedAtoms(text, content, fences, Flatten(parts), maxChars)
  {
    CoversOrdered(text, content.start, content.end, ranges);
    var atoms := Flatten(parts);
    forall f, i | 0 <= f < |fences| && fences[f].Contains(i) ensures CodeOver(atoms, content.start + i) {
      var s := FenceRange(content, fences, ranges, types, f);
      var k := AtomOver(text, parts, ranges, types, maxChars, s, content.start + i);
    }
    forall k | 0 <= k < |atoms| ensures CodeOrProse(content, fences, atoms[k]) {
      var s := AtomLiesIn(text, parts, ranges, types, maxChars, k);
      FencedAtom(content, fences, ranges, types, atoms[k], s);
    }
    forall k | 0 <= k < |atoms| - 1 ensures PartedByFence(text, content, fences, atoms[k].range, atoms[k + 1].range, maxChars) {
      var s := NeighboursCut(text, parts, ranges, types, maxChars, k);
      FencesPart(text, content, fences, atoms[k].range, atoms[k + 1].range, ranges, types, s, maxChars);
    }
  }

  lemma {:induction false} FencesPart(text: string, content: TextRange, fences: seq<TextRange>, a: TextRange, b: TextRange,
                                      ranges: seq<TextRange>, types: seq<AtomType>, s: nat, maxChars: int)
    requires |ranges| == |types| && CodeRanges(ranges, types) == ShiftAll(fences, content.start) && ProseOrCode(types)
    requires ProseFillsGaps(content.start, content.end, ranges, types) && s < |ranges|
    requires forall j, k :: 0 <= j < k < |ranges| ==> ranges[j].start < ranges[j].end <= ranges[k].start < ranges[k].end
    requires CutWithin(text, a, b, ranges[s], maxChars) || CutBetween(a, b, ranges, s)
    ensures PartedByFence(text, content, fences, a, b, maxChars)
  {
    if CutBetween(a, b, ranges, s) {
      assert types[s] == Paragraph ==> FillsGap(content.start, content.end, ranges, types, s);
      var f := RangeFence(content, fences, ranges, types, if types[s] == CodeBlock then s else s + 1);
      assert Borders(a, fences[f].Shift(content.start), b);
    } else {
      forall f | 0 <= f < |fences| ensures BorderOutside(fences[f].Shift(content.start), a.start, ranges[s].end) {
        var t := FenceRange(content, fences, ranges, types, f);
        if t < s { assert ranges[t].end <= ranges[s].start; }
        if s < t { assert ranges[s].end <= ranges[t].start; }
      }
      assert NoBorderIn(content, fences, a.start, ranges[s].end);
    }
  }

  lemma {:induction false} FencedAtom(content: TextRange, fences: seq<TextRange>, ranges: seq<TextRange>, types: seq<AtomType>,
                                      atom: AnalysisAtom, s: nat)
    requires |ranges| == |types| && CodeRanges(ranges, types) == ShiftAll(fences, content.start) && ProseOrCode(types)
    requires forall j, k :: 0 <= j < k < |ranges| ==> ranges[j].end <= ranges[k].start
    requires s < |ranges| && LiesIn(atom, ranges[s], types[s])
    ensures CodeOrProse(content, fences, atom)
  {
    if types[s] == CodeBlock {
      var f := RangeFence(content, fences, ranges, types, s);
      assert Inside(atom.range, fences[f].Shift(content.start));
    } else {
      forall f | 0 <= f < |fences| ensures !Overlaps(atom.range, fences[f].Shift(content.start)) {
        var t := FenceRange(content, fences, ranges, types, f);
        if t < s { assert ranges[t].end <= ranges[s].start; } else { assert ranges[s].end <= ranges[t].start; }
      }
    }
  }

  lemma {:induction false} RowParts(text: string, content: TextRange, parts: seq<seq<AnalysisAtom>>, ranges: seq<TextRange>,
                                    types: seq<AtomType>, maxChars: int)
    requires 0 <= content.start <= content.end <= |text| && maxChars > 0
    requires Rows(text, content, ranges) && AllOfType(types, TableRow) && PartsOf(text, parts, ranges, types, maxChars)
    ensures RowAtoms(text, Flatten(parts), maxChars)
  {
    CoversOrdered(text, content.start, content.end, ranges);
    var atoms := Flatten(parts);
    forall k | 0 <= k < |atoms| ensures atoms[k].atomType == TableRow {
      var s := AtomLiesIn(text, parts, ranges, types, maxChars, k);
    }
    forall k, i | 0 <= k < |atoms| && 0 <= i < |text| && atoms[k].range.Contains(i) ensures text[i] != '\n' {
      var s := AtomLiesIn(text, parts, ranges, types, maxChars, k);
      assert ranges[s].Contains(i);
    }
    forall k | 0 <= k < |atoms| - 1 ensures PartedRows(text, atoms[k].range, atoms[k + 1].range, maxChars) {
      var s := NeighboursCut(text, parts, ranges, types, maxChars, k);
      RowsParted(text, atoms[k].range, atoms[k + 1].range, ranges, s, maxChars);
    }
  }

  lemma {:induction false} RowsParted(text: string, a: TextRange, b: TextRange, ranges: seq<TextRange>, s: nat, maxChars: int)
    requires NoNewlineInside(text, ranges) && NewlinesBetween(text, ranges) && s < |ranges|
    requires CutWithin(text, a, b, ranges[s], maxChars) || CutBetween(a, b, ranges, s)
    ensures PartedRows(text, a, b, maxChars)
  {
    if CutBetween(a, b, ranges, s) {
      assert NewlineIn(text, ranges[s + 1 - 1].end, ranges[s + 1].start);
    } else {
      forall i | 0 <= i < |text| && a.start <= i < ranges[s].end ensures text[i] != '\n' {
        assert ranges[s].Contains(i);
      }
      assert InnerCut(text, a, b, ranges[s].end, maxChars) && !NewlineIn(text, a.start, ranges[s].end);
    }
  }

  lemma {:induction false} ParagraphParts(text: string, content: TextRange, parts: seq<seq<AnalysisAtom>>, ranges: seq<TextRange>,
                                          types: seq<AtomType>, maxChars: int)
    requires 0 <= content.start <= content.end <= |text| && maxChars > 0
    requires Paragraphs(text, content, ranges) && AllOfType(types, Paragraph) && PartsOf(text, parts, ranges, types, maxChars)
    ensures ParagraphAtoms(text, content, Flatten(parts), maxChars)
  {
    CoversOrdered(text, content.start, content.end, ranges);
    var atoms := Flatten(parts);
    forall k | 0 <= k < |atoms| ensures atoms[k].atomType == Paragraph {
      var s := AtomLiesIn(text, parts, ranges, types, maxChars, k);
    }
    forall k, i | 0 <= k < |atoms| && 0 <= i < content.end && atoms[k].range.Contains(i) ensures !SeparatorAt(text, i, content.end) {
      var s := AtomLiesIn(text, parts, ranges, types, maxChars, k);
      assert ranges[s].Contains(i);
    }
    forall k | 0 <= k < |atoms| - 1 ensures PartedParagraphs(text, content, atoms[k].range, atoms[k + 1].range, maxChars) {
      var s := NeighboursCut(text, parts, ranges, types, maxChars, k);
      ParagraphsParted(text, content, atoms[k].range, atoms[k + 1].range, ranges, s, maxChars);
    }
  }

  lemma {:induction false} ParagraphsParted(text: string, content: TextRange, a: TextRange, b: TextRange, ranges: seq<TextRange>,
                                            s: nat, maxChars: int)
    requires content.end <= |text| && s < |ranges|
    requires NoSeparatorInside(text, content.end, ranges) && SeparatorsBetween(text, content.end, ranges)
    requires CutWithin(text, a, b, ranges[s], maxChars) || CutBetween(a, b, ranges, s)
    ensures PartedParagraphs(text, content, a, b, maxChars)
  {
    if CutBetween(a, b, ranges, s) {
      assert SeparatorIn(text, ranges[s + 1 - 1].end, ranges[s + 1].start, content.end);
    } else {
      forall i | 0 <= i < content.end && a.start <= i < ranges[s].end ensures !SeparatorAt(text, i, content.end) {
        assert ranges[s].Contains(i);
      }
      assert InnerCut(text, a, b, ranges[s].end, maxChars) && !SeparatorIn(text, a.start, ranges[s].end, content.end);
    }
  }

  // What the kind of the block means for its atoms.
  ghost predicate FollowsStructure(block: ParsedBlock, policy: AtomizationPolicy, recognizer: Recognizer, content: TextRange,
                                   atoms: seq<AnalysisAtom>)
    requires 0 <= content.start <= content.end <= |block.text|
  {
    var text := block.text[content.start..content.end];
    if block.ocr then
      && (forall k :: 0 <= k < |atoms| ==> atoms[k].atomType == OcrLine)
      && (forall k :: 0 <= k < |atoms| - 1 ==> InnerCut(block.text, atoms[k].range, atoms[k + 1].range, content.end, policy.maxAtomChars))
    else if policy.preserveCodeFences && ContainsFence(text) then
      FencedAtoms(block.text, content, recognizer.fences(text), atoms, policy.maxAtomChars)
    else if policy.preserveTableRows && recognizer.isTable(block, text) then RowAtoms(block.text, atoms, policy.maxAtomChars)
    else ParagraphAtoms(block.text, content, atoms, policy.maxAtomChars)
  }

  // The atoms of a block: an OCR block is cut only for size; with fences the code atoms cover exactly the fences and the
  // others are prose outside them; a table gives rows, anything else paragraphs, neither running over a break; and two
  // neighbours that no break parts are cut only because more than the limit was left, at the safe place.
  lemma {:induction false} AtomsFollowStructure(block: ParsedBlock, policy: AtomizationPolicy, recognizer: Recognizer, atoms: seq<AnalysisAtom>)
    returns (content: TextRange)
    requires WellCut(block, policy, recognizer, atoms) && policy.maxAtomChars > 0 && !Blank(block.text, 0, |block.text|)
    ensures ContentOf(block.text, content) && FollowsStructure(block, policy, recognizer, content, atoms)
  {
    var ranges, types, parts;
    content, ranges, types, parts :| CutAs(block, policy, recognizer, content, ranges, types, parts) && atoms == Flatten(parts);
    var text := block.text[content.start..content.end];
    if block.ocr {
      OcrParts(block.text, content, parts, policy.maxAtomChars);
    } else if policy.preserveCodeFences && ContainsFence(text) {
      FencedParts(block.text, content, recognizer.fences(text), parts, ranges, types, policy.maxAtomChars);
    } else if policy.preserveTableRows && recognizer.isTable(block, text) {
      RowParts(block.text, content, parts, ranges, types, policy.maxAtomChars);
    } else {
      ParagraphParts(block.text, content, parts, ranges, types, policy.maxAtomChars);
    }
  }

  lemma {:induction false} OcrParts(text: string, content: TextRange, parts: seq<seq<AnalysisAtom>>, maxChars: int)
    requires 0 <= content.start < content.end <= |text| && maxChars > 0
    requires PartsOf(text, parts, [content], [OcrLine], maxChars)
    ensures forall k :: 0 <= k < |Flatten(parts)| ==> Flatten(parts)[k].atomType == OcrLine
    ensures forall k :: 0 <= k < |Flatten(parts)| - 1 ==>
              InnerCut(text, Flatten(parts)[k].range, Flatten(parts)[k + 1].range, content.end, maxChars)
  {
    var atoms := Flatten(parts);
    forall k | 0 <= k < |atoms| ensures atoms[k].atomType == OcrLine {
      var s := AtomLiesIn(text, parts, [content], [OcrLine], maxChars, k);
    }
    forall k | 0 <= k < |atoms| - 1 ensures InnerCut(text, atoms[k].range, atoms[k + 1].range, content.end, maxChars) {
      var s := NeighboursCut(text, parts, [content], [OcrLine], maxChars, k);
    }
  }
}
