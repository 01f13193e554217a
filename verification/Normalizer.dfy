// Repeated-special-character normalization and its offset map
// (apps/api/app/normalization/normalizer.py).
module Normalizer {
  import opened Options
  import opened Spans

  // The Unicode category test is an oracle: any predicate on characters.
  type CharTest = char -> bool

  datatype OffsetEntry = OffsetEntry(normalized: TextRange, original: TextRange)

  // The repeat that a request asks for when it does not say otherwise.
  const MINIMUM_REPEAT := 2

  // ---------------------------------------------------------------- specification

  // One past the last character of the block of equal characters that starts at i.
  function RunEnd(text: string, i: nat): (e: nat)
    requires i < |text|
    ensures i < e <= |text|
    decreases |text| - i
  {
    if i + 1 < |text| && text[i + 1] == text[i] then RunEnd(text, i + 1) else i + 1
  }

  // RunEnd is the one position that ends a maximal block of equal characters.
  lemma {:induction false} RunEndIsMaximal(text: string, i: nat)
    requires i < |text|
    ensures forall j :: i <= j < RunEnd(text, i) ==> text[j] == text[i]
    ensures RunEnd(text, i) < |text| ==> text[RunEnd(text, i)] != text[i]
    decreases |text| - i
  {
    if i + 1 < |text| && text[i + 1] == text[i] {
      RunEndIsMaximal(text, i + 1);
    }
  }

  lemma {:induction false} RunEndUnique(text: string, i: nat, e: nat)
    requires i < e <= |text|
    requires forall j :: i <= j < e ==> text[j] == text[i]
    requires e == |text| || text[e] != text[i]
    ensures e == RunEnd(text, i)
  {
    RunEndIsMaximal(text, i);
  }

  // The cell starting at i: a whole run of a special character when it is long enough, one character otherwise.
  function CellEnd(special: CharTest, text: string, k: int, i: nat): (e: nat)
    requires i < |text|
    ensures i < e <= |text|
  {
    if special(text[i]) && RunEnd(text, i) - i >= k then RunEnd(text, i) else i + 1
  }

  // The cells of text from position i on; each becomes one normalized character.
  function Cells(special: CharTest, text: string, k: int, i: nat): (cells: seq<TextRange>)
    requires i <= |text|
    ensures forall j :: 0 <= j < |cells| ==> i <= cells[j].start < cells[j].end <= |text|
    decreases |text| - i
  {
    if i == |text| then []
    else
      var e := CellEnd(special, text, k, i);
      [TextRange(i, e)] + Cells(special, text, k, e)
  }

  function Heads(text: string, cells: seq<TextRange>): (r: string)
    requires forall j :: 0 <= j < |cells| ==> 0 <= cells[j].start < |text|
    ensures |r| == |cells|
    ensures forall j :: 0 <= j < |cells| ==> r[j] == text[cells[j].start]
  {
    if cells == [] then "" else Heads(text, cells[..|cells| - 1]) + [text[cells[|cells| - 1].start]]
  }

  function Entries(cells: seq<TextRange>): (r: seq<OffsetEntry>)
    ensures |r| == |cells|
    ensures forall j :: 0 <= j < |cells| ==> r[j] == OffsetEntry(TextRange(j, j + 1), cells[j])
  {
    if cells == [] then []
    else
      var n := |cells| - 1;
      Entries(cells[..n]) + [OffsetEntry(TextRange(n, n + 1), cells[n])]
  }

  // Cells that tile [lo, hi) without gap or overlap.
  predicate Tiling(cells: seq<TextRange>, lo: int, hi: int) {
    && (forall j :: 0 <= j < |cells| ==> lo <= cells[j].start < cells[j].end <= hi)
    && (forall a, b :: 0 <= a < b < |cells| ==>
          cells[a].end <= cells[b].start && (b == a + 1 ==> cells[a].end == cells[b].start))
    && (if |cells| == 0 then lo == hi else cells[0].start == lo && cells[|cells| - 1].end == hi)
  }

  lemma {:induction false} CellsTile(special: CharTest, text: string, k: int, i: nat)
    requires i <= |text|
    ensures Tiling(Cells(special, text, k, i), i, |text|)
    ensures forall j :: 0 <= j < |Cells(special, text, k, i)| ==>
      Cells(special, text, k, i)[j].end == CellEnd(special, text, k, Cells(special, text, k, i)[j].start)
    decreases |text| - i
  {
    if i < |text| {
      CellsTile(special, text, k, CellEnd(special, text, k, i));
    }
  }

  function Normalized(special: CharTest, text: string, k: int): string {
    Heads(text, Cells(special, text, k, 0))
  }

  function OffsetMap(special: CharTest, text: string, k: int): seq<OffsetEntry> {
    Entries(Cells(special, text, k, 0))
  }

  // ---------------------------------------------------------------- the two loops

  lemma {:induction false} CellsStep(special: CharTest, text: string, k: int, i: nat, done: seq<TextRange>)
    requires i < |text|
    ensures var e := CellEnd(special, text, k, i);
            done + Cells(special, text, k, i) == done + [TextRange(i, e)] + Cells(special, text, k, e)
  {
    var e := CellEnd(special, text, k, i);
    assert done + ([TextRange(i, e)] + Cells(special, text, k, e)) == done + [TextRange(i, e)] + Cells(special, text, k, e);
  }

  method NormalizeBlock(special: CharTest, text: string, minimumRepeat: int)
    returns (normalized: string, mapping: seq<OffsetEntry>)
    requires minimumRepeat >= 2
    ensures normalized == Normalized(special, text, minimumRepeat)
    ensures mapping == OffsetMap(special, text, minimumRepeat)
  {
    normalized, mapping := "", [];
    var originalIndex := 0;
    ghost var done: seq<TextRange> := [];
    while originalIndex < |text|
      invariant 0 <= originalIndex <= |text|
      invariant done + Cells(special, text, minimumRepeat, originalIndex) == Cells(special, text, minimumRepeat, 0)
      invariant forall j :: 0 <= j < |done| ==> 0 <= done[j].start < |text|
      invariant normalized == Heads(text, done)
      invariant mapping == Entries(done)
    {
      var character := text[originalIndex];
      var originalEnd := originalIndex + 1;
      if special(character) {
        while originalEnd < |text| && text[originalEnd] == character
          invariant originalIndex < originalEnd <= |text|
          invariant forall j :: originalIndex <= j < originalEnd ==> text[j] == character
        {
          originalEnd := originalEnd + 1;
        }
        RunEndUnique(text, originalIndex, originalEnd);
      }
      if originalEnd - originalIndex < minimumRepeat {
        originalEnd := originalIndex + 1;
      }
      CellsStep(special, text, minimumRepeat, originalIndex, done);
      var normalizedIndex := |normalized|;
      normalized := normalized + [character];
      mapping := mapping + [OffsetEntry(TextRange(normalizedIndex, normalizedIndex + 1), TextRange(originalIndex, originalEnd))];
      done := done + [TextRange(originalIndex, originalEnd)];
      assert done[..|done| - 1] + [done[|done| - 1]] == done;
      originalIndex := originalEnd;
    }
    assert done == Cells(special, text, minimumRepeat, 0);
  }

  // ---------------------------------------------------------------- restore_original_range

  function SelectEntries(range: TextRange, offsets: seq<OffsetEntry>): seq<OffsetEntry> {
    if offsets == [] then []
    else
      var last := offsets[|offsets| - 1];
      SelectEntries(range, offsets[..|offsets| - 1])
      + (if last.normalized.start >= range.start && last.normalized.end <= range.end then [last] else [])
  }

  predicate Adjoining(entries: seq<OffsetEntry>) {
    forall left, right :: 0 <= left < |entries| && 0 <= right < |entries| && right == left + 1 ==>
      && entries[left].normalized.end == entries[right].normalized.start
      && entries[left].original.end == entries[right].original.start
  }

  function RestoreOriginalRange(range: TextRange, offsets: seq<OffsetEntry>): Option<TextRange> {
    if range.start >= range.end then None
    else
      var selected := SelectEntries(range, offsets);
      if selected == [] then None
      else if selected[0].normalized.start != range.start || selected[|selected| - 1].normalized.end != range.end then None
      else if !Adjoining(selected) then None
      else Some(TextRange(selected[0].original.start, selected[|selected| - 1].original.end))
  }

  // Over a map whose j-th entry covers normalized position j, selection is a slice.
  lemma {:induction false} SelectIsSlice(range: TextRange, offsets: seq<OffsetEntry>)
    requires 0 <= range.start < range.end
    requires forall j :: 0 <= j < |offsets| ==> offsets[j].normalized == TextRange(j, j + 1)
    ensures SelectEntries(range, offsets) ==
      if range.start >= |offsets| then []
      else offsets[range.start..if range.end < |offsets| then range.end else |offsets|]
  {
    if offsets != [] {
      SelectIsSlice(range, offsets[..|offsets| - 1]);
    }
  }

  // The original span of the cells a..b.
  function CellSpan(cells: seq<TextRange>, a: nat, b: nat): TextRange
    requires a < b <= |cells|
  {
    TextRange(cells[a].start, cells[b - 1].end)
  }

  lemma {:induction false} SliceAdjoins(cells: seq<TextRange>, hi: int, a: nat, b: nat)
    requires Tiling(cells, 0, hi) && a <= b <= |cells|
    ensures Adjoining(Entries(cells)[a..b])
  {
    var selected := Entries(cells)[a..b];
    forall left, right | 0 <= left < |selected| && 0 <= right < |selected| && right == left + 1
      ensures selected[left].normalized.end == selected[right].normalized.start
      ensures selected[left].original.end == selected[right].original.start
    {
      assert cells[a + left].end == cells[a + right].start;
    }
  }

  // Restoration over a map whose j-th entry covers normalized position j.
  lemma {:induction false} RestoreSlice(offsets: seq<OffsetEntry>, range: TextRange)
    requires 0 <= range.start < range.end
    requires forall j :: 0 <= j < |offsets| ==> offsets[j].normalized == TextRange(j, j + 1)
    ensures range.end > |offsets| ==> RestoreOriginalRange(range, offsets).None?
    ensures range.end <= |offsets| && Adjoining(offsets[range.start..range.end]) ==>
              RestoreOriginalRange(range, offsets)
              == Some(TextRange(offsets[range.start].original.start, offsets[range.end - 1].original.end))
  {
    SelectIsSlice(range, offsets);
  }

  lemma {:induction false} RestoreTiled(cells: seq<TextRange>, hi: int, range: TextRange)
    requires Tiling(cells, 0, hi) && 0 <= range.start < range.end
    ensures RestoreOriginalRange(range, Entries(cells))
            == if range.end <= |cells| then Some(CellSpan(cells, range.start, range.end)) else None
  {
    RestoreSlice(Entries(cells), range);
    if range.end <= |cells| {
      SliceAdjoins(cells, hi, range.start, range.end);
    }
  }

  // Restoration succeeds exactly on the non-empty ranges of the normalized text, and gives the span of their cells.
  lemma {:induction false} RestoreExactly(special: CharTest, text: string, k: int, range: TextRange)
    requires range.Valid()
    ensures var cells := Cells(special, text, k, 0);
            var offsets := OffsetMap(special, text, k);
            && |cells| == |Normalized(special, text, k)|
            && RestoreOriginalRange(range, offsets) ==
              if range.start < range.end <= |cells|
              then Some(CellSpan(cells, range.start, range.end)) else None
  {
    CellsTile(special, text, k, 0);
    if range.start < range.end {
      RestoreTiled(Cells(special, text, k, 0), |text|, range);
    }
  }

  // ---------------------------------------------------------------- renormalizing a restored slice

  // Inside a slice that ends at a cell border, cells are where they were in the whole text.
  lemma {:induction false} CellEndInSlice(special: CharTest, text: string, k: int, s: nat, e: nat, i: nat)
    requires k >= 2
    requires s <= i < e <= |text|
    requires CellEnd(special, text, k, i) <= e
    ensures CellEnd(special, text[s..e], k, i - s) == CellEnd(special, text, k, i) - s
  {
    var slice := text[s..e];
    var r, q := RunEnd(text, i), RunEnd(slice, i - s);
    RunEndIsMaximal(text, i);
    if r <= e {
      forall j | i - s <= j < r - s ensures slice[j] == slice[i - s] { assert text[j + s] == text[i]; }
      RunEndUnique(slice, i - s, r - s);
    } else {
      assert q <= e - s;
    }
  }

  // `slice` holds the cells a..b, moved back by s.
  predicate MovedCells(slice: seq<TextRange>, cells: seq<TextRange>, s: int, a: nat, b: nat)
    requires a <= b <= |cells|
  {
    |slice| == b - a && forall j :: 0 <= j < b - a ==> slice[j] == cells[a + j].Shift(0 - s)
  }

  lemma {:induction false} MovedFront(first: TextRange, rest: seq<TextRange>, cells: seq<TextRange>, s: int, a: nat, b: nat)
    requires a < b <= |cells| && first == cells[a].Shift(0 - s) && MovedCells(rest, cells, s, a + 1, b)
    ensures MovedCells([first] + rest, cells, s, a, b)
  {
    var slice := [first] + rest;
    forall j | 0 <= j < b - a ensures slice[j] == cells[a + j].Shift(0 - s) {
      if j > 0 { assert rest[j - 1] == cells[a + 1 + (j - 1)].Shift(0 - s); }
    }
  }

  lemma {:induction false} TilingSpan(cells: seq<TextRange>, lo: int, hi: int, a: nat, b: nat)
    requires Tiling(cells, lo, hi) && a < b <= |cells|
    ensures lo <= cells[a].start < cells[a].end <= cells[b - 1].end <= hi
    ensures a + 1 < b ==> cells[a].end == cells[a + 1].start < cells[b - 1].end
    ensures a + 1 == b ==> cells[a].end == cells[b - 1].end
  {
  }

  lemma {:induction false} CellsOfSlice(special: CharTest, text: string, k: int, s: nat, a: nat, b: nat)
    requires k >= 2
    requires var cells := Cells(special, text, k, 0); a < b <= |cells| && s <= cells[a].start
    ensures var cells := Cells(special, text, k, 0);
            && 0 <= cells[a].start <= cells[b - 1].end <= |text|
            && MovedCells(Cells(special, text[s..cells[b - 1].end], k, cells[a].start - s), cells, s, a, b)
    decreases b - a
  {
    var cells := Cells(special, text, k, 0);
    CellsTile(special, text, k, 0);
    TilingSpan(cells, 0, |text|, a, b);
    var e, next := cells[b - 1].end, cells[a].end;
    if a + 1 < b {
      CellsOfSlice(special, text, k, s, a + 1, b);
    }
    CellFront(special, text, k, s, e, cells[a].start);
    MovedFront(cells[a].Shift(0 - s), Cells(special, text[s..e], k, next - s), cells, s, a, b);
  }

  lemma {:induction false} CellFront(special: CharTest, text: string, k: int, s: nat, e: nat, i: nat)
    requires k >= 2 && s <= i < e <= |text| && CellEnd(special, text, k, i) <= e
    ensures var next := CellEnd(special, text, k, i);
            Cells(special, text[s..e], k, i - s) == [TextRange(i, next).Shift(0 - s)] + Cells(special, text[s..e], k, next - s)
  {
    CellEndInSlice(special, text, k, s, e, i);
  }

  lemma {:induction false} SameHeads(slice: string, sliceCells: seq<TextRange>, text: string, cells: seq<TextRange>, offset: nat, a: nat, b: nat)
    requires a <= b <= |cells| && |sliceCells| == b - a
    requires forall j :: 0 <= j < |cells| ==> 0 <= cells[j].start < |text|
    requires forall j :: 0 <= j < |sliceCells| ==> 0 <= sliceCells[j].start < |slice|
    requires offset + |slice| <= |text| && slice == text[offset..offset + |slice|]
    requires forall j :: 0 <= j < b - a ==> sliceCells[j] == cells[a + j].Shift(0 - offset)
    ensures Heads(slice, sliceCells) == Heads(text, cells)[a..b]
  {
    forall j | 0 <= j < b - a ensures slice[sliceCells[j].start] == text[cells[a + j].start] {
      assert sliceCells[j] == cells[a + j].Shift(0 - offset);
    }
  }

  lemma {:induction false} CellSpanInside(special: CharTest, text: string, k: int, a: nat, b: nat)
    requires a < b <= |Cells(special, text, k, 0)|
    ensures var span := CellSpan(Cells(special, text, k, 0), a, b); 0 <= span.start < span.end <= |text|
  {
    CellsTile(special, text, k, 0);
    TilingSpan(Cells(special, text, k, 0), 0, |text|, a, b);
  }

  lemma {:induction false} CellStartsInside(special: CharTest, text: string, k: int)
    ensures forall j :: 0 <= j < |Cells(special, text, k, 0)| ==> 0 <= Cells(special, text, k, 0)[j].start < |text|
  {
    var cells := Cells(special, text, k, 0);
    forall j | 0 <= j < |cells| ensures 0 <= cells[j].start < |text| {
      CellSpanInside(special, text, k, j, j + 1);
    }
  }

  // Normalizing the original slice under the cells a..b gives back the normalized characters a..b.
  lemma {:induction false} NormalizeCellSpan(special: CharTest, text: string, k: int, a: nat, b: nat, span: TextRange)
    requires k >= 2
    requires a < b <= |Cells(special, text, k, 0)| && span == CellSpan(Cells(special, text, k, 0), a, b)
    ensures 0 <= span.start < span.end <= |text|
    ensures Normalized(special, text[span.start..span.end], k) == Normalized(special, text, k)[a..b]
  {
    CellSpanInside(special, text, k, a, b);
    CellsOfSlice(special, text, k, span.start, a, b);
    var slice := text[span.start..span.end];
    CellStartsInside(special, text, k);
    CellStartsInside(special, slice, k);
    SameHeads(slice, Cells(special, slice, k, 0), text, Cells(special, text, k, 0), span.start, a, b);
  }

  // Round trip: cutting out what a normalized range stands for and normalizing again gives that range's text.
  lemma {:induction false} RestoreThenNormalize(special: CharTest, text: string, k: int, a: nat, b: nat)
    requires k >= 2
    requires a < b <= |Normalized(special, text, k)|
    ensures var restored := RestoreOriginalRange(TextRange(a, b), OffsetMap(special, text, k));
            && restored.Some?
            && 0 <= restored.value.start < restored.value.end <= |text|
            && Normalized(special, text[restored.value.start..restored.value.end], k) == Normalized(special, text, k)[a..b]
  {
    RestoreExactly(special, text, k, TextRange(a, b));
    NormalizeCellSpan(special, text, k, a, b, CellSpan(Cells(special, text, k, 0), a, b));
  }

  // ---------------------------------------------------------------- idempotence

  // A special character repeated in the normalized text stands in a run of the text that was too short to collapse.
  lemma {:induction false} RunsStayShort(special: CharTest, text: string, k: int, p: nat)
    requires k >= 2
    requires p < |Normalized(special, text, k)|
    requires special(Normalized(special, text, k)[p])
    ensures var c := Cells(special, text, k, 0)[p].start;
            0 <= c < |text| && RunEnd(Normalized(special, text, k), p) - p > 1 ==>
              RunEnd(Normalized(special, text, k), p) - p <= RunEnd(text, c) - c < k
    decreases |Normalized(special, text, k)| - p
  {
    var cells := Cells(special, text, k, 0);
    var norm := Normalized(special, text, k);
    CellsTile(special, text, k, 0);
    if p + 1 < |norm| && norm[p + 1] == norm[p] {
      var c := cells[p].start;
      RunEndIsMaximal(text, c);
      assert cells[p].end == CellEnd(special, text, k, c) == cells[p + 1].start;
      RunsStayShort(special, text, k, p + 1);
    }
  }

  lemma {:induction false} CellsOfShortRuns(special: CharTest, norm: string, k: int, p: nat)
    requires k >= 2 && p <= |norm|
    requires forall j :: p <= j < |norm| && special(norm[j]) ==> RunEnd(norm, j) - j < k
    ensures |Cells(special, norm, k, p)| == |norm| - p
    ensures forall j :: 0 <= j < |norm| - p ==> Cells(special, norm, k, p)[j] == TextRange(p + j, p + j + 1)
    decreases |norm| - p
  {
    if p < |norm| {
      CellsOfShortRuns(special, norm, k, p + 1);
    }
  }

  lemma {:induction false} Idempotent(special: CharTest, text: string, k: int)
    requires k >= 2
    ensures Normalized(special, Normalized(special, text, k), k) == Normalized(special, text, k)
  {
    var norm := Normalized(special, text, k);
    forall j | 0 <= j < |norm| && special(norm[j]) ensures RunEnd(norm, j) - j < k {
      CellsTile(special, text, k, 0);
      RunsStayShort(special, text, k, j);
    }
    CellsOfShortRuns(special, norm, k, 0);
  }

  // ---------------------------------------------------------------- the offset map as a whole

  // The map tiles the original text, one entry to each normalized position.
  lemma {:induction false} OffsetMapTiles(special: CharTest, text: string, k: int)
    ensures var cells := Cells(special, text, k, 0);
            var m := OffsetMap(special, text, k);
            && Tiling(cells, 0, |text|)
            && |m| == |Normalized(special, text, k)| == |cells|
            && forall j :: 0 <= j < |m| ==> m[j] == OffsetEntry(TextRange(j, j + 1), cells[j])
  {
    CellsTile(special, text, k, 0);
  }

  // Whatever an entry collapses equals the one character it collapses to.
  lemma {:induction false} EntryCharacters(special: CharTest, text: string, k: int, j: nat, i: int)
    requires j < |Normalized(special, text, k)|
    requires OffsetMap(special, text, k)[j].original.Contains(i)
    ensures 0 <= i < |text| && text[i] == Normalized(special, text, k)[j]
  {
    CellsTile(special, text, k, 0);
    RunEndIsMaximal(text, Cells(special, text, k, 0)[j].start);
  }

  lemma {:induction false} CellSpansOrdered(special: CharTest, text: string, k: int, left: TextRange, right: TextRange)
    requires 0 <= left.start < left.end <= right.start < right.end <= |Cells(special, text, k, 0)|
    ensures var cells := Cells(special, text, k, 0);
            var l, r := CellSpan(cells, left.start, left.end), CellSpan(cells, right.start, right.end);
            0 <= l.start < l.end <= r.start < r.end <= |text|
  {
    CellsTile(special, text, k, 0);
  }

  // Disjoint normalized ranges restore to disjoint original ranges in the same order.
  lemma {:induction false} RestorePreservesOrder(special: CharTest, text: string, k: int, left: TextRange, right: TextRange)
    requires 0 <= left.start < left.end <= right.start < right.end <= |Normalized(special, text, k)|
    ensures var m := OffsetMap(special, text, k);
            var l, r := RestoreOriginalRange(left, m), RestoreOriginalRange(right, m);
            && l.Some? && r.Some?
            && 0 <= l.value.start < l.value.end <= r.value.start < r.value.end <= |text|
  {
    RestoreExactly(special, text, k, left);
    RestoreExactly(special, text, k, right);
    CellSpansOrdered(special, text, k, left, right);
  }
}
