// Half-open ranges into one text, and the small vocabulary every stage shares.
module Spans {

  // A half-open range [start, end) of character positions.
  datatype TextRange = TextRange(start: int, end: int) {
    predicate Valid() { 0 <= start <= end }

    predicate Contains(i: int) { start <= i < end }

    function Length(): int { end - start }

    function Shift(offset: int): TextRange { TextRange(start + offset, end + offset) }
  }

  predicate Overlaps(left: TextRange, right: TextRange) {
    left.start < right.end && right.start < left.end
  }

  // The code points, as ranges, for which Python's str.isspace() answers True.
  const WHITESPACE: seq<TextRange> :=
    [TextRange(0x09, 0x0E), TextRange(0x1C, 0x21), TextRange(0x85, 0x86), TextRange(0xA0, 0xA1), TextRange(0x1680, 0x1681),
     TextRange(0x2000, 0x200B), TextRange(0x2028, 0x202A), TextRange(0x202F, 0x2030), TextRange(0x205F, 0x2060),
     TextRange(0x3000, 0x3001)]

  predicate InTable(table: seq<TextRange>, code: int) {
    table != [] && (table[0].Contains(code) || InTable(table[1..], code))
  }

  predicate IsSpace(c: char) {
    InTable(WHITESPACE, c as int)
  }

  lemma {:induction false} CommonSpaces()
    ensures IsSpace('\n') && IsSpace(' ')
  {
    assert WHITESPACE[0].Contains('\n' as int);
    assert WHITESPACE[1..][0].Contains(' ' as int);
  }

  // Every character of text[lo..hi) is whitespace.
  predicate Blank(text: string, lo: int, hi: int)
    requires 0 <= lo && hi <= |text|
  {
    forall i :: lo <= i < hi ==> IsSpace(text[i])
  }

  // Spans that lie in a text of the given length, left to right and disjoint; empty spans may occur.
  predicate OrderedSpans(spans: seq<TextRange>, length: nat) {
    && (forall k :: 0 <= k < |spans| ==> 0 <= spans[k].start <= spans[k].end <= length)
    && (forall j, k :: 0 <= j < k < |spans| ==> spans[j].end <= spans[k].start)
  }
}
