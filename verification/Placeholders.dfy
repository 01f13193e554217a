// Numbering placeholders and splicing them into the text (apps/api/app/masking/placeholder.py:13-73).
module Placeholders {
  import opened Spans
  import opened Masking

  // ---------------------------------------------------------------- the value a placeholder stands for

  function WordEnd(s: string, i: nat): (e: nat)
    requires i <= |s|
    ensures i <= e <= |s| && (e < |s| ==> IsSpace(s[e])) && forall j :: i <= j < e ==> !IsSpace(s[j])
    decreases |s| - i
  {
    if i < |s| && !IsSpace(s[i]) then WordEnd(s, i + 1) else i
  }

  // str.split()
  function Words(s: string): seq<string>
    decreases |s|
  {
    if s == "" then []
    else if IsSpace(s[0]) then Words(s[1..])
    else
      var e := WordEnd(s, 0);
      [s[..e]] + Words(s[e..])
  }

  // " ".join(words)
  function Join(words: seq<string>): string {
    if words == [] then "" else if |words| == 1 then words[0] else words[0] + " " + Join(words[1..])
  }

  function NormalizedSensitiveValue(value: string): string {
    Join(Words(value))
  }

  predicate IsWord(w: string) {
    w != "" && forall i :: 0 <= i < |w| ==> !IsSpace(w[i])
  }

  lemma {:induction false} WordsAreWords(s: string)
    ensures forall k :: 0 <= k < |Words(s)| ==> IsWord(Words(s)[k])
    decreases |s|
  {
    if s != "" {
      if IsSpace(s[0]) { WordsAreWords(s[1..]); }
      else { WordsAreWords(s[WordEnd(s, 0)..]); }
    }
  }

  lemma {:induction false} WordEndAt(s: string, i: nat, e: nat)
    requires i <= e <= |s| && (forall j :: i <= j < e ==> !IsSpace(s[j])) && (e == |s| || IsSpace(s[e]))
    ensures WordEnd(s, i) == e
    decreases e - i
  {
    if i < e { WordEndAt(s, i + 1, e); }
  }

  lemma {:induction false} WordsOfJoin(words: seq<string>)
    requires forall k :: 0 <= k < |words| ==> IsWord(words[k])
    ensures Words(Join(words)) == words
  {
    if words != [] {
      var w, s := words[0], Join(words);
      assert IsWord(w) && s[..|w|] == w;
      CommonSpaces();
      WordEndAt(s, 0, |w|);
      if |words| > 1 {
        var rest := Join(words[1..]);
        assert s[|w|..] == " " + rest && (" " + rest)[1..] == rest;
        assert forall k :: 0 <= k < |words[1..]| ==> IsWord(words[1..][k]);
        WordsOfJoin(words[1..]);
      } else {
        assert s[|w|..] == "";
      }
    }
  }

  // The words are the pieces between whitespace: nothing is a word of the empty text, a text without whitespace is its only
  // word, and at any whitespace character the text falls into two.
  lemma {:induction false} WordsOfWord(w: string)
    requires forall i :: 0 <= i < |w| ==> !IsSpace(w[i])
    ensures Words(w) == if w == "" then [] else [w]
  {
    if w != "" {
      WordEndAt(w, 0, |w|);
      assert w[..|w|] == w && w[|w|..] == "";
    }
  }

  lemma {:induction false} WordsSplit(s: string, i: nat)
    requires i < |s| && IsSpace(s[i])
    ensures Words(s) == Words(s[..i]) + Words(s[i + 1..])
    decreases |s|
  {
    if IsSpace(s[0]) {
      if i > 0 {
        assert s[1..][..i - 1] == s[..i][1..] && s[1..][i..] == s[i + 1..];
        WordsSplit(s[1..], i - 1);
      }
    } else {
      var e := WordEnd(s, 0);
      assert e <= i;
      WordEndAt(s[..i], 0, e);
      assert s[..i][..e] == s[..e] && s[..i][e..] == s[e..][..i - e] && s[e..][i - e + 1..] == s[i + 1..];
      WordsSplit(s[e..], i - e);
    }
  }

  // Two values normalize alike exactly when they have the same words, however those are spaced.
  lemma {:induction false} SameValueIffSameWords(a: string, b: string)
    ensures NormalizedSensitiveValue(a) == NormalizedSensitiveValue(b) <==> Words(a) == Words(b)
    ensures NormalizedSensitiveValue(NormalizedSensitiveValue(a)) == NormalizedSensitiveValue(a)
  {
    WordsAreWords(a);
    WordsAreWords(b);
    WordsOfJoin(Words(a));
    WordsOfJoin(Words(b));
  }

  // ---------------------------------------------------------------- "[prefix_number]"

  const DIGITS := "0123456789"

  function Decimal(n: nat): (s: string)
    ensures s != "" && forall i :: 0 <= i < |s| ==> s[i] in DIGITS
  {
    if n < 10 then [DIGITS[n]] else Decimal(n / 10) + [DIGITS[n % 10]]
  }

  lemma {:induction false} DecimalInjective(a: nat, b: nat)
    requires Decimal(a) == Decimal(b)
    ensures a == b
  {
    var s, t := Decimal(a), Decimal(b);
    assert s[|s| - 1] == DIGITS[a % 10] && t[|t| - 1] == DIGITS[b % 10];
    if a >= 10 && b >= 10 {
      assert s[..|s| - 1] == Decimal(a / 10) && t[..|t| - 1] == Decimal(b / 10);
      DecimalInjective(a / 10, b / 10);
    }
  }

  // The number that a string of digits stands for.
  function ValueOf(digits: string): int {
    if digits == "" then 0 else 10 * ValueOf(digits[..|digits| - 1]) + (digits[|digits| - 1] as int - '0' as int)
  }

  lemma {:induction false} DecimalValue(n: nat)
    ensures ValueOf(Decimal(n)) == n && (n > 0 ==> Decimal(n)[0] != '0')
  {
    var s := Decimal(n);
    if n >= 10 {
      DecimalValue(n / 10);
      assert s[..|s| - 1] == Decimal(n / 10);
    } else {
      assert s[..0] == "";
    }
  }

  function Render(prefix: string, n: nat): string {
    "[" + prefix + "_" + Decimal(n) + "]"
  }

  lemma {:induction false} RenderShorter(p: string, m: nat, q: string, n: nat)
    requires |p| < |q|
    ensures Render(p, m) != Render(q, n)
  {
    var s, t, d := Render(p, m), Render(q, n), Decimal(m);
    if |s| == |t| {
      assert t[1 + |q|] == '_';
      assert s[1 + |q|] == d[|q| - |p| - 1];
      assert d[|q| - |p| - 1] in DIGITS;
    }
  }

  // A placeholder names its prefix and its number, even when a prefix itself ends in "_" and digits.
  lemma {:induction false} RenderInjective(p: string, m: nat, q: string, n: nat)
    requires Render(p, m) == Render(q, n)
    ensures p == q && m == n
  {
    var s := Render(p, m);
    if |p| < |q| { RenderShorter(p, m, q, n); }
    if |q| < |p| { RenderShorter(q, n, p, m); }
    assert p == s[1..1 + |p|] == q;
    assert Decimal(m) == s[2 + |p|..|s| - 1] == Decimal(n);
    DecimalInjective(m, n);
  }

  // ---------------------------------------------------------------- which number a value gets

  datatype Key = Key(prefix: string, value: string)

  // How many different values with this prefix the keys hold.
  function DistinctWith(keys: seq<Key>, prefix: string): nat {
    if keys == [] then 0
    else
      var n := |keys| - 1;
      DistinctWith(keys[..n], prefix) + if keys[n].prefix == prefix && keys[n] !in keys[..n] then 1 else 0
  }

  // The place of the key's value among the different values of its prefix, by first appearance.
  function NumberOf(keys: seq<Key>, key: Key): nat
    requires key in keys
  {
    var n := |keys| - 1;
    if key in keys[..n] then NumberOf(keys[..n], key) else DistinctWith(keys, key.prefix)
  }

  lemma {:induction false} NumberInRange(keys: seq<Key>, key: Key)
    requires key in keys
    ensures 1 <= NumberOf(keys, key) <= DistinctWith(keys, key.prefix)
  {
    var n := |keys| - 1;
    if key in keys[..n] { NumberInRange(keys[..n], key); }
  }

  // Different values of one prefix get different numbers.
  lemma {:induction false} NumbersDiffer(keys: seq<Key>, a: Key, b: Key)
    requires a in keys && b in keys && a.prefix == b.prefix && a != b
    ensures NumberOf(keys, a) != NumberOf(keys, b)
  {
    var n := |keys| - 1;
    if a in keys[..n] && b in keys[..n] {
      NumbersDiffer(keys[..n], a, b);
    } else if a in keys[..n] {
      NumberInRange(keys[..n], a);
    } else {
      NumberInRange(keys[..n], b);
    }
  }

  // Every number from 1 to the count is used.
  lemma {:induction false} NumbersReach(keys: seq<Key>, prefix: string, number: nat) returns (key: Key)
    requires 1 <= number <= DistinctWith(keys, prefix)
    ensures key in keys && key.prefix == prefix && NumberOf(keys, key) == number
  {
    var n := |keys| - 1;
    if number <= DistinctWith(keys[..n], prefix) {
      key := NumbersReach(keys[..n], prefix, number);
    } else {
      key := keys[n];
    }
  }

  // Numbers follow first appearance: a value seen in the first i keys has a smaller number than one first seen later.
  lemma {:induction false} NumbersFollowAppearance(keys: seq<Key>, i: nat, a: Key, b: Key)
    requires i <= |keys| && a in keys[..i] && b in keys && b !in keys[..i] && a.prefix == b.prefix
    ensures a in keys && NumberOf(keys, a) < NumberOf(keys, b)
    decreases |keys|
  {
    var n := |keys| - 1;
    assert keys[..|keys|] == keys;
    assert keys[..n][..i] == keys[..i];
    if b in keys[..n] {
      NumbersFollowAppearance(keys[..n], i, a, b);
    } else {
      NumberInRange(keys[..n], a);
    }
  }

  // A number once given does not change as more keys come.
  lemma {:induction false} NumbersStay(keys: seq<Key>, i: nat, key: Key)
    requires i <= |keys| && key in keys[..i]
    ensures key in keys && NumberOf(keys, key) == NumberOf(keys[..i], key)
    decreases |keys|
  {
    if i < |keys| {
      var n := |keys| - 1;
      assert keys[..n][..i] == keys[..i];
      NumbersStay(keys[..n], i, key);
    } else {
      assert keys[..i] == keys;
    }
  }

  function PlaceholderOf(keys: seq<Key>, key: Key): string
    requires key in keys
  {
    Render(key.prefix, NumberOf(keys, key))
  }

  // Two values share a placeholder exactly when they are the same value under the same prefix.
  lemma {:induction false} SamePlaceholderIffSameKey(keys: seq<Key>, a: Key, b: Key)
    requires a in keys && b in keys
    ensures PlaceholderOf(keys, a) == PlaceholderOf(keys, b) <==> a == b
  {
    if PlaceholderOf(keys, a) == PlaceholderOf(keys, b) && a != b {
      RenderInjective(a.prefix, NumberOf(keys, a), b.prefix, NumberOf(keys, b));
      NumbersDiffer(keys, a, b);
    }
  }

  // The two dictionaries that build_placeholder updates in place.
  class PlaceholderBook {
    var assignments: map<Key, string>
    var counters: map<string, nat>
    // the keys asked for so far
    ghost var keys: seq<Key>

    ghost predicate Valid()
      reads this
    {
      && (forall key :: key in assignments <==> key in keys)
      && (forall key :: key in keys ==> assignments[key] == PlaceholderOf(keys, key))
      && (forall prefix :: (if prefix in counters then counters[prefix] else 0) == DistinctWith(keys, prefix))
    }

    constructor ()
      ensures Valid() && keys == []
    {
      assignments, counters, keys := map[], map[], [];
    }

    method BuildPlaceholder(key: Key) returns (placeholder: string)
      requires Valid()
      modifies this
      ensures Valid() && keys == old(keys) + [key]
      ensures placeholder == PlaceholderOf(keys, key)
    {
      ghost var grown := keys + [key];
      assert grown[..|keys|] == keys;
      forall k | k in keys ensures k in grown && PlaceholderOf(grown, k) == PlaceholderOf(keys, k) {
        NumbersStay(grown, |keys|, k);
      }
      if key in assignments {
        keys := grown;
        return assignments[key];
      }
      counters := counters[key.prefix := (if key.prefix in counters then counters[key.prefix] else 0) + 1];
      placeholder := Render(key.prefix, counters[key.prefix]);
      assignments := assignments[key := placeholder];
      keys := grown;
    }
  }

  // ---------------------------------------------------------------- splicing

  datatype Replacement = Replacement(start: int, end: int, placeholder: string, raw: string)

  // s[:i] and s[i:], which Python clamps at the end of the string.
  function Head(s: string, i: int): string {
    if i <= 0 then "" else if i >= |s| then s else s[..i]
  }

  function Tail(s: string, i: int): string {
    if i <= 0 then s else if i >= |s| then "" else s[i..]
  }

  // The replacements lie in the text from `cursor` on, left to right and disjoint, and record what they replace.
  ghost predicate InText(text: string, rs: seq<Replacement>, cursor: int) {
    if rs == [] then 0 <= cursor <= |text|
    else
      && 0 <= cursor <= rs[0].start < rs[0].end <= |text|
      && rs[0].raw == text[rs[0].start..rs[0].end]
      && InText(text, rs[1..], rs[0].end)
  }

  // Untouched gaps and placeholders, left to right.
  ghost function Interleave(text: string, rs: seq<Replacement>, cursor: int): string
    requires InText(text, rs, cursor)
    decreases |rs|
  {
    if rs == [] then text[cursor..]
    else text[cursor..rs[0].start] + rs[0].placeholder + Interleave(text, rs[1..], rs[0].end)
  }

  // Reading the masked text with the record of replacements at hand and putting the raw values back.
  function Unmask(masked: string, rs: seq<Replacement>, cursor: int): string
    decreases |rs|
  {
    if rs == [] then masked
    else
      var gap := rs[0].start - cursor;
      Head(masked, gap) + rs[0].raw + Unmask(Tail(Tail(masked, gap), |rs[0].placeholder|), rs[1..], rs[0].end)
  }

  lemma {:induction false} UnmaskRestores(text: string, rs: seq<Replacement>, cursor: int)
    requires InText(text, rs, cursor)
    ensures 0 <= cursor <= |text|
    ensures Unmask(Interleave(text, rs, cursor), rs, cursor) == text[cursor..]
    decreases |rs|
  {
    if rs != [] {
      var r := rs[0];
      UnmaskRestores(text, rs[1..], r.end);
      var gap, rest := text[cursor..r.start], Interleave(text, rs[1..], r.end);
      assert Interleave(text, rs, cursor) == gap + r.placeholder + rest && |gap| == r.start - cursor;
      CutsApart(gap, r.placeholder, rest);
      assert Unmask(gap + r.placeholder + rest, rs, cursor) == gap + r.raw + Unmask(rest, rs[1..], r.end);
      TextSplits(text, cursor, r.start, r.end);
    }
  }

  lemma {:induction false} TextSplits(text: string, a: nat, b: nat, c: nat)
    requires a <= b <= c <= |text|
    ensures text[a..] == text[a..b] + text[b..c] + text[c..]
  {
  }

  lemma {:induction false} CutsApart(gap: string, placeholder: string, rest: string)
    ensures var masked := gap + placeholder + rest;
            Head(masked, |gap|) == gap && Tail(Tail(masked, |gap|), |placeholder|) == rest
  {
    assert gap + placeholder + rest == gap + (placeholder + rest);
    assert Tail(gap + (placeholder + rest), |gap|) == placeholder + rest;
  }

  ghost function CursorAt(rs: seq<Replacement>, j: nat): int
    requires j <= |rs|
  {
    if j == 0 then 0 else rs[j - 1].end
  }

  lemma {:induction false} InTextFrom(text: string, rs: seq<Replacement>, cursor: int, j: nat)
    requires InText(text, rs, cursor) && j <= |rs|
    ensures InText(text, rs[j..], if j == 0 then cursor else rs[j - 1].end)
    decreases |rs|
  {
    if j > 0 {
      InTextFrom(text, rs[1..], rs[0].end, j - 1);
      assert rs[1..][j - 1..] == rs[j..];
    } else {
      assert rs[0..] == rs;
    }
  }

  // One step of the right-to-left loop.
  lemma {:induction false} SpliceStep(text: string, rs: seq<Replacement>, j: nat, masked: string)
    requires InText(text, rs, 0) && j < |rs|
    requires InText(text, rs[j + 1..], rs[j].end) && rs[j].end <= |text|
    requires masked == text[..rs[j].end] + Interleave(text, rs[j + 1..], rs[j].end)
    ensures InText(text, rs[j..], CursorAt(rs, j)) && 0 <= CursorAt(rs, j) <= |text|
    ensures Head(masked, rs[j].start) + rs[j].placeholder + Tail(masked, rs[j].end)
         == text[..CursorAt(rs, j)] + Interleave(text, rs[j..], CursorAt(rs, j))
  {
    InTextFrom(text, rs, 0, j);
    var r, c, rest := rs[j], CursorAt(rs, j), Interleave(text, rs[j + 1..], rs[j].end);
    assert rs[j..][1..] == rs[j + 1..];
    assert Head(masked, r.start) == text[..r.start];
    assert Tail(masked, r.end) == rest;
    assert text[..r.start] == text[..c] + text[c..r.start];
    assert text[..c] + (text[c..r.start] + r.placeholder + rest) == text[..c] + text[c..r.start] + r.placeholder + rest;
  }

  // The replacement loop: from the last to the first, each slice clamped to the string as it is by then.
  function Spliced(masked: string, rs: seq<Replacement>): string
    decreases |rs|
  {
    if rs == [] then masked
    else
      var last := rs[|rs| - 1];
      Spliced(Head(masked, last.start) + last.placeholder + Tail(masked, last.end), rs[..|rs| - 1])
  }

  lemma {:induction false} SplicedFrom(text: string, rs: seq<Replacement>, j: nat, masked: string)
    requires InText(text, rs, 0) && j <= |rs|
    requires InText(text, rs[j..], CursorAt(rs, j)) && 0 <= CursorAt(rs, j) <= |text|
    requires masked == text[..CursorAt(rs, j)] + Interleave(text, rs[j..], CursorAt(rs, j))
    ensures Spliced(masked, rs[..j]) == Interleave(text, rs, 0)
    decreases j
  {
    if j == 0 {
      assert rs[0..] == rs;
    } else {
      var last := rs[j - 1];
      SpliceStep(text, rs, j - 1, masked);
      SplicedFrom(text, rs, j - 1, Head(masked, last.start) + last.placeholder + Tail(masked, last.end));
      assert rs[..j][..j - 1] == rs[..j - 1];
    }
  }

  // Right-to-left replacement in place equals the left-to-right interleaving.
  lemma {:induction false} SplicedIsInterleaved(text: string, rs: seq<Replacement>)
    requires InText(text, rs, 0)
    ensures Spliced(text, rs) == Interleave(text, rs, 0)
  {
    InTextFrom(text, rs, 0, |rs|);
    assert rs[|rs|..] == [] && rs[..|rs|] == rs;
    assert text == text[..CursorAt(rs, |rs|)] + text[CursorAt(rs, |rs|)..];
    SplicedFrom(text, rs, |rs|, text);
  }

  method Splice(text: string, rs: seq<Replacement>) returns (masked: string)
    ensures masked == Spliced(text, rs)
  {
    masked := text;
    var j := |rs|;
    assert rs[..|rs|] == rs;
    while j > 0
      invariant 0 <= j <= |rs| && Spliced(masked, rs[..j]) == Spliced(text, rs)
    {
      j := j - 1;
      assert rs[..j + 1][..j] == rs[..j];
      masked := Head(masked, rs[j].start) + rs[j].placeholder + Tail(masked, rs[j].end);
    }
  }

  // ---------------------------------------------------------------- apply_placeholders

  datatype MaskedText = MaskedText(text: string, placeholderCounts: map<string, nat>, appliedCount: nat)

  function PlaceholderPrefix(d: Detection): string {
    if d.placeholder != "" then d.placeholder else d.detectorKey
  }

  function RawValue(text: string, d: Detection): string {
    Head(Tail(text, d.start), d.end - d.start)
  }

  // What the loop needs to know of a detection: where it is, what it covers and under which key it is numbered.
  datatype Item = Item(start: int, end: int, raw: string, key: Key)

  function ItemOf(text: string, d: Detection): Item {
    var raw := RawValue(text, d);
    Item(d.start, d.end, raw, Key(PlaceholderPrefix(d), NormalizedSensitiveValue(raw)))
  }

  function ItemsOf(text: string, ds: seq<Detection>): (items: seq<Item>)
    ensures |items| == |ds| && forall i :: 0 <= i < |ds| ==> items[i] == ItemOf(text, ds[i])
  {
    if ds == [] then [] else ItemsOf(text, ds[..|ds| - 1]) + [ItemOf(text, ds[|ds| - 1])]
  }

  function Keys(items: seq<Item>): (keys: seq<Key>)
    ensures |keys| == |items| && forall i :: 0 <= i < |items| ==> keys[i] == items[i].key
  {
    if items == [] then [] else Keys(items[..|items| - 1]) + [items[|items| - 1].key]
  }

  function ReplacementFor(item: Item, placeholder: string): Replacement {
    Replacement(item.start, item.end, placeholder, item.raw)
  }

  // One replacement for each item, under the placeholder that its key has among all keys.
  ghost function Replacements(items: seq<Item>): (rs: seq<Replacement>)
    ensures |rs| == |items|
    ensures forall i :: 0 <= i < |items| ==>
              items[i].key in Keys(items) && rs[i] == ReplacementFor(items[i], PlaceholderOf(Keys(items), items[i].key))
  {
    seq(|items|, i requires 0 <= i < |items| && items[i].key in Keys(items) =>
      ReplacementFor(items[i], PlaceholderOf(Keys(items), items[i].key)))
  }

  lemma {:induction false} LastReplacement(items: seq<Item>)
    requires items != []
    ensures var last := items[|items| - 1];
            && last.key in Keys(items)
            && Replacements(items)[|items| - 1] == ReplacementFor(last, PlaceholderOf(Keys(items), last.key))
  {
  }

  lemma {:induction false} EarlierReplacements(items: seq<Item>)
    requires items != []
    ensures Replacements(items)[..|items| - 1] == Replacements(items[..|items| - 1])
  {
    var n := |items| - 1;
    var all, before := Replacements(items), Replacements(items[..n]);
    forall j | 0 <= j < n ensures all[j] == before[j] {
      ReplacementStays(items, n, j);
    }
  }

  lemma {:induction false} KeysNext(items: seq<Item>, i: nat)
    requires i < |items|
    ensures Keys(items[..i + 1]) == Keys(items[..i]) + [items[i].key]
  {
    assert items[..i + 1][..i] == items[..i];
  }

  // One item more leaves the replacements made so far as they are.
  lemma {:induction false} NextReplacement(items: seq<Item>, i: nat)
    requires i < |items|
    ensures items[i].key in Keys(items[..i + 1])
    ensures Replacements(items[..i + 1])
            == Replacements(items[..i]) + [ReplacementFor(items[i], PlaceholderOf(Keys(items[..i + 1]), items[i].key))]
  {
    var more := items[..i + 1];
    assert more[..i] == items[..i] && more[i] == items[i];
    LastReplacement(more);
    EarlierReplacements(more);
    var all := Replacements(more);
    assert all == all[..i] + [all[i]];
  }

  lemma {:induction false} ReplacementStays(items: seq<Item>, i: nat, j: nat)
    requires j < i <= |items|
    ensures Replacements(items)[j] == Replacements(items[..i])[j]
  {
    var before := items[..i];
    assert Keys(items)[..i] == Keys(before) && before[j] == items[j];
    NumbersStay(Keys(items), i, items[j].key);
  }

  function Occurrences(rs: seq<Replacement>, placeholder: string): nat {
    if rs == [] then 0
    else Occurrences(rs[..|rs| - 1], placeholder) + if rs[|rs| - 1].placeholder == placeholder then 1 else 0
  }

  ghost predicate CountsFor(rs: seq<Replacement>, counts: map<string, nat>) {
    forall p :: Count(counts, p) == Occurrences(rs, p) && (p in counts ==> counts[p] > 0)
  }

  function Count(counts: map<string, nat>, placeholder: string): nat {
    if placeholder in counts then counts[placeholder] else 0
  }

  method ApplyPlaceholders(text: string, detections: seq<Detection>) returns (result: MaskedText)
    ensures var rs := Replacements(ItemsOf(text, Selected(detections)));
            && result.text == Spliced(text, rs)
            && (InText(text, rs, 0) ==> result.text == Interleave(text, rs, 0))
            && CountsFor(rs, result.placeholderCounts)
            && result.appliedCount == |Selected(detections)| == |rs|
  {
    var ds := NonOverlappingDetections(detections);
    var replacements, counts := MakeReplacements(ItemsOf(text, ds));
    var masked := Splice(text, replacements);
    if InText(text, replacements, 0) { SplicedIsInterleaved(text, replacements); }
    result := MaskedText(masked, counts, |replacements|);
  }

  // One round of the first loop.
  method AddReplacement(book: PlaceholderBook, item: Item, replacements: seq<Replacement>, counts: map<string, nat>)
    returns (more: seq<Replacement>, newCounts: map<string, nat>)
    requires book.Valid() && CountsFor(replacements, counts)
    modifies book
    ensures book.Valid() && book.keys == old(book.keys) + [item.key]
    ensures more == replacements + [ReplacementFor(item, PlaceholderOf(book.keys, item.key))]
    ensures CountsFor(more, newCounts)
  {
    var placeholder := book.BuildPlaceholder(item.key);
    more := replacements + [ReplacementFor(item, placeholder)];
    newCounts := counts[placeholder := Count(counts, placeholder) + 1];
  }

  // The first loop: placeholders, replacements and counts.
  method MakeReplacements(items: seq<Item>) returns (replacements: seq<Replacement>, counts: map<string, nat>)
    ensures replacements == Replacements(items) && CountsFor(replacements, counts)
  {
    var book := new PlaceholderBook();
    replacements, counts := [], map[];
    for i := 0 to |items|
      invariant fresh(book) && book.Valid() && book.keys == Keys(items[..i])
      invariant replacements == Replacements(items[..i]) && CountsFor(replacements, counts)
    {
      NextReplacement(items, i);
      KeysNext(items, i);
      replacements, counts := AddReplacement(book, items[i], replacements, counts);
    }
    assert items[..|items|] == items;
  }

  // ---------------------------------------------------------------- what masking promises

  // The items lie in the text from `cursor` on, left to right and disjoint, and hold what they cover.
  ghost predicate ItemsInText(text: string, items: seq<Item>, cursor: int) {
    if items == [] then 0 <= cursor <= |text|
    else
      && 0 <= cursor <= items[0].start < items[0].end <= |text|
      && items[0].raw == text[items[0].start..items[0].end]
      && ItemsInText(text, items[1..], items[0].end)
  }

  lemma {:induction false} ReplacementsInText(text: string, items: seq<Item>, rs: seq<Replacement>, cursor: int)
    requires ItemsInText(text, items, cursor) && |rs| == |items|
    requires forall i :: 0 <= i < |items| ==> rs[i] == ReplacementFor(items[i], rs[i].placeholder)
    ensures InText(text, rs, cursor)
    decreases |items|
  {
    if items != [] { ReplacementsInText(text, items[1..], rs[1..], items[0].end); }
  }

  // All detections end inside the text.
  ghost predicate EndInText(text: string, ds: seq<Detection>) {
    forall i :: 0 <= i < |ds| ==> ds[i].end <= |text|
  }

  lemma {:induction false} ItemsStep(text: string, item: Item, rest: seq<Item>, cursor: int)
    requires 0 <= cursor <= item.start < item.end <= |text| && item.raw == text[item.start..item.end]
    requires ItemsInText(text, rest, item.end)
    ensures ItemsInText(text, [item] + rest, cursor)
  {
    assert ([item] + rest)[1..] == rest;
  }

  lemma {:induction false} RangesInText(text: string, ds: seq<Detection>, items: seq<Item>, i: nat)
    requires Ranges(ds) && EndInText(text, ds) && i <= |ds| == |items|
    requires forall k :: 0 <= k < |ds| ==> items[k] == ItemOf(text, ds[k])
    ensures ItemsInText(text, items[i..], if i == 0 then 0 else ds[i - 1].end)
    decreases |ds| - i
  {
    if i < |ds| {
      RangesInText(text, ds, items, i + 1);
      RawInText(text, ds[i]);
      assert items[i..] == [items[i]] + items[i + 1..];
      assert items[i] == ItemOf(text, ds[i]) && ValidDetection(ds[i]);
      ItemsStep(text, items[i], items[i + 1..], if i == 0 then 0 else ds[i - 1].end);
    } else {
      assert items[i..] == [];
    }
  }

  lemma {:induction false} RawInText(text: string, d: Detection)
    requires ValidDetection(d) && d.end <= |text|
    ensures RawValue(text, d) == text[d.start..d.end]
  {
  }

  // For detections that end inside the text: the masked text is the interleaving of gaps and placeholders, and putting
  // the raw values back gives the original text.
  lemma {:induction false} MaskingRoundTrip(text: string, detections: seq<Detection>)
    requires EndInText(text, detections)
    ensures var rs := Replacements(ItemsOf(text, Selected(detections)));
            InText(text, rs, 0) && Unmask(Interleave(text, rs, 0), rs, 0) == text
  {
    var ds := Selected(detections);
    var items := ItemsOf(text, ds);
    SelectedRanges(detections);
    forall i | 0 <= i < |ds| ensures ds[i].end <= |text| { assert ds[i] in detections; }
    RangesInText(text, ds, items, 0);
    assert items[0..] == items;
    ReplacementsInText(text, items, Replacements(items), 0);
    UnmaskRestores(text, Replacements(items), 0);
    assert text[0..] == text;
  }

  // Two masked values get the same placeholder exactly when prefix and whitespace-normalized value agree.
  lemma {:induction false} SamePlaceholderIffSameValue(text: string, ds: seq<Detection>, i: nat, j: nat)
    requires i < |ds| && j < |ds|
    ensures var rs := Replacements(ItemsOf(text, ds));
            rs[i].placeholder == rs[j].placeholder <==>
              PlaceholderPrefix(ds[i]) == PlaceholderPrefix(ds[j]) && Words(RawValue(text, ds[i])) == Words(RawValue(text, ds[j]))
  {
    var items := ItemsOf(text, ds);
    SamePlaceholderIffSameKey(Keys(items), items[i].key, items[j].key);
    SameValueIffSameWords(RawValue(text, ds[i]), RawValue(text, ds[j]));
  }

  // What each replacement of a text consists of: the range and text of its detection, and a placeholder that names the
  // detection's placeholder, or else its key, and a number.
  lemma {:induction false} ReplacementIs(text: string, ds: seq<Detection>, i: nat) returns (digits: string)
    requires i < |ds| && 0 <= ds[i].start <= ds[i].end <= |text|
    ensures var r, d := Replacements(ItemsOf(text, ds))[i], ds[i];
            && r.start == d.start && r.end == d.end && r.raw == text[d.start..d.end]
            && r.placeholder == "[" + (if d.placeholder != "" then d.placeholder else d.detectorKey) + "_" + digits + "]"
    ensures ValueOf(digits) >= 1 && digits != "" && digits[0] != '0' && forall j :: 0 <= j < |digits| ==> '0' <= digits[j] <= '9'
  {
    var items := ItemsOf(text, ds);
    var n := NumberOf(Keys(items), items[i].key);
    NumberInRange(Keys(items), items[i].key);
    digits := Decimal(n);
    DecimalDigits(n);
    RawIsSlice(text, ds[i]);
  }

  lemma {:induction false} RawIsSlice(text: string, d: Detection)
    requires 0 <= d.start <= d.end <= |text|
    ensures RawValue(text, d) == text[d.start..d.end]
  {
    assert text[d.start..][..d.end - d.start] == text[d.start..d.end];
  }

  lemma {:induction false} DecimalDigits(n: nat)
    requires n >= 1
    ensures var digits := Decimal(n);
            ValueOf(digits) == n && digits[0] != '0' && forall j :: 0 <= j < |digits| ==> '0' <= digits[j] <= '9'
  {
    DecimalValue(n);
    assert forall c :: c in DIGITS ==> '0' <= c <= '9';
  }

  function SumCounts(counts: map<string, nat>, names: seq<string>): nat {
    if names == [] then 0 else SumCounts(counts, names[..|names| - 1]) + Count(counts, names[|names| - 1])
  }

  function SumOccurrences(rs: seq<Replacement>, names: seq<string>): nat {
    if names == [] then 0 else SumOccurrences(rs, names[..|names| - 1]) + Occurrences(rs, names[|names| - 1])
  }

  ghost predicate NoRepeats(names: seq<string>) {
    forall i, j :: 0 <= i < j < |names| ==> names[i] != names[j]
  }

  lemma {:induction false} SumOccurrencesLast(rs: seq<Replacement>, names: seq<string>)
    requires rs != [] && NoRepeats(names)
    ensures SumOccurrences(rs, names) == SumOccurrences(rs[..|rs| - 1], names) + if rs[|rs| - 1].placeholder in names then 1 else 0
    decreases |names|
  {
    if names != [] {
      var n := |names| - 1;
      SumOccurrencesLast(rs, names[..n]);
      assert names == names[..n] + [names[n]];
    }
  }

  lemma {:induction false} SumOccurrencesIsLength(rs: seq<Replacement>, names: seq<string>)
    requires NoRepeats(names) && forall i :: 0 <= i < |rs| ==> rs[i].placeholder in names
    ensures SumOccurrences(rs, names) == |rs|
  {
    if rs != [] {
      SumOccurrencesLast(rs, names);
      SumOccurrencesIsLength(rs[..|rs| - 1], names);
    } else {
      SumOccurrencesNone(names);
    }
  }

  lemma {:induction false} SumOccurrencesNone(names: seq<string>)
    ensures SumOccurrences([], names) == 0
  {
    if names != [] { SumOccurrencesNone(names[..|names| - 1]); }
  }

  lemma {:induction false} SumCountsIsOccurrences(rs: seq<Replacement>, counts: map<string, nat>, names: seq<string>)
    requires CountsFor(rs, counts)
    ensures SumCounts(counts, names) == SumOccurrences(rs, names)
  {
    if names != [] { SumCountsIsOccurrences(rs, counts, names[..|names| - 1]); }
  }

  lemma {:induction false} OccurrencesPositive(rs: seq<Replacement>, i: nat)
    requires i < |rs|
    ensures Occurrences(rs, rs[i].placeholder) > 0
  {
    if i < |rs| - 1 { OccurrencesPositive(rs[..|rs| - 1], i); }
  }

  // The placeholder counts, summed over the keys of the dictionary in any order, are the number of replacements.
  lemma {:induction false} CountsSumToApplied(rs: seq<Replacement>, counts: map<string, nat>, names: seq<string>)
    requires CountsFor(rs, counts)
    requires NoRepeats(names) && forall p :: p in names <==> p in counts
    ensures SumCounts(counts, names) == |rs|
  {
    forall i | 0 <= i < |rs| ensures rs[i].placeholder in names { OccurrencesPositive(rs, i); }
    SumCountsIsOccurrences(rs, counts, names);
    SumOccurrencesIsLength(rs, names);
  }
}
