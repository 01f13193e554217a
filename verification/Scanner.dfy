// Rule matching over normalized text (apps/api/app/scanner/scanner.py).
module Scanner {
  import opened Options
  import opened Spans
  import opened Normalizer

  datatype RuleKind = Keyword | Regex

  datatype LexicalRule = LexicalRule(
    patternId: string, kind: RuleKind, expression: string, signalType: string, caseSensitive: bool)

  datatype NormalizedBlock = NormalizedBlock(
    blockId: string, inputId: string, originalText: string, normalizedText: string, offsetMap: seq<OffsetEntry>)

  // The signal hash is taken to be injective in what it digests.
  datatype SignalId = SignalId(inputId: string, blockId: string, patternId: string, start: int, end: int)

  datatype LexicalSignal = LexicalSignal(
    id: SignalId, inputId: string, blockId: string, signalType: string, patternId: string, matchBasis: RuleKind,
    normalizedRange: TextRange, originalRange: TextRange)

  datatype ScannerFailure = OffsetMappingFailed(patternId: string, blockId: string)

  datatype ScannerStatus = Completed | Partial

  datatype ScanResult = ScanResult(
    inputId: string, signals: seq<LexicalSignal>, status: ScannerStatus, warnings: seq<string>, failures: seq<ScannerFailure>)

  // The regex engine: which rules compile, and the spans finditer reports for a rule in a text.
  datatype Matcher = Matcher(compiles: LexicalRule -> bool, findIter: (LexicalRule, string) -> seq<TextRange>)

  // finditer reports spans of the text, left to right and disjoint; a span may be empty.
  ghost predicate SoundMatcher(matcher: Matcher) {
    forall rule, text :: OrderedSpans(matcher.findIter(rule, text), |text|)
  }

  // The block is what the normalizer makes of its original text.
  ghost predicate WellNormalized(special: CharTest, k: int, block: NormalizedBlock) {
    && block.normalizedText == Normalized(special, block.originalText, k)
    && block.offsetMap == OffsetMap(special, block.originalText, k)
  }

  // ---------------------------------------------------------------- specification

  function SignalOf(inputId: string, rule: LexicalRule, block: NormalizedBlock, span: TextRange, original: TextRange): LexicalSignal {
    LexicalSignal(
      SignalId(inputId, block.blockId, rule.patternId, span.start, span.end),
      inputId, block.blockId, rule.signalType, rule.patternId, rule.kind, span, original)
  }

  // What one rule finds in one block: the non-empty matches become signals ...
  function BlockSignals(inputId: string, rule: LexicalRule, block: NormalizedBlock, spans: seq<TextRange>): seq<LexicalSignal> {
    if spans == [] then []
    else
      var span := spans[|spans| - 1];
      BlockSignals(inputId, rule, block, spans[..|spans| - 1])
      + match RestoreOriginalRange(span, block.offsetMap) case None => [] case Some(r) => [SignalOf(inputId, rule, block, span, r)]
  }

  // ... and the matches that cannot be restored become failures.
  function BlockFailures(rule: LexicalRule, block: NormalizedBlock, spans: seq<TextRange>): seq<ScannerFailure> {
    if spans == [] then []
    else
      BlockFailures(rule, block, spans[..|spans| - 1])
      + match RestoreOriginalRange(spans[|spans| - 1], block.offsetMap)
        case None => [OffsetMappingFailed(rule.patternId, block.blockId)] case Some(_) => []
  }

  function RuleSignals(m: Matcher, inputId: string, rule: LexicalRule, blocks: seq<NormalizedBlock>): seq<LexicalSignal> {
    if blocks == [] then []
    else
      var block := blocks[|blocks| - 1];
      RuleSignals(m, inputId, rule, blocks[..|blocks| - 1]) + BlockSignals(inputId, rule, block, m.findIter(rule, block.normalizedText))
  }

  function RuleFailures(m: Matcher, rule: LexicalRule, blocks: seq<NormalizedBlock>): seq<ScannerFailure> {
    if blocks == [] then []
    else
      var block := blocks[|blocks| - 1];
      RuleFailures(m, rule, blocks[..|blocks| - 1]) + BlockFailures(rule, block, m.findIter(rule, block.normalizedText))
  }

  function Signals(m: Matcher, inputId: string, rules: seq<LexicalRule>, blocks: seq<NormalizedBlock>): seq<LexicalSignal> {
    if rules == [] then []
    else
      var rule := rules[|rules| - 1];
      Signals(m, inputId, rules[..|rules| - 1], blocks) + if m.compiles(rule) then RuleSignals(m, inputId, rule, blocks) else []
  }

  function Failures(m: Matcher, rules: seq<LexicalRule>, blocks: seq<NormalizedBlock>): seq<ScannerFailure> {
    if rules == [] then []
    else
      var rule := rules[|rules| - 1];
      Failures(m, rules[..|rules| - 1], blocks) + if m.compiles(rule) then RuleFailures(m, rule, blocks) else []
  }

  function Warnings(m: Matcher, rules: seq<LexicalRule>): seq<string> {
    if rules == [] then []
    else
      var rule := rules[|rules| - 1];
      Warnings(m, rules[..|rules| - 1]) + if m.compiles(rule) then [] else ["INVALID_REGEX:" + rule.patternId]
  }

  // ---------------------------------------------------------------- the nested loops

  method ScanLexicalSignals(matcher: Matcher, inputId: string, blocks: seq<NormalizedBlock>, rules: seq<LexicalRule>)
    returns (result: ScanResult)
    ensures result.inputId == inputId
    ensures result.signals == Signals(matcher, inputId, rules, blocks)
    ensures result.failures == Failures(matcher, rules, blocks)
    ensures result.warnings == Warnings(matcher, rules)
    ensures result.status == if result.warnings != [] || result.failures != [] then Partial else Completed
  {
    var signals, warnings, failures := [], [], [];
    for r := 0 to |rules|
      invariant signals == Signals(matcher, inputId, rules[..r], blocks)
      invariant failures == Failures(matcher, rules[..r], blocks)
      invariant warnings == Warnings(matcher, rules[..r])
    {
      assert rules[..r + 1][..r] == rules[..r];
      if !matcher.compiles(rules[r]) {
        warnings := warnings + ["INVALID_REGEX:" + rules[r].patternId];
      } else {
        var foundSignals, foundFailures := ScanRule(matcher, inputId, rules[r], blocks);
        signals := signals + foundSignals;
        failures := failures + foundFailures;
      }
    }
    assert rules[..|rules|] == rules;
    var status := if warnings != [] || failures != [] then Partial else Completed;
    result := ScanResult(inputId, signals, status, warnings, failures);
  }

  // The middle loop: one compiled rule over every block.
  method ScanRule(matcher: Matcher, inputId: string, rule: LexicalRule, blocks: seq<NormalizedBlock>)
    returns (signals: seq<LexicalSignal>, failures: seq<ScannerFailure>)
    ensures signals == RuleSignals(matcher, inputId, rule, blocks)
    ensures failures == RuleFailures(matcher, rule, blocks)
  {
    signals, failures := [], [];
    for b := 0 to |blocks|
      invariant signals == RuleSignals(matcher, inputId, rule, blocks[..b])
      invariant failures == RuleFailures(matcher, rule, blocks[..b])
    {
      assert blocks[..b + 1][..b] == blocks[..b];
      var foundSignals, foundFailures := ScanBlock(inputId, rule, blocks[b], matcher.findIter(rule, blocks[b].normalizedText));
      signals := signals + foundSignals;
      failures := failures + foundFailures;
    }
    assert blocks[..|blocks|] == blocks;
  }

  // The innermost loop: one compiled rule over one block.
  method ScanBlock(inputId: string, rule: LexicalRule, block: NormalizedBlock, spans: seq<TextRange>)
    returns (signals: seq<LexicalSignal>, failures: seq<ScannerFailure>)
    ensures signals == BlockSignals(inputId, rule, block, spans)
    ensures failures == BlockFailures(rule, block, spans)
  {
    signals, failures := [], [];
    for i := 0 to |spans|
      invariant signals == BlockSignals(inputId, rule, block, spans[..i])
      invariant failures == BlockFailures(rule, block, spans[..i])
    {
      assert spans[..i + 1][..i] == spans[..i];
      match RestoreOriginalRange(spans[i], block.offsetMap) {
        case None => failures := failures + [OffsetMappingFailed(rule.patternId, block.blockId)];
        case Some(original) => signals := signals + [SignalOf(inputId, rule, block, spans[i], original)];
      }
    }
    assert spans[..|spans|] == spans;
  }

  // ---------------------------------------------------------------- what a scan reports

  // The signal names this match of this rule in this block.
  ghost predicate Describes(inputId: string, rule: LexicalRule, block: NormalizedBlock, span: TextRange, signal: LexicalSignal) {
    && signal.id == SignalId(inputId, block.blockId, rule.patternId, span.start, span.end)
    && signal.inputId == inputId && signal.blockId == block.blockId
    && signal.signalType == rule.signalType && signal.patternId == rule.patternId && signal.matchBasis == rule.kind
    && signal.normalizedRange == span && RestoreOriginalRange(span, block.offsetMap) == Some(signal.originalRange)
  }

  // The signal says truthfully where its match came from: its original slice normalizes to the text that matched.
  ghost predicate Located(special: CharTest, k: int, m: Matcher, inputId: string, rule: LexicalRule, block: NormalizedBlock,
                          span: TextRange, signal: LexicalSignal)
  {
    && span in m.findIter(rule, block.normalizedText)
    && 0 <= span.start < span.end <= |block.normalizedText|
    && Describes(inputId, rule, block, span, signal)
    && 0 <= signal.originalRange.start < signal.originalRange.end <= |block.originalText|
    && Normalized(special, block.originalText[signal.originalRange.start..signal.originalRange.end], k)
       == block.normalizedText[span.start..span.end]
  }

  // One match: a signal when it is not empty, a failure when it is.
  lemma {:induction false} OneMatch(special: CharTest, k: int, block: NormalizedBlock, span: TextRange)
    requires k >= 2 && WellNormalized(special, k, block)
    requires 0 <= span.start <= span.end <= |block.normalizedText|
    ensures var r := RestoreOriginalRange(span, block.offsetMap);
            && (r.None? <==> span.start == span.end)
            && (r.Some? ==>
              && 0 <= r.value.start < r.value.end <= |block.originalText|
              && Normalized(special, block.originalText[r.value.start..r.value.end], k) == block.normalizedText[span.start..span.end])
  {
    RestoreExactly(special, block.originalText, k, span);
    if span.start < span.end {
      RestoreThenNormalize(special, block.originalText, k, span.start, span.end);
    }
  }

  // Every signal a block yields lies at the true place of one of its matches.
  lemma {:induction false} BlockSignalLocated(
    special: CharTest, k: int, m: Matcher, inputId: string, rule: LexicalRule, block: NormalizedBlock,
    spans: seq<TextRange>, signal: LexicalSignal)
    requires k >= 2 && WellNormalized(special, k, block)
    requires OrderedSpans(spans, |block.normalizedText|)
    requires forall i :: 0 <= i < |spans| ==> spans[i] in m.findIter(rule, block.normalizedText)
    requires signal in BlockSignals(inputId, rule, block, spans)
    ensures Located(special, k, m, inputId, rule, block, signal.normalizedRange, signal)
  {
    var n := |spans| - 1;
    if signal in BlockSignals(inputId, rule, block, spans[..n]) {
      BlockSignalLocated(special, k, m, inputId, rule, block, spans[..n], signal);
    } else {
      OneMatch(special, k, block, spans[n]);
      var original := RestoreOriginalRange(spans[n], block.offsetMap);
      assert original.Some? && signal == SignalOf(inputId, rule, block, spans[n], original.value);
      assert Describes(inputId, rule, block, spans[n], signal);
    }
  }

  ghost predicate Truthful(special: CharTest, k: int, m: Matcher, inputId: string, rules: seq<LexicalRule>,
                           blocks: seq<NormalizedBlock>, signal: LexicalSignal)
  {
    exists rule, block :: rule in rules && m.compiles(rule) && block in blocks
      && Located(special, k, m, inputId, rule, block, signal.normalizedRange, signal)
  }

  lemma {:induction false} RuleSignalTruthful(
    special: CharTest, k: int, m: Matcher, inputId: string, rule: LexicalRule, blocks: seq<NormalizedBlock>, signal: LexicalSignal)
    requires k >= 2 && SoundMatcher(m) && m.compiles(rule)
    requires forall b :: 0 <= b < |blocks| ==> WellNormalized(special, k, blocks[b])
    requires signal in RuleSignals(m, inputId, rule, blocks)
    ensures exists b :: 0 <= b < |blocks| && Located(special, k, m, inputId, rule, blocks[b], signal.normalizedRange, signal)
  {
    var n := |blocks| - 1;
    if signal in RuleSignals(m, inputId, rule, blocks[..n]) {
      RuleSignalTruthful(special, k, m, inputId, rule, blocks[..n], signal);
      var b :| 0 <= b < n && Located(special, k, m, inputId, rule, blocks[..n][b], signal.normalizedRange, signal);
      assert blocks[..n][b] == blocks[b];
    } else {
      BlockSignalLocated(special, k, m, inputId, rule, blocks[n], m.findIter(rule, blocks[n].normalizedText), signal);
    }
  }

  // Soundness: every reported signal is a non-empty match of a compiling rule, at its true place.
  lemma {:induction false} SignalTruthful(
    special: CharTest, k: int, m: Matcher, inputId: string, rules: seq<LexicalRule>, blocks: seq<NormalizedBlock>, signal: LexicalSignal)
    requires k >= 2 && SoundMatcher(m)
    requires forall b :: 0 <= b < |blocks| ==> WellNormalized(special, k, blocks[b])
    requires signal in Signals(m, inputId, rules, blocks)
    ensures Truthful(special, k, m, inputId, rules, blocks, signal)
  {
    var n := |rules| - 1;
    if signal in Signals(m, inputId, rules[..n], blocks) {
      SignalTruthful(special, k, m, inputId, rules[..n], blocks, signal);
    } else {
      RuleSignalTruthful(special, k, m, inputId, rules[n], blocks, signal);
    }
  }

  lemma {:induction false} TruthfulPlace(special: CharTest, k: int, m: Matcher, inputId: string, rules: seq<LexicalRule>,
                                         blocks: seq<NormalizedBlock>, signal: LexicalSignal) returns (r: nat, b: nat)
    requires Truthful(special, k, m, inputId, rules, blocks, signal)
    ensures r < |rules| && b < |blocks| && m.compiles(rules[r])
    ensures Located(special, k, m, inputId, rules[r], blocks[b], signal.normalizedRange, signal)
  {
    var rule, block :| rule in rules && m.compiles(rule) && block in blocks
      && Located(special, k, m, inputId, rule, block, signal.normalizedRange, signal);
    r :| r < |rules| && rules[r] == rule;
    b :| b < |blocks| && blocks[b] == block;
  }

  // The match is reported: some signal carries its rule, its block and its span.
  ghost predicate Reported(inputId: string, rule: LexicalRule, block: NormalizedBlock, span: TextRange, signals: seq<LexicalSignal>) {
    exists s :: 0 <= s < |signals| && Describes(inputId, rule, block, span, signals[s])
  }

  lemma {:induction false} ReportedInBoth(inputId: string, rule: LexicalRule, block: NormalizedBlock, span: TextRange,
                                          left: seq<LexicalSignal>, right: seq<LexicalSignal>)
    requires Reported(inputId, rule, block, span, left) || Reported(inputId, rule, block, span, right)
    ensures Reported(inputId, rule, block, span, left + right)
  {
    if Reported(inputId, rule, block, span, left) {
      var s :| 0 <= s < |left| && Describes(inputId, rule, block, span, left[s]);
      assert (left + right)[s] == left[s];
    } else {
      var s :| 0 <= s < |right| && Describes(inputId, rule, block, span, right[s]);
      assert (left + right)[|left| + s] == right[s];
    }
  }

  lemma {:induction false} BlockMatchReported(
    special: CharTest, k: int, inputId: string, rule: LexicalRule, block: NormalizedBlock, spans: seq<TextRange>, i: nat)
    requires k >= 2 && WellNormalized(special, k, block)
    requires OrderedSpans(spans, |block.normalizedText|)
    requires i < |spans| && spans[i].start < spans[i].end
    ensures Reported(inputId, rule, block, spans[i], BlockSignals(inputId, rule, block, spans))
  {
    var n := |spans| - 1;
    if i < n {
      BlockMatchReported(special, k, inputId, rule, block, spans[..n], i);
      var last := match RestoreOriginalRange(spans[n], block.offsetMap)
        case None => []
        case Some(r) => [SignalOf(inputId, rule, block, spans[n], r)];
      ReportedInBoth(inputId, rule, block, spans[i], BlockSignals(inputId, rule, block, spans[..n]), last);
    } else {
      OneMatch(special, k, block, spans[n]);
      var before, all := BlockSignals(inputId, rule, block, spans[..n]), BlockSignals(inputId, rule, block, spans);
      assert Describes(inputId, rule, block, spans[n], all[|before|]);
    }
  }

  lemma {:induction false} RuleMatchReported(
    special: CharTest, k: int, m: Matcher, inputId: string, rule: LexicalRule, blocks: seq<NormalizedBlock>, b: nat, i: nat)
    requires k >= 2 && SoundMatcher(m)
    requires b < |blocks| && WellNormalized(special, k, blocks[b])
    requires var spans := m.findIter(rule, blocks[b].normalizedText); i < |spans| && spans[i].start < spans[i].end
    ensures Reported(inputId, rule, blocks[b], m.findIter(rule, blocks[b].normalizedText)[i], RuleSignals(m, inputId, rule, blocks))
  {
    var n := |blocks| - 1;
    var spans := m.findIter(rule, blocks[b].normalizedText);
    if b < n {
      RuleMatchReported(special, k, m, inputId, rule, blocks[..n], b, i);
    } else {
      BlockMatchReported(special, k, inputId, rule, blocks[n], spans, i);
    }
    ReportedInBoth(inputId, rule, blocks[b], spans[i], RuleSignals(m, inputId, rule, blocks[..n]),
                   BlockSignals(inputId, rule, blocks[n], m.findIter(rule, blocks[n].normalizedText)));
  }

  // Completeness: every non-empty match of a compiling rule is reported.
  lemma {:induction false} MatchReported(
    special: CharTest, k: int, m: Matcher, inputId: string, rules: seq<LexicalRule>, blocks: seq<NormalizedBlock>, r: nat, b: nat, i: nat)
    requires k >= 2 && SoundMatcher(m)
    requires r < |rules| && m.compiles(rules[r])
    requires b < |blocks| && WellNormalized(special, k, blocks[b])
    requires var spans := m.findIter(rules[r], blocks[b].normalizedText); i < |spans| && spans[i].start < spans[i].end
    ensures Reported(inputId, rules[r], blocks[b], m.findIter(rules[r], blocks[b].normalizedText)[i], Signals(m, inputId, rules, blocks))
  {
    var n := |rules| - 1;
    var spans := m.findIter(rules[r], blocks[b].normalizedText);
    if r < n {
      MatchReported(special, k, m, inputId, rules[..n], blocks, r, b, i);
    } else {
      RuleMatchReported(special, k, m, inputId, rules[n], blocks, b, i);
    }
    ReportedInBoth(inputId, rules[r], blocks[b], spans[i], Signals(m, inputId, rules[..n], blocks),
                   if m.compiles(rules[n]) then RuleSignals(m, inputId, rules[n], blocks) else []);
  }

  // ---------------------------------------------------------------- one block: signals and matches are the same thing

  // A compiling rule has this non-empty match in the normalized text, and the match stands for this range of the original.
  ghost predicate FoundIn(special: CharTest, m: Matcher, rule: LexicalRule, text: string, span: TextRange, original: TextRange) {
    && m.compiles(rule) && span in m.findIter(rule, Normalized(special, text, 2)) && span.start < span.end
    && RestoreOriginalRange(span, OffsetMap(special, text, 2)) == Some(original)
  }

  // Every non-empty match stands for a range of the original.
  lemma {:induction false} MatchIsPlaced(special: CharTest, m: Matcher, rule: LexicalRule, block: NormalizedBlock, span: TextRange)
    returns (original: TextRange)
    requires SoundMatcher(m) && WellNormalized(special, 2, block) && m.compiles(rule)
    requires span in m.findIter(rule, block.normalizedText) && span.start < span.end
    ensures FoundIn(special, m, rule, block.originalText, span, original)
    ensures 0 <= original.start < original.end <= |block.originalText|
  {
    OneMatch(special, 2, block, span);
    original := RestoreOriginalRange(span, block.offsetMap).value;
  }

  lemma {:induction false} FoundIsSignal(special: CharTest, m: Matcher, inputId: string, rules: seq<LexicalRule>, block: NormalizedBlock,
                                         r: nat, span: TextRange, original: TextRange) returns (s: nat)
    requires SoundMatcher(m) && WellNormalized(special, 2, block) && r < |rules|
    requires FoundIn(special, m, rules[r], block.originalText, span, original)
    ensures s < |Signals(m, inputId, rules, [block])|
    ensures var signal := Signals(m, inputId, rules, [block])[s];
            Describes(inputId, rules[r], block, span, signal) && signal.originalRange == original
  {
    var spans := m.findIter(rules[r], block.normalizedText);
    var i :| 0 <= i < |spans| && spans[i] == span;
    MatchReported(special, 2, m, inputId, rules, [block], r, 0, i);
    var signals := Signals(m, inputId, rules, [block]);
    s :| s < |signals| && Describes(inputId, rules[r], block, span, signals[s]);
  }

  lemma {:induction false} SignalIsFound(special: CharTest, m: Matcher, inputId: string, rules: seq<LexicalRule>, block: NormalizedBlock,
                                         signal: LexicalSignal) returns (r: nat)
    requires SoundMatcher(m) && WellNormalized(special, 2, block) && signal in Signals(m, inputId, rules, [block])
    ensures r < |rules| && FoundIn(special, m, rules[r], block.originalText, signal.normalizedRange, signal.originalRange)
    ensures Describes(inputId, rules[r], block, signal.normalizedRange, signal)
    ensures 0 <= signal.originalRange.start < signal.originalRange.end <= |block.originalText|
  {
    SignalTruthful(special, 2, m, inputId, rules, [block], signal);
    var b;
    r, b := TruthfulPlace(special, 2, m, inputId, rules, [block], signal);
  }

  // The signals stand at ranges of the original that are left to right and disjoint.
  ghost predicate LeftToRight(signals: seq<LexicalSignal>) {
    forall i, j :: 0 <= i < j < |signals| ==> signals[i].originalRange.end <= signals[j].originalRange.start
  }

  lemma {:induction false} BlockSignalSpan(inputId: string, rule: LexicalRule, block: NormalizedBlock, spans: seq<TextRange>, s: nat)
    returns (i: nat)
    requires s < |BlockSignals(inputId, rule, block, spans)|
    ensures i < |spans| && RestoreOriginalRange(spans[i], block.offsetMap) == Some(BlockSignals(inputId, rule, block, spans)[s].originalRange)
  {
    var n := |spans| - 1;
    if s < |BlockSignals(inputId, rule, block, spans[..n])| {
      i := BlockSignalSpan(inputId, rule, block, spans[..n], s);
    } else {
      i := n;
    }
  }

  lemma {:induction false} BlockSignalsOrdered(special: CharTest, inputId: string, rule: LexicalRule, block: NormalizedBlock, spans: seq<TextRange>)
    requires WellNormalized(special, 2, block) && OrderedSpans(spans, |block.normalizedText|)
    ensures LeftToRight(BlockSignals(inputId, rule, block, spans))
  {
    if spans != [] {
      var n := |spans| - 1;
      var before := BlockSignals(inputId, rule, block, spans[..n]);
      BlockSignalsOrdered(special, inputId, rule, block, spans[..n]);
      var last := RestoreOriginalRange(spans[n], block.offsetMap);
      if last.Some? {
        forall s | 0 <= s < |before| ensures before[s].originalRange.end <= last.value.start {
          var i := BlockSignalSpan(inputId, rule, block, spans[..n], s);
          RestorePreservesOrder(special, block.originalText, 2, spans[i], spans[n]);
        }
      }
    }
  }

  lemma {:induction false} OneRuleOrdered(special: CharTest, m: Matcher, inputId: string, rule: LexicalRule, block: NormalizedBlock)
    requires SoundMatcher(m) && WellNormalized(special, 2, block)
    ensures LeftToRight(Signals(m, inputId, [rule], [block]))
  {
    BlockSignalsOrdered(special, inputId, rule, block, m.findIter(rule, block.normalizedText));
    assert Signals(m, inputId, [], [block]) == [] && RuleSignals(m, inputId, rule, []) == [];
  }

  // A warning is given for exactly the rules that do not compile.
  lemma {:induction false} WarnedExactly(m: Matcher, rules: seq<LexicalRule>, warning: string)
    ensures warning in Warnings(m, rules)
            <==> exists r :: 0 <= r < |rules| && !m.compiles(rules[r]) && warning == "INVALID_REGEX:" + rules[r].patternId
  {
    if rules != [] {
      var n := |rules| - 1;
      WarnedExactly(m, rules[..n], warning);
      assert forall r :: 0 <= r < n ==> rules[..n][r] == rules[r];
    }
  }

  predicate NonEmptySpans(spans: seq<TextRange>) {
    forall i :: 0 <= i < |spans| ==> spans[i].start < spans[i].end
  }

  lemma {:induction false} BlockFailuresExactly(special: CharTest, k: int, rule: LexicalRule, block: NormalizedBlock, spans: seq<TextRange>)
    requires k >= 2 && WellNormalized(special, k, block)
    requires OrderedSpans(spans, |block.normalizedText|)
    ensures BlockFailures(rule, block, spans) == [] <==> NonEmptySpans(spans)
  {
    if spans != [] {
      var n := |spans| - 1;
      BlockFailuresExactly(special, k, rule, block, spans[..n]);
      OneMatch(special, k, block, spans[n]);
      NonEmptyLast(spans);
    }
  }

  lemma {:induction false} NonEmptyLast(spans: seq<TextRange>)
    requires spans != []
    ensures NonEmptySpans(spans) <==> NonEmptySpans(spans[..|spans| - 1]) && spans[|spans| - 1].start < spans[|spans| - 1].end
  {
    assert forall i :: 0 <= i < |spans| - 1 ==> spans[..|spans| - 1][i] == spans[i];
  }

  // No match of the rule in these blocks is empty.
  predicate NoEmptyMatch(m: Matcher, rule: LexicalRule, blocks: seq<NormalizedBlock>) {
    forall b :: 0 <= b < |blocks| ==> NonEmptySpans(m.findIter(rule, blocks[b].normalizedText))
  }

  lemma {:induction false} NoEmptyMatchNoFailure(special: CharTest, k: int, m: Matcher, rule: LexicalRule, blocks: seq<NormalizedBlock>)
    requires k >= 2 && SoundMatcher(m)
    requires forall b :: 0 <= b < |blocks| ==> WellNormalized(special, k, blocks[b])
    requires NoEmptyMatch(m, rule, blocks)
    ensures RuleFailures(m, rule, blocks) == []
  {
    if blocks != [] {
      var n := |blocks| - 1;
      NoEmptyMatchNoFailure(special, k, m, rule, blocks[..n]);
      BlockFailuresExactly(special, k, rule, blocks[n], m.findIter(rule, blocks[n].normalizedText));
    }
  }

  lemma {:induction false} EmptyMatchFails(special: CharTest, k: int, m: Matcher, rule: LexicalRule, blocks: seq<NormalizedBlock>, b: nat)
    requires k >= 2 && SoundMatcher(m)
    requires b < |blocks| && WellNormalized(special, k, blocks[b])
    requires !NonEmptySpans(m.findIter(rule, blocks[b].normalizedText))
    ensures RuleFailures(m, rule, blocks) != []
  {
    var n := |blocks| - 1;
    if b < n {
      EmptyMatchFails(special, k, m, rule, blocks[..n], b);
    } else {
      BlockFailuresExactly(special, k, rule, blocks[n], m.findIter(rule, blocks[n].normalizedText));
    }
  }

  lemma {:induction false} RuleFailuresExactly(special: CharTest, k: int, m: Matcher, rule: LexicalRule, blocks: seq<NormalizedBlock>)
    requires k >= 2 && SoundMatcher(m)
    requires forall b :: 0 <= b < |blocks| ==> WellNormalized(special, k, blocks[b])
    ensures RuleFailures(m, rule, blocks) == [] <==> NoEmptyMatch(m, rule, blocks)
  {
    if NoEmptyMatch(m, rule, blocks) {
      NoEmptyMatchNoFailure(special, k, m, rule, blocks);
    } else {
      var b :| 0 <= b < |blocks| && !NonEmptySpans(m.findIter(rule, blocks[b].normalizedText));
      EmptyMatchFails(special, k, m, rule, blocks, b);
    }
  }

  lemma {:induction false} FailuresByRule(m: Matcher, rules: seq<LexicalRule>, blocks: seq<NormalizedBlock>)
    ensures Failures(m, rules, blocks) == [] <==>
      forall r :: 0 <= r < |rules| && m.compiles(rules[r]) ==> RuleFailures(m, rules[r], blocks) == []
  {
    if rules != [] {
      var n := |rules| - 1;
      var init := rules[..n];
      FailuresByRule(m, init, blocks);
      assert forall r :: 0 <= r < n ==> init[r] == rules[r];
    }
  }

  // A scan fails exactly when some compiling rule matches the empty string somewhere.
  lemma {:induction false} FailuresExactly(special: CharTest, k: int, m: Matcher, rules: seq<LexicalRule>, blocks: seq<NormalizedBlock>)
    requires k >= 2 && SoundMatcher(m)
    requires forall b :: 0 <= b < |blocks| ==> WellNormalized(special, k, blocks[b])
    ensures Failures(m, rules, blocks) == [] <==>
      forall r :: 0 <= r < |rules| && m.compiles(rules[r]) ==> NoEmptyMatch(m, rules[r], blocks)
  {
    FailuresByRule(m, rules, blocks);
    forall r | 0 <= r < |rules| ensures RuleFailures(m, rules[r], blocks) == [] <==> NoEmptyMatch(m, rules[r], blocks) {
      RuleFailuresExactly(special, k, m, rules[r], blocks);
    }
  }

  // Normalizing a document block by block gives blocks the scanner can trust.
  method NormalizeDocument(special: CharTest, k: int, blockIds: seq<(string, string)>, texts: seq<string>)
    returns (blocks: seq<NormalizedBlock>)
    requires k >= 2 && |blockIds| == |texts|
    ensures |blocks| == |texts|
    ensures forall b :: 0 <= b < |blocks| ==>
      && WellNormalized(special, k, blocks[b]) && blocks[b].originalText == texts[b]
      && blocks[b].blockId == blockIds[b].0 && blocks[b].inputId == blockIds[b].1
  {
    blocks := [];
    for b := 0 to |texts|
      invariant |blocks| == b
      invariant forall j :: 0 <= j < b ==>
        && WellNormalized(special, k, blocks[j]) && blocks[j].originalText == texts[j]
        && blocks[j].blockId == blockIds[j].0 && blocks[j].inputId == blockIds[j].1
    {
      var normalizedText, offsetMap := NormalizeBlock(special, texts[b], k);
      blocks := blocks + [NormalizedBlock(blockIds[b].0, blockIds[b].1, texts[b], normalizedText, offsetMap)];
    }
  }
}
