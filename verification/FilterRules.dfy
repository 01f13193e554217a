// Evaluating filter rules on a prompt, and masking what they find (apps/api/app/services/filter_rules.py:352-535).
module FilterRules {
  import opened Options
  import opened Spans
  import opened Masking
  import opened Placeholders
  import Normalizer
  import Scanner

  datatype Origin = BuiltIn | Custom | OtherOrigin

  datatype Kind = Detector | KeywordRule | RegexRule | ContextRule | OtherKind

  datatype Action = Allow | Warn | Mask | Block

  // The configuration of a context rule: the terms of all its groups, and how many must occur. `keyword_groups` that is
  // not a dictionary is BadGroups, and entries that are not text are left out of the terms.
  datatype ContextConfig = BadGroups | ContextConfig(terms: seq<string>, minConditionCount: int)

  datatype FilterRule = FilterRule(
    id: string, origin: Origin, kind: Kind, detectorKey: string, keyword: string, pattern: string, placeholder: string,
    category: string, action: Action, config: ContextConfig, enabled: bool, archived: bool)

  datatype RuleMatch = RuleMatch(ruleId: string, action: Action, matchCount: nat, detections: seq<Detection>)

  // The code outside this model: the matcher and the built-in detectors.
  datatype Engine = Engine(
    special: Normalizer.CharTest, matcher: Scanner.Matcher, detectPii: string -> seq<Detection>)

  // Non-empty ranges of the prompt.
  ghost predicate Within(prompt: string, ds: seq<Detection>) {
    forall i :: 0 <= i < |ds| ==> ValidDetection(ds[i]) && ds[i].end <= |prompt|
  }

  ghost predicate SoundEngine(engine: Engine) {
    Scanner.SoundMatcher(engine.matcher) && forall prompt :: Within(prompt, engine.detectPii(prompt))
  }

  // ---------------------------------------------------------------- lexical detections

  function PromptBlock(engine: Engine, prompt: string): Scanner.NormalizedBlock {
    Scanner.NormalizedBlock("legacy-block", "legacy-input", prompt,
                            Normalizer.Normalized(engine.special, prompt, Normalizer.MINIMUM_REPEAT),
                            Normalizer.OffsetMap(engine.special, prompt, Normalizer.MINIMUM_REPEAT))
  }

  function DetectorKeyFor(rule: FilterRule, kind: Scanner.RuleKind): string {
    if rule.placeholder != "" then rule.placeholder
    else if kind == Scanner.Keyword then "CUSTOM_KEYWORD" else "CUSTOM_REGEX"
  }

  function LexicalRuleFor(rule: FilterRule, kind: Scanner.RuleKind, expression: string): Scanner.LexicalRule {
    Scanner.LexicalRule("rule:" + rule.id, kind, expression, DetectorKeyFor(rule, kind), false)
  }

  function DetectionFor(rule: FilterRule, kind: Scanner.RuleKind, signal: Scanner.LexicalSignal): Detection {
    var key := DetectorKeyFor(rule, kind);
    Detection(key, rule.category, signal.originalRange.start, signal.originalRange.end, key, signal.originalRange.Length())
  }

  function DetectionsOf(rule: FilterRule, kind: Scanner.RuleKind, signals: seq<Scanner.LexicalSignal>): (ds: seq<Detection>)
    ensures |ds| == |signals| && forall i :: 0 <= i < |signals| ==> ds[i] == DetectionFor(rule, kind, signals[i])
  {
    if signals == [] then []
    else
      var n := |signals| - 1;
      DetectionsOf(rule, kind, signals[..n]) + [DetectionFor(rule, kind, signals[n])]
  }

  function ScannedFor(engine: Engine, prompt: string, rule: FilterRule, kind: Scanner.RuleKind, expression: string): seq<Scanner.LexicalSignal> {
    Scanner.Signals(engine.matcher, "legacy-input", [LexicalRuleFor(rule, kind, expression)], [PromptBlock(engine, prompt)])
  }

  function LexicalDetections(engine: Engine, prompt: string, rule: FilterRule, kind: Scanner.RuleKind, expression: string): seq<Detection> {
    DetectionsOf(rule, kind, ScannedFor(engine, prompt, rule, kind, expression))
  }

  lemma {:induction false} LexicalDetectionsWithin(engine: Engine, prompt: string, rule: FilterRule, kind: Scanner.RuleKind, expression: string)
    requires SoundEngine(engine)
    ensures Within(prompt, LexicalDetections(engine, prompt, rule, kind, expression))
  {
    var signals := ScannedFor(engine, prompt, rule, kind, expression);
    forall i | 0 <= i < |signals| ensures 0 <= signals[i].originalRange.start < signals[i].originalRange.end <= |prompt| {
      Scanner.SignalTruthful(engine.special, Normalizer.MINIMUM_REPEAT, engine.matcher, "legacy-input",
                             [LexicalRuleFor(rule, kind, expression)], [PromptBlock(engine, prompt)], signals[i]);
    }
  }

  // ---------------------------------------------------------------- matches

  function WithKey(ds: seq<Detection>, key: string): (kept: seq<Detection>)
    ensures forall d :: d in kept ==> d in ds && d.detectorKey == key
  {
    if ds == [] then [] else WithKey(ds[..|ds| - 1], key) + if ds[|ds| - 1].detectorKey == key then [ds[|ds| - 1]] else []
  }

  // What one rule contributes, if anything.
  function BuiltInMatch(detections: seq<Detection>, rule: FilterRule): Option<RuleMatch> {
    var found := WithKey(detections, rule.detectorKey);
    if rule.origin != BuiltIn || rule.kind != Detector || rule.detectorKey == "" || found == [] then None
    else Some(RuleMatch(rule.id, rule.action, |found|, found))
  }

  function LexicalMatch(engine: Engine, prompt: string, rule: FilterRule, kind: Scanner.RuleKind, expression: string): Option<RuleMatch> {
    if expression == "" then None
    else
      var found := LexicalDetections(engine, prompt, rule, kind, expression);
      if found == [] then None else Some(RuleMatch(rule.id, rule.action, |found|, found))
  }

  // A term of a context rule occurs in the prompt.
  predicate TermOccurs(engine: Engine, prompt: string, rule: FilterRule, term: string) {
    && term != ""
    && Scanner.Signals(engine.matcher, "legacy-input",
                       [Scanner.LexicalRule("rule:" + rule.id + ":context", Scanner.Keyword, term, "CONTEXT", false)],
                       [PromptBlock(engine, prompt)]) != []
  }

  function TermsFound(engine: Engine, prompt: string, rule: FilterRule, terms: seq<string>): nat {
    if terms == [] then 0
    else
      var n := |terms| - 1;
      TermsFound(engine, prompt, rule, terms[..n]) + if TermOccurs(engine, prompt, rule, terms[n]) then 1 else 0
  }

  // A minimum of zero or less is met without any term.
  function ContextMatch(engine: Engine, prompt: string, rule: FilterRule): Option<RuleMatch> {
    if rule.config.BadGroups? then None
    else
      var found := TermsFound(engine, prompt, rule, rule.config.terms);
      if found < rule.config.minConditionCount then None else Some(RuleMatch(rule.id, rule.action, found, []))
  }

  function CustomMatch(engine: Engine, prompt: string, rule: FilterRule): Option<RuleMatch> {
    if rule.origin == OtherOrigin then None
    else match rule.kind
      case KeywordRule => LexicalMatch(engine, prompt, rule, Scanner.Keyword, rule.keyword)
      case RegexRule => LexicalMatch(engine, prompt, rule, Scanner.Regex, rule.pattern)
      case ContextRule => ContextMatch(engine, prompt, rule)
      case Detector => None
      case OtherKind => None
  }

  ghost predicate MatchesWithin(prompt: string, matches: seq<RuleMatch>) {
    forall i :: 0 <= i < |matches| ==> Within(prompt, matches[i].detections)
  }

  predicate Active(rule: FilterRule) {
    rule.enabled && !rule.archived
  }

  // The match came from an active rule of the list, with that rule's action.
  ghost predicate FromRule(engine: Engine, prompt: string, rules: seq<FilterRule>, m: RuleMatch) {
    exists r :: 0 <= r < |rules| && Active(rules[r])
      && (BuiltInMatch(engine.detectPii(prompt), rules[r]) == Some(m) || CustomMatch(engine, prompt, rules[r]) == Some(m))
  }

  lemma {:induction false} CustomMatchWithin(engine: Engine, prompt: string, rule: FilterRule)
    requires SoundEngine(engine)
    ensures var m := CustomMatch(engine, prompt, rule); m.Some? ==> Within(prompt, m.value.detections)
  {
    LexicalDetectionsWithin(engine, prompt, rule, Scanner.Keyword, rule.keyword);
    LexicalDetectionsWithin(engine, prompt, rule, Scanner.Regex, rule.pattern);
  }

  function BuiltInMatches(detections: seq<Detection>, rules: seq<FilterRule>): seq<RuleMatch> {
    if rules == [] then []
    else
      var rule := rules[|rules| - 1];
      BuiltInMatches(detections, rules[..|rules| - 1])
      + if Active(rule) && BuiltInMatch(detections, rule).Some? then [BuiltInMatch(detections, rule).value] else []
  }

  function CustomMatches(engine: Engine, prompt: string, rules: seq<FilterRule>): seq<RuleMatch> {
    if rules == [] then []
    else
      var rule := rules[|rules| - 1];
      CustomMatches(engine, prompt, rules[..|rules| - 1])
      + if Active(rule) && CustomMatch(engine, prompt, rule).Some? then [CustomMatch(engine, prompt, rule).value] else []
  }

  // The built-in detectors first, then the other rules, in their order.
  function Matches(engine: Engine, prompt: string, rules: seq<FilterRule>): seq<RuleMatch> {
    BuiltInMatches(engine.detectPii(prompt), rules) + CustomMatches(engine, prompt, rules)
  }

  // ---------------------------------------------------------------- what a rule finds, by the matcher and the detectors alone

  // A keyword or regex rule searches for its expression, case-insensitively, unless that is empty.
  predicate Searches(rule: FilterRule, search: Scanner.LexicalRule) {
    && search.expression != "" && search.patternId == "rule:" + rule.id && !search.caseSensitive
    && KeyIs(rule, search.signalType)
    && ((rule.kind == KeywordRule && search.kind == Scanner.Keyword && search.expression == rule.keyword)
        || (rule.kind == RegexRule && search.kind == Scanner.Regex && search.expression == rule.pattern))
  }

  // Detections carry the rule's placeholder, or a default for its kind.
  predicate KeyIs(rule: FilterRule, key: string) {
    if rule.placeholder != "" then key == rule.placeholder
    else key == if rule.kind == KeywordRule then "CUSTOM_KEYWORD" else "CUSTOM_REGEX"
  }

  // The search compiles and has this non-empty match in the normalized prompt, standing for this range of the prompt.
  ghost predicate Hit(engine: Engine, prompt: string, search: Scanner.LexicalRule, span: TextRange, original: TextRange) {
    Scanner.FoundIn(engine.special, engine.matcher, search, prompt, span, original)
  }

  ghost predicate NoHit(engine: Engine, prompt: string, search: Scanner.LexicalRule) {
    forall span, original :: !Hit(engine, prompt, search, span, original)
  }

  // A detection of the rule at this range.
  predicate Marks(rule: FilterRule, d: Detection, original: TextRange) {
    && d.start == original.start && d.end == original.end && d.valueLength == original.end - original.start
    && KeyIs(rule, d.detectorKey) && d.placeholder == d.detectorKey && d.category == rule.category
  }

  ghost predicate MarksAHit(engine: Engine, prompt: string, rule: FilterRule, search: Scanner.LexicalRule, d: Detection) {
    exists span, original :: Hit(engine, prompt, search, span, original) && Marks(rule, d, original)
  }

  ghost predicate MarkedIn(rule: FilterRule, ds: seq<Detection>, original: TextRange) {
    exists i :: 0 <= i < |ds| && Marks(rule, ds[i], original)
  }

  ghost predicate AllHitsMarked(engine: Engine, prompt: string, rule: FilterRule, search: Scanner.LexicalRule, ds: seq<Detection>) {
    forall span, original :: Hit(engine, prompt, search, span, original) ==> MarkedIn(rule, ds, original)
  }

  // The match is the rule's, and its detections are exactly the hits, left to right and disjoint.
  ghost predicate LexicalReport(engine: Engine, prompt: string, rule: FilterRule, search: Scanner.LexicalRule, m: RuleMatch) {
    && m.ruleId == rule.id && m.action == rule.action && m.matchCount == |m.detections| > 0
    && (forall i :: 0 <= i < |m.detections| ==> MarksAHit(engine, prompt, rule, search, m.detections[i]))
    && AllHitsMarked(engine, prompt, rule, search, m.detections)
    && (forall i, j :: 0 <= i < j < |m.detections| ==> m.detections[i].end <= m.detections[j].start)
  }

  // The match is the rule's, and its detections are exactly the detectors' findings with the rule's key.
  ghost predicate DetectorReport(engine: Engine, prompt: string, rule: FilterRule, m: RuleMatch) {
    && m.ruleId == rule.id && m.action == rule.action && m.matchCount == |m.detections| > 0
    && forall d :: multiset(m.detections)[d] == if d.detectorKey == rule.detectorKey then multiset(engine.detectPii(prompt))[d] else 0
  }

  ghost predicate KeyDetected(engine: Engine, prompt: string, rule: FilterRule) {
    exists d :: d in engine.detectPii(prompt) && d.detectorKey == rule.detectorKey
  }

  // The term of a context rule has a hit.
  ghost predicate TermHit(engine: Engine, prompt: string, rule: FilterRule, term: string) {
    && term != ""
    && !NoHit(engine, prompt, Scanner.LexicalRule("rule:" + rule.id + ":context", Scanner.Keyword, term, "CONTEXT", false))
  }

  // How many of the terms have one.
  ghost function TermsHit(engine: Engine, prompt: string, rule: FilterRule, terms: seq<string>): nat {
    if terms == [] then 0
    else
      var n := |terms| - 1;
      TermsHit(engine, prompt, rule, terms[..n]) + if TermHit(engine, prompt, rule, terms[n]) then 1 else 0
  }

  ghost predicate ContextReport(engine: Engine, prompt: string, rule: FilterRule, m: RuleMatch) {
    && rule.config.ContextConfig? && m.ruleId == rule.id && m.action == rule.action && m.detections == []
    && m.matchCount == TermsHit(engine, prompt, rule, rule.config.terms)
  }

  ghost predicate EnoughTerms(engine: Engine, prompt: string, rule: FilterRule) {
    rule.config.ContextConfig? && TermsHit(engine, prompt, rule, rule.config.terms) >= rule.config.minConditionCount
  }

  // The first pass asks the built-in detector rules, the second the keyword, regex and context rules.
  datatype Pass = Detectors | Others

  // The rule has something to report in this pass.
  ghost predicate Finds(engine: Engine, prompt: string, rule: FilterRule, pass: Pass) {
    match pass
    case Detectors => rule.origin == BuiltIn && rule.kind == Detector && rule.detectorKey != "" && KeyDetected(engine, prompt, rule)
    case Others =>
      && (rule.origin == BuiltIn || rule.origin == Custom)
      && ((exists search :: Searches(rule, search) && !NoHit(engine, prompt, search))
          || (rule.kind == ContextRule && EnoughTerms(engine, prompt, rule)))
  }

  // What it then reports.
  ghost predicate Reports(engine: Engine, prompt: string, rule: FilterRule, pass: Pass, m: RuleMatch) {
    match pass
    case Detectors => DetectorReport(engine, prompt, rule, m)
    case Others =>
      || (exists search :: Searches(rule, search) && LexicalReport(engine, prompt, rule, search, m))
      || (rule.kind == ContextRule && ContextReport(engine, prompt, rule, m))
  }

  // An active rule that has something to report.
  ghost predicate Due(engine: Engine, prompt: string, rule: FilterRule, pass: Pass) {
    rule.enabled && !rule.archived && Finds(engine, prompt, rule, pass)
  }

  ghost function DueIn(engine: Engine, prompt: string, pass: Pass): FilterRule -> bool {
    rule => Due(engine, prompt, rule, pass)
  }

  ghost function ReportIn(engine: Engine, prompt: string, pass: Pass): (FilterRule, RuleMatch) -> bool {
    (rule, m) => Reports(engine, prompt, rule, pass, m)
  }

  // The items are the reports of the elements that are due, one for each, in their order.
  ghost predicate ListedBy<R, M>(elements: seq<R>, due: R -> bool, report: (R, M) -> bool, items: seq<M>, picks: seq<nat>) {
    && |picks| == |items|
    && (forall i :: 0 <= i < |picks| ==> picks[i] < |elements| && due(elements[picks[i]]) && report(elements[picks[i]], items[i]))
    && (forall i, j :: 0 <= i < j < |picks| ==> picks[i] < picks[j])
    && (forall r :: 0 <= r < |elements| && due(elements[r]) ==> r in picks)
  }

  // The matches of one pass.
  ghost predicate Listing(engine: Engine, prompt: string, rules: seq<FilterRule>, pass: Pass, ms: seq<RuleMatch>) {
    exists picks :: ListedBy(rules, DueIn(engine, prompt, pass), ReportIn(engine, prompt, pass), ms, picks)
  }

  // All matches: those of the detector rules, then those of the others.
  ghost predicate Evaluated(engine: Engine, prompt: string, rules: seq<FilterRule>, ms: seq<RuleMatch>) {
    exists left, right :: BothPasses(engine, prompt, rules, ms, left, right)
  }

  ghost predicate BothPasses(engine: Engine, prompt: string, rules: seq<FilterRule>, ms: seq<RuleMatch>,
                             left: seq<RuleMatch>, right: seq<RuleMatch>)
  {
    Listing(engine, prompt, rules, Detectors, left) && Listing(engine, prompt, rules, Others, right) && ms == left + right
  }

  // ---------------------------------------------------------------- the rules do find that

  lemma {:induction false} WithKeyCounts(ds: seq<Detection>, key: string, d: Detection)
    ensures multiset(WithKey(ds, key))[d] == if d.detectorKey == key then multiset(ds)[d] else 0
  {
    if ds != [] {
      var n := |ds| - 1;
      WithKeyCounts(ds[..n], key, d);
      assert ds == ds[..n] + [ds[n]];
    }
  }

  lemma {:induction false} WithKeyEmpty(ds: seq<Detection>, key: string)
    ensures WithKey(ds, key) == [] <==> forall d :: d in ds ==> d.detectorKey != key
  {
    forall d ensures d in WithKey(ds, key) <==> d in ds && d.detectorKey == key {
      WithKeyCounts(ds, key, d);
      assert d in ds <==> d in multiset(ds);
    }
    if WithKey(ds, key) != [] { assert WithKey(ds, key)[0] in WithKey(ds, key); }
  }

  lemma {:induction false} DetectorFinds(engine: Engine, prompt: string, rule: FilterRule)
    ensures var m := BuiltInMatch(engine.detectPii(prompt), rule);
            && (m.Some? <==> Finds(engine, prompt, rule, Detectors))
            && (m.Some? ==> Reports(engine, prompt, rule, Detectors, m.value))
  {
    var pii := engine.detectPii(prompt);
    WithKeyEmpty(pii, rule.detectorKey);
    forall d ensures multiset(WithKey(pii, rule.detectorKey))[d] == if d.detectorKey == rule.detectorKey then multiset(pii)[d] else 0 {
      WithKeyCounts(pii, rule.detectorKey, d);
    }
  }

  // A scan of the prompt for one rule: its signals are the hits.
  function PromptSignals(engine: Engine, prompt: string, search: Scanner.LexicalRule): seq<Scanner.LexicalSignal> {
    Scanner.Signals(engine.matcher, "legacy-input", [search], [PromptBlock(engine, prompt)])
  }

  lemma {:induction false} HitIsSignal(engine: Engine, prompt: string, search: Scanner.LexicalRule, span: TextRange, original: TextRange)
    returns (s: nat)
    requires SoundEngine(engine) && Hit(engine, prompt, search, span, original)
    ensures s < |PromptSignals(engine, prompt, search)| && PromptSignals(engine, prompt, search)[s].originalRange == original
  {
    s := Scanner.FoundIsSignal(engine.special, engine.matcher, "legacy-input", [search], PromptBlock(engine, prompt), 0, span, original);
  }

  lemma {:induction false} SignalIsHit(engine: Engine, prompt: string, search: Scanner.LexicalRule, s: nat)
    requires SoundEngine(engine) && s < |PromptSignals(engine, prompt, search)|
    ensures var signal := PromptSignals(engine, prompt, search)[s];
            Hit(engine, prompt, search, signal.normalizedRange, signal.originalRange)
  {
    var signal := PromptSignals(engine, prompt, search)[s];
    var r := Scanner.SignalIsFound(engine.special, engine.matcher, "legacy-input", [search], PromptBlock(engine, prompt), signal);
  }

  lemma {:induction false} SignalsIffHit(engine: Engine, prompt: string, search: Scanner.LexicalRule)
    requires SoundEngine(engine)
    ensures PromptSignals(engine, prompt, search) == [] <==> NoHit(engine, prompt, search)
  {
    if PromptSignals(engine, prompt, search) != [] { SignalIsHit(engine, prompt, search, 0); }
    if span, original :| Hit(engine, prompt, search, span, original) {
      var s := HitIsSignal(engine, prompt, search, span, original);
    }
  }

  // The detections made of a search's signals.
  lemma {:induction false} DetectionsReport(engine: Engine, prompt: string, rule: FilterRule, kind: Scanner.RuleKind, search: Scanner.LexicalRule)
    requires SoundEngine(engine) && Searches(rule, search) && kind == search.kind
    ensures var ds := DetectionsOf(rule, kind, PromptSignals(engine, prompt, search));
            && AllHitsMarked(engine, prompt, rule, search, ds)
            && (forall i :: 0 <= i < |ds| ==> MarksAHit(engine, prompt, rule, search, ds[i]))
            && (forall i, j :: 0 <= i < j < |ds| ==> ds[i].end <= ds[j].start)
  {
    var signals := PromptSignals(engine, prompt, search);
    var ds := DetectionsOf(rule, kind, signals);
    forall span, original | Hit(engine, prompt, search, span, original) ensures MarkedIn(rule, ds, original) {
      var s := HitIsSignal(engine, prompt, search, span, original);
      assert Marks(rule, ds[s], original);
    }
    forall i | 0 <= i < |ds| ensures MarksAHit(engine, prompt, rule, search, ds[i]) {
      SignalIsHit(engine, prompt, search, i);
      assert Marks(rule, ds[i], signals[i].originalRange);
    }
    Scanner.OneRuleOrdered(engine.special, engine.matcher, "legacy-input", search, PromptBlock(engine, prompt));
  }

  lemma {:induction false} SearchIs(rule: FilterRule, search: Scanner.LexicalRule)
    requires Searches(rule, search)
    ensures search == LexicalRuleFor(rule, search.kind, search.expression)
  {
  }

  lemma {:induction false} LexicalFinds(engine: Engine, prompt: string, rule: FilterRule, kind: Scanner.RuleKind, search: Scanner.LexicalRule)
    requires SoundEngine(engine) && Searches(rule, search) && kind == search.kind
    ensures var m := LexicalMatch(engine, prompt, rule, kind, search.expression);
            && (m.Some? <==> !NoHit(engine, prompt, search))
            && (m.Some? ==> LexicalReport(engine, prompt, rule, search, m.value))
  {
    SearchIs(rule, search);
    SignalsIffHit(engine, prompt, search);
    var ds := LexicalDetections(engine, prompt, rule, kind, search.expression);
    assert ds == DetectionsOf(rule, kind, PromptSignals(engine, prompt, search));
    if ds != [] { DetectionsReport(engine, prompt, rule, kind, search); }
  }

  lemma {:induction false} SameSearch(rule: FilterRule, a: Scanner.LexicalRule, b: Scanner.LexicalRule)
    requires Searches(rule, a) && Searches(rule, b)
    ensures a == b
  {
  }

  lemma {:induction false} TermsCounted(engine: Engine, prompt: string, rule: FilterRule, terms: seq<string>)
    requires SoundEngine(engine)
    ensures TermsFound(engine, prompt, rule, terms) == TermsHit(engine, prompt, rule, terms)
  {
    if terms != [] {
      var n := |terms| - 1;
      TermsCounted(engine, prompt, rule, terms[..n]);
      SignalsIffHit(engine, prompt, Scanner.LexicalRule("rule:" + rule.id + ":context", Scanner.Keyword, terms[n], "CONTEXT", false));
    }
  }

  lemma {:induction false} FindsBySearch(engine: Engine, prompt: string, rule: FilterRule, search: Scanner.LexicalRule)
    requires (rule.origin == BuiltIn || rule.origin == Custom) && Searches(rule, search)
    ensures Finds(engine, prompt, rule, Others) <==> !NoHit(engine, prompt, search)
  {
    forall other | Searches(rule, other) ensures other == search { SameSearch(rule, search, other); }
  }

  lemma {:induction false} KeywordFinds(engine: Engine, prompt: string, rule: FilterRule, kind: Scanner.RuleKind, expression: string)
    requires SoundEngine(engine) && rule.origin != OtherOrigin && expression != ""
    requires if kind == Scanner.Keyword then rule.kind == KeywordRule && expression == rule.keyword
             else rule.kind == RegexRule && expression == rule.pattern
    ensures LexicalMatch(engine, prompt, rule, kind, expression).Some? <==> Finds(engine, prompt, rule, Others)
    ensures LexicalMatch(engine, prompt, rule, kind, expression).Some?
            ==> Reports(engine, prompt, rule, Others, LexicalMatch(engine, prompt, rule, kind, expression).value)
  {
    var search := LexicalRuleFor(rule, kind, expression);
    LexicalFinds(engine, prompt, rule, kind, search);
    FindsBySearch(engine, prompt, rule, search);
  }

  lemma {:induction false} ContextFinds(engine: Engine, prompt: string, rule: FilterRule)
    requires SoundEngine(engine) && rule.origin != OtherOrigin && rule.kind == ContextRule
    ensures ContextMatch(engine, prompt, rule).Some? <==> Finds(engine, prompt, rule, Others)
    ensures ContextMatch(engine, prompt, rule).Some?
            ==> Reports(engine, prompt, rule, Others, ContextMatch(engine, prompt, rule).value)
  {
    if rule.config.ContextConfig? { TermsCounted(engine, prompt, rule, rule.config.terms); }
  }

  lemma {:induction false} NothingToFind(engine: Engine, prompt: string, rule: FilterRule)
    requires rule.origin == OtherOrigin || rule.kind == Detector || rule.kind == OtherKind
             || (rule.kind == KeywordRule && rule.keyword == "") || (rule.kind == RegexRule && rule.pattern == "")
    ensures !Finds(engine, prompt, rule, Others)
  {
  }

  lemma {:induction false} OtherFinds(engine: Engine, prompt: string, rule: FilterRule)
    requires SoundEngine(engine)
    ensures CustomMatch(engine, prompt, rule).Some? <==> Finds(engine, prompt, rule, Others)
    ensures CustomMatch(engine, prompt, rule).Some? ==> Reports(engine, prompt, rule, Others, CustomMatch(engine, prompt, rule).value)
  {
    if rule.origin == OtherOrigin {
      NothingToFind(engine, prompt, rule);
    } else if rule.kind == KeywordRule && rule.keyword != "" {
      KeywordFinds(engine, prompt, rule, Scanner.Keyword, rule.keyword);
    } else if rule.kind == RegexRule && rule.pattern != "" {
      KeywordFinds(engine, prompt, rule, Scanner.Regex, rule.pattern);
    } else if rule.kind == ContextRule {
      ContextFinds(engine, prompt, rule);
    } else {
      NothingToFind(engine, prompt, rule);
    }
  }

  lemma {:induction false} NextDue<R, M>(elements: seq<R>, due: R -> bool, report: (R, M) -> bool, items: seq<M>, picks: seq<nat>, item: M)
    requires elements != [] && ListedBy(elements[..|elements| - 1], due, report, items, picks)
    requires due(elements[|elements| - 1]) && report(elements[|elements| - 1], item)
    ensures ListedBy(elements, due, report, items + [item], picks + [|elements| - 1])
  {
    var n := |elements| - 1;
    assert (picks + [n])[|picks|] == n;
    assert forall r :: 0 <= r < n ==> elements[..n][r] == elements[r];
  }

  lemma {:induction false} NextNotDue<R, M>(elements: seq<R>, due: R -> bool, report: (R, M) -> bool, items: seq<M>, picks: seq<nat>)
    requires elements != [] && ListedBy(elements[..|elements| - 1], due, report, items, picks)
    requires !due(elements[|elements| - 1])
    ensures ListedBy(elements, due, report, items, picks)
  {
    assert forall r :: 0 <= r < |elements| - 1 ==> elements[..|elements| - 1][r] == elements[r];
  }

  lemma {:induction false} ListingNext(engine: Engine, prompt: string, rules: seq<FilterRule>, pass: Pass, before: seq<RuleMatch>, m: Option<RuleMatch>)
    requires rules != [] && Listing(engine, prompt, rules[..|rules| - 1], pass, before)
    requires m.Some? <==> Finds(engine, prompt, rules[|rules| - 1], pass)
    requires m.Some? ==> Reports(engine, prompt, rules[|rules| - 1], pass, m.value)
    ensures Listing(engine, prompt, rules, pass, before + if Active(rules[|rules| - 1]) && m.Some? then [m.value] else [])
  {
    var n, due, report := |rules| - 1, DueIn(engine, prompt, pass), ReportIn(engine, prompt, pass);
    var picks :| ListedBy(rules[..n], due, report, before, picks);
    if Active(rules[n]) && m.Some? {
      NextDue(rules, due, report, before, picks, m.value);
    } else {
      NextNotDue(rules, due, report, before, picks);
      assert before + [] == before;
    }
  }

  lemma {:induction false} NothingListed(engine: Engine, prompt: string, pass: Pass)
    ensures Listing(engine, prompt, [], pass, [])
  {
    assert ListedBy<FilterRule, RuleMatch>([], DueIn(engine, prompt, pass), ReportIn(engine, prompt, pass), [], []);
  }

  lemma {:induction false} DetectorsListed(engine: Engine, prompt: string, rules: seq<FilterRule>)
    ensures Listing(engine, prompt, rules, Detectors, BuiltInMatches(engine.detectPii(prompt), rules))
  {
    if rules == [] {
      NothingListed(engine, prompt, Detectors);
    } else {
      var n, pii := |rules| - 1, engine.detectPii(prompt);
      DetectorsListed(engine, prompt, rules[..n]);
      DetectorFinds(engine, prompt, rules[n]);
      ListingNext(engine, prompt, rules, Detectors, BuiltInMatches(pii, rules[..n]), BuiltInMatch(pii, rules[n]));
    }
  }

  lemma {:induction false} OthersListed(engine: Engine, prompt: string, rules: seq<FilterRule>)
    requires SoundEngine(engine)
    ensures Listing(engine, prompt, rules, Others, CustomMatches(engine, prompt, rules))
  {
    if rules == [] {
      NothingListed(engine, prompt, Others);
    } else {
      var n := |rules| - 1;
      OthersListed(engine, prompt, rules[..n]);
      OtherFinds(engine, prompt, rules[n]);
      ListingNext(engine, prompt, rules, Others, CustomMatches(engine, prompt, rules[..n]), CustomMatch(engine, prompt, rules[n]));
    }
  }

  // The matches of a prompt, told by the matcher and the detectors alone.
  lemma {:induction false} MatchesEvaluated(engine: Engine, prompt: string, rules: seq<FilterRule>)
    requires SoundEngine(engine)
    ensures Evaluated(engine, prompt, rules, Matches(engine, prompt, rules))
  {
    var left, right := BuiltInMatches(engine.detectPii(prompt), rules), CustomMatches(engine, prompt, rules);
    DetectorsListed(engine, prompt, rules);
    OthersListed(engine, prompt, rules);
    assert BothPasses(engine, prompt, rules, left + right, left, right);
  }

  // ---------------------------------------------------------------- single rules

  lemma {:induction false} PickOf<R, M>(elements: seq<R>, due: R -> bool, report: (R, M) -> bool, items: seq<M>, r: nat) returns (i: nat)
    requires (exists picks :: ListedBy(elements, due, report, items, picks)) && r < |elements| && due(elements[r])
    ensures i < |items| && report(elements[r], items[i])
  {
    var picks :| ListedBy(elements, due, report, items, picks);
    i :| i < |picks| && picks[i] == r;
  }

  lemma {:induction false} PickAt<R, M>(elements: seq<R>, due: R -> bool, report: (R, M) -> bool, items: seq<M>, i: nat) returns (r: nat)
    requires (exists picks :: ListedBy(elements, due, report, items, picks)) && i < |items|
    ensures r < |elements| && due(elements[r]) && report(elements[r], items[i])
  {
    var picks :| ListedBy(elements, due, report, items, picks);
    r := picks[i];
  }

  lemma {:induction false} ListedFor(engine: Engine, prompt: string, rules: seq<FilterRule>, pass: Pass, ms: seq<RuleMatch>, r: nat) returns (i: nat)
    requires Listing(engine, prompt, rules, pass, ms) && r < |rules| && Due(engine, prompt, rules[r], pass)
    ensures i < |ms| && Reports(engine, prompt, rules[r], pass, ms[i])
  {
    i := PickOf(rules, DueIn(engine, prompt, pass), ReportIn(engine, prompt, pass), ms, r);
  }

  lemma {:induction false} ListedFrom(engine: Engine, prompt: string, rules: seq<FilterRule>, pass: Pass, ms: seq<RuleMatch>, i: nat) returns (r: nat)
    requires Listing(engine, prompt, rules, pass, ms) && i < |ms|
    ensures r < |rules| && Due(engine, prompt, rules[r], pass) && Reports(engine, prompt, rules[r], pass, ms[i])
  {
    r := PickAt(rules, DueIn(engine, prompt, pass), ReportIn(engine, prompt, pass), ms, i);
  }

  lemma {:induction false} Passes(engine: Engine, prompt: string, rules: seq<FilterRule>, ms: seq<RuleMatch>)
    returns (left: seq<RuleMatch>, right: seq<RuleMatch>)
    requires Evaluated(engine, prompt, rules, ms)
    ensures Listing(engine, prompt, rules, Detectors, left) && Listing(engine, prompt, rules, Others, right) && ms == left + right
  {
    left, right :| BothPasses(engine, prompt, rules, ms, left, right);
  }

  // An active rule that finds something is reported ...
  lemma {:induction false} FindingIsReported(engine: Engine, prompt: string, rules: seq<FilterRule>, ms: seq<RuleMatch>, pass: Pass, r: nat)
    returns (i: nat)
    requires Evaluated(engine, prompt, rules, ms) && r < |rules| && Due(engine, prompt, rules[r], pass)
    ensures i < |ms| && Reports(engine, prompt, rules[r], pass, ms[i])
  {
    var left, right := Passes(engine, prompt, rules, ms);
    var part := if pass == Detectors then left else right;
    var j := ListedFor(engine, prompt, rules, pass, part, r);
    i := PlaceInBoth(left, right, pass, j);
  }

  lemma {:induction false} PlaceInBoth(left: seq<RuleMatch>, right: seq<RuleMatch>, pass: Pass, j: nat) returns (i: nat)
    requires j < |if pass == Detectors then left else right|
    ensures i < |left + right| && (left + right)[i] == (if pass == Detectors then left else right)[j]
  {
    i := if pass == Detectors then j else |left| + j;
  }

  lemma {:induction false} PlaceInPass(left: seq<RuleMatch>, right: seq<RuleMatch>, i: nat) returns (pass: Pass, j: nat)
    requires i < |left + right|
    ensures j < |if pass == Detectors then left else right| && (left + right)[i] == (if pass == Detectors then left else right)[j]
  {
    if i < |left| { pass, j := Detectors, i; } else { pass, j := Others, i - |left|; }
  }

  // ... and everything reported was found by an active rule.
  lemma {:induction false} ReportedIsFound(engine: Engine, prompt: string, rules: seq<FilterRule>, ms: seq<RuleMatch>, i: nat)
    returns (r: nat, pass: Pass)
    requires Evaluated(engine, prompt, rules, ms) && i < |ms|
    ensures r < |rules| && Due(engine, prompt, rules[r], pass) && Reports(engine, prompt, rules[r], pass, ms[i])
  {
    var left, right := Passes(engine, prompt, rules, ms);
    var j;
    pass, j := PlaceInPass(left, right, i);
    r := ListedFrom(engine, prompt, rules, pass, if pass == Detectors then left else right, j);
  }

  // A hit of an active keyword or regex rule is marked in a match that has the rule's id and action.
  lemma {:induction false} HitIsReported(engine: Engine, prompt: string, rules: seq<FilterRule>, ms: seq<RuleMatch>, r: nat,
                                         search: Scanner.LexicalRule, span: TextRange, original: TextRange) returns (i: nat, d: Detection)
    requires Evaluated(engine, prompt, rules, ms) && r < |rules| && rules[r].enabled && !rules[r].archived
    requires rules[r].origin == BuiltIn || rules[r].origin == Custom
    requires Searches(rules[r], search) && Hit(engine, prompt, search, span, original)
    ensures i < |ms| && LexicalReport(engine, prompt, rules[r], search, ms[i])
    ensures d in ms[i].detections && Marks(rules[r], d, original)
  {
    assert Finds(engine, prompt, rules[r], Others);
    i := FindingIsReported(engine, prompt, rules, ms, Others, r);
    assert rules[r].kind != ContextRule;
    var other :| Searches(rules[r], other) && LexicalReport(engine, prompt, rules[r], other, ms[i]);
    SameSearch(rules[r], search, other);
    var j :| 0 <= j < |ms[i].detections| && Marks(rules[r], ms[i].detections[j], original);
    d := ms[i].detections[j];
  }

  // A detection with the key of an active built-in detector rule is in a match that has the rule's id and action.
  lemma {:induction false} DetectionIsReported(engine: Engine, prompt: string, rules: seq<FilterRule>, ms: seq<RuleMatch>, r: nat, d: Detection)
    returns (i: nat)
    requires Evaluated(engine, prompt, rules, ms) && r < |rules| && rules[r].enabled && !rules[r].archived
    requires rules[r].origin == BuiltIn && rules[r].kind == Detector && rules[r].detectorKey != ""
    requires d in engine.detectPii(prompt) && d.detectorKey == rules[r].detectorKey
    ensures i < |ms| && DetectorReport(engine, prompt, rules[r], ms[i]) && d in ms[i].detections
  {
    i := FindingIsReported(engine, prompt, rules, ms, Detectors, r);
    assert multiset(ms[i].detections)[d] == multiset(engine.detectPii(prompt))[d];
    assert d in multiset(engine.detectPii(prompt));
  }

  // ---------------------------------------------------------------- the two loops

  method DetectorRuleMatches(detections: seq<Detection>, rules: seq<FilterRule>) returns (matches: seq<RuleMatch>)
    ensures matches == BuiltInMatches(detections, rules)
  {
    matches := [];
    for r := 0 to |rules|
      invariant matches == BuiltInMatches(detections, rules[..r])
    {
      assert rules[..r + 1][..r] == rules[..r];
      if Active(rules[r]) {
        var found := BuiltInMatch(detections, rules[r]);
        if found.Some? { matches := matches + [found.value]; }
      }
    }
    assert rules[..|rules|] == rules;
  }

  method AddOtherMatches(engine: Engine, prompt: string, rules: seq<FilterRule>, builtIn: seq<RuleMatch>) returns (matches: seq<RuleMatch>)
    ensures matches == builtIn + CustomMatches(engine, prompt, rules)
  {
    matches := builtIn;
    for r := 0 to |rules|
      invariant matches == builtIn + CustomMatches(engine, prompt, rules[..r])
    {
      assert rules[..r + 1][..r] == rules[..r];
      if Active(rules[r]) {
        var found := CustomMatch(engine, prompt, rules[r]);
        if found.Some? { matches := matches + [found.value]; }
      }
    }
    assert rules[..|rules|] == rules;
  }

  method EvaluateFilterRules(engine: Engine, prompt: string, rules: seq<FilterRule>) returns (matches: seq<RuleMatch>)
    ensures matches == Matches(engine, prompt, rules)
    ensures SoundEngine(engine) ==> Evaluated(engine, prompt, rules, matches)
  {
    var builtIn := DetectorRuleMatches(engine.detectPii(prompt), rules);
    matches := AddOtherMatches(engine, prompt, rules, builtIn);
    if SoundEngine(engine) { MatchesEvaluated(engine, prompt, rules); }
  }

  lemma {:induction false} BuiltInMatchesFrom(detections: seq<Detection>, rules: seq<FilterRule>, m: RuleMatch)
    ensures m in BuiltInMatches(detections, rules)
            <==> exists r :: 0 <= r < |rules| && Active(rules[r]) && BuiltInMatch(detections, rules[r]) == Some(m)
  {
    if rules != [] {
      var n := |rules| - 1;
      BuiltInMatchesFrom(detections, rules[..n], m);
      assert forall r :: 0 <= r < n ==> rules[..n][r] == rules[r];
    }
  }

  lemma {:induction false} CustomMatchesFrom(engine: Engine, prompt: string, rules: seq<FilterRule>, m: RuleMatch)
    ensures m in CustomMatches(engine, prompt, rules)
            <==> exists r :: 0 <= r < |rules| && Active(rules[r]) && CustomMatch(engine, prompt, rules[r]) == Some(m)
  {
    if rules != [] {
      var n := |rules| - 1;
      CustomMatchesFrom(engine, prompt, rules[..n], m);
      assert forall r :: 0 <= r < n ==> rules[..n][r] == rules[r];
    }
  }

  // A match is reported exactly when an active rule makes it.
  lemma {:induction false} MatchesExactly(engine: Engine, prompt: string, rules: seq<FilterRule>, m: RuleMatch)
    ensures m in Matches(engine, prompt, rules) <==> FromRule(engine, prompt, rules, m)
  {
    BuiltInMatchesFrom(engine.detectPii(prompt), rules, m);
    CustomMatchesFrom(engine, prompt, rules, m);
  }

  // All detections of a match lie in the prompt.
  lemma {:induction false} AllMatchesWithin(engine: Engine, prompt: string, rules: seq<FilterRule>)
    requires SoundEngine(engine)
    ensures MatchesWithin(prompt, Matches(engine, prompt, rules))
  {
    var matches := Matches(engine, prompt, rules);
    forall i | 0 <= i < |matches| ensures Within(prompt, matches[i].detections) {
      MatchesExactly(engine, prompt, rules, matches[i]);
      var r :| 0 <= r < |rules| && Active(rules[r])
        && (BuiltInMatch(engine.detectPii(prompt), rules[r]) == Some(matches[i]) || CustomMatch(engine, prompt, rules[r]) == Some(matches[i]));
      CustomMatchWithin(engine, prompt, rules[r]);
    }
  }

  function MaskingDetections(matches: seq<RuleMatch>): seq<Detection> {
    if matches == [] then []
    else
      var last := matches[|matches| - 1];
      MaskingDetections(matches[..|matches| - 1]) + if last.action == Mask then last.detections else []
  }

  // Exactly the detections of the matches whose action is to mask.
  lemma {:induction false} MaskingExactly(matches: seq<RuleMatch>, d: Detection)
    ensures d in MaskingDetections(matches) <==> exists i :: 0 <= i < |matches| && matches[i].action == Mask && d in matches[i].detections
  {
    if matches != [] {
      var n := |matches| - 1;
      MaskingExactly(matches[..n], d);
      assert forall i :: 0 <= i < n ==> matches[..n][i] == matches[i];
    }
  }

  // They keep their order: what an earlier match found comes before what a later one found.
  lemma {:induction false} MaskingInOrder(left: seq<RuleMatch>, right: seq<RuleMatch>)
    ensures MaskingDetections(left + right) == MaskingDetections(left) + MaskingDetections(right)
    decreases |right|
  {
    if right == [] {
      assert left + right == left;
    } else {
      var n, both := |right| - 1, left + right;
      MaskingInOrder(left, right[..n]);
      assert both[..|both| - 1] == left + right[..n] && both[|both| - 1] == right[n];
    }
  }

  method DetectionsForMasking(matches: seq<RuleMatch>) returns (detections: seq<Detection>)
    ensures detections == MaskingDetections(matches)
  {
    detections := [];
    for m := 0 to |matches|
      invariant detections == MaskingDetections(matches[..m])
    {
      assert matches[..m + 1][..m] == matches[..m];
      if matches[m].action == Mask { detections := detections + matches[m].detections; }
    }
    assert matches[..|matches|] == matches;
  }

  lemma {:induction false} MaskingWithin(prompt: string, matches: seq<RuleMatch>)
    requires MatchesWithin(prompt, matches)
    ensures Within(prompt, MaskingDetections(matches))
  {
    if matches != [] {
      var n := |matches| - 1;
      MaskingWithin(prompt, matches[..n]);
      assert Within(prompt, matches[n].detections);
    }
  }

  // The replacements that masking makes for these rules.
  ghost function ReplacementsFor(engine: Engine, prompt: string, rules: seq<FilterRule>): seq<Replacement> {
    Replacements(ItemsOf(prompt, Selected(MaskingDetections(Matches(engine, prompt, rules)))))
  }

  // A range is replaced only if it is that of a detection of a match with action MASK.
  lemma {:induction false} MaskedByRule(engine: Engine, prompt: string, rules: seq<FilterRule>, i: nat) returns (k: nat, d: Detection)
    requires i < |ReplacementsFor(engine, prompt, rules)|
    ensures var matches := Matches(engine, prompt, rules); k < |matches| && matches[k].action == Mask && d in matches[k].detections
    ensures ReplacementsFor(engine, prompt, rules)[i].start == d.start && ReplacementsFor(engine, prompt, rules)[i].end == d.end
  {
    var matches := Matches(engine, prompt, rules);
    var ds := Selected(MaskingDetections(matches));
    d := ds[i];
    SelectedRanges(MaskingDetections(matches));
    assert d in ds;
    MaskingExactly(matches, d);
    k :| k < |matches| && matches[k].action == Mask && d in matches[k].detections;
    assert ItemsOf(prompt, ds)[i] == ItemOf(prompt, d);
  }

  // ---------------------------------------------------------------- what masking replaces

  // Some replacement overlaps the range.
  ghost predicate Replaced(rs: seq<Replacement>, original: TextRange) {
    exists i :: 0 <= i < |rs| && rs[i].start < original.end && original.start < rs[i].end
  }

  // An active rule that asks for masking, with its search ...
  predicate MasksHits(rule: FilterRule, search: Scanner.LexicalRule) {
    rule.enabled && !rule.archived && rule.action == Mask && (rule.origin == BuiltIn || rule.origin == Custom) && Searches(rule, search)
  }

  // ... or with the detectors' findings of its key.
  predicate MasksDetections(rule: FilterRule) {
    rule.enabled && !rule.archived && rule.action == Mask && rule.origin == BuiltIn && rule.kind == Detector && rule.detectorKey != ""
  }

  ghost predicate MaskedHit(engine: Engine, prompt: string, rules: seq<FilterRule>, r: nat, search: Scanner.LexicalRule, span: TextRange, original: TextRange)
  {
    r < |rules| && MasksHits(rules[r], search) && Hit(engine, prompt, search, span, original)
  }

  predicate MaskedDetection(engine: Engine, prompt: string, rules: seq<FilterRule>, r: nat, d: Detection) {
    r < |rules| && MasksDetections(rules[r]) && d in engine.detectPii(prompt) && d.detectorKey == rules[r].detectorKey
  }

  // Everything that a rule with action MASK finds is overlapped by a replacement ...
  ghost predicate AllReplaced(engine: Engine, prompt: string, rules: seq<FilterRule>, rs: seq<Replacement>) {
    && (forall r: nat, search, span, original :: MaskedHit(engine, prompt, rules, r, search, span, original) ==> Replaced(rs, original))
    && (forall r: nat, d :: MaskedDetection(engine, prompt, rules, r, d) ==> Replaced(rs, d.Range()))
  }

  // ... and each replacement stands exactly where one of them was found.
  ghost predicate OnlyReplaced(engine: Engine, prompt: string, rules: seq<FilterRule>, rs: seq<Replacement>) {
    forall i :: 0 <= i < |rs| ==> RightlyReplaced(engine, prompt, rules, rs[i].start, rs[i].end)
  }

  ghost predicate RightlyReplaced(engine: Engine, prompt: string, rules: seq<FilterRule>, start: int, end: int) {
    || (exists r: nat, search, span :: MaskedHit(engine, prompt, rules, r, search, span, TextRange(start, end)))
    || (exists r: nat, d :: MaskedDetection(engine, prompt, rules, r, d) && d.start == start && d.end == end)
  }

  lemma {:induction false} MaskedIsReplaced(engine: Engine, prompt: string, rules: seq<FilterRule>, i: nat, d: Detection)
    requires SoundEngine(engine) && i < |Matches(engine, prompt, rules)|
    requires Matches(engine, prompt, rules)[i].action == Mask && d in Matches(engine, prompt, rules)[i].detections
    ensures Replaced(ReplacementsFor(engine, prompt, rules), d.Range())
  {
    var matches := Matches(engine, prompt, rules);
    AllMatchesWithin(engine, prompt, rules);
    assert Within(prompt, matches[i].detections);
    MaskingExactly(matches, d);
    var winner := SelectedBlocks(MaskingDetections(matches), d);
    var ds := Selected(MaskingDetections(matches));
    var w :| 0 <= w < |ds| && ds[w] == winner;
    assert ItemsOf(prompt, ds)[w] == ItemOf(prompt, winner);
    assert ReplacementsFor(engine, prompt, rules)[w].start == winner.start;
  }

  lemma {:induction false} HitReplaced(engine: Engine, prompt: string, rules: seq<FilterRule>, r: nat,
                                       search: Scanner.LexicalRule, span: TextRange, original: TextRange)
    requires SoundEngine(engine) && MaskedHit(engine, prompt, rules, r, search, span, original)
    ensures Replaced(ReplacementsFor(engine, prompt, rules), original)
  {
    MatchesEvaluated(engine, prompt, rules);
    var i, d := HitIsReported(engine, prompt, rules, Matches(engine, prompt, rules), r, search, span, original);
    MaskedIsReplaced(engine, prompt, rules, i, d);
  }

  lemma {:induction false} DetectionReplaced(engine: Engine, prompt: string, rules: seq<FilterRule>, r: nat, d: Detection)
    requires SoundEngine(engine) && MaskedDetection(engine, prompt, rules, r, d)
    ensures Replaced(ReplacementsFor(engine, prompt, rules), d.Range())
  {
    MatchesEvaluated(engine, prompt, rules);
    var i := DetectionIsReported(engine, prompt, rules, Matches(engine, prompt, rules), r, d);
    MaskedIsReplaced(engine, prompt, rules, i, d);
  }

  // A detection of a match with action MASK stands where an active rule with that action found something.
  lemma {:induction false} MaskedIsFound(engine: Engine, prompt: string, rules: seq<FilterRule>, ms: seq<RuleMatch>, i: nat, d: Detection)
    requires Evaluated(engine, prompt, rules, ms) && i < |ms| && ms[i].action == Mask && d in ms[i].detections
    ensures RightlyReplaced(engine, prompt, rules, d.start, d.end)
  {
    var r, pass := ReportedIsFound(engine, prompt, rules, ms, i);
    if pass == Detectors {
      DetectorMasked(engine, prompt, rules, r, ms[i], d);
    } else {
      SearchMasked(engine, prompt, rules, r, ms[i], d);
    }
  }

  lemma {:induction false} DetectorMasked(engine: Engine, prompt: string, rules: seq<FilterRule>, r: nat, m: RuleMatch, d: Detection)
    requires r < |rules| && Due(engine, prompt, rules[r], Detectors) && DetectorReport(engine, prompt, rules[r], m)
    requires m.action == Mask && d in m.detections
    ensures RightlyReplaced(engine, prompt, rules, d.start, d.end)
  {
    assert d in multiset(m.detections);
    assert multiset(engine.detectPii(prompt))[d] > 0;
    assert MaskedDetection(engine, prompt, rules, r, d);
  }

  lemma {:induction false} SearchMasked(engine: Engine, prompt: string, rules: seq<FilterRule>, r: nat, m: RuleMatch, d: Detection)
    requires r < |rules| && Due(engine, prompt, rules[r], Others) && Reports(engine, prompt, rules[r], Others, m)
    requires m.action == Mask && d in m.detections
    ensures RightlyReplaced(engine, prompt, rules, d.start, d.end)
  {
    var search :| Searches(rules[r], search) && LexicalReport(engine, prompt, rules[r], search, m);
    var span, original :| Hit(engine, prompt, search, span, original) && Marks(rules[r], d, original);
    assert original == TextRange(d.start, d.end);
    assert MaskedHit(engine, prompt, rules, r, search, span, TextRange(d.start, d.end));
  }

  // The replaced ranges are those found by the rules that ask for masking, up to overlaps among them.
  lemma {:induction false} ReplacedExactly(engine: Engine, prompt: string, rules: seq<FilterRule>)
    requires SoundEngine(engine)
    ensures AllReplaced(engine, prompt, rules, ReplacementsFor(engine, prompt, rules))
    ensures OnlyReplaced(engine, prompt, rules, ReplacementsFor(engine, prompt, rules))
  {
    var rs := ReplacementsFor(engine, prompt, rules);
    forall r: nat, search, span, original | MaskedHit(engine, prompt, rules, r, search, span, original) ensures Replaced(rs, original) {
      HitReplaced(engine, prompt, rules, r, search, span, original);
    }
    forall r: nat, d | MaskedDetection(engine, prompt, rules, r, d) ensures Replaced(rs, d.Range()) {
      DetectionReplaced(engine, prompt, rules, r, d);
    }
    forall i | 0 <= i < |rs| ensures RightlyReplaced(engine, prompt, rules, rs[i].start, rs[i].end) {
      var k, d := MaskedByRule(engine, prompt, rules, i);
      MatchesEvaluated(engine, prompt, rules);
      MaskedIsFound(engine, prompt, rules, Matches(engine, prompt, rules), k, d);
    }
  }

  // Whatever the rules find, the masked prompt is the interleaving of gaps and placeholders, the replacements undo it, and
  // they stand where the rules that ask for masking found something.
  method MaskPrompt(engine: Engine, prompt: string, rules: seq<FilterRule>) returns (masked: MaskedText)
    requires SoundEngine(engine)
    ensures var rs := ReplacementsFor(engine, prompt, rules);
            && InText(prompt, rs, 0) && masked.text == Interleave(prompt, rs, 0)
            && Unmask(masked.text, rs, 0) == prompt
            && masked.appliedCount == |rs| && CountsFor(rs, masked.placeholderCounts)
            && AllReplaced(engine, prompt, rules, rs) && OnlyReplaced(engine, prompt, rules, rs)
  {
    var matches := EvaluateFilterRules(engine, prompt, rules);
    var detections := DetectionsForMasking(matches);
    masked := ApplyPlaceholders(prompt, detections);
    AllMatchesWithin(engine, prompt, rules);
    MaskingWithin(prompt, matches);
    MaskingRoundTrip(prompt, detections);
    ReplacedExactly(engine, prompt, rules);
  }
}
