// One analyzed input, from text to mapped signals (apps/api/app/services/analyze_classifier.py:92-146).
module Pipeline {
  import opened Options
  import opened Spans
  import opened Normalizer
  import opened Scanner
  import opened Atoms
  import opened Boundaries
  import opened Packing
  import opened Segmenter
  import opened SegmentBreaks
  import opened Mapping
  import Sorting

  datatype EmbeddingResult = Embedded(embeddings: seq<AtomEmbedding>) | EmbeddingFailed

  // Everything the pipeline asks of code outside this model.
  datatype World = World(
    special: CharTest, matcher: Matcher, recognizer: Recognizer,
    embed: seq<AnalysisAtom> -> EmbeddingResult, cosine: (seq<Component>, seq<Component>) -> real)

  // The matchers are sound, and the embedding model only returns vectors for the atoms it was given.
  ghost predicate SoundWorld(world: World) {
    && SoundMatcher(world.matcher)
    && SoundRecognizer(world.recognizer)
    && forall atoms :: EmbedsOnly(atoms, world.embed(atoms))
  }

  ghost predicate EmbedsOnly(atoms: seq<AnalysisAtom>, result: EmbeddingResult) {
    result.Embedded? ==> VectorMap(result.embeddings).Keys <= IdSet(SortedAtoms(atoms))
  }

  datatype Outcome =
    | NoText
    | LexicalScanFailed
    | NoAtoms
    | EmbeddingFailure
    | SegmentationFailed(failure: SegmentFailure)
    | Mapped(signalSets: seq<SegmentSignalSet>)

  const DEFAULT_ATOMIZATION := AtomizationPolicy(16, 512, 16, true, true)
  const DEFAULT_SEGMENTS := SegmentPolicy(1, 1800, 3200, 0.72, true)

  // The only block of the document made for an input.
  function BlockFor(inputId: string, content: string, ocr: bool): ParsedBlock {
    ParsedBlock(inputId + ":text", inputId, content, ocr)
  }

  function NormalizedFor(world: World, block: ParsedBlock): NormalizedBlock {
    NormalizedBlock(block.blockId, block.inputId, block.text,
                    Normalized(world.special, block.text, MINIMUM_REPEAT), OffsetMap(world.special, block.text, MINIMUM_REPEAT))
  }

  // The scanner leaves severity_hint empty, so the mapper sees "low".
  function MappingSignal(signal: LexicalSignal): Signal {
    Signal(signal.id, signal.inputId, signal.blockId, signal.originalRange, Low)
  }

  function MappingSignals(signals: seq<LexicalSignal>): (r: seq<Signal>)
    ensures |r| == |signals| && forall i :: 0 <= i < |signals| ==> r[i] == MappingSignal(signals[i])
  {
    if signals == [] then [] else MappingSignals(signals[..|signals| - 1]) + [MappingSignal(signals[|signals| - 1])]
  }

  // A compiling rule has this non-empty match in the normalized text, and the match stands for this range of the original.
  ghost predicate MatchedAt(world: World, block: ParsedBlock, rule: LexicalRule, span: TextRange, original: TextRange) {
    FoundIn(world.special, world.matcher, rule, block.text, span, original)
  }

  // The id of the match's signal.
  function MatchId(block: ParsedBlock, rule: LexicalRule, span: TextRange): SignalId {
    SignalId(block.inputId, block.blockId, rule.patternId, span.start, span.end)
  }

  // What the scanner reports for the input.
  function ScannedSignals(world: World, block: ParsedBlock, rules: seq<LexicalRule>): seq<LexicalSignal> {
    Signals(world.matcher, block.inputId, rules, [NormalizedFor(world, block)])
  }

  // ---------------------------------------------------------------- what mapping owes each signal

  // The atom lies in segment k and overlaps the signal.
  ghost predicate HeldBy(segments: seq<AnalysisSegment>, k: nat, signal: Signal, atoms: seq<AnalysisAtom>, p: nat)
    requires k < |segments| && p < |atoms|
  {
    && atoms[p].id in segments[k].atomIds && atoms[p].blockId == signal.blockId
    && atoms[p].range.start < signal.range.end && signal.range.start < atoms[p].range.end
  }

  // Segment k is the first one that holds an overlapping atom.
  ghost predicate FirstHolder(signal: Signal, segments: seq<AnalysisSegment>, atoms: seq<AnalysisAtom>, k: nat)
    requires k < |segments|
  {
    && (exists p :: 0 <= p < |atoms| && HeldBy(segments, k, signal, atoms, p))
    && (forall j, p :: 0 <= j < k && 0 <= p < |atoms| ==> !HeldBy(segments, j, signal, atoms, p))
  }

  // The entry maps the signal by offset overlap and names exactly the overlapping atoms of segment k.
  ghost predicate EntryFor(entry: MappedSignal, signal: Signal, segments: seq<AnalysisSegment>, atoms: seq<AnalysisAtom>, k: nat)
    requires k < |segments|
  {
    && entry.id == signal.id && entry.basis == OffsetOverlap && entry.severity == signal.severity
    && (forall p :: 0 <= p < |atoms| && HeldBy(segments, k, signal, atoms, p) ==> atoms[p].id in entry.atomIds)
    && (forall id :: id in entry.atomIds ==> HolderNamed(segments, k, signal, atoms, id))
  }

  ghost predicate HolderNamed(segments: seq<AnalysisSegment>, k: nat, signal: Signal, atoms: seq<AnalysisAtom>, id: AtomId)
    requires k < |segments|
  {
    exists p :: 0 <= p < |atoms| && HeldBy(segments, k, signal, atoms, p) && atoms[p].id == id
  }

  // The signal is in set k, once, and in no other set.
  ghost predicate OnlyInSet(signal: Signal, segments: seq<AnalysisSegment>, atoms: seq<AnalysisAtom>, signalSets: seq<SegmentSignalSet>, k: nat)
    requires k < |signalSets| == |segments|
  {
    && (exists entry :: OnlyEntry(signalSets[k].signals, entry) && EntryFor(entry, signal, segments, atoms, k))
    && (forall j :: 0 <= j < |signalSets| && j != k ==> !MappedId(signalSets[j].signals, signal.id))
  }

  ghost predicate MappedOnce(signal: Signal, segments: seq<AnalysisSegment>, atoms: seq<AnalysisAtom>, signalSets: seq<SegmentSignalSet>)
    requires |signalSets| == |segments|
  {
    exists k: nat :: k < |segments| && FirstHolder(signal, segments, atoms, k) && OnlyInSet(signal, segments, atoms, signalSets, k)
  }

  predicate HoldsText(text: string, range: TextRange) {
    exists i :: 0 <= i < |text| && range.Contains(i) && !IsSpace(text[i])
  }

  // ---------------------------------------------------------------- steps of the end-to-end argument

  lemma {:induction false} AtomsAreSorted(block: ParsedBlock, atoms: seq<AnalysisAtom>, starts: seq<nat>, maxChars: int)
    requires DocumentAtoms([block], atoms, starts, maxChars)
    ensures DistinctIds(atoms) && SortedAtoms(atoms) == atoms
    ensures forall p :: 0 <= p < |atoms| ==> atoms[p].blockId == block.blockId
  {
    BlockPartAtoms([block], atoms, starts, maxChars, 0);
    assert forall p :: 0 <= p < |atoms| ==> AtomOfBlock(starts, 0, p);
    Sorting.SortOfSorted(atoms, ByOrdinal);
  }

  // Every grouped atom is found in its group.
  lemma {:induction false} AtomInGroup(groups: seq<Group>, p: nat) returns (g: nat, i: nat)
    requires p < |AtomsIn(groups)|
    ensures g < |groups| && i < |groups[g].atoms| && groups[g].atoms[i] == AtomsIn(groups)[p]
  {
    var n := |groups| - 1;
    var before := AtomsIn(groups[..n]);
    if p < |before| {
      g, i := AtomInGroup(groups[..n], p);
    } else {
      g, i := n, p - |before|;
    }
  }

  // In a segment made of a known group, the looked-up atoms are the group's atoms.
  lemma {:induction false} SegmentAtomsOfGroup(byId: map<AtomId, AnalysisAtom>, atoms: seq<AnalysisAtom>)
    requires Known(byId, atoms)
    ensures SegmentAtoms(byId, Ids(atoms)) == atoms
  {
    if atoms != [] {
      var n := |atoms| - 1;
      SegmentAtomsOfGroup(byId, atoms[..n]);
      assert Ids(atoms)[..n] == Ids(atoms[..n]);
    }
  }

  // The setting in which mapping runs: one block's atoms, grouped and turned into segments.
  ghost predicate Setting(block: ParsedBlock, atoms: seq<AnalysisAtom>, groups: seq<Group>, segments: seq<AnalysisSegment>) {
    && DistinctIds(atoms)
    && (forall p :: 0 <= p < |atoms| ==> atoms[p].blockId == block.blockId)
    && AtomsIn(groups) == atoms && NonEmptyGroups(groups)
    && segments == SegmentsOf(block.inputId, groups)
  }

  // Hits through the id table are overlapping atoms of the segment.
  lemma {:induction false} HitIsHeld(block: ParsedBlock, atoms: seq<AnalysisAtom>, groups: seq<Group>, segments: seq<AnalysisSegment>, signal: Signal, k: nat)
    returns (p: nat)
    requires Setting(block, atoms, groups, segments) && k < |segments| && Hits(signal, segments[k], AtomsById(atoms))
    ensures p < |atoms| && HeldBy(segments, k, signal, atoms, p)
  {
    var byId := AtomsById(atoms);
    AtomsByIdKnown(atoms);
    var ids := segments[k].atomIds;
    var i :| 0 <= i < |ids| && ids[i] in byId && Touches(signal, byId[ids[i]]);
    p :| p < |atoms| && atoms[p].id == ids[i];
  }

  lemma {:induction false} HeldIsHit(block: ParsedBlock, atoms: seq<AnalysisAtom>, groups: seq<Group>, segments: seq<AnalysisSegment>, signal: Signal, k: nat, p: nat)
    requires Setting(block, atoms, groups, segments) && k < |segments| && p < |atoms| && HeldBy(segments, k, signal, atoms, p)
    ensures Hits(signal, segments[k], AtomsById(atoms))
  {
    var byId := AtomsById(atoms);
    AtomsByIdKnown(atoms);
    var ids := segments[k].atomIds;
    var i :| 0 <= i < |ids| && ids[i] == atoms[p].id;
    assert ids[i] in byId && byId[ids[i]] == atoms[p];
  }

  // A segment that is hit maps by offset overlap: its range spans the overlapping atom and it holds one block only.
  lemma {:induction false} HitsByOffset(block: ParsedBlock, atoms: seq<AnalysisAtom>, groups: seq<Group>, segments: seq<AnalysisSegment>, signal: Signal, k: nat)
    requires Setting(block, atoms, groups, segments) && k < |segments|
    requires Hits(signal, segments[k], AtomsById(atoms))
    ensures var mapped := MapSignal(signal, segments[k], SegmentAtoms(AtomsById(atoms), segments[k].atomIds));
            mapped.Some? && EntryFor(mapped.value, signal, segments, atoms, k)
  {
    var byId := AtomsById(atoms);
    AtomsByIdKnown(atoms);
    KnownParts(byId, groups);
    var members := groups[k].atoms;
    assert Known(byId, members);
    SegmentAtomsOfGroup(byId, members);
    GroupInBlock(block, atoms, groups, k);
    HitSpans(groups[k], block.inputId, k, byId, signal);
    MapsByOffset(signal, segments[k], byId, members);
    EntryNamesHolders(block, atoms, groups, segments, signal, k, byId);
  }

  lemma {:induction false} EntryNamesHolders(block: ParsedBlock, atoms: seq<AnalysisAtom>, groups: seq<Group>, segments: seq<AnalysisSegment>,
                                             signal: Signal, k: nat, byId: map<AtomId, AnalysisAtom>)
    requires Setting(block, atoms, groups, segments) && k < |segments| && Known(byId, atoms) && Known(byId, groups[k].atoms)
    ensures EntryFor(MappedSignal(signal.id, signal.severity, OverlappingIds(signal, groups[k].atoms), OffsetOverlap), signal, segments, atoms, k)
  {
    var members := groups[k].atoms;
    forall p | 0 <= p < |atoms| && HeldBy(segments, k, signal, atoms, p) ensures atoms[p].id in OverlappingIds(signal, members) {
      HolderIsMember(byId, atoms, members, p);
    }
    forall id | id in OverlappingIds(signal, members) ensures HolderNamed(segments, k, signal, atoms, id) {
      var a :| a in members && Touches(signal, a) && a.id == id;
      MemberIsHolder(block, atoms, groups, segments, signal, k, a);
    }
  }

  lemma {:induction false} MemberIsHolder(block: ParsedBlock, atoms: seq<AnalysisAtom>, groups: seq<Group>, segments: seq<AnalysisSegment>,
                                          signal: Signal, k: nat, atom: AnalysisAtom)
    requires Setting(block, atoms, groups, segments) && k < |segments| && atom in groups[k].atoms && Touches(signal, atom)
    ensures HolderNamed(segments, k, signal, atoms, atom.id)
  {
    MemberIsAtom(atoms, groups, k, atom);
    var p :| 0 <= p < |atoms| && atoms[p] == atom;
    var i :| 0 <= i < |groups[k].atoms| && groups[k].atoms[i] == atom;
    assert segments[k].atomIds[i] == atom.id;
    assert HeldBy(segments, k, signal, atoms, p);
  }

  // An atom whose id a known group lists is in the group.
  lemma {:induction false} HolderIsMember(byId: map<AtomId, AnalysisAtom>, atoms: seq<AnalysisAtom>, members: seq<AnalysisAtom>, p: nat)
    requires Known(byId, atoms) && Known(byId, members) && p < |atoms| && atoms[p].id in Ids(members)
    ensures atoms[p] in members
  {
    var ids := Ids(members);
    var i :| 0 <= i < |ids| && ids[i] == atoms[p].id;
    assert members[i] == atoms[p];
  }

  lemma {:induction false} MemberIsAtom(atoms: seq<AnalysisAtom>, groups: seq<Group>, k: nat, atom: AnalysisAtom)
    requires AtomsIn(groups) == atoms && k < |groups| && atom in groups[k].atoms
    ensures atom in atoms
    decreases |groups|
  {
    var n := |groups| - 1;
    if k < n { MemberIsAtom(AtomsIn(groups[..n]), groups[..n], k, atom); }
  }

  lemma {:induction false} MapsByOffset(signal: Signal, segment: AnalysisSegment, byId: map<AtomId, AnalysisAtom>, members: seq<AnalysisAtom>)
    requires Hits(signal, segment, byId) && SegmentAtoms(byId, segment.atomIds) == members && members != []
    requires Overlaps(segment.range, signal.range) && forall i :: 0 <= i < |members| ==> members[i].blockId == signal.blockId
    ensures var mapped := MapSignal(signal, segment, SegmentAtoms(byId, segment.atomIds));
            mapped.Some? && mapped.value == MappedSignal(signal.id, signal.severity, OverlappingIds(signal, members), OffsetOverlap)
  {
    MapSignalHits(signal, segment, byId);
  }

  // A hit segment spans the overlapping atom and so overlaps the signal itself.
  lemma {:induction false} HitSpans(group: Group, inputId: string, k: nat, byId: map<AtomId, AnalysisAtom>, signal: Signal)
    requires group.atoms != [] && Known(byId, group.atoms)
    requires Hits(signal, BuildSegment(inputId, group.atoms, k, group.kind), byId)
    ensures Overlaps(BuildSegment(inputId, group.atoms, k, group.kind).range, signal.range)
    ensures exists i :: 0 <= i < |group.atoms| && group.atoms[i].blockId == signal.blockId
  {
    var segment := BuildSegment(inputId, group.atoms, k, group.kind);
    var i :| 0 <= i < |segment.atomIds| && segment.atomIds[i] in byId && Touches(signal, byId[segment.atomIds[i]]);
    assert byId[segment.atomIds[i]] == group.atoms[i];
  }

  lemma {:induction false} GroupInBlock(block: ParsedBlock, atoms: seq<AnalysisAtom>, groups: seq<Group>, k: nat)
    requires AtomsIn(groups) == atoms && k < |groups|
    requires forall p :: 0 <= p < |atoms| ==> atoms[p].blockId == block.blockId
    ensures forall i :: 0 <= i < |groups[k].atoms| ==> groups[k].atoms[i].blockId == block.blockId
  {
    PartOfPure(groups, block.blockId);
    assert AllOf(groups[k].atoms, block.blockId);
  }

  // A signal over text overlaps an atom.
  lemma {:induction false} SomeAtomTouched(block: ParsedBlock, atoms: seq<AnalysisAtom>, starts: seq<nat>, maxChars: int, signal: Signal)
    returns (p: nat)
    requires DocumentAtoms([block], atoms, starts, maxChars)
    requires signal.blockId == block.blockId && HoldsText(block.text, signal.range)
    ensures p < |atoms| && Touches(signal, atoms[p])
  {
    var i :| 0 <= i < |block.text| && signal.range.Contains(i) && !IsSpace(block.text[i]);
    p := CharacterInOneAtom([block], atoms, starts, maxChars, 0, i);
    BlockPartAtoms([block], atoms, starts, maxChars, 0);
    assert atoms[p].range.Contains(i);
  }

  // An atom that a signal overlaps makes some segment hit.
  lemma {:induction false} TouchedIsHit(block: ParsedBlock, atoms: seq<AnalysisAtom>, groups: seq<Group>, segments: seq<AnalysisSegment>,
                                        signal: Signal, p: nat) returns (g: nat)
    requires Setting(block, atoms, groups, segments) && p < |atoms| && Touches(signal, atoms[p])
    ensures g < |segments| && Hits(signal, segments[g], AtomsById(atoms))
  {
    var m;
    g, m := AtomInGroup(groups, p);
    assert segments[g].atomIds[m] == atoms[p].id;
    HeldIsHit(block, atoms, groups, segments, signal, g, p);
  }

  lemma {:induction false} ClaimerIsFirstHolder(block: ParsedBlock, atoms: seq<AnalysisAtom>, groups: seq<Group>, segments: seq<AnalysisSegment>, signal: Signal, k: nat)
    requires Setting(block, atoms, groups, segments) && k < |segments|
    requires Claims(signal, segments, k, AtomsById(atoms), false)
    ensures FirstHolder(signal, segments, atoms, k)
  {
    var held := HitIsHeld(block, atoms, groups, segments, signal, k);
    forall j, p | 0 <= j < k && 0 <= p < |atoms| ensures !HeldBy(segments, j, signal, atoms, p) {
      if HeldBy(segments, j, signal, atoms, p) { HeldIsHit(block, atoms, groups, segments, signal, j, p); }
    }
  }

  lemma {:induction false} ClaimerHasOnlyEntry(
    block: ParsedBlock, atoms: seq<AnalysisAtom>, groups: seq<Group>, segments: seq<AnalysisSegment>,
    signals: seq<Signal>, s: nat, signalSets: seq<SegmentSignalSet>, k: nat)
    requires Setting(block, atoms, groups, segments) && k < |segments| == |signalSets|
    requires DistinctSignals(signals) && s < |signals|
    requires forall j :: 0 <= j < |segments| ==> SetFor(signalSets[j], signals, segments, j, AtomsById(atoms), false)
    requires Claims(signals[s], segments, k, AtomsById(atoms), false)
    requires forall j :: 0 <= j < |segments| && j != k ==> !Claims(signals[s], segments, j, AtomsById(atoms), false)
    ensures OnlyInSet(signals[s], segments, atoms, signalSets, k)
  {
    var signal, byId := signals[s], AtomsById(atoms);
    HitsByOffset(block, atoms, groups, segments, signal, k);
    assert SetFor(signalSets[k], signals, segments, k, byId, false);
    ClaimedExactly(signals, s, segments, k, byId, false);
    forall j | 0 <= j < |segments| && j != k ensures !MappedId(signalSets[j].signals, signal.id) {
      assert SetFor(signalSets[j], signals, segments, j, byId, false);
      ClaimedExactly(signals, s, segments, j, byId, false);
    }
  }

  // End to end for one signal that stands for its id.
  lemma {:induction false} RepresentativeMappedOnce(
    block: ParsedBlock, atoms: seq<AnalysisAtom>, starts: seq<nat>, maxChars: int, groups: seq<Group>, segments: seq<AnalysisSegment>,
    signals: seq<Signal>, s: nat, signalSets: seq<SegmentSignalSet>)
    requires DocumentAtoms([block], atoms, starts, maxChars) && Setting(block, atoms, groups, segments)
    requires DistinctSignals(signals) && s < |signals|
    requires IsValidSignalRange(signals[s].range) && signals[s].blockId == block.blockId && HoldsText(block.text, signals[s].range)
    requires |signalSets| == |segments|
    requires forall k :: 0 <= k < |segments| ==> SetFor(signalSets[k], signals, segments, k, AtomsById(atoms), false)
    ensures MappedOnce(signals[s], segments, atoms, signalSets)
  {
    var p := SomeAtomTouched(block, atoms, starts, maxChars, signals[s]);
    var g := TouchedIsHit(block, atoms, groups, segments, signals[s], p);
    var k := OneSegmentClaims(signals[s], segments, AtomsById(atoms), g);
    ClaimerIsFirstHolder(block, atoms, groups, segments, signals[s], k);
    ClaimerHasOnlyEntry(block, atoms, groups, segments, signals, s, signalSets, k);
  }

  // Two reported signals with one id stand at one place.
  lemma {:induction false} SameIdSamePlace(world: World, block: ParsedBlock, rules: seq<LexicalRule>, s: LexicalSignal, t: LexicalSignal)
    requires SoundWorld(world)
    requires s in ScannedSignals(world, block, rules) && t in ScannedSignals(world, block, rules) && s.id == t.id
    ensures s.originalRange == t.originalRange && s.blockId == t.blockId == block.blockId && s.inputId == block.inputId
    ensures 0 <= s.originalRange.start < s.originalRange.end <= |block.text|
  {
    var nb := NormalizedFor(world, block);
    SignalTruthful(world.special, MINIMUM_REPEAT, world.matcher, block.inputId, rules, [nb], s);
    SignalTruthful(world.special, MINIMUM_REPEAT, world.matcher, block.inputId, rules, [nb], t);
  }

  // The signals that the mapper keeps for an input, one for each id.
  function KeptSignals(world: World, block: ParsedBlock, rules: seq<LexicalRule>): seq<Signal> {
    Dedupe(FilterInput(MappingSignals(ScannedSignals(world, block, rules)), block.inputId))
  }

  // Every reported signal reaches the mapper's deduplication, so its id is kept.
  lemma {:induction false} ReportedIdKept(scanned: seq<LexicalSignal>, inputId: string, signal: LexicalSignal)
    requires signal in scanned && signal.inputId == inputId
    ensures HasId(Dedupe(FilterInput(MappingSignals(scanned), inputId)), signal.id)
  {
    var all := MappingSignals(scanned);
    var mine := FilterInput(all, inputId);
    var i :| 0 <= i < |scanned| && scanned[i] == signal;
    assert all[i] in all && all[i] == MappingSignal(signal);
    var m :| 0 <= m < |mine| && mine[m] == MappingSignal(signal);
    assert mine[m].id == signal.id;
    DedupeKeepsIds(mine, signal.id);
  }

  // Every signal the mapper keeps is a reported one.
  lemma {:induction false} KeptIsReported(scanned: seq<LexicalSignal>, inputId: string, r: nat) returns (t: nat)
    requires r < |Dedupe(FilterInput(MappingSignals(scanned), inputId))|
    ensures t < |scanned| && MappingSignal(scanned[t]) == Dedupe(FilterInput(MappingSignals(scanned), inputId))[r]
  {
    var mine := FilterInput(MappingSignals(scanned), inputId);
    DedupeFrom(mine, r);
    assert Dedupe(mine)[r] in MappingSignals(scanned);
    t :| 0 <= t < |scanned| && MappingSignals(scanned)[t] == Dedupe(mine)[r];
  }

  lemma {:induction false} KeptOfId(scanned: seq<LexicalSignal>, inputId: string, signal: LexicalSignal) returns (r: nat)
    requires signal in scanned && signal.inputId == inputId
    requires forall t :: t in scanned && t.id == signal.id ==> MappingSignal(t) == MappingSignal(signal)
    ensures var kept := Dedupe(FilterInput(MappingSignals(scanned), inputId));
            r < |kept| && kept[r] == MappingSignal(signal)
  {
    var kept := Dedupe(FilterInput(MappingSignals(scanned), inputId));
    ReportedIdKept(scanned, inputId, signal);
    r :| 0 <= r < |kept| && kept[r].id == signal.id;
    var t := KeptIsReported(scanned, inputId, r);
    assert scanned[t] in scanned && scanned[t].id == signal.id;
  }

  // Among the mapper's signals, the one standing for a reported signal's id has that signal's place.
  lemma {:induction false} Representative(world: World, block: ParsedBlock, rules: seq<LexicalRule>, signal: LexicalSignal) returns (r: nat)
    requires SoundWorld(world) && signal in ScannedSignals(world, block, rules)
    ensures r < |KeptSignals(world, block, rules)| && KeptSignals(world, block, rules)[r] == MappingSignal(signal)
  {
    var scanned := ScannedSignals(world, block, rules);
    SameIdSamePlace(world, block, rules, signal, signal);
    forall t | t in scanned && t.id == signal.id ensures MappingSignal(t) == MappingSignal(signal) {
      SameIdSamePlace(world, block, rules, signal, t);
      SameIdSamePlace(world, block, rules, t, t);
    }
    r := KeptOfId(scanned, block.inputId, signal);
  }

  lemma {:induction false} DedupeFrom(signals: seq<Signal>, r: nat)
    requires r < |Dedupe(signals)|
    ensures Dedupe(signals)[r] in signals
  {
    var n := |signals| - 1;
    if r < |Dedupe(signals[..n])| {
      DedupeFrom(signals[..n], r);
    }
  }

  // ---------------------------------------------------------------- the stages, composed

  // What mapping owes the scanner's signals: each one over text is mapped once.
  ghost predicate EverySignalMappedOnce(world: World, block: ParsedBlock, rules: seq<LexicalRule>, atoms: seq<AnalysisAtom>,
                                        segments: seq<AnalysisSegment>, signalSets: seq<SegmentSignalSet>)
  {
    |signalSets| == |segments| &&
    forall signal :: signal in ScannedSignals(world, block, rules) && HoldsText(block.text, signal.originalRange) ==>
      MappedOnce(MappingSignal(signal), segments, atoms, signalSets)
  }

  // Everything a mapped outcome promises about the rules and the text: each match over text is mapped once.
  ghost predicate EveryMatchMappedOnce(world: World, block: ParsedBlock, rules: seq<LexicalRule>, atoms: seq<AnalysisAtom>,
                                       segments: seq<AnalysisSegment>, signalSets: seq<SegmentSignalSet>)
  {
    |signalSets| == |segments| &&
    forall r, span, original :: 0 <= r < |rules| && MatchedAt(world, block, rules[r], span, original) && HoldsText(block.text, original) ==>
      MappedOnce(Signal(MatchId(block, rules[r], span), block.inputId, block.blockId, original, Low), segments, atoms, signalSets)
  }

  // ... and nothing else is.
  ghost predicate OnlyMatches(world: World, block: ParsedBlock, rules: seq<LexicalRule>, signalSets: seq<SegmentSignalSet>) {
    forall k, id :: 0 <= k < |signalSets| && MappedId(signalSets[k].signals, id) ==> IdOfMatch(world, block, rules, id)
  }

  ghost predicate IdOfMatch(world: World, block: ParsedBlock, rules: seq<LexicalRule>, id: SignalId) {
    exists r, span, original :: 0 <= r < |rules| && MatchedAt(world, block, rules[r], span, original) && id == MatchId(block, rules[r], span)
  }

  // Every match is one of the scanner's signals ...
  lemma {:induction false} MatchIsScanned(world: World, block: ParsedBlock, rules: seq<LexicalRule>, r: nat, span: TextRange, original: TextRange)
    returns (signal: LexicalSignal)
    requires SoundWorld(world) && r < |rules| && MatchedAt(world, block, rules[r], span, original)
    ensures signal in ScannedSignals(world, block, rules) && signal.originalRange == original
    ensures MappingSignal(signal) == Signal(MatchId(block, rules[r], span), block.inputId, block.blockId, original, Low)
  {
    var s := FoundIsSignal(world.special, world.matcher, block.inputId, rules, NormalizedFor(world, block), r, span, original);
    signal := ScannedSignals(world, block, rules)[s];
  }

  // ... and every signal of the scanner is a match.
  lemma {:induction false} ScannedIsMatch(world: World, block: ParsedBlock, rules: seq<LexicalRule>, signal: LexicalSignal)
    requires SoundWorld(world) && signal in ScannedSignals(world, block, rules)
    ensures IdOfMatch(world, block, rules, signal.id)
  {
    var r := SignalIsFound(world.special, world.matcher, block.inputId, rules, NormalizedFor(world, block), signal);
    assert MatchedAt(world, block, rules[r], signal.normalizedRange, signal.originalRange);
  }

  lemma {:induction false} EveryMatch(world: World, block: ParsedBlock, rules: seq<LexicalRule>, atoms: seq<AnalysisAtom>,
                                      segments: seq<AnalysisSegment>, signalSets: seq<SegmentSignalSet>)
    requires SoundWorld(world) && EverySignalMappedOnce(world, block, rules, atoms, segments, signalSets)
    ensures EveryMatchMappedOnce(world, block, rules, atoms, segments, signalSets)
  {
    forall r, span, original | 0 <= r < |rules| && MatchedAt(world, block, rules[r], span, original) && HoldsText(block.text, original)
      ensures MappedOnce(Signal(MatchId(block, rules[r], span), block.inputId, block.blockId, original, Low), segments, atoms, signalSets)
    {
      var signal := MatchIsScanned(world, block, rules, r, span, original);
    }
  }

  lemma {:induction false} EndToEnd(
    world: World, block: ParsedBlock, rules: seq<LexicalRule>, atoms: seq<AnalysisAtom>, starts: seq<nat>, maxChars: int,
    groups: seq<Group>, segments: seq<AnalysisSegment>, signalSets: seq<SegmentSignalSet>)
    requires SoundWorld(world)
    requires DocumentAtoms([block], atoms, starts, maxChars) && Setting(block, atoms, groups, segments)
    requires |signalSets| == |segments|
    requires forall k :: 0 <= k < |segments| ==>
               SetFor(signalSets[k], KeptSignals(world, block, rules), segments, k, AtomsById(atoms), false)
    ensures EverySignalMappedOnce(world, block, rules, atoms, segments, signalSets)
    ensures EveryMatchMappedOnce(world, block, rules, atoms, segments, signalSets)
  {
    DedupeDistinct(FilterInput(MappingSignals(ScannedSignals(world, block, rules)), block.inputId));
    forall signal | signal in ScannedSignals(world, block, rules) && HoldsText(block.text, signal.originalRange)
      ensures MappedOnce(MappingSignal(signal), segments, atoms, signalSets)
    {
      SameIdSamePlace(world, block, rules, signal, signal);
      var r := Representative(world, block, rules, signal);
      RepresentativeMappedOnce(block, atoms, starts, maxChars, groups, segments, KeptSignals(world, block, rules), r, signalSets);
    }
    EveryMatch(world, block, rules, atoms, segments, signalSets);
  }

  lemma {:induction false} SetsOnlyMatches(
    world: World, block: ParsedBlock, rules: seq<LexicalRule>, byId: map<AtomId, AnalysisAtom>,
    segments: seq<AnalysisSegment>, signalSets: seq<SegmentSignalSet>)
    requires SoundWorld(world) && |signalSets| == |segments|
    requires forall k :: 0 <= k < |segments| ==> SetFor(signalSets[k], KeptSignals(world, block, rules), segments, k, byId, false)
    ensures OnlyMatches(world, block, rules, signalSets)
  {
    var scanned, kept := ScannedSignals(world, block, rules), KeptSignals(world, block, rules);
    forall k, id | 0 <= k < |signalSets| && MappedId(signalSets[k].signals, id)
      ensures IdOfMatch(world, block, rules, id)
    {
      assert SetFor(signalSets[k], kept, segments, k, byId, false);
      ClaimedFrom(kept, segments, k, byId, false, id);
      var r :| 0 <= r < |kept| && kept[r].id == id;
      var t := KeptIsReported(scanned, block.inputId, r);
      ScannedIsMatch(world, block, rules, scanned[t]);
    }
  }

  // When a scan fails for this input: some compiling rule matches the empty string in the normalized text.
  ghost predicate EmptyMatchSomewhere(world: World, block: ParsedBlock, rules: seq<LexicalRule>) {
    exists r :: 0 <= r < |rules| && world.matcher.compiles(rules[r]) && !NoEmptyMatch(world.matcher, rules[r], [NormalizedFor(world, block)])
  }

  // The atoms are those of the block.
  ghost predicate AtomsOf(world: World, block: ParsedBlock, atoms: seq<AnalysisAtom>) {
    WellCut(block, DEFAULT_ATOMIZATION, world.recognizer, atoms)
    && exists starts :: DocumentAtoms([block], atoms, starts, DEFAULT_ATOMIZATION.maxAtomChars)
  }

  lemma {:induction false} OnlyPart(block: ParsedBlock, atoms: seq<AnalysisAtom>, starts: seq<nat>, recognizer: Recognizer)
    requires DocumentAtoms([block], atoms, starts, DEFAULT_ATOMIZATION.maxAtomChars)
    requires DocumentCut([block], atoms, starts, DEFAULT_ATOMIZATION, recognizer)
    ensures WellCut(block, DEFAULT_ATOMIZATION, recognizer, atoms)
  {
    assert PartCut([block], atoms, starts, DEFAULT_ATOMIZATION, recognizer, 0);
    assert atoms[starts[0]..starts[1]] == atoms;
  }

  // The segments are those of the groups that the segmenter's path makes of the atoms and their vectors.
  ghost predicate Composed(world: World, block: ParsedBlock, atoms: seq<AnalysisAtom>, segments: seq<AnalysisSegment>) {
    atoms != [] && world.embed(atoms).Embedded?
    && exists groups, scores :: ComposedOf(world, block, atoms, segments, groups, scores)
  }

  ghost predicate ComposedOf(world: World, block: ParsedBlock, atoms: seq<AnalysisAtom>, segments: seq<AnalysisSegment>,
                             groups: seq<Group>, scores: seq<AdjacentBoundaryScore>)
    requires atoms != [] && world.embed(atoms).Embedded?
  {
    && Setting(block, atoms, groups, segments) && AcceptableGroups(groups, DEFAULT_SEGMENTS.maxChars)
    && PathTaken(atoms, VectorMap(world.embed(atoms).embeddings), DEFAULT_SEGMENTS, world.cosine,
                 Segmented(segments, scores, None), groups)
  }

  // With a comparable vector for every atom, neighbours whose cosine is below 0.72 never share a segment.
  lemma {:induction false} DissimilarSegments(world: World, block: ParsedBlock, atoms: seq<AnalysisAtom>, segments: seq<AnalysisSegment>, i: nat)
    requires Composed(world, block, atoms, segments) && i + 1 < |atoms|
    requires var vectors := VectorMap(world.embed(atoms).embeddings);
      && ValidEmbeddings(atoms, vectors) && |vectors| >= |atoms| && AllComparable(atoms, vectors)
      && atoms[i].id in vectors && atoms[i + 1].id in vectors
      && world.cosine(vectors[atoms[i].id], vectors[atoms[i + 1].id]) < 0.72
    ensures !OneSegment(segments, atoms[i].id, atoms[i + 1].id)
  {
    var vectors := VectorMap(world.embed(atoms).embeddings);
    var groups, scores :| ComposedOf(world, block, atoms, segments, groups, scores);
    var outcome := Segmented(segments, scores, None);
    var cuts := SemanticPathCuts(block.inputId, atoms, vectors, world.cosine, DEFAULT_SEGMENTS, outcome, groups);
    DissimilarApart(block.inputId, atoms, vectors, world.cosine, DEFAULT_SEGMENTS, outcome, cuts, i);
  }

  // What the atoms and their embeddings decide.
  ghost predicate Decided(world: World, atoms: seq<AnalysisAtom>, outcome: Outcome) {
    var embedded := world.embed(atoms);
    if atoms == [] then outcome == NoAtoms
    else if embedded.EmbeddingFailed? then outcome == EmbeddingFailure
    else if !ValidEmbeddings(atoms, VectorMap(embedded.embeddings)) then outcome == SegmentationFailed(InvalidEmbeddingVector)
    else if |VectorMap(embedded.embeddings)| >= |atoms| && !AllComparable(atoms, VectorMap(embedded.embeddings))
    then outcome == SegmentationFailed(SimilarityCalculationFailed)
    else outcome.Mapped?
  }

  // A text with a character that is not whitespace has an atom.
  lemma {:induction false} SomeAtom(world: World, block: ParsedBlock, atoms: seq<AnalysisAtom>)
    requires AtomsOf(world, block, atoms) && !Blank(block.text, 0, |block.text|)
    ensures atoms != []
  {
    var starts :| DocumentAtoms([block], atoms, starts, DEFAULT_ATOMIZATION.maxAtomChars);
    var i :| 0 <= i < |block.text| && !IsSpace(block.text[i]);
    var p := CharacterInOneAtom([block], atoms, starts, DEFAULT_ATOMIZATION.maxAtomChars, 0, i);
  }

  // One round of the loop: a blank input is skipped, a scan that fails or one of the failures of embedding and
  // segmentation ends the analysis, and everything else is mapped.
  method AnalyzeInput(world: World, inputId: string, content: string, ocr: bool, rules: seq<LexicalRule>)
    returns (outcome: Outcome, ghost atoms: seq<AnalysisAtom>, ghost segments: seq<AnalysisSegment>)
    requires SoundWorld(world)
    ensures outcome.NoText? <==> Blank(content, 0, |content|)
    ensures !outcome.NoText? ==>
      (outcome.LexicalScanFailed? <==> EmptyMatchSomewhere(world, BlockFor(inputId, content, ocr), rules))
    ensures !outcome.NoText? && !outcome.LexicalScanFailed? ==>
      AtomsOf(world, BlockFor(inputId, content, ocr), atoms) && atoms != [] && Decided(world, atoms, outcome)
    ensures outcome.Mapped? ==> Composed(world, BlockFor(inputId, content, ocr), atoms, segments)
    ensures outcome.Mapped? ==>
      && EveryMatchMappedOnce(world, BlockFor(inputId, content, ocr), rules, atoms, segments, outcome.signalSets)
      && OnlyMatches(world, BlockFor(inputId, content, ocr), rules, outcome.signalSets)
    ensures outcome.Mapped? ==> AllIds(segments) == Ids(atoms) && AllText(segments) == Texts(atoms)
  {
    atoms, segments := [], [];
    if Blank(content, 0, |content|) { return NoText, atoms, segments; }
    var block := BlockFor(inputId, content, ocr);
    var normalized := NormalizeDocument(world.special, MINIMUM_REPEAT, [(block.blockId, block.inputId)], [block.text]);
    assert normalized == [NormalizedFor(world, block)];
    var scan := ScanLexicalSignals(world.matcher, inputId, normalized, rules);
    FailuresExactly(world.special, MINIMUM_REPEAT, world.matcher, rules, normalized);
    if scan.failures != [] { return LexicalScanFailed, atoms, segments; }
    outcome, atoms, segments := AnalyzeScanned(world, block, rules, scan.signals);
    SomeAtom(world, block, atoms);
  }

  // The stages after the scan.
  method AnalyzeScanned(world: World, block: ParsedBlock, rules: seq<LexicalRule>, scanned: seq<LexicalSignal>)
    returns (outcome: Outcome, ghost atoms: seq<AnalysisAtom>, ghost segments: seq<AnalysisSegment>)
    requires SoundWorld(world) && scanned == ScannedSignals(world, block, rules)
    ensures AtomsOf(world, block, atoms) && Decided(world, atoms, outcome)
    ensures outcome.Mapped? ==> Composed(world, block, atoms, segments)
    ensures outcome.Mapped? ==>
      && EveryMatchMappedOnce(world, block, rules, atoms, segments, outcome.signalSets)
      && OnlyMatches(world, block, rules, outcome.signalSets)
    ensures outcome.Mapped? ==> AllIds(segments) == Ids(atoms) && AllText(segments) == Texts(atoms)
  {
    segments := [];
    var built;
    ghost var starts;
    built, starts := BuildAtoms([block], DEFAULT_ATOMIZATION, world.recognizer);
    atoms := built.atoms;
    OnlyPart(block, atoms, starts, world.recognizer);
    if built.atoms == [] { return NoAtoms, atoms, segments; }
    var embedded := world.embed(built.atoms);
    assert EmbedsOnly(built.atoms, embedded);
    if embedded.EmbeddingFailed? { return EmbeddingFailure, atoms, segments; }
    AtomsAreSorted(block, built.atoms, starts, DEFAULT_ATOMIZATION.maxAtomChars);
    var segmented;
    ghost var groups;
    segmented, groups := BuildSegments(block.inputId, built.atoms, embedded.embeddings, DEFAULT_SEGMENTS, world.cosine);
    SegmentsDecided(world, built.atoms, segmented, groups);
    if segmented.failure.Some? { return SegmentationFailed(segmented.failure.value), atoms, segments; }
    var signalSets := MapSignalsToSegments(block.inputId, segmented.segments, built.atoms, MappingSignals(scanned), false);
    segments := segmented.segments;
    assert ComposedOf(world, block, atoms, segments, groups, segmented.scores);
    EndToEnd(world, block, rules, atoms, starts, DEFAULT_ATOMIZATION.maxAtomChars, groups, segments, signalSets);
    SetsOnlyMatches(world, block, rules, AtomsById(atoms), segments, signalSets);
    SegmentsConcatenate(block.inputId, groups);
    return Mapped(signalSets), atoms, segments;
  }

  // What the segmenter's result means for the outcome.
  lemma {:induction false} SegmentsDecided(world: World, atoms: seq<AnalysisAtom>, segmented: BuildOutcome, groups: seq<Group>)
    requires atoms != [] && world.embed(atoms).Embedded? && segmented.Segmented?
    requires PathTaken(atoms, VectorMap(world.embed(atoms).embeddings), DEFAULT_SEGMENTS, world.cosine, segmented, groups)
    ensures segmented.failure.Some? ==> Decided(world, atoms, SegmentationFailed(segmented.failure.value))
    ensures segmented.failure.None? ==> forall sets :: Decided(world, atoms, Mapped(sets))
  {
  }
}
