# Verification model of the API's analysis, admission and session code

This Dafny project models four groups of code under `apps/api/app` and proves what they promise.

1. **Text spans.** A prompt is normalized, scanned, cut into atoms, grouped into segments, and the scanned signals are
   mapped to segments; filter rules supply the ranges that masking replaces. Every stage is a loop over half-open ranges
   into one text. The theorems go across the stages: nothing is lost, doubled or misplaced, and the greedy loops are
   optimal (`Options`, `Spans`, `Sorting`, `Normalizer`, `Scanner`, `Atoms`, `Boundaries`, `Packing`, `Segmenter`,
   `SegmentBreaks`, `Mapping`, `Pipeline`, `Masking`, `Placeholders`, `FilterRules`).
2. **Admission and worker protocols.** The inference queue, the parser pool and the resident worker process are state
   machines with one step for every access to a lock, a semaphore or a pipe, any number of callers, and timeouts, shutdown,
   restarts and process deaths at any time. Invariants hold in every reachable state of every run (`InferenceQueue`,
   `ResidentWorker`).
3. **Small state machines with whole-run properties.** The sliding-window rate limiter, refresh-token rotation, and parser
   plans with their resolver, registry and executor (`RateLimiter`, `RefreshTokens`, `ParserPlans`).
4. **Checksum arithmetic.** The Luhn formula and the resident registration number, with exact error-detection theorems
   (`Checksums`).

`dafny verify dfyconfig.toml` checks everything.

## How to read it

- A loop of the source is a method with a loop, and its contract equates the result with a function of the inputs. The
  theorems are lemmas about that function. Objects that are updated in place (`PlaceholderBook`, `InMemoryRateLimiter`,
  `MlInferenceQueue`, `ResidentWorkerProcess`, `AuthTables`) are classes whose methods state the whole new state.
- A run of a protocol is a list of states, each a step from the one before; `Run(states, events)` with an index into the
  states stands for "in every interleaving, at any time".
- `SoundMatcher`, `SoundRecognizer` and `SoundEngine` say what is assumed of the regular expression engine: matches lie
  inside the text, in order and disjoint; a fence match is not empty.
- `special`, `kind`, `cosine` and `embed` are parameters for the Unicode category test, the digit test, the similarity and
  the embedding model. All theorems hold for any of them.

## Where the code is subtler than its names

- The reserved counter of the inference queue is lowered after the semaphore is released, so a snapshot can show more than
  the capacity. The slot holders are bounded, not the counter (`SnapshotExact`, `SnapshotCanExceedCapacity`).
- A job that raises an exception outside `Exception` leaves `execute` uncounted unless its caller had already given up;
  the totals agree exactly when there was no such job (`QuiescentCounts`, `FatalIsUncounted`).
- `ResidentWorkerProcess` strips only trailing line breaks from a payload. With a line break inside, the next caller gets
  the answer to the second line; a line is the caller's own exactly when all payloads written to that child before were
  single lines (`LineBreakMisdelivers`, `OwnExactlyAfterOneLines`).
- The extra boundaries for large groups may leave fewer than `min_atoms` atoms (`ExtraCutBreaksMinAtoms`); they do not
  exactly when the weakest inner boundary of each oversized group has room on both sides (`MinAtomsExactly`).
- The rate limiter prunes its deque with the window of the current call. With several windows on one key a check can
  count too few hits (`ShorterWindowForgets`), namely exactly when an earlier check's window started at or after a hit
  that this one counts (`CountsExactlyUnlessOutlived`, `DecisionExactly`).
- `str.isdigit` accepts digits that `int` refuses. The checksums raise on those, and the model says exactly when.

## Model

| member | source | states |
|---|---|---|
| Normalizer.NormalizeBlock | apps/api/app/normalization/normalizer.py:10-32 | The while loop over two lists yields the head character of every cell and the offset map of the cells, where a cell is a maximal run of one special character that is long enough, or a single character. |
| Normalizer.RestoreExactly | apps/api/app/normalization/normalizer.py:56-73 | Restoring succeeds for exactly the non-empty ranges inside the normalized text, gives the span of their cells, and answers None for every other range. |
| Normalizer.RestoreThenNormalize | apps/api/app/normalization/normalizer.py:10-73 | For every text, minimum repeat of at least 2 and a < b, the restored original slice, normalized again, is exactly the normalized characters a to b. |
| Normalizer.Idempotent | apps/api/app/normalization/normalizer.py:10-32 | Normalizing twice is normalizing once, for every minimum repeat of at least 2. |
| Normalizer.OffsetMapTiles | apps/api/app/normalization/normalizer.py:23-30 | The offset map has one entry for each normalized position, and the original ranges tile the whole text without gap or overlap. |
| Normalizer.EntryCharacters | apps/api/app/normalization/normalizer.py:16-30 | Every original character covered by an entry equals the one normalized character the entry stands for. |
| Normalizer.RestorePreservesOrder | apps/api/app/normalization/normalizer.py:56-73 | Disjoint normalized ranges restore to disjoint original ranges in the same order. |
| Normalizer.RunsStayShort | apps/api/app/normalization/normalizer.py:17-21 | A run of a special character that survives in the normalized text was too short to collapse in the original. |
| Scanner.ScanLexicalSignals | apps/api/app/scanner/scanner.py:22-59 | The three nested loops report the signals, warnings and failures of all rules in order, and the status is completed exactly when there is neither warning nor failure. |
| Scanner.SignalTruthful | apps/api/app/scanner/scanner.py:32-50 | Soundness: every reported signal comes from a non-empty match of a compiling rule in a block, carries its rule, block, span and id, and its original slice normalizes to the text that matched. |
| Scanner.MatchReported | apps/api/app/scanner/scanner.py:26-50 | Completeness: every non-empty match of a compiling rule in any block is reported as a signal with the rule, block, span, restored range and id of the match. |
| Scanner.WarnedExactly | apps/api/app/scanner/scanner.py:26-31 | A warning is given for exactly the rules that do not compile, with their pattern ids. |
| Scanner.BlockSignalsOrdered | apps/api/app/scanner/scanner.py:33-50 | The signals of one rule in one block stand left to right and disjoint in the original text. |
| Scanner.FailuresExactly | apps/api/app/scanner/scanner.py:35-38 | There are no offset failures exactly when no compiling rule matches the empty string in a block. |
| Scanner.OneMatch | apps/api/app/scanner/scanner.py:34-38 | Restoring one match over a normalized block succeeds exactly when the match is not empty, and lies in the original text. |
| Scanner.NormalizeDocument | apps/api/app/normalization/normalizer.py:35-53 | Every block is normalized in order and keeps its identity. |
| Atoms.TrimRange | apps/api/app/atoms/builder.py:174-183 | Trimming drops exactly the outer whitespace; None means all of it was whitespace. |
| Atoms.SplitParagraphs | apps/api/app/atoms/builder.py:139-154 | The paragraphs are exactly the trimmed pieces between the blank-line separators of the content: no separator starts in one, and exactly one lies between neighbours up to whitespace. |
| Atoms.SeparatorEnd | apps/api/app/atoms/builder.py:143 | The hand-written scanner matches a newline, inner blanks and a maximal run of newlines, and fails exactly where no such separator starts. |
| Atoms.SplitTableRows | apps/api/app/atoms/builder.py:157-171 | The rows are exactly the trimmed non-blank lines: none holds a newline, and a newline lies between neighbours. |
| Atoms.SplitCodeFences | apps/api/app/atoms/builder.py:117-132 | The code ranges are exactly the fences, in order, and the prose between them is the trimmed non-blank rest. |
| Atoms.StructuralRanges | apps/api/app/atoms/builder.py:82-98 | With fences kept and present the fence split, else for a table the rows, else the paragraphs, each with its type; an OCR block stays whole. The ranges are ordered, disjoint and cover the content up to whitespace. |
| Atoms.FindSplitBoundary | apps/api/app/atoms/builder.py:208-221 | The cut lies after the start and not after the limit, right behind the last newline, else sentence end, else blank, of the window. |
| Atoms.SplitBySafeBoundary | apps/api/app/atoms/builder.py:194-205 | The pieces are non-empty, consecutive, fill the range and are at most max_chars long, each cut being a safe one. |
| Atoms.AtomizeBlock | apps/api/app/atoms/builder.py:68-79 | A blank block has no atoms. Otherwise the trimmed content is divided by structure and each range is cut to the limit at safe places; the atoms are those pieces, with consecutive ordinals, their slices and the types of their ranges. |
| Atoms.BuildAtoms | apps/api/app/atoms/builder.py:23-49 | The failure is reported for exactly the invalid policies; otherwise every block contributes its own consecutive part of the atoms, which is the division of that block. |
| Atoms.AtomsFollowStructure | apps/api/app/atoms/builder.py:68-98 | The atoms themselves: with fences kept and present the code atoms cover exactly the fences and the others are paragraphs outside them; for a table every atom is a row without a newline; otherwise every atom is a paragraph in which no separator starts; neighbours that no such break parts were cut only because more than max_atom_chars were left, at the safe place. |
| Atoms.BlockPartAtoms | apps/api/app/atoms/builder.py:34-36 | In each block the atoms are non-empty, at most max_atom_chars long, ordered and disjoint, and their ordinals count across blocks from 0. |
| Atoms.CharacterInOneAtom | apps/api/app/atoms/builder.py:34-79 | Each non-whitespace character of each block lies in exactly one atom. |
| Atoms.AtomIsSlice | apps/api/app/atoms/builder.py:68-79 | The text of every atom is the slice of its block that its range names. |
| Boundaries.SelectedBoundaryIndexes | apps/api/app/segmenter/builder.py:129-141 | The loop computes the greedy selection over the eligible boundaries. |
| Boundaries.GreedySpaced | apps/api/app/segmenter/builder.py:129-141 | The selected boundaries are eligible (low cosine or block change), ascending and at least min_atoms apart and from both ends. |
| Boundaries.GreedyGroupSizes | apps/api/app/segmenter/builder.py:129-186 | Whenever the pass selects a boundary, every group it makes has at least min_atoms atoms. |
| Boundaries.GreedyStaysAhead | apps/api/app/segmenter/builder.py:129-141 | After every prefix the greedy choice has at least as many cuts as any spaced choice, and ends no later when equally many. |
| Boundaries.GreedyOptimal | apps/api/app/segmenter/builder.py:129-141 | No other subset of the eligible boundaries that keeps the spacing is larger. |
| Boundaries.GreedyTakesAll | apps/api/app/segmenter/builder.py:129-141 | With min_atoms at most 1 every eligible boundary is taken. |
| Boundaries.SplitAtBoundaries | apps/api/app/segmenter/builder.py:180-185 | The loop cuts the atoms after each boundary. |
| Boundaries.GroupsPartition | apps/api/app/segmenter/builder.py:180-185 | The groups put end to end are the atoms, and none is empty. |
| Boundaries.GroupsPure | apps/api/app/segmenter/builder.py:180-196 | When every block change is a cut, no group mixes blocks. |
| Boundaries.TargetSizeBoundaryIndexes | apps/api/app/segmenter/builder.py:144-163 | Exactly one extra cut for each oversized group with an inner boundary, none for the others. |
| Boundaries.WeakestCandidate | apps/api/app/segmenter/builder.py:155-161 | The cut chosen in a group has the lowest cosine, and is the leftmost of those. |
| Boundaries.TargetCutsAscending | apps/api/app/segmenter/builder.py:150-163 | The extra cuts are ascending and inside their groups. |
| Boundaries.TargetCutsAreNew | apps/api/app/segmenter/builder.py:158-161 | An extra cut is never one of the existing boundaries. |
| Boundaries.UnionOfAscending | apps/api/app/segmenter/builder.py:64-65 | The merged boundaries hold exactly the members of both sets, ascending and once each. |
| Boundaries.MinAtomsExactly | apps/api/app/segmenter/builder.py:144-186 | After the extra cuts every group has at least min_atoms atoms if and only if every group had as many before and the weakest inner boundary of each oversized group leaves as many on both sides. |
| Boundaries.GreedyMinAtomsExactly | apps/api/app/segmenter/builder.py:62-65 | For the boundaries of the greedy pass the first half of that condition says: some boundary was selected or the whole document has min_atoms atoms. |
| Segmenter.SemanticMinAtomsExactly | apps/api/app/segmenter/builder.py:62-66 | The same for the boundaries that the semantic path cuts at; with min_atoms at most 1 no group ever falls below it. |
| Boundaries.ExtraCutBreaksMinAtoms | apps/api/app/segmenter/builder.py:155-161 | Three one-letter atoms with min_atoms 2 that the greedy pass leaves together: the only possible extra cut leaves a group of one atom. |
| Packing.PackedIsPartition | apps/api/app/segmenter/builder.py:215-226 | The packing loop cuts a segment into consecutive groups, each at most max_chars or a single atom. |
| Packing.PackStaysAhead | apps/api/app/segmenter/builder.py:215-226 | After every prefix packing has closed no more groups than any acceptable partition, and its open group is no longer when equally many. |
| Packing.PackedIsFewest | apps/api/app/segmenter/builder.py:203-228 | No partition into acceptable consecutive groups has fewer groups. |
| Packing.FittingIsPackedWhole | apps/api/app/segmenter/builder.py:212-214 | A segment that fits is packed as it is, so the shortcut branch agrees with the loop. |
| Segmenter.PackSegment | apps/api/app/segmenter/builder.py:215-226 | The inner loop closes exactly the groups of the packing. |
| Segmenter.EnforceMaxChars | apps/api/app/segmenter/builder.py:203-228 | The result is the resized groups rebuilt with ordinals from 0. |
| Segmenter.ResizeKeeps | apps/api/app/segmenter/builder.py:203-228 | Resizing keeps all atoms in order, and every final segment is at most max_chars or a single atom. |
| Segmenter.ResizeOneIsFewest | apps/api/app/segmenter/builder.py:211-226 | Each segment is cut into the fewest acceptable groups, whichever branch handles it. |
| Segmenter.ResizePure | apps/api/app/segmenter/builder.py:203-228 | Resizing never mixes blocks that were apart. |
| Segmenter.SegmentsFromBoundaries | apps/api/app/segmenter/builder.py:173-186 | The segments are built from the groups between boundaries, typed and numbered. |
| Segmenter.FallbackSegments | apps/api/app/segmenter/builder.py:189-200 | The structural path cuts at the block changes, or nowhere, and resizes. |
| Segmenter.SemanticBoundaries | apps/api/app/segmenter/builder.py:64-65 | The boundaries of the semantic path are the greedy ones and one more for each oversized group they leave; with min_atoms at most 1 and block boundaries respected every block change is among them. |
| Segmenter.SegmentsForCuts | apps/api/app/segmenter/builder.py:66-67 | Building and resizing gives the segments of the resized groups between the boundaries. |
| Segmenter.CutGroupsFacts | apps/api/app/segmenter/builder.py:173-228 | Whatever the boundaries, the resized groups put end to end are the atoms, each at most max_chars or a single atom, and none mixes blocks when every block change is a boundary. |
| Segmenter.ValidateEmbeddings | apps/api/app/segmenter/builder.py:78-93 | Accepts exactly the tables in which every vector of an atom is non-empty and finite, all of one dimension. |
| Segmenter.BoundaryScores | apps/api/app/segmenter/builder.py:100-126 | Scoring succeeds exactly when all neighbours have vectors that are not zero; otherwise the first neighbours that cannot be compared decide between the missing vector and the zero norm. Each score has the ids of its neighbours and their cosine, and is selected if and only if that is below the threshold. |
| Segmenter.NoneMissing | apps/api/app/segmenter/builder.py:43 | With ids that are a subset of the atoms, the size comparison means that no atom lacks a vector. |
| Segmenter.BuildSegments | apps/api/app/segmenter/builder.py:19-75 | On every path (empty, invalid vectors, missing embeddings, zero vector, semantic) the segments partition the ordinal-sorted atoms into acceptable groups; conditions on the embeddings decide path and failure exactly, including which of KeyError and similarity_calculation_failed occurs; the semantic path cuts by the scores of the neighbours' cosines. |
| Segmenter.SegmentsConcatenate | apps/api/app/segmenter/builder.py:173-254 | The segments put end to end hold the atom ids and the texts of the atoms exactly once and in order, with ordinals 0 to k-1. |
| SegmentBreaks.StartIsApart | apps/api/app/segmenter/builder.py:173-228 | Two neighbours are in different segments if a group starts with the second of them. |
| SegmentBreaks.NoStartIsTogether | apps/api/app/segmenter/builder.py:173-228 | They share a segment if none does. |
| SegmentBreaks.DissimilarApart | apps/api/app/segmenter/builder.py:61-75 | On the semantic path with min_atoms at most 1, neighbours whose cosine is below the threshold, or that lie in two blocks when blocks are respected, are never in one segment. |
| SegmentBreaks.DissimilarApartUnlessCrowded | apps/api/app/segmenter/builder.py:61-75 | With any min_atoms the same holds unless taking the boundary would leave fewer than min_atoms atoms behind it, or since the start or a boundary of the greedy pass before it. |
| SegmentBreaks.SimilarTogether | apps/api/app/segmenter/builder.py:61-75 | On the semantic path, with any min_atoms, neighbours whose cosine is not below the threshold and that no block boundary parts are in one segment, unless they are the weakest inner boundary of a group over target_chars or stand inside a group over max_chars. |
| SegmentBreaks.OversizedParted | apps/api/app/segmenter/builder.py:144-163 | Each group of the greedy pass with more than target_chars characters, more than min_atoms atoms and at least two is parted at the first of its inner boundaries with the lowest cosine. |
| SegmentBreaks.SegmentLimits | apps/api/app/segmenter/builder.py:203-228 | No segment text is longer than max_chars unless the segment is a single atom. |
| SegmentBreaks.SegmentKinds | apps/api/app/segmenter/builder.py:173-234 | A segment is a whole group between two cuts that fits, typed single_atom or by its path, or a size_fallback part of one that does not fit. |
| Segmenter.SortedAtomsFacts | apps/api/app/segmenter/builder.py:21 | Sorting by ordinal permutes the atoms and orders them. |
| Mapping.DedupeSignalsById | apps/api/app/mapping/builder.py:48-56 | The loop keeps the first signal of every id. |
| Mapping.DedupeKeepsIds | apps/api/app/mapping/builder.py:48-56 | An id is kept exactly when it occurs. |
| Mapping.DedupeDistinct | apps/api/app/mapping/builder.py:48-56 | No id is kept twice. |
| Mapping.DedupeKeepsFirst | apps/api/app/mapping/builder.py:48-56 | What is kept for an id is its first signal. |
| Mapping.MapSignalHits | apps/api/app/mapping/builder.py:87-105 | A signal maps to a segment exactly when it overlaps one of the atoms in the same block. |
| Mapping.MixedByMembership | apps/api/app/mapping/builder.py:100-116 | A hit in a segment that holds atoms of several blocks maps by atom membership. |
| Mapping.WorstSeverity | apps/api/app/mapping/builder.py:145-148 | The maximum severity of a set is the worst that occurs, from critical down to info. |
| Mapping.MapSegmentSignals | apps/api/app/mapping/builder.py:59-84 | The set of a segment is what it claims, and the assigned ids are those with a hit in a segment so far. |
| Mapping.MapSignalsToSegments | apps/api/app/mapping/builder.py:23-45 | Every segment gets the set of the signals it claims among the deduplicated ones of this input. |
| Mapping.ClaimedExactly | apps/api/app/mapping/builder.py:59-84 | A set holds a signal exactly when its segment claims it, and then once. |
| Mapping.OneSegmentClaims | apps/api/app/mapping/builder.py:69-76 | With single matches a signal that hits some segment is claimed by exactly one, the first that is hit. |
| Mapping.MappedExactlyWhenHit | apps/api/app/mapping/builder.py:23-98 | The signal sets hold a signal if and only if some segment holds an atom of its block that it overlaps (and its range is valid). |
| Pipeline.AnalyzeInput | apps/api/app/services/analyze_classifier.py:92-146 | The composition of all stages for one input: skipped exactly when blank, never for want of atoms; the scan fails exactly when a rule matches the empty string; the atoms are the division of the text, and they and their embeddings decide exactly when embedding or segmentation fails; everything else is mapped. In terms of matcher and text alone: every non-empty match of every compiling rule over text is mapped under its id exactly once, to the first segment with an overlapping atom, by offset overlap, naming exactly the overlapping atoms; every mapped id is that of such a match; and the segments hold every atom once, cut as the similarity of neighbours says. |
| Pipeline.AnalyzeScanned | apps/api/app/services/analyze_classifier.py:112-146 | The stages after the scan end as the atoms and embeddings decide; a mapped outcome keeps every match mapped once and every atom in one segment. |
| Pipeline.SomeAtom | apps/api/app/services/analyze_classifier.py:112-116 | An input that is not blank always has an atom, so the skip for want of atoms is never taken. |
| Pipeline.EndToEnd | apps/api/app/services/analyze_classifier.py:98-144 | For any text and rules, every non-empty match of a compiling rule in the normalized text whose original range holds a non-whitespace character is mapped, under the id of rule and span, to exactly one segment, the first that holds an overlapping atom, with basis offset_overlap. |
| Pipeline.SetsOnlyMatches | apps/api/app/services/analyze_classifier.py:134-142 | Every entry of the signal sets carries the id of a non-empty match of a compiling rule. |
| Pipeline.DissimilarSegments | apps/api/app/services/analyze_classifier.py:120-134 | With a comparable vector for every atom of the input, neighbours whose cosine is below 0.72 are never in one segment. |
| Pipeline.RepresentativeMappedOnce | apps/api/app/mapping/builder.py:23-116 | The same for one signal that stands for its id among the deduplicated ones. |
| Pipeline.SameIdSamePlace | apps/api/app/scanner/scanner.py:17-19 | Two scanned signals with one id have the same original range. |
| Pipeline.Representative | apps/api/app/services/analyze_classifier.py:330-344 | The signal that deduplication keeps for an id stands at the place of every scanned signal with that id. |
| Pipeline.HitIsHeld | apps/api/app/mapping/builder.py:66-98 | Looking atoms up by id finds only overlapping atoms of the segment. |
| Pipeline.HeldIsHit | apps/api/app/mapping/builder.py:66-98 | It finds each of them. |
| Pipeline.HitsByOffset | apps/api/app/mapping/builder.py:100-116 | In a one-block document a hit always maps by offset overlap, with the severity of the signal and exactly the overlapping atoms of the segment. |
| Masking.NonOverlappingDetections | apps/api/app/masking/placeholder.py:21-32 | The accept loop between the two sorts computes the longest-first selection. |
| Masking.SelectedRanges | apps/api/app/masking/placeholder.py:21-32 | The selected ranges are valid, pairwise disjoint, in order, and taken from the input. |
| Masking.SelectedBlocks | apps/api/app/masking/placeholder.py:25-30 | Every valid detection that is rejected overlaps a selected one that is longer, or as long and starts earlier, or has the same range and a key that is not greater. |
| Masking.OneThird | apps/api/app/masking/placeholder.py:21-32 | No pairwise disjoint choice of valid detections has more than three times the total length of the selection, minus two for each selected detection. |
| Masking.LongestFirstOrders | apps/api/app/masking/placeholder.py:22 | The sort key of the first sort is a total preorder. |
| Masking.StringLeqDecided | apps/api/app/masking/placeholder.py:22 | Keys compare at the first character where they differ, and a key comes before its extensions. |
| Masking.FirstOfEqualsSelected | apps/api/app/masking/placeholder.py:21-32 | Ties are decided by the input: of the detections with one start, end and key only the first can be selected, because the sort is stable. |
| Placeholders.SameValueIffSameWords | apps/api/app/masking/placeholder.py:13-14 | Two values normalize alike exactly when their words agree, and normalizing twice is normalizing once. |
| Placeholders.WordsSplit | apps/api/app/masking/placeholder.py:13-14 | At any whitespace character the words of a text are those before it and those after it. |
| Placeholders.WordsOfWord | apps/api/app/masking/placeholder.py:13-14 | A text without whitespace is its only word, or none when it is empty. |
| Placeholders.PlaceholderBook.BuildPlaceholder | apps/api/app/masking/placeholder.py:35-49 | The two dictionaries, updated in place, give each key the number of its first appearance under its prefix. |
| Placeholders.RenderInjective | apps/api/app/masking/placeholder.py:47 | A rendered placeholder determines prefix and number, even when a prefix ends in an underscore and digits. |
| Placeholders.NumbersDiffer | apps/api/app/masking/placeholder.py:43-48 | Different values of one prefix get different numbers. |
| Placeholders.NumbersReach | apps/api/app/masking/placeholder.py:46 | For each prefix every number from 1 to the number of distinct values is used. |
| Placeholders.NumberInRange | apps/api/app/masking/placeholder.py:46 | No other number is used. |
| Placeholders.NumbersFollowAppearance | apps/api/app/masking/placeholder.py:43-48 | Numbers grow in the order of first appearance. |
| Placeholders.NumbersStay | apps/api/app/masking/placeholder.py:43-48 | A number once given never changes. |
| Placeholders.SamePlaceholderIffSameKey | apps/api/app/masking/placeholder.py:42-48 | Two keys get one placeholder exactly when they are the same key. |
| Placeholders.SamePlaceholderIffSameValue | apps/api/app/masking/placeholder.py:35-63 | Two accepted detections get the same placeholder exactly when prefix and whitespace-normalized value agree. |
| Placeholders.ReplacementIs | apps/api/app/masking/placeholder.py:35-63 | Each replacement has the range and the text of its detection, and a placeholder made of the detection's placeholder, or else its key, and a decimal number of at least 1. |
| Placeholders.Splice | apps/api/app/masking/placeholder.py:65-67 | The loop replaces from the last to the first, with slices clamped to the string as it is by then. |
| Placeholders.SplicedIsInterleaved | apps/api/app/masking/placeholder.py:65-67 | For ordered disjoint ranges inside the text, right-to-left replacement in place equals the left-to-right interleaving of untouched gaps and placeholders. |
| Placeholders.ApplyPlaceholders | apps/api/app/masking/placeholder.py:52-73 | The masked text is the right-to-left replacement of the selected detections, which is the interleaving when they end inside the text; the counts are the occurrences of each placeholder, and applied_count is the number of selected detections. |
| Placeholders.MaskingRoundTrip | apps/api/app/masking/placeholder.py:52-73 | For detections that end inside the text, putting the raw values back into the masked text gives the original text. |
| Placeholders.UnmaskRestores | apps/api/app/masking/placeholder.py:65-67 | The same for any ordered disjoint replacements, from any cursor on. |
| Placeholders.CountsSumToApplied | apps/api/app/masking/placeholder.py:57-63 | The placeholder counts sum to the number of replacements. |
| FilterRules.LexicalDetectionsWithin | apps/api/app/services/filter_rules.py:487-507 | Every detection of a keyword or regex rule is a non-empty range inside the prompt. |
| FilterRules.EvaluateFilterRules | apps/api/app/services/filter_rules.py:510-526 | The loops report the matches of the built-in detectors and then those of the keyword, regex and context rules: one match for each active rule that finds something, in the order of the rules, told by the matcher and the detectors alone. |
| FilterRules.MatchesEvaluated | apps/api/app/services/filter_rules.py:352-526 | A keyword or regex rule of origin built_in or custom finds something if and only if its non-empty expression has a non-empty match in the normalized prompt, and then its detections are at exactly the restored ranges, left to right; a detector rule if and only if a detection has its key, with all of those; a context rule if and only if enough of its terms have a match. |
| FilterRules.FindingIsReported | apps/api/app/services/filter_rules.py:510-526 | Every active rule that finds something is reported with its id and action. |
| FilterRules.ReportedIsFound | apps/api/app/services/filter_rules.py:510-526 | Every match was found by an active rule, whose id and action it carries. |
| FilterRules.HitIsReported | apps/api/app/services/filter_rules.py:385-428 | Each non-empty match of the expression of an active keyword or regex rule is a detection of a match with the rule's id and action. |
| FilterRules.DetectionIsReported | apps/api/app/services/filter_rules.py:352-382 | Each detection with the key of an active built-in detector rule is in a match with the rule's id and action. |
| FilterRules.AllMatchesWithin | apps/api/app/services/filter_rules.py:352-526 | The detections of all matches are non-empty ranges inside the prompt. |
| FilterRules.DetectionsForMasking | apps/api/app/services/filter_rules.py:529-534 | The loop collects the detections match by match. |
| FilterRules.MaskingExactly | apps/api/app/services/filter_rules.py:529-534 | A detection is collected if and only if some match whose action is MASK has it. |
| FilterRules.MaskingInOrder | apps/api/app/services/filter_rules.py:529-534 | The detections of earlier matches come before those of later ones. |
| FilterRules.MaskedByRule | apps/api/app/services/filter_rules.py:352-535 | Every range that masking replaces is that of a detection of a match with action MASK. |
| FilterRules.ReplacedExactly | apps/api/app/services/filter_rules.py:352-535 | Every match of the expression of an active rule with action MASK, and every detection with such a rule's key, overlaps a replaced range; every replaced range is exactly one of those. |
| FilterRules.MaskPrompt | apps/api/app/services/filter_rules.py:510-535 | For any prompt and rules, masking what evaluation found is the interleaving of gaps and placeholders, the counts are right, putting the raw values back gives the prompt, everything that a rule with action MASK finds is overlapped by a replacement, and each replacement stands where one of them was found. |
| InferenceQueue.SlotsConserved | apps/api/app/runtime/ml_inference_queue.py:97-186 | In every interleaving free permits plus slot holders equal max_workers + max_queue_size, and jobs pending or running never outnumber it, also those whose callers gave up. With `counted` false the same for the parser pool. |
| InferenceQueue.SlotReturnedOnce | apps/api/app/runtime/ml_inference_queue.py:110-141 | Each call takes at most one slot and returns it at most once; a returned call that still holds one has a running job or a release that can happen now; a job not started at the timeout never starts; a success returns the value of its own finished job. |
| InferenceQueue.AnswerExactly | apps/api/app/runtime/ml_inference_queue.py:110-141 | In every run a call is answered timeout if and only if its wait expired or its job raised a timeout; otherwise succeeded, failed or escaped exactly as its job gave a value, raised an error, was cancelled or never submitted, or raised a fatal exception. |
| InferenceQueue.RefusedWhenFull | apps/api/app/runtime/ml_inference_queue.py:110-112 | In every run a refused call found every slot held when it tried to take one. |
| InferenceQueue.AdmittedWhenFree | apps/api/app/runtime/ml_inference_queue.py:110-113 | A call gets a slot if and only if fewer than the capacity are held when it tries. |
| InferenceQueue.TotalsCountAnswers | apps/api/app/runtime/ml_inference_queue.py:143-186 | At any time each total of a snapshot is the number of calls with that answer. |
| InferenceQueue.ReleaseIsMatched | apps/api/app/runtime/ml_inference_queue.py:162-165 | The bounded semaphore is never released above its bound, and the clamp of the reserved counter never acts. |
| InferenceQueue.SnapshotExact | apps/api/app/runtime/ml_inference_queue.py:138-165 | The snapshot count is the holders plus releases under way minus slots not yet counted, and exceeds the capacity exactly when the releases outnumber free permits and uncounted slots. |
| InferenceQueue.SnapshotCanExceedCapacity | apps/api/app/runtime/ml_inference_queue.py:162-165 | A run in which the snapshot shows three calls in a queue of capacity two. |
| InferenceQueue.QuiescentCounts | apps/api/app/runtime/ml_inference_queue.py:97-186 | At quiescence all permits are back, nothing is reserved, submitted equals succeeded + timeout + failed + escaped, and equals the first three exactly when every job that ended with a fatal exception had already been given up by its caller. |
| InferenceQueue.FatalIsUncounted | apps/api/app/runtime/ml_inference_queue.py:118-141 | A settled run in which the only call submitted is in none of the three totals. |
| InferenceQueue.StepKeeps | apps/api/app/runtime/parser_worker.py:19-38 | Every atomic step keeps the invariant, with counters and, for the parser pool, without. |
| InferenceQueue.MlInferenceQueue.constructor | apps/api/app/runtime/ml_inference_queue.py:82-95 | The object starts in the initial state of the machine. |
| InferenceQueue.MlInferenceQueue.ReleaseSlot | apps/api/app/runtime/ml_inference_queue.py:163 | The first half of a release is exactly the releasing step of the machine. |
| InferenceQueue.MlInferenceQueue.DecrementReserved | apps/api/app/runtime/ml_inference_queue.py:164-165 | The second half is exactly the decrementing step. |
| InferenceQueue.MlInferenceQueue.RecordSubmitted | apps/api/app/runtime/ml_inference_queue.py:167-170 | Counting a submission is exactly the recording step. |
| InferenceQueue.MlInferenceQueue.Execute | apps/api/app/runtime/ml_inference_queue.py:97-141 | A call that nobody interrupts, case by case: refused without a free slot and counted as such; failed when the submission or the job raises, timeout when the job raises one or is not done in time, succeeded with the value of its job; each case moves only its own total, a fatal exception none, and the slot is kept exactly when the job outlives the timeout. |
| InferenceQueue.AfterCallKeeps | apps/api/app/runtime/ml_inference_queue.py:97-141 | An uninterrupted call keeps the invariant of the interleaved ones. |
| ResidentWorker.AnswerIsOwn | apps/api/app/runtime/resident_worker_process.py:48-112 | In every interleaving of callers, timeouts, restarts and process deaths with one line per payload, a line returned to a caller is the answer to its own request. |
| ResidentWorker.FreeMeansQuiet | apps/api/app/runtime/resident_worker_process.py:96-112 | Whenever the lock is free the child has no unanswered request and no unread line. |
| ResidentWorker.OwnExactlyAfterOneLines | apps/api/app/runtime/resident_worker_process.py:96-112 | For any payloads, in every run: the line an exchange reads answers its own request if and only if every payload written earlier to the same child was a single line. |
| ResidentWorker.RunOwes | apps/api/app/runtime/resident_worker_process.py:96-125 | In every run a child in use owes exactly the lines beyond the first of all payloads written to it, and one line more between write and read. |
| ResidentWorker.LineBreakMisdelivers | apps/api/app/runtime/resident_worker_process.py:103 | A run in which a payload with a line break inside makes the next caller receive the answer to it. |
| ResidentWorker.InFlightBounded | apps/api/app/runtime/resident_worker_process.py:37-52 | Calls in flight hold slots and never outnumber max(1, max_pending_requests); free slots and holders add up to it. |
| ResidentWorker.FinishIsMatched | apps/api/app/runtime/resident_worker_process.py:69-71 | The clamp of the in-flight counter and the bound of the semaphore never act. |
| ResidentWorker.LockExcludes | apps/api/app/runtime/resident_worker_process.py:73-80 | At most one of the rpc thread, the restarting callers and outside restarts is in the locked region. |
| ResidentWorker.QuiescentCounts | apps/api/app/runtime/resident_worker_process.py:48-71 | When every caller has returned, all slots are free, nothing is in flight, and the calls equal succeeded + timeout + failed, a refused call failing without counting as a request. |
| ResidentWorker.VerdictExactly | apps/api/app/runtime/resident_worker_process.py:48-71 | In every run a caller is counted as timed out if and only if its wait expired or starting the child raised a timeout; otherwise as succeeded, without response or failed exactly as its job gave a line, gave none, or raised another error, was cancelled or never submitted. |
| ResidentWorker.RefusedWhenFull | apps/api/app/runtime/resident_worker_process.py:49-51 | In every run a refused caller found every slot held. |
| ResidentWorker.TotalsCountVerdicts | apps/api/app/runtime/resident_worker_process.py:48-71 | When every caller has returned, each total is the number of callers with that verdict. |
| ResidentWorker.PendingUntilRead | apps/api/app/runtime/resident_worker_process.py:103-105 | Between write and read the child owes what it owed before, followed by the lines of the request. |
| ResidentWorker.ResidentWorkerProcess.RequestLocked | apps/api/app/runtime/resident_worker_process.py:96-112 | One exchange under the lock, for any payload: the line returned is the first of what the child owed and the answers to the payload's lines, the rest stays owed; a failure leaves no child and counts a restart. |
| ResidentWorker.ResidentWorkerProcess.StopLocked | apps/api/app/runtime/resident_worker_process.py:127-146 | Stopping forgets the child and counts a restart if there was one. |
| ResidentWorker.ResidentWorkerProcess.Restart | apps/api/app/runtime/resident_worker_process.py:73-75 | A restart that gets the lock leaves no child, counts it if there was one, and gives the lock back. |
| ResidentWorker.ResidentWorkerProcess.RecordFinished | apps/api/app/runtime/resident_worker_process.py:153-155 | Lowering the in-flight counter is exactly the finishing step of the machine. |
| ResidentWorker.ResidentWorkerProcess.EnsureStartedLocked | apps/api/app/runtime/resident_worker_process.py:114-125 | A live child is kept, a dead or missing one replaced by a fresh one. |
| ParserPlans.ValidatePlanGraph | apps/api/app/parser/models.py:123-137 | Accepts exactly the plans with contiguous ordinals, distinct step ids, rules from always-steps to fallback steps and one rule for each route. |
| ParserPlans.ValidateFallbackGraph | apps/api/app/parser/models.py:140-155 | The loop with its growing set of routes decides the rule part of that exactly. |
| ParserPlans.BuildRegistry | apps/api/app/parser/registry.py:19-25 | The constructor refuses exactly the lists with a repeated capability id and otherwise registers all of the list. |
| ParserPlans.PlansAreValid | apps/api/app/parser/planning.py:73-121 | Every plan the resolver returns passes the validation of the plan graph. |
| ParserPlans.PdfAlwaysPlanned | apps/api/app/parser/planning.py:123-146 | With native text extraction available and no capability denied, a PDF always gets a plan, whatever of OCR is missing or off. |
| ParserPlans.PlanIsWanted | apps/api/app/parser/planning.py:19-169 | Every plan has the steps that file kind and requirement ask for, written out for each of them and for PDF by what is offered, each with an enabled capability that does the step and is not denied. |
| ParserPlans.LastIsChosen | apps/api/app/parser/planning.py:79-84 | The capability chosen for a step is the last enabled one in the list that does it. |
| ParserPlans.RefusedForReason | apps/api/app/parser/planning.py:86-98 | A request is refused only because parsing or OCR is switched off or a step of the plan has no capability or a denied one, in this order, with the code of that reason. |
| ParserPlans.ReasonMeansRefused | apps/api/app/parser/planning.py:86-98 | Where there is such a reason the request is refused with it. |
| ParserPlans.FallbacksAreForOcr | apps/api/app/parser/planning.py:40-51 | The rules of a plan lead from an OCR step to the fallback behind it, one for a missing adapter and one for an adapter that does not start. |
| ParserPlans.LookupSucceeds | apps/api/app/parser/registry.py:27-35 | Over shared registrations the registry refuses a step of a resolved plan exactly when the chosen capability is unlicensed. |
| ParserPlans.ResolvedStepsReachAdapters | apps/api/app/parser/executor.py:85-92 | With licensed registrations every call of a resolved step reaches its adapter. |
| ParserPlans.Execute | apps/api/app/parser/executor.py:24-83 | The step loop returns the result that is determined by the trace of the calls it makes. |
| ParserPlans.AlwaysInOrder | apps/api/app/parser/executor.py:35-43 | The always-steps called are a first part of the plan's, in order and once each, and all of them when the run ends well. |
| ParserPlans.RunIsOrderly | apps/api/app/parser/executor.py:42-63 | A fallback runs only right after its source failed with its trigger, and the run stops at the first failure that no fallback recovers. |
| ParserPlans.FailuresRecovered | apps/api/app/parser/executor.py:42-63 | A failed always-step for whose trigger the plan has a rule is followed by the call of that rule's target. |
| ParserPlans.CallsAreMade | apps/api/app/parser/executor.py:85-92 | Each call of a run asks the registry and then the adapter it names; the registry's refusal has the code of its reason. |
| ParserPlans.ReportIsRight | apps/api/app/parser/executor.py:48-83 | parsed exactly when no call raised and no step was partial or failed; failed exactly when the last call raised or failed, always with a failure; otherwise all always-steps ran. |
| ParserPlans.ReportCarries | apps/api/app/parser/executor.py:35-83 | The report carries the document of the last call that gave one; after an exception only its failure; after a failed last call its failure or PARSER_WORKER_FAILED; and for a partial run the last failure. |
| RefreshTokens.AuthTables.Login | apps/api/app/routes/auth.py:138-151 | Adds one fresh token for an allowed login and changes nothing otherwise. |
| RefreshTokens.AuthTables.Refresh | apps/api/app/routes/auth.py:168-218 | Revokes and links the presented token and adds its successor, or changes nothing when the token is unknown, revoked, expired, idle or its user inactive. |
| RefreshTokens.AuthTables.Logout | apps/api/app/routes/auth.py:231-247 | Revokes exactly the presented token when it is usable for the current user. |
| RefreshTokens.AuthTables.ChangePassword | apps/api/app/routes/auth.py:250-282 | The loop revokes exactly the unrevoked tokens of the user. |
| RefreshTokens.RunLinks | apps/api/app/routes/auth.py:194-211 | In every run a link leads from a revoked token to a later one of the same user, and no two links to one token. |
| RefreshTokens.ChainIsSimple | apps/api/app/routes/auth.py:210-211 | A chain climbs through later and later tokens of one user, and only its last can be unrevoked. |
| RefreshTokens.ChainsMeet | apps/api/app/routes/auth.py:210-211 | Two chains that share a token are parts of one chain. |
| RefreshTokens.OneRootEach | apps/api/app/routes/auth.py:210-211 | Every token is in the chain of exactly one token that no row names as its replacement. |
| RefreshTokens.RootIsLogin | apps/api/app/routes/auth.py:93-211 | In every run a token that no row names as its replacement was issued by a successful login of its user. |
| RefreshTokens.LoginIsRoot | apps/api/app/routes/auth.py:93-282 | A token issued by a login is never named as a replacement later. |
| RefreshTokens.RunChains | apps/api/app/routes/auth.py:93-282 | In every run each token is in the chain of the token issued by exactly one successful login, of the same user, and at its end if it is unrevoked. |
| RefreshTokens.RunGrows | apps/api/app/routes/auth.py:93-282 | Rows are never removed, a revoked row never changes again, and no row changes its user or expiry. |
| RefreshTokens.RowsAdded | apps/api/app/routes/auth.py:89-218 | In every run a step adds a token, and then one, if and only if it is a login of an active user with the right password or a refresh with an unrevoked token of an active user that is over neither of its times. |
| RefreshTokens.IssuedBy | apps/api/app/routes/auth.py:93-211 | Every token was added by such a step and keeps the expiry given there and an idle expiry fourteen days after it. |
| RefreshTokens.UsedInTime | apps/api/app/routes/auth.py:168-247 | A token that a refresh or a logout accepts was issued less than fourteen days before and is used before the expiry given then. |
| RefreshTokens.OnlyNewPassword | apps/api/app/routes/auth.py:250-282 | After a password change, until the user is changed again, a login of the user adds a token if and only if it gives the new password. |
| RefreshTokens.RevokedForGood | apps/api/app/routes/auth.py:189-190 | A revoked token is never accepted again by refresh or logout, which then change nothing. |
| RefreshTokens.RefreshOnlyOnce | apps/api/app/routes/auth.py:168-218 | A refresh token is accepted at most once in a run. |
| RefreshTokens.PasswordChangeLocksOut | apps/api/app/routes/auth.py:250-282 | After a password change no earlier token of the user can refresh or log out. |
| RefreshTokens.LaterTokensAreNewFamilies | apps/api/app/routes/auth.py:250-282 | Every token the user gets afterwards is in the chain of a login of that user which came after the change. |
| RefreshTokens.LiveTokensConserved | apps/api/app/routes/auth.py:93-282 | The unrevoked tokens of a user are logins minus logouts since the last password change; refreshes trade one for one. |
| RateLimiter.InMemoryRateLimiter.Check | apps/api/app/core/rate_limit.py:11-22 | The popping loop and the append change the deque of the key as the step function says and leave the others alone. |
| RateLimiter.DecisionIsNaiveCount | apps/api/app/core/rate_limit.py:11-22 | For a clock that does not go back and one window for each key, every decision equals a naive count over the full accepted history. |
| RateLimiter.SteadyDecision | apps/api/app/core/rate_limit.py:11-22 | Under the same conditions a call is let through if and only if fewer than limit of the hits let through before lie in its window. |
| RateLimiter.CountsExactlyUnlessOutlived | apps/api/app/core/rate_limit.py:11-22 | For a clock that does not go back and any windows on one key: the deque counts as many hits after s as were ever let through after s, if and only if no later check had a window starting at or after one of those; it never counts more. |
| RateLimiter.DecisionExactly | apps/api/app/core/rate_limit.py:11-22 | With windows of at least one second and m the largest window start the key was checked with since the last reset: every limit is decided by the naive count if and only if no hit was let through after the start of this window and not after m. |
| RateLimiter.LateStartCounts | apps/api/app/core/rate_limit.py:11-22 | Whatever the windows, a check whose window starts no earlier than all before it is decided by the naive count. |
| RateLimiter.DequeAgrees | apps/api/app/core/rate_limit.py:16-17 | No call still to come can tell the pruned deque from the full history. |
| RateLimiter.HitsAreSpaced | apps/api/app/core/rate_limit.py:11-22 | Any two hits of a key that the limiter let through limit places apart differ by at least the window. |
| RateLimiter.KeysAreIndependent | apps/api/app/core/rate_limit.py:14 | Calls for other keys change neither deque nor history of a key. |
| RateLimiter.RejectedIsNeverCounted | apps/api/app/core/rate_limit.py:19-22 | Without a rejected call, every later call is decided as with it. |
| RateLimiter.ShorterWindowForgets | apps/api/app/core/rate_limit.py:16-17 | With two windows on one key the deque can forget hits that the longer window still counts. |
| Checksums.IsValidLuhn | apps/api/app/detectors/pii.py:93-108 | The left-to-right loop with its parity rule decides the right-to-left sum of Annex B of ISO/IEC 7812-1, with the length bounds and the error for digits without a decimal value. |
| Checksums.LuhnPlaces | apps/api/app/detectors/pii.py:93-108 | What each digit adds: at an even distance from the right its value, at an odd one the digit sum of its double, written out for the ten digits. |
| Checksums.LuhnZeros | apps/api/app/detectors/pii.py:93-108 | Zeros add nothing. |
| Checksums.LuhnDetectsSingleChange | apps/api/app/detectors/pii.py:93-108 | Any single-digit change of a valid number is rejected. |
| Checksums.LuhnCompletion | apps/api/app/detectors/pii.py:93-108 | At every place exactly one digit completes the others to a valid number. |
| Checksums.LuhnSwap | apps/api/app/detectors/pii.py:93-108 | A swap of unequal neighbours is accepted exactly when they are 0 and 9. |
| Checksums.LuhnTwins | apps/api/app/detectors/pii.py:93-108 | A doubled digit written as another goes unnoticed exactly for 22-55, 33-66 and 44-77. |
| Checksums.IsValidRrn | apps/api/app/detectors/pii.py:84-90 | Decides the weighted checksum of the resident registration number, with the length test and the same error. |
| Checksums.RrnRule | apps/api/app/detectors/pii.py:84-90 | The rule with its twelve weights written out. |
| Checksums.RrnSingleChange | apps/api/app/detectors/pii.py:84-90 | A change of one of the first twelve digits goes undetected exactly when the weighted sum modulo 11 moves between 0 and 10; a changed check digit is always detected. |
| Checksums.RrnSwap | apps/api/app/detectors/pii.py:84-90 | The same condition decides a swap of unequal neighbours among the first twelve. |
| Checksums.RrnMissesSome | apps/api/app/detectors/pii.py:84-90 | Such undetected changes exist. |

## Left out

- Regular expression engines and the fence, table and OCR recognizers: matchers are parameters that give ordered disjoint spans; whether a block is OCR or a table is a flag or a parameter.
- Unicode tables: the special-character test is a parameter, whitespace is a fixed table of ranges.
- Hashed identifiers: signal, atom and segment ids are injective constructors of what is hashed, so collisions of the shortened digests are not modelled.
- Floating point: cosine similarity is any function into the reals, zero and non-finite vectors are told apart by their components.
- Locations, metadata, fingerprints, versions and other pass-through fields of the records.
- `embed_atoms`, segment embeddings, classification, verification and the loop over several inputs of one request: `AnalyzeInput` is one round of that loop up to the mapping.
- Boundary sets: kept as ascending lists, which is the order in which the source iterates over them.
- Context rules: the terms of all groups form one list, entries of `keyword_groups` that are not text are left out of it, and the pattern id of a term names only its rule.
- The PII detectors' own patterns: `detect_pii` is a parameter whose ranges lie in the prompt.
- Loading, merging and storing filter rules.
- Pipeline.AnalyzeInput: takes for granted that the embedding model returns vectors only for atoms it was given.
- FilterRules.EvaluateFilterRules: models identifier, action, count and detections of a match, not its scores and evidence.
- Placeholders.ApplyPlaceholders: for detections that end past the text only the clamped replacement itself is stated; evaluation never produces them.
- Executor internals: which worker runs a job and how many at once, and a submission that raises after it has queued its job.
- InferenceQueue.MlInferenceQueue.Execute: states a call that is not interleaved with others; the run lemmas state the interleaved ones.
- ResidentWorker.AnswerIsOwn: takes one line for each payload (`OwnExactlyAfterOneLines` takes any) and, as all of that module, one output line of the child for each request line, in order.
- ResidentWorker.QuiescentCounts: says nothing about the restart total and the last failure code.
- Stopping a child: forgetting it and counting the restart are one step under the lock; what the forgotten process still does has no effect.
- Liveness: a restart waits for the lock that a blocked reader holds, so only safety is claimed.
- Exceptions outside `Exception` in callers of the resident worker.
- `ocr_status`, messages and input ids of parser results.
- Database isolation, deletion of users with their tokens, and the rate limits on the auth routes: refresh, login, logout and password change are serial steps.
- RefreshTokens.AuthTables.Refresh: the lifetime of a new token is a parameter, and tokens and hashes are row numbers.
- Passwords are compared as they are; argon2, JWT and cookies are not part of this model.
- The HTTP error of the rate limiter is a boolean result, and its clock is an argument of each call.
