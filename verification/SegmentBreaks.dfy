// Which neighbouring atoms the segments keep apart (apps/api/app/segmenter/builder.py:61-75).
module SegmentBreaks {
  import opened Spans
  import opened Atoms
  import opened Boundaries
  import opened Packing
  import opened Segmenter

  // ---------------------------------------------------------------- where groups start, by their sizes alone

  function Sum(sizes: seq<nat>): nat {
    if sizes == [] then 0 else Sum(sizes[..|sizes| - 1]) + sizes[|sizes| - 1]
  }

  // Of groups of these sizes, laid end to end, one starts at position p.
  predicate Starts(sizes: seq<nat>, p: int) {
    sizes != [] && (p == Sum(sizes[..|sizes| - 1]) || Starts(sizes[..|sizes| - 1], p))
  }

  lemma {:induction false} SumConcat(left: seq<nat>, right: seq<nat>)
    ensures Sum(left + right) == Sum(left) + Sum(right)
    decreases |right|
  {
    if right == [] {
      assert left + right == left;
    } else {
      SumConcat(left, right[..|right| - 1]);
      assert (left + right)[..|left + right| - 1] == left + right[..|right| - 1];
    }
  }

  lemma {:induction false} StartsConcat(left: seq<nat>, right: seq<nat>, p: int)
    ensures Starts(left + right, p) <==> Starts(left, p) || Starts(right, p - Sum(left))
    decreases |right|
  {
    if right == [] {
      assert left + right == left;
    } else {
      StartsConcat(left, right[..|right| - 1], p);
      SumConcat(left, right[..|right| - 1]);
      assert (left + right)[..|left + right| - 1] == left + right[..|right| - 1];
    }
  }

  lemma {:induction false} SumClimbs(sizes: seq<nat>, g: nat, h: nat)
    requires g <= h <= |sizes|
    ensures Sum(sizes[..g]) <= Sum(sizes[..h])
  {
    assert sizes[..h] == sizes[..g] + sizes[g..h];
    SumConcat(sizes[..g], sizes[g..h]);
  }

  lemma {:induction false} SumNext(sizes: seq<nat>, g: nat)
    requires g < |sizes|
    ensures Sum(sizes[..g + 1]) == Sum(sizes[..g]) + sizes[g]
  {
    assert sizes[..g + 1][..g] == sizes[..g];
  }

  lemma {:induction false} StartOf(sizes: seq<nat>, g: nat)
    requires g < |sizes|
    ensures Starts(sizes, Sum(sizes[..g]))
  {
    var n := |sizes| - 1;
    if g < n {
      assert sizes[..n][..g] == sizes[..g];
      StartOf(sizes[..n], g);
    }
  }

  lemma {:induction false} StartGroup(sizes: seq<nat>, p: int) returns (g: nat)
    requires Starts(sizes, p)
    ensures g < |sizes| && Sum(sizes[..g]) == p
  {
    g := |sizes| - 1;
    if p != Sum(sizes[..g]) {
      var init := sizes[..g];
      g := StartGroup(init, p);
      assert init[..g] == sizes[..g];
    }
  }

  lemma {:induction false} StartsInRange(sizes: seq<nat>, p: int)
    requires (forall g :: 0 <= g < |sizes| ==> sizes[g] > 0) && Starts(sizes, p)
    ensures 0 <= p < Sum(sizes)
  {
    var n := |sizes| - 1;
    if p != Sum(sizes[..n]) { StartsInRange(sizes[..n], p); }
  }

  lemma {:induction false} StartsAtZero(sizes: seq<nat>)
    requires sizes != []
    ensures Starts(sizes, 0)
  {
    if |sizes| > 1 { StartsAtZero(sizes[..|sizes| - 1]); } else { assert sizes[..0] == []; }
  }

  lemma {:induction false} SingleStarts(size: nat, q: int)
    ensures Starts([size], q) <==> q == 0
  {
    assert [size][..0] == [] && !Starts([], q);
  }

  // The group around a position.
  lemma {:induction false} GroupAt(sizes: seq<nat>, p: nat) returns (g: nat)
    requires p < Sum(sizes)
    ensures g < |sizes| && Sum(sizes[..g]) <= p < Sum(sizes[..g]) + sizes[g]
  {
    var n := |sizes| - 1;
    if p < Sum(sizes[..n]) {
      var init := sizes[..n];
      g := GroupAt(init, p);
      assert init[..g] == sizes[..g];
    } else {
      g := n;
    }
  }

  // ---------------------------------------------------------------- the sizes of groups

  function SizesOf(groups: seq<Group>): (sizes: seq<nat>)
    ensures |sizes| == |groups| && forall g :: 0 <= g < |groups| ==> sizes[g] == |groups[g].atoms|
  {
    if groups == [] then [] else SizesOf(groups[..|groups| - 1]) + [|groups[|groups| - 1].atoms|]
  }

  lemma {:induction false} SizesSum(groups: seq<Group>)
    ensures Sum(SizesOf(groups)) == |AtomsIn(groups)|
  {
    if groups != [] {
      var n := |groups| - 1;
      SizesSum(groups[..n]);
      assert SizesOf(groups)[..n] == SizesOf(groups[..n]);
    }
  }

  lemma {:induction false} SizesConcat(left: seq<Group>, right: seq<Group>)
    ensures SizesOf(left + right) == SizesOf(left) + SizesOf(right)
  {
  }

  function Offset(groups: seq<Group>, g: nat): nat
    requires g <= |groups|
  {
    Sum(SizesOf(groups)[..g])
  }

  lemma {:induction false} OffsetBefore(groups: seq<Group>, g: nat)
    requires g < |groups|
    ensures Offset(groups, g) == Offset(groups[..|groups| - 1], g)
  {
    var n := |groups| - 1;
    assert SizesOf(groups)[..n] == SizesOf(groups[..n]);
    assert SizesOf(groups)[..g] == SizesOf(groups)[..n][..g];
  }

  lemma {:induction false} OffsetOfAll(groups: seq<Group>)
    ensures Offset(groups, |groups|) == |AtomsIn(groups)|
  {
    SizesSum(groups);
    assert SizesOf(groups)[..|groups|] == SizesOf(groups);
  }

  // The j-th atom of group g stands at position Offset(g) + j.
  lemma {:induction false} AtomAt(groups: seq<Group>, g: nat, j: nat)
    requires g < |groups| && j < |groups[g].atoms|
    ensures Offset(groups, g) + j < |AtomsIn(groups)| && AtomsIn(groups)[Offset(groups, g) + j] == groups[g].atoms[j]
  {
    var n := |groups| - 1;
    OffsetBefore(groups, g);
    if g < n { AtomAt(groups[..n], g, j); } else { OffsetOfAll(groups[..n]); }
  }

  // ---------------------------------------------------------------- groups and segments

  // One segment holds both atoms.
  ghost predicate OneSegment(segments: seq<AnalysisSegment>, a: AtomId, b: AtomId) {
    exists k :: 0 <= k < |segments| && a in segments[k].atomIds && b in segments[k].atomIds
  }

  lemma {:induction false} HeldAtoms(atoms: seq<AnalysisAtom>, groups: seq<Group>, g: nat, p: nat)
    requires AtomsIn(groups) == atoms && DistinctIds(atoms) && g < |groups| && p < |atoms|
    ensures atoms[p].id in Ids(groups[g].atoms) <==> Offset(groups, g) <= p < Offset(groups, g) + |groups[g].atoms|
  {
    var ids := Ids(groups[g].atoms);
    if Offset(groups, g) <= p < Offset(groups, g) + |groups[g].atoms| {
      var j := p - Offset(groups, g);
      AtomAt(groups, g, j);
      assert ids[j] == atoms[p].id;
    }
    if atoms[p].id in ids {
      var j :| 0 <= j < |ids| && ids[j] == atoms[p].id;
      AtomAt(groups, g, j);
      SamePosition(atoms, p, Offset(groups, g) + j);
    }
  }

  lemma {:induction false} SamePosition(atoms: seq<AnalysisAtom>, p: nat, q: nat)
    requires DistinctIds(atoms) && p < |atoms| && q < |atoms| && atoms[p].id == atoms[q].id
    ensures p == q
  {
  }

  lemma {:induction false} InsideTogether(inputId: string, atoms: seq<AnalysisAtom>, groups: seq<Group>, g: nat, i: nat)
    requires AtomsIn(groups) == atoms && NonEmptyGroups(groups) && DistinctIds(atoms) && i + 1 < |atoms| && g < |groups|
    requires Offset(groups, g) <= i && i + 1 < Offset(groups, g) + |groups[g].atoms|
    ensures OneSegment(SegmentsOf(inputId, groups), atoms[i].id, atoms[i + 1].id)
  {
    var segments := SegmentsOf(inputId, groups);
    HeldAtoms(atoms, groups, g, i);
    HeldAtoms(atoms, groups, g, i + 1);
    assert atoms[i].id in segments[g].atomIds && atoms[i + 1].id in segments[g].atomIds;
  }

  lemma {:induction false} StartParts(inputId: string, atoms: seq<AnalysisAtom>, groups: seq<Group>, g: nat, i: nat)
    requires AtomsIn(groups) == atoms && NonEmptyGroups(groups) && DistinctIds(atoms) && i + 1 < |atoms| && g < |groups|
    requires Offset(groups, g) == i + 1
    ensures !OneSegment(SegmentsOf(inputId, groups), atoms[i].id, atoms[i + 1].id)
  {
    var segments := SegmentsOf(inputId, groups);
    forall k | 0 <= k < |segments| ensures !(atoms[i].id in segments[k].atomIds && atoms[i + 1].id in segments[k].atomIds) {
      HeldAtoms(atoms, groups, k, i);
      HeldAtoms(atoms, groups, k, i + 1);
      SumNext(SizesOf(groups), k);
      if k < g { SumClimbs(SizesOf(groups), k + 1, g); } else { SumClimbs(SizesOf(groups), g, k); }
    }
  }

  // Two neighbours share a segment exactly when no group starts with the second of them.
  lemma {:induction false} StartIsApart(inputId: string, atoms: seq<AnalysisAtom>, groups: seq<Group>, i: nat)
    requires AtomsIn(groups) == atoms && NonEmptyGroups(groups) && DistinctIds(atoms) && i + 1 < |atoms|
    requires Starts(SizesOf(groups), i + 1)
    ensures !OneSegment(SegmentsOf(inputId, groups), atoms[i].id, atoms[i + 1].id)
  {
    var g := StartGroup(SizesOf(groups), i + 1);
    StartParts(inputId, atoms, groups, g, i);
  }

  lemma {:induction false} NoStartIsTogether(inputId: string, atoms: seq<AnalysisAtom>, groups: seq<Group>, i: nat)
    requires AtomsIn(groups) == atoms && NonEmptyGroups(groups) && DistinctIds(atoms) && i + 1 < |atoms|
    requires !Starts(SizesOf(groups), i + 1)
    ensures OneSegment(SegmentsOf(inputId, groups), atoms[i].id, atoms[i + 1].id)
  {
    var sizes := SizesOf(groups);
    SizesSum(groups);
    var g := GroupAt(sizes, i);
    SumNext(sizes, g);
    if i + 1 == Sum(sizes[..g + 1]) { NextStarts(sizes, g); }
    InsideTogether(inputId, atoms, groups, g, i);
  }

  lemma {:induction false} NextStarts(sizes: seq<nat>, g: nat)
    requires g < |sizes| && Sum(sizes[..g + 1]) < Sum(sizes)
    ensures Starts(sizes, Sum(sizes[..g + 1]))
  {
    assert sizes[..|sizes|] == sizes;
    assert g + 1 < |sizes|;
    StartOf(sizes, g + 1);
  }

  // ---------------------------------------------------------------- the groups between cuts

  // The sizes of the groups that end at a cut.
  function CutSizes(cuts: seq<int>, hi: int): seq<nat>
    requires AscendingTo(cuts, hi)
    decreases |cuts|
  {
    if cuts == [] then []
    else
      var before := cuts[..|cuts| - 1];
      AscendingWeaken(before, Last(cuts), hi);
      AscendingBounds(cuts, hi);
      CutSizes(before, hi) + [Last(cuts) - Last(before)]
  }

  lemma {:induction false} CutSums(cuts: seq<int>, hi: int)
    requires AscendingTo(cuts, hi)
    ensures |CutSizes(cuts, hi)| == |cuts| && Sum(CutSizes(cuts, hi)) == Last(cuts) + 1
    decreases |cuts|
  {
    if cuts != [] {
      var before := cuts[..|cuts| - 1];
      AscendingWeaken(before, Last(cuts), hi);
      CutSums(before, hi);
    }
  }

  lemma {:induction false} CutPrefix(cuts: seq<int>, hi: int, g: nat)
    requires AscendingTo(cuts, hi) && g <= |cuts|
    ensures |CutSizes(cuts, hi)| == |cuts| && Sum(CutSizes(cuts, hi)[..g]) == if g == 0 then 0 else cuts[g - 1] + 1
    decreases |cuts|
  {
    CutSums(cuts, hi);
    var sizes := CutSizes(cuts, hi);
    if g < |cuts| {
      var before := cuts[..|cuts| - 1];
      AscendingWeaken(before, Last(cuts), hi);
      CutPrefix(before, hi, g);
      assert sizes[..g] == CutSizes(before, hi)[..g];
    } else {
      assert sizes[..g] == sizes;
    }
  }

  function Lengths(parts: seq<seq<AnalysisAtom>>): seq<nat> {
    if parts == [] then [] else Lengths(parts[..|parts| - 1]) + [|parts[|parts| - 1]|]
  }

  lemma {:induction false} LengthsPush(parts: seq<seq<AnalysisAtom>>, part: seq<AnalysisAtom>)
    ensures Lengths(parts + [part]) == Lengths(parts) + [|part|]
  {
    assert (parts + [part])[..|parts|] == parts;
  }

  lemma {:induction false} PartSizes(parts: seq<seq<AnalysisAtom>>, kind: SegmentType)
    ensures SizesOf(Typed(parts, kind)) == Lengths(parts)
  {
    if parts != [] {
      var n := |parts| - 1;
      PartSizes(parts[..n], kind);
      assert Typed(parts, kind)[..n] == Typed(parts[..n], kind);
    }
  }

  lemma {:induction false} ClosedLengths(atoms: seq<AnalysisAtom>, cuts: seq<int>)
    requires AscendingTo(cuts, |atoms| - 1)
    ensures Lengths(Closed(atoms, cuts)) == CutSizes(cuts, |atoms| - 1)
    decreases |cuts|
  {
    if cuts != [] {
      var before := cuts[..|cuts| - 1];
      AscendingWeaken(before, Last(cuts), |atoms| - 1);
      AscendingBounds(cuts, |atoms| - 1);
      ClosedLengths(atoms, before);
      LengthsPush(Closed(atoms, before), atoms[Last(before) + 1..Last(cuts) + 1]);
    }
  }

  lemma {:induction false} GroupLengths(atoms: seq<AnalysisAtom>, cuts: seq<int>, kind: SegmentType)
    requires atoms != [] && AscendingTo(cuts, |atoms| - 1)
    ensures SizesOf(Typed(Groups(atoms, cuts), kind)) == CutSizes(cuts, |atoms| - 1) + [|atoms| - 1 - Last(cuts)]
  {
    PartSizes(Groups(atoms, cuts), kind);
    ClosedLengths(atoms, cuts);
    AscendingBounds(cuts, |atoms| - 1);
    LengthsPush(Closed(atoms, cuts), atoms[Last(cuts) + 1..]);
  }

  // Group g of the groups between cuts starts right after the g-th cut.
  lemma {:induction false} CutOffset(atoms: seq<AnalysisAtom>, cuts: seq<int>, kind: SegmentType, g: nat)
    requires atoms != [] && AscendingTo(cuts, |atoms| - 1) && g <= |cuts|
    ensures Offset(Typed(Groups(atoms, cuts), kind), g) == if g == 0 then 0 else cuts[g - 1] + 1
  {
    GroupLengths(atoms, cuts, kind);
    CutPrefix(cuts, |atoms| - 1, g);
    var sizes := CutSizes(cuts, |atoms| - 1);
    assert (sizes + [|atoms| - 1 - Last(cuts)])[..g] == sizes[..g];
  }

  lemma {:induction false} CutIndex(cuts: seq<int>, i: int) returns (c: nat)
    requires i in cuts
    ensures c < |cuts| && cuts[c] == i
  {
    c :| c < |cuts| && cuts[c] == i;
  }

  lemma {:induction false} CutStarts(atoms: seq<AnalysisAtom>, cuts: seq<int>, kind: SegmentType, i: nat)
    requires atoms != [] && AscendingTo(cuts, |atoms| - 1) && i in cuts
    ensures Starts(SizesOf(Typed(Groups(atoms, cuts), kind)), i + 1)
  {
    var c := CutIndex(cuts, i);
    CutOffset(atoms, cuts, kind, c + 1);
    StartOf(SizesOf(Typed(Groups(atoms, cuts), kind)), c + 1);
  }

  lemma {:induction false} StartIsCut(atoms: seq<AnalysisAtom>, cuts: seq<int>, kind: SegmentType, i: nat)
    requires atoms != [] && AscendingTo(cuts, |atoms| - 1) && Starts(SizesOf(Typed(Groups(atoms, cuts), kind)), i + 1)
    ensures i in cuts
  {
    var g := StartGroup(SizesOf(Typed(Groups(atoms, cuts), kind)), i + 1);
    CutOffset(atoms, cuts, kind, g);
    assert g > 0 && cuts[g - 1] == i;
  }

  // ---------------------------------------------------------------- sizes cut into smaller ones

  // Each size is split into positive parts that add up to it; only the long ones are split at all.
  ghost predicate Splits(coarse: seq<nat>, long: seq<bool>, parts: seq<seq<nat>>) {
    |coarse| == |long| == |parts| && forall g :: 0 <= g < |parts| ==> SplitOf(coarse[g], long[g], parts[g])
  }

  predicate SplitOf(size: nat, long: bool, part: seq<nat>) {
    && part != [] && Sum(part) == size && (forall i :: 0 <= i < |part| ==> part[i] > 0)
    && (!long ==> part == [size])
  }

  lemma {:induction false} SplitsInit(coarse: seq<nat>, long: seq<bool>, parts: seq<seq<nat>>)
    requires Splits(coarse, long, parts) && parts != []
    ensures var n := |parts| - 1; Splits(coarse[..n], long[..n], parts[..n]) && SplitOf(coarse[n], long[n], parts[n])
  {
  }

  lemma {:induction false} SplitsSum(coarse: seq<nat>, long: seq<bool>, parts: seq<seq<nat>>)
    requires Splits(coarse, long, parts)
    ensures Sum(Flatten(parts)) == Sum(coarse)
  {
    if parts != [] {
      var n := |parts| - 1;
      SplitsInit(coarse, long, parts);
      SplitsSum(coarse[..n], long[..n], parts[..n]);
      SumConcat(Flatten(parts[..n]), parts[n]);
    }
  }

  lemma {:induction false} SplitStarts(coarse: seq<nat>, long: seq<bool>, parts: seq<seq<nat>>, p: int)
    requires Splits(coarse, long, parts) && parts != []
    ensures var n := |parts| - 1;
            Starts(Flatten(parts), p) <==> Starts(Flatten(parts[..n]), p) || Starts(parts[n], p - Sum(coarse[..n]))
  {
    var n := |parts| - 1;
    SplitsInit(coarse, long, parts);
    SplitsSum(coarse[..n], long[..n], parts[..n]);
    StartsConcat(Flatten(parts[..n]), parts[n], p);
  }

  // Splitting keeps every start ...
  lemma {:induction false} SplitKeepsStart(coarse: seq<nat>, long: seq<bool>, parts: seq<seq<nat>>, p: int)
    requires Splits(coarse, long, parts) && Starts(coarse, p)
    ensures Starts(Flatten(parts), p)
  {
    var n := |parts| - 1;
    SplitsInit(coarse, long, parts);
    SplitStarts(coarse, long, parts, p);
    if p == Sum(coarse[..n]) { StartsAtZero(parts[n]); } else { SplitKeepsStart(coarse[..n], long[..n], parts[..n], p); }
  }

  // ... and makes new ones only inside long sizes.
  lemma {:induction false} SplitNewStart(coarse: seq<nat>, long: seq<bool>, parts: seq<seq<nat>>, p: int) returns (g: nat)
    requires Splits(coarse, long, parts) && Starts(Flatten(parts), p) && !Starts(coarse, p)
    ensures g < |coarse| == |long| && long[g] && Sum(coarse[..g]) < p < Sum(coarse[..g]) + coarse[g]
  {
    var n := |parts| - 1;
    SplitsInit(coarse, long, parts);
    SplitStarts(coarse, long, parts, p);
    SingleStarts(coarse[n], p - Sum(coarse[..n]));
    if Starts(Flatten(parts[..n]), p) {
      var init := coarse[..n];
      g := SplitNewStart(init, long[..n], parts[..n], p);
      assert init[..g] == coarse[..g];
    } else {
      g := n;
      StartsInRange(parts[n], p - Sum(coarse[..n]));
    }
  }

  // ---------------------------------------------------------------- resizing

  function PieceSizes(groups: seq<Group>, maxChars: int): seq<seq<nat>> {
    seq(|groups|, g requires 0 <= g < |groups| => SizesOf(ResizeOne(groups[g], maxChars)))
  }

  function TooLong(groups: seq<Group>, maxChars: int): seq<bool> {
    seq(|groups|, g requires 0 <= g < |groups| => Chars(groups[g].atoms) > maxChars)
  }

  lemma {:induction false} FlattenPush(parts: seq<seq<nat>>, part: seq<nat>)
    ensures Flatten(parts + [part]) == Flatten(parts) + part
  {
    assert (parts + [part])[..|parts|] == parts;
  }

  lemma {:induction false} PieceSizesLast(groups: seq<Group>, maxChars: int)
    requires groups != []
    ensures var n := |groups| - 1;
            PieceSizes(groups, maxChars) == PieceSizes(groups[..n], maxChars) + [SizesOf(ResizeOne(groups[n], maxChars))]
  {
  }

  lemma {:induction false} ResizedSizes(groups: seq<Group>, maxChars: int)
    ensures SizesOf(Resize(groups, maxChars)) == Flatten(PieceSizes(groups, maxChars))
  {
    if groups != [] {
      var n := |groups| - 1;
      ResizedSizes(groups[..n], maxChars);
      SizesConcat(Resize(groups[..n], maxChars), ResizeOne(groups[n], maxChars));
      PieceSizesLast(groups, maxChars);
      FlattenPush(PieceSizes(groups[..n], maxChars), SizesOf(ResizeOne(groups[n], maxChars)));
    }
  }

  lemma {:induction false} ResizeOneSplits(group: Group, maxChars: int)
    requires group.atoms != []
    ensures SplitOf(|group.atoms|, Chars(group.atoms) > maxChars, SizesOf(ResizeOne(group, maxChars)))
  {
    var pieces := ResizeOne(group, maxChars);
    ResizeOneKeeps(group, maxChars);
    SizesSum(pieces);
    assert AtomsIn([]) != group.atoms;
  }

  lemma {:induction false} ResizeSplits(groups: seq<Group>, maxChars: int)
    requires NonEmptyGroups(groups)
    ensures Splits(SizesOf(groups), TooLong(groups, maxChars), PieceSizes(groups, maxChars))
  {
    forall g | 0 <= g < |groups|
      ensures SplitOf(SizesOf(groups)[g], TooLong(groups, maxChars)[g], PieceSizes(groups, maxChars)[g])
    {
      ResizeOneSplits(groups[g], maxChars);
    }
  }

  // Position p lies inside group g, not at its start, and the group has more than maxChars characters.
  predicate InsideTooLong(groups: seq<Group>, g: nat, p: int, maxChars: int)
    requires g < |groups|
  {
    Chars(groups[g].atoms) > maxChars && Offset(groups, g) < p < Offset(groups, g) + |groups[g].atoms|
  }

  ghost predicate TooLongAround(groups: seq<Group>, p: int, maxChars: int) {
    exists g :: 0 <= g < |groups| && InsideTooLong(groups, g, p, maxChars)
  }

  lemma {:induction false} ResizeKeepsStart(groups: seq<Group>, maxChars: int, p: int)
    requires NonEmptyGroups(groups) && Starts(SizesOf(groups), p)
    ensures Starts(SizesOf(Resize(groups, maxChars)), p)
  {
    ResizedSizes(groups, maxChars);
    ResizeSplits(groups, maxChars);
    SplitKeepsStart(SizesOf(groups), TooLong(groups, maxChars), PieceSizes(groups, maxChars), p);
  }

  lemma {:induction false} ResizeNewStart(groups: seq<Group>, maxChars: int, p: int)
    requires NonEmptyGroups(groups) && Starts(SizesOf(Resize(groups, maxChars)), p)
    ensures Starts(SizesOf(groups), p) || TooLongAround(groups, p, maxChars)
  {
    if !Starts(SizesOf(groups), p) {
      ResizedSizes(groups, maxChars);
      ResizeSplits(groups, maxChars);
      var g := SplitNewStart(SizesOf(groups), TooLong(groups, maxChars), PieceSizes(groups, maxChars), p);
      assert InsideTooLong(groups, g, p, maxChars);
    }
  }

  // ---------------------------------------------------------------- what the scores mean for the segments

  // The weakest inner boundary of an oversized one of the groups with these ends.
  ghost predicate OversizedCut(atoms: seq<AnalysisAtom>, scores: seq<AdjacentBoundaryScore>, policy: SegmentPolicy, ends: seq<int>, i: int)
  {
    && |scores| == |atoms| - 1 && Increasing(ends, |atoms|)
    && exists e :: 0 <= e < |ends| && WeakestOfOversized(atoms, scores, policy, ends, e, i)
  }

  // Where the groups of the greedy pass end.
  function GreedyEnds(atoms: seq<AnalysisAtom>, scores: seq<AdjacentBoundaryScore>, policy: SegmentPolicy): seq<int> {
    if |scores| == |atoms| - 1 then Greedy(atoms, scores, policy, |scores|) + [|atoms| - 1] else []
  }

  // The group that ends at ends[e] has more than target_chars characters, more than min_atoms atoms and at least two.
  predicate TooLarge(atoms: seq<AnalysisAtom>, policy: SegmentPolicy, ends: seq<int>, e: nat)
    requires Increasing(ends, |atoms|) && e < |ends|
  {
    var start := if e == 0 then 0 else ends[e - 1] + 1;
    && |Texts(atoms[start..ends[e] + 1])| > policy.targetChars
    && ends[e] - start + 1 > policy.minAtoms && ends[e] - start + 1 >= 2
  }

  // i is the first of that group's inner boundaries with the lowest cosine.
  ghost predicate WeakestOfOversized(atoms: seq<AnalysisAtom>, scores: seq<AdjacentBoundaryScore>, policy: SegmentPolicy,
                                     ends: seq<int>, e: nat, i: int)
    requires |scores| == |atoms| - 1 && Increasing(ends, |atoms|) && e < |ends|
  {
    var start := if e == 0 then 0 else ends[e - 1] + 1;
    && TooLarge(atoms, policy, ends, e) && start <= i < ends[e]
    && forall j :: start <= j < ends[e] ==>
         scores[i].cosine < scores[j].cosine || (scores[i].cosine == scores[j].cosine && i <= j)
  }

  lemma {:induction false} WeakestOf(atoms: seq<AnalysisAtom>, scores: seq<AdjacentBoundaryScore>, policy: SegmentPolicy,
                                     ends: seq<int>, e: nat, i: int)
    requires |scores| == |atoms| - 1 && Increasing(ends, |atoms|) && e < |ends|
    requires Oversized(atoms[GroupStart(ends, e)..ends[e] + 1], policy) && Weakest(scores, GroupStart(ends, e), ends[e], i)
    ensures WeakestOfOversized(atoms, scores, policy, ends, e, i)
  {
  }

  // Every group that is too large is cut there.
  lemma {:induction false} OversizedHasExtra(atoms: seq<AnalysisAtom>, scores: seq<AdjacentBoundaryScore>, policy: SegmentPolicy,
                                             ends: seq<int>, n: nat, extra: seq<int>, e: nat) returns (i: int)
    requires |scores| == |atoms| - 1 && Increasing(ends, |atoms|) && e < n <= |ends|
    requires TargetCuts(atoms, scores, policy, ends, n, extra) && TooLarge(atoms, policy, ends, e)
    ensures i in extra && WeakestOfOversized(atoms, scores, policy, ends, e, i)
    decreases n
  {
    var lo, end := GroupStart(ends, n - 1), ends[n - 1];
    if e == n - 1 {
      i := extra[|extra| - 1];
      WeakestOf(atoms, scores, policy, ends, e, i);
    } else if Oversized(atoms[lo..end + 1], policy) {
      i := OversizedHasExtra(atoms, scores, policy, ends, n - 1, extra[..|extra| - 1], e);
    } else {
      i := OversizedHasExtra(atoms, scores, policy, ends, n - 1, extra, e);
    }
  }

  lemma {:induction false} OversizedIsCut(atoms: seq<AnalysisAtom>, scores: seq<AdjacentBoundaryScore>, policy: SegmentPolicy,
                                          cuts: seq<int>, e: nat) returns (i: int)
    requires atoms != [] && |scores| == |atoms| - 1 && SemanticCuts(atoms, scores, policy, cuts)
    requires e < |GreedyEnds(atoms, scores, policy)| && Increasing(GreedyEnds(atoms, scores, policy), |atoms|)
    requires TooLarge(atoms, policy, GreedyEnds(atoms, scores, policy), e)
    ensures i in cuts && WeakestOfOversized(atoms, scores, policy, GreedyEnds(atoms, scores, policy), e, i)
  {
    var chosen, ends := Greedy(atoms, scores, policy, |scores|), GreedyEnds(atoms, scores, policy);
    var extra :| TargetCuts(atoms, scores, policy, ends, |chosen| + 1, extra) && cuts == Union(chosen, extra);
    i := OversizedHasExtra(atoms, scores, policy, ends, |chosen| + 1, extra, e);
    UnionHas(chosen, extra, i);
  }

  lemma {:induction false} ExtraIsOversized(atoms: seq<AnalysisAtom>, scores: seq<AdjacentBoundaryScore>, policy: SegmentPolicy,
                                            ends: seq<int>, n: nat, extra: seq<int>, i: int)
    requires |scores| == |atoms| - 1 && Increasing(ends, |atoms|) && n <= |ends|
    requires TargetCuts(atoms, scores, policy, ends, n, extra) && i in extra
    ensures OversizedCut(atoms, scores, policy, ends, i)
    decreases n
  {
    var lo, end := GroupStart(ends, n - 1), ends[n - 1];
    if Oversized(atoms[lo..end + 1], policy) {
      if i == extra[|extra| - 1] {
        WeakestOf(atoms, scores, policy, ends, n - 1, i);
      } else {
        ExtraIsOversized(atoms, scores, policy, ends, n - 1, extra[..|extra| - 1], i);
      }
    } else {
      ExtraIsOversized(atoms, scores, policy, ends, n - 1, extra, i);
    }
  }

  lemma {:induction false} EligibleCuts(atoms: seq<AnalysisAtom>, scores: seq<AdjacentBoundaryScore>, policy: SegmentPolicy,
                                        cuts: seq<int>, i: nat)
    requires atoms != [] && |scores| == |atoms| - 1 && SemanticCuts(atoms, scores, policy, cuts) && i < |scores|
    ensures policy.minAtoms <= 1 && Eligible(atoms, scores, policy, i) ==> i in cuts
    ensures i in cuts && !Eligible(atoms, scores, policy, i)
            ==> OversizedCut(atoms, scores, policy, GreedyEnds(atoms, scores, policy), i)
  {
    var chosen := Greedy(atoms, scores, policy, |scores|);
    var ends := chosen + [|atoms| - 1];
    var extra :| TargetCuts(atoms, scores, policy, ends, |chosen| + 1, extra) && cuts == Union(chosen, extra);
    UnionHas(chosen, extra, i);
    if policy.minAtoms <= 1 && Eligible(atoms, scores, policy, i) {
      GreedyTakesAll(atoms, scores, policy, |scores|, i);
    }
    if i in cuts && !Eligible(atoms, scores, policy, i) {
      GreedySpaced(atoms, scores, policy, |scores|);
      assert i !in chosen;
      ExtraIsOversized(atoms, scores, policy, ends, |chosen| + 1, extra, i);
    }
  }

  // Taking the boundary would leave fewer than min_atoms atoms behind it, or between it and the cut before it.
  ghost predicate Crowded(atoms: seq<AnalysisAtom>, scores: seq<AdjacentBoundaryScore>, policy: SegmentPolicy, i: int) {
    |scores| == |atoms| - 1 && (|atoms| - 1 - i < policy.minAtoms || exists c :: CloseCut(atoms, scores, policy, c, i))
  }

  // c is the start of the document or a boundary of the greedy pass, fewer than min_atoms atoms before i.
  ghost predicate CloseCut(atoms: seq<AnalysisAtom>, scores: seq<AdjacentBoundaryScore>, policy: SegmentPolicy, c: int, i: int)
    requires |scores| == |atoms| - 1
  {
    (c == -1 || c in Greedy(atoms, scores, policy, |scores|)) && c < i && i - c < policy.minAtoms
  }

  lemma {:induction false} GreedyKeeps(atoms: seq<AnalysisAtom>, scores: seq<AdjacentBoundaryScore>, policy: SegmentPolicy, m: nat, n: nat, c: int)
    requires m <= n <= |scores| == |atoms| - 1 && c in Greedy(atoms, scores, policy, m)
    ensures c in Greedy(atoms, scores, policy, n)
  {
    if m < n { GreedyKeeps(atoms, scores, policy, m, n - 1, c); }
  }

  // The greedy pass leaves out only what is crowded.
  lemma {:induction false} SkippedIsCrowded(atoms: seq<AnalysisAtom>, scores: seq<AdjacentBoundaryScore>, policy: SegmentPolicy, i: nat)
    requires i < |scores| == |atoms| - 1 && Eligible(atoms, scores, policy, i) && i !in Greedy(atoms, scores, policy, |scores|)
    ensures Crowded(atoms, scores, policy, i)
  {
    var before := Greedy(atoms, scores, policy, i);
    if RespectsMinAtoms(i, before, |atoms|, policy.minAtoms) {
      assert Greedy(atoms, scores, policy, i + 1) == before + [i];
      GreedyKeeps(atoms, scores, policy, i + 1, |scores|, i);
    } else if |atoms| - 1 - i >= policy.minAtoms {
      if before != [] { GreedyKeeps(atoms, scores, policy, i, |scores|, Last(before)); }
      assert CloseCut(atoms, scores, policy, Last(before), i);
    }
  }

  lemma {:induction false} EligibleOrCrowded(atoms: seq<AnalysisAtom>, scores: seq<AdjacentBoundaryScore>, policy: SegmentPolicy,
                                             cuts: seq<int>, i: nat)
    requires atoms != [] && |scores| == |atoms| - 1 && SemanticCuts(atoms, scores, policy, cuts) && i < |scores|
    requires Eligible(atoms, scores, policy, i)
    ensures i in cuts || Crowded(atoms, scores, policy, i)
  {
    var chosen := Greedy(atoms, scores, policy, |scores|);
    var extra :| TargetCuts(atoms, scores, policy, chosen + [|atoms| - 1], |chosen| + 1, extra) && cuts == Union(chosen, extra);
    UnionHas(chosen, extra, i);
    if i !in chosen { SkippedIsCrowded(atoms, scores, policy, i); }
  }

  // The outcome of the semantic path, with the boundaries it cut at.
  ghost predicate CutAt(inputId: string, atoms: seq<AnalysisAtom>, vectors: Vectors, cosine: (seq<Component>, seq<Component>) -> real,
                        policy: SegmentPolicy, outcome: BuildOutcome, cuts: seq<int>)
  {
    && atoms != [] && DistinctIds(atoms) && outcome.Segmented?
    && ScoresOf(atoms, vectors, cosine, policy.cosineBreakThreshold, outcome.scores)
    && SemanticCuts(atoms, outcome.scores, policy, cuts)
    && var groups := CutGroups(atoms, cuts, Semantic, policy.maxChars);
       AtomsIn(groups) == atoms && NonEmptyGroups(groups) && outcome.segments == SegmentsOf(inputId, groups)
  }

  lemma {:induction false} SemanticPathCuts(
    inputId: string, atoms: seq<AnalysisAtom>, vectors: Vectors, cosine: (seq<Component>, seq<Component>) -> real,
    policy: SegmentPolicy, outcome: BuildOutcome, groups: seq<Group>) returns (cuts: seq<int>)
    requires atoms != [] && DistinctIds(atoms)
    requires PathTaken(atoms, vectors, policy, cosine, outcome, groups) && outcome.Segmented?
    requires AtomsIn(groups) == atoms && NonEmptyGroups(groups) && outcome.segments == SegmentsOf(inputId, groups)
    requires ValidEmbeddings(atoms, vectors) && |vectors| >= |atoms| && AllComparable(atoms, vectors)
    ensures CutAt(inputId, atoms, vectors, cosine, policy, outcome, cuts)
  {
    cuts :| SemanticCuts(atoms, outcome.scores, policy, cuts) && groups == CutGroups(atoms, cuts, Semantic, policy.maxChars);
  }

  lemma {:induction false} GroupsNonEmpty(atoms: seq<AnalysisAtom>, cuts: seq<int>, kind: SegmentType)
    requires atoms != [] && AscendingTo(cuts, |atoms| - 1)
    ensures NonEmptyGroups(Typed(Groups(atoms, cuts), kind))
  {
    GroupsPartition(atoms, cuts);
  }

  lemma {:induction false} ResizedCutStarts(atoms: seq<AnalysisAtom>, cuts: seq<int>, maxChars: int, i: nat)
    requires atoms != [] && AscendingTo(cuts, |atoms| - 1) && i in cuts
    ensures Starts(SizesOf(CutGroups(atoms, cuts, Semantic, maxChars)), i + 1)
  {
    GroupsNonEmpty(atoms, cuts, Semantic);
    CutStarts(atoms, cuts, Semantic, i);
    ResizeKeepsStart(Typed(Groups(atoms, cuts), Semantic), maxChars, i + 1);
  }

  lemma {:induction false} ResizedStartIsCut(atoms: seq<AnalysisAtom>, cuts: seq<int>, maxChars: int, i: nat)
    requires atoms != [] && AscendingTo(cuts, |atoms| - 1) && Starts(SizesOf(CutGroups(atoms, cuts, Semantic, maxChars)), i + 1)
    ensures i in cuts || TooLongAround(Typed(Groups(atoms, cuts), Semantic), i + 1, maxChars)
  {
    var whole := Typed(Groups(atoms, cuts), Semantic);
    GroupsNonEmpty(atoms, cuts, Semantic);
    ResizeNewStart(whole, maxChars, i + 1);
    if Starts(SizesOf(whole), i + 1) { StartIsCut(atoms, cuts, Semantic, i); }
  }

  lemma {:induction false} ApartIsCut(inputId: string, atoms: seq<AnalysisAtom>, groups: seq<Group>, cuts: seq<int>, maxChars: int, i: nat)
    requires atoms != [] && DistinctIds(atoms) && AscendingTo(cuts, |atoms| - 1) && i + 1 < |atoms|
    requires groups == CutGroups(atoms, cuts, Semantic, maxChars) && AtomsIn(groups) == atoms && NonEmptyGroups(groups)
    requires !OneSegment(SegmentsOf(inputId, groups), atoms[i].id, atoms[i + 1].id)
    ensures i in cuts || TooLongAround(Typed(Groups(atoms, cuts), Semantic), i + 1, maxChars)
  {
    if !Starts(SizesOf(groups), i + 1) { NoStartIsTogether(inputId, atoms, groups, i); }
    ResizedStartIsCut(atoms, cuts, maxChars, i);
  }

  lemma {:induction false} CutIsApart(inputId: string, atoms: seq<AnalysisAtom>, groups: seq<Group>, cuts: seq<int>, maxChars: int, i: nat)
    requires atoms != [] && DistinctIds(atoms) && AscendingTo(cuts, |atoms| - 1) && i + 1 < |atoms|
    requires groups == CutGroups(atoms, cuts, Semantic, maxChars) && AtomsIn(groups) == atoms && NonEmptyGroups(groups)
    requires i in cuts
    ensures !OneSegment(SegmentsOf(inputId, groups), atoms[i].id, atoms[i + 1].id)
  {
    ResizedCutStarts(atoms, cuts, maxChars, i);
    StartIsApart(inputId, atoms, groups, i);
  }

  // The boundaries that the similarity of two neighbours asks for.
  lemma {:induction false} CutBySimilarity(
    inputId: string, atoms: seq<AnalysisAtom>, vectors: Vectors, cosine: (seq<Component>, seq<Component>) -> real,
    policy: SegmentPolicy, outcome: BuildOutcome, cuts: seq<int>, i: nat)
    requires CutAt(inputId, atoms, vectors, cosine, policy, outcome, cuts) && i + 1 < |atoms|
    requires atoms[i].id in vectors && atoms[i + 1].id in vectors
    ensures var similar := cosine(vectors[atoms[i].id], vectors[atoms[i + 1].id]) >= policy.cosineBreakThreshold;
            var parted := policy.respectBlockBoundary && atoms[i].blockId != atoms[i + 1].blockId;
            && (policy.minAtoms <= 1 && (!similar || parted) ==> i in cuts)
            && (i in cuts && similar && !parted ==> OversizedCut(atoms, outcome.scores, policy, GreedyEnds(atoms, outcome.scores, policy), i))
  {
    assert ScoreOf(atoms, vectors, cosine, policy.cosineBreakThreshold, outcome.scores[i], i);
    EligibleCuts(atoms, outcome.scores, policy, cuts, i);
  }

  lemma {:induction false} CutAtGroups(
    inputId: string, atoms: seq<AnalysisAtom>, vectors: Vectors, cosine: (seq<Component>, seq<Component>) -> real,
    policy: SegmentPolicy, outcome: BuildOutcome, cuts: seq<int>) returns (groups: seq<Group>)
    requires CutAt(inputId, atoms, vectors, cosine, policy, outcome, cuts)
    ensures atoms != [] && DistinctIds(atoms) && AscendingTo(cuts, |atoms| - 1)
    ensures groups == CutGroups(atoms, cuts, Semantic, policy.maxChars) && AtomsIn(groups) == atoms && NonEmptyGroups(groups)
    ensures outcome.Segmented? && outcome.segments == SegmentsOf(inputId, groups)
  {
    groups := CutGroups(atoms, cuts, Semantic, policy.maxChars);
  }

  // On the semantic path, with min_atoms at most 1, two neighbours whose cosine is below the threshold, or that stand in two
  // blocks when blocks are respected, never share a segment.
  lemma {:induction false} DissimilarApart(
    inputId: string, atoms: seq<AnalysisAtom>, vectors: Vectors, cosine: (seq<Component>, seq<Component>) -> real,
    policy: SegmentPolicy, outcome: BuildOutcome, cuts: seq<int>, i: nat)
    requires CutAt(inputId, atoms, vectors, cosine, policy, outcome, cuts) && i + 1 < |atoms| && policy.minAtoms <= 1
    requires atoms[i].id in vectors && atoms[i + 1].id in vectors
    requires cosine(vectors[atoms[i].id], vectors[atoms[i + 1].id]) < policy.cosineBreakThreshold
             || (policy.respectBlockBoundary && atoms[i].blockId != atoms[i + 1].blockId)
    ensures !OneSegment(outcome.segments, atoms[i].id, atoms[i + 1].id)
  {
    CutBySimilarity(inputId, atoms, vectors, cosine, policy, outcome, cuts, i);
    var groups := CutAtGroups(inputId, atoms, vectors, cosine, policy, outcome, cuts);
    CutIsApart(inputId, atoms, groups, cuts, policy.maxChars, i);
  }

  // With any min_atoms they still do not, unless the boundary between them is crowded.
  lemma {:induction false} DissimilarApartUnlessCrowded(
    inputId: string, atoms: seq<AnalysisAtom>, vectors: Vectors, cosine: (seq<Component>, seq<Component>) -> real,
    policy: SegmentPolicy, outcome: BuildOutcome, cuts: seq<int>, i: nat)
    requires CutAt(inputId, atoms, vectors, cosine, policy, outcome, cuts) && i + 1 < |atoms|
    requires atoms[i].id in vectors && atoms[i + 1].id in vectors
    requires cosine(vectors[atoms[i].id], vectors[atoms[i + 1].id]) < policy.cosineBreakThreshold
             || (policy.respectBlockBoundary && atoms[i].blockId != atoms[i + 1].blockId)
    ensures !OneSegment(outcome.segments, atoms[i].id, atoms[i + 1].id) || Crowded(atoms, outcome.scores, policy, i)
  {
    EligibleBySimilarity(inputId, atoms, vectors, cosine, policy, outcome, cuts, i);
    EligibleOrCrowded(atoms, outcome.scores, policy, cuts, i);
    if i in cuts {
      var groups := CutAtGroups(inputId, atoms, vectors, cosine, policy, outcome, cuts);
      CutIsApart(inputId, atoms, groups, cuts, policy.maxChars, i);
    }
  }

  lemma {:induction false} EligibleBySimilarity(
    inputId: string, atoms: seq<AnalysisAtom>, vectors: Vectors, cosine: (seq<Component>, seq<Component>) -> real,
    policy: SegmentPolicy, outcome: BuildOutcome, cuts: seq<int>, i: nat)
    requires CutAt(inputId, atoms, vectors, cosine, policy, outcome, cuts) && i + 1 < |atoms|
    requires atoms[i].id in vectors && atoms[i + 1].id in vectors
    requires cosine(vectors[atoms[i].id], vectors[atoms[i + 1].id]) < policy.cosineBreakThreshold
             || (policy.respectBlockBoundary && atoms[i].blockId != atoms[i + 1].blockId)
    ensures |outcome.scores| == |atoms| - 1 && Eligible(atoms, outcome.scores, policy, i)
  {
    assert ScoreOf(atoms, vectors, cosine, policy.cosineBreakThreshold, outcome.scores[i], i);
  }

  // On the semantic path, two neighbours whose cosine is not below the threshold, and that no block boundary parts, share a
  // segment unless they are the weakest inner boundary of a group over target_chars, or stand in a group over max_chars.
  lemma {:induction false} SimilarTogether(
    inputId: string, atoms: seq<AnalysisAtom>, vectors: Vectors, cosine: (seq<Component>, seq<Component>) -> real,
    policy: SegmentPolicy, outcome: BuildOutcome, cuts: seq<int>, i: nat)
    requires CutAt(inputId, atoms, vectors, cosine, policy, outcome, cuts) && i + 1 < |atoms|
    requires atoms[i].id in vectors && atoms[i + 1].id in vectors
    requires cosine(vectors[atoms[i].id], vectors[atoms[i + 1].id]) >= policy.cosineBreakThreshold
    requires policy.respectBlockBoundary ==> atoms[i].blockId == atoms[i + 1].blockId
    ensures OneSegment(outcome.segments, atoms[i].id, atoms[i + 1].id)
            || OversizedCut(atoms, outcome.scores, policy, GreedyEnds(atoms, outcome.scores, policy), i)
            || TooLongAround(Typed(Groups(atoms, cuts), Semantic), i + 1, policy.maxChars)
  {
    CutBySimilarity(inputId, atoms, vectors, cosine, policy, outcome, cuts, i);
    var groups := CutAtGroups(inputId, atoms, vectors, cosine, policy, outcome, cuts);
    if !OneSegment(outcome.segments, atoms[i].id, atoms[i + 1].id) {
      ApartIsCut(inputId, atoms, groups, cuts, policy.maxChars, i);
    }
  }

  // On the semantic path each group of the greedy pass that is too large is parted at its weakest inner boundary.
  lemma {:induction false} OversizedParted(
    inputId: string, atoms: seq<AnalysisAtom>, vectors: Vectors, cosine: (seq<Component>, seq<Component>) -> real,
    policy: SegmentPolicy, outcome: BuildOutcome, cuts: seq<int>, e: nat) returns (i: nat)
    requires CutAt(inputId, atoms, vectors, cosine, policy, outcome, cuts)
    requires var ends := GreedyEnds(atoms, outcome.scores, policy);
             e < |ends| && Increasing(ends, |atoms|) && TooLarge(atoms, policy, ends, e)
    ensures i + 1 < |atoms| && WeakestOfOversized(atoms, outcome.scores, policy, GreedyEnds(atoms, outcome.scores, policy), e, i)
    ensures !OneSegment(outcome.segments, atoms[i].id, atoms[i + 1].id)
  {
    i := OversizedIsCut(atoms, outcome.scores, policy, cuts, e);
    var groups := CutAtGroups(inputId, atoms, vectors, cosine, policy, outcome, cuts);
    CutIsApart(inputId, atoms, groups, cuts, policy.maxChars, i);
  }

  // ---------------------------------------------------------------- sizes and kinds of segments

  // No segment is longer than max_chars, except for one that is a single atom.
  lemma {:induction false} SegmentLimits(inputId: string, groups: seq<Group>, maxChars: int, k: nat)
    requires NonEmptyGroups(groups) && AcceptableGroups(groups, maxChars) && k < |groups|
    ensures var segment := SegmentsOf(inputId, groups)[k]; |segment.text| <= maxChars || |segment.atomIds| == 1
  {
    assert Acceptable(groups[k].atoms, maxChars);
  }

  // A group between two cuts stays whole, with the kind of its path or as a single atom, exactly when it fits; each part of one
  // that does not is a size fallback.
  ghost predicate PartOfGroup(part: Group, whole: seq<AnalysisAtom>, kind: SegmentType, maxChars: int) {
    if |Texts(whole)| <= maxChars then part == Group(whole, if |whole| == 1 then SingleAtom else kind)
    else part.kind == SizeFallback && exists a, b :: 0 <= a < b <= |whole| && part.atoms == whole[a..b]
  }

  lemma {:induction false} PartSlice(parts: seq<Group>, g: nat) returns (a: nat, b: nat)
    requires g < |parts|
    ensures a <= b <= |AtomsIn(parts)| && parts[g].atoms == AtomsIn(parts)[a..b]
  {
    var n := |parts| - 1;
    var before := AtomsIn(parts[..n]);
    if g < n {
      a, b := PartSlice(parts[..n], g);
      assert AtomsIn(parts)[a..b] == before[a..b];
    } else {
      a, b := |before|, |AtomsIn(parts)|;
    }
  }

  lemma {:induction false} ResizedPart(group: Group, kind: SegmentType, maxChars: int, g: nat)
    requires group.atoms != [] && group.kind == KindFor(group.atoms, kind) && g < |ResizeOne(group, maxChars)|
    ensures PartOfGroup(ResizeOne(group, maxChars)[g], group.atoms, kind, maxChars)
  {
    if Chars(group.atoms) > maxChars {
      var parts := ResizeOne(group, maxChars);
      ResizeOneKeeps(group, maxChars);
      var a, b := PartSlice(parts, g);
      assert parts[g].atoms != [];
    }
  }

  lemma {:induction false} ResizedFrom(groups: seq<Group>, maxChars: int, g: nat) returns (w: nat, p: nat)
    requires g < |Resize(groups, maxChars)|
    ensures w < |groups| && p < |ResizeOne(groups[w], maxChars)| && Resize(groups, maxChars)[g] == ResizeOne(groups[w], maxChars)[p]
  {
    var n := |groups| - 1;
    var before := Resize(groups[..n], maxChars);
    if g < |before| { w, p := ResizedFrom(groups[..n], maxChars, g); } else { w, p := n, g - |before|; }
  }

  // Every segment comes from a group between two cuts.
  lemma {:induction false} SegmentKinds(atoms: seq<AnalysisAtom>, cuts: seq<int>, kind: SegmentType, maxChars: int, g: nat) returns (w: nat)
    requires atoms != [] && AscendingTo(cuts, |atoms| - 1) && g < |CutGroups(atoms, cuts, kind, maxChars)|
    ensures w < |Groups(atoms, cuts)| && PartOfGroup(CutGroups(atoms, cuts, kind, maxChars)[g], Groups(atoms, cuts)[w], kind, maxChars)
  {
    var whole := Typed(Groups(atoms, cuts), kind);
    GroupsNonEmpty(atoms, cuts, kind);
    var p;
    w, p := ResizedFrom(whole, maxChars, g);
    ResizedPart(whole[w], kind, maxChars, p);
  }
}
