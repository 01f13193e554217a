// Choosing where segments begin: min-atoms boundaries and target-size boundaries
// (apps/api/app/segmenter/builder.py:100-186).
module Boundaries {
  import opened Options
  import opened Spans
  import opened Atoms

  datatype SegmentPolicy = SegmentPolicy(
    minAtoms: int, targetChars: int, maxChars: int, cosineBreakThreshold: real, respectBlockBoundary: bool)

  datatype AdjacentBoundaryScore = AdjacentBoundaryScore(left: AtomId, right: AtomId, cosine: real, selected: bool)

  // ---------------------------------------------------------------- boundary indexes

  // A set of boundary indexes is kept as its ascending list; the last one is the largest, -1 stands for none.
  function Last(cuts: seq<int>): int {
    if cuts == [] then -1 else cuts[|cuts| - 1]
  }

  function Add(cuts: seq<int>, index: int): seq<int> {
    if Last(cuts) == index then cuts else cuts + [index]
  }

  ghost predicate AscendingTo(cuts: seq<int>, hi: int) {
    cuts == [] || (0 <= Last(cuts) < hi && AscendingTo(cuts[..|cuts| - 1], Last(cuts)))
  }

  lemma {:induction false} AscendingBounds(cuts: seq<int>, hi: int)
    requires AscendingTo(cuts, hi)
    ensures forall i :: 0 <= i < |cuts| ==> 0 <= cuts[i] < hi
    ensures forall i, j :: 0 <= i < j < |cuts| ==> cuts[i] < cuts[j]
    decreases |cuts|
  {
    if cuts != [] {
      AscendingBounds(cuts[..|cuts| - 1], Last(cuts));
    }
  }

  // Union of two boundary sets.
  function Union(left: seq<int>, right: seq<int>): seq<int>
    decreases |left| + |right|
  {
    if left == [] then right
    else if right == [] then left
    else if Last(left) < Last(right) then Union(left, right[..|right| - 1]) + [Last(right)]
    else if Last(right) < Last(left) then Union(left[..|left| - 1], right) + [Last(left)]
    else Union(left[..|left| - 1], right[..|right| - 1]) + [Last(left)]
  }

  lemma {:induction false} AscendingPush(cuts: seq<int>, x: int, hi: int)
    requires AscendingTo(cuts, x) && 0 <= x < hi
    ensures AscendingTo(cuts + [x], hi)
  {
    assert (cuts + [x])[..|cuts|] == cuts;
  }

  lemma {:induction false} UnionAscends(left: seq<int>, right: seq<int>, hi: int)
    requires AscendingTo(left, hi) && AscendingTo(right, hi)
    ensures AscendingTo(Union(left, right), hi)
    decreases |left| + |right|
  {
    if left != [] && right != [] {
      var l, r := left[..|left| - 1], right[..|right| - 1];
      if Last(left) < Last(right) {
        UnionAscends(left, r, Last(right));
        AscendingPush(Union(left, r), Last(right), hi);
      } else if Last(right) < Last(left) {
        UnionAscends(l, right, Last(left));
        AscendingPush(Union(l, right), Last(left), hi);
      } else {
        UnionAscends(l, r, Last(left));
        AscendingPush(Union(l, r), Last(left), hi);
      }
    }
  }

  lemma {:induction false} UnionHas(left: seq<int>, right: seq<int>, x: int)
    ensures x in Union(left, right) <==> x in left || x in right
    decreases |left| + |right|
  {
    if left != [] && right != [] {
      var l, r := left[..|left| - 1], right[..|right| - 1];
      assert left == l + [Last(left)] && right == r + [Last(right)];
      assert (x in left <==> x in l || x == Last(left)) && (x in right <==> x in r || x == Last(right));
      if Last(left) < Last(right) {
        UnionHas(left, r, x);
      } else if Last(right) < Last(left) {
        UnionHas(l, right, x);
      } else {
        UnionHas(l, r, x);
      }
    }
  }

  lemma {:induction false} UnionOfAscending(left: seq<int>, right: seq<int>, hi: int)
    requires AscendingTo(left, hi) && AscendingTo(right, hi)
    ensures AscendingTo(Union(left, right), hi)
    ensures forall x :: x in Union(left, right) <==> x in left || x in right
  {
    UnionAscends(left, right, hi);
    forall x ensures x in Union(left, right) <==> x in left || x in right {
      UnionHas(left, right, x);
    }
  }

  // ---------------------------------------------------------------- boundaries that respect min_atoms

  predicate BlockChange(atoms: seq<AnalysisAtom>, index: int)
    requires 0 <= index < |atoms| - 1
  {
    atoms[index].blockId != atoms[index + 1].blockId
  }

  predicate Eligible(atoms: seq<AnalysisAtom>, scores: seq<AdjacentBoundaryScore>, policy: SegmentPolicy, index: int)
    requires 0 <= index < |scores| == |atoms| - 1
  {
    scores[index].selected || (policy.respectBlockBoundary && BlockChange(atoms, index))
  }

  predicate RespectsMinAtoms(index: int, boundaries: seq<int>, atomCount: int, minAtoms: int) {
    index - Last(boundaries) >= minAtoms && atomCount - index - 1 >= minAtoms
  }

  // The single left-to-right pass over the first i boundaries.
  function Greedy(atoms: seq<AnalysisAtom>, scores: seq<AdjacentBoundaryScore>, policy: SegmentPolicy, i: nat): (r: seq<int>)
    requires i <= |scores| == |atoms| - 1
    ensures Last(r) < i
  {
    if i == 0 then []
    else
      var before := Greedy(atoms, scores, policy, i - 1);
      if Eligible(atoms, scores, policy, i - 1) && RespectsMinAtoms(i - 1, before, |atoms|, policy.minAtoms)
      then before + [i - 1] else before
  }

  method SelectedBoundaryIndexes(atoms: seq<AnalysisAtom>, scores: seq<AdjacentBoundaryScore>, policy: SegmentPolicy)
    returns (boundaries: seq<int>)
    requires |scores| == |atoms| - 1
    ensures boundaries == Greedy(atoms, scores, policy, |scores|)
  {
    boundaries := [];
    for index := 0 to |scores|
      invariant boundaries == Greedy(atoms, scores, policy, index)
    {
      if scores[index].selected && RespectsMinAtoms(index, boundaries, |atoms|, policy.minAtoms) {
        boundaries := Add(boundaries, index);
      }
      if policy.respectBlockBoundary && atoms[index].blockId != atoms[index + 1].blockId {
        if RespectsMinAtoms(index, boundaries, |atoms|, policy.minAtoms) {
          boundaries := Add(boundaries, index);
        }
      }
    }
  }

  // Ascending cuts, each at least minAtoms after the one before it.
  ghost predicate Gaps(cuts: seq<int>, minAtoms: int) {
    cuts == [] ||
    var before := cuts[..|cuts| - 1];
    Last(before) < Last(cuts) && Last(cuts) - Last(before) >= minAtoms && Gaps(before, minAtoms)
  }

  // Cutting after these indexes leaves at least minAtoms atoms in every group.
  ghost predicate Spaced(cuts: seq<int>, atomCount: int, minAtoms: int) {
    Gaps(cuts, minAtoms) && (cuts != [] ==> Last(cuts) < atomCount - 1 && atomCount - Last(cuts) - 1 >= minAtoms)
  }

  ghost predicate AllEligible(atoms: seq<AnalysisAtom>, scores: seq<AdjacentBoundaryScore>, policy: SegmentPolicy, cuts: seq<int>)
    requires |scores| == |atoms| - 1
  {
    forall i :: 0 <= i < |cuts| ==> 0 <= cuts[i] < |scores| && Eligible(atoms, scores, policy, cuts[i])
  }

  lemma {:induction false} GreedySpaced(atoms: seq<AnalysisAtom>, scores: seq<AdjacentBoundaryScore>, policy: SegmentPolicy, i: nat)
    requires i <= |scores| == |atoms| - 1
    ensures Spaced(Greedy(atoms, scores, policy, i), |atoms|, policy.minAtoms)
    ensures AllEligible(atoms, scores, policy, Greedy(atoms, scores, policy, i))
    ensures AscendingTo(Greedy(atoms, scores, policy, i), i)
  {
    if i > 0 {
      GreedySpaced(atoms, scores, policy, i - 1);
      var before := Greedy(atoms, scores, policy, i - 1);
      if Eligible(atoms, scores, policy, i - 1) && RespectsMinAtoms(i - 1, before, |atoms|, policy.minAtoms) {
        SpacedPush(before, |atoms|, policy.minAtoms, i - 1);
        AscendingPush(before, i - 1, i);
        assert AllEligible(atoms, scores, policy, before + [i - 1]);
      } else {
        AscendingWeaken(before, i - 1, i);
      }
    }
  }

  lemma {:induction false} SpacedPush(cuts: seq<int>, atomCount: int, minAtoms: int, x: int)
    requires Gaps(cuts, minAtoms) && Last(cuts) < x < atomCount - 1
    requires RespectsMinAtoms(x, cuts, atomCount, minAtoms)
    ensures Spaced(cuts + [x], atomCount, minAtoms)
  {
    assert (cuts + [x])[..|cuts|] == cuts;
  }

  // A spaced choice of eligible boundaries below i.
  ghost predicate Choice(atoms: seq<AnalysisAtom>, scores: seq<AdjacentBoundaryScore>, policy: SegmentPolicy, i: nat, other: seq<int>)
    requires i <= |scores| == |atoms| - 1
  {
    Spaced(other, |atoms|, policy.minAtoms) && AllEligible(atoms, scores, policy, other) && Last(other) < i
  }

  lemma {:induction false} ChoiceFront(
    atoms: seq<AnalysisAtom>, scores: seq<AdjacentBoundaryScore>, policy: SegmentPolicy, i: nat, other: seq<int>)
    requires 0 < i <= |scores| == |atoms| - 1 && Choice(atoms, scores, policy, i, other) && other != [] && Last(other) == i - 1
    ensures Choice(atoms, scores, policy, i - 1, other[..|other| - 1])
    ensures i - 1 - Last(other[..|other| - 1]) >= policy.minAtoms && |atoms| - i >= policy.minAtoms
    ensures Eligible(atoms, scores, policy, i - 1)
  {
    assert other == other[..|other| - 1] + [i - 1];
    var before := other[..|other| - 1];
    if before != [] { assert Last(before) < i - 1; }
  }

  // Greedy stays ahead: among the first i boundaries no spaced choice has more cuts, and one with as many ends no earlier.
  lemma {:induction false} GreedyStaysAhead(
    atoms: seq<AnalysisAtom>, scores: seq<AdjacentBoundaryScore>, policy: SegmentPolicy, i: nat, other: seq<int>)
    requires i <= |scores| == |atoms| - 1 && Choice(atoms, scores, policy, i, other)
    ensures |other| <= |Greedy(atoms, scores, policy, i)|
    ensures |other| == |Greedy(atoms, scores, policy, i)| ==> Last(Greedy(atoms, scores, policy, i)) <= Last(other)
  {
    if i > 0 {
      if other != [] && Last(other) == i - 1 {
        ChoiceFront(atoms, scores, policy, i, other);
        GreedyStaysAhead(atoms, scores, policy, i - 1, other[..|other| - 1]);
      } else {
        GreedyStaysAhead(atoms, scores, policy, i - 1, other);
      }
    }
  }

  // The pass is optimal: no other choice among the eligible boundaries that keeps every group at minAtoms makes more groups.
  lemma {:induction false} GreedyOptimal(atoms: seq<AnalysisAtom>, scores: seq<AdjacentBoundaryScore>, policy: SegmentPolicy, other: seq<int>)
    requires |scores| == |atoms| - 1
    requires Spaced(other, |atoms|, policy.minAtoms) && AllEligible(atoms, scores, policy, other)
    ensures |other| <= |Greedy(atoms, scores, policy, |scores|)|
  {
    GreedyStaysAhead(atoms, scores, policy, |scores|, other);
  }

  // With min_atoms at most 1 every eligible boundary is chosen.
  lemma {:induction false} GreedyTakesAll(atoms: seq<AnalysisAtom>, scores: seq<AdjacentBoundaryScore>, policy: SegmentPolicy, i: nat, b: int)
    requires i <= |scores| == |atoms| - 1
    requires policy.minAtoms <= 1 && 0 <= b < i && Eligible(atoms, scores, policy, b)
    ensures b in Greedy(atoms, scores, policy, i)
  {
    if b < i - 1 {
      GreedyTakesAll(atoms, scores, policy, i - 1, b);
    }
  }

  // ---------------------------------------------------------------- groups

  // The groups that end at a cut.
  function Closed(atoms: seq<AnalysisAtom>, cuts: seq<int>): (groups: seq<seq<AnalysisAtom>>)
    requires AscendingTo(cuts, |atoms| - 1)
    ensures |groups| == |cuts|
    decreases |cuts|
  {
    if cuts == [] then []
    else
      var before := cuts[..|cuts| - 1];
      AscendingWeaken(before, Last(cuts), |atoms| - 1);
      Closed(atoms, before) + [atoms[Last(before) + 1..Last(cuts) + 1]]
  }

  lemma {:induction false} AscendingWeaken(cuts: seq<int>, lo: int, hi: int)
    requires AscendingTo(cuts, lo) && lo <= hi
    ensures AscendingTo(cuts, hi)
  {
  }

  // The atoms cut after each index in `cuts`.
  function Groups(atoms: seq<AnalysisAtom>, cuts: seq<int>): (groups: seq<seq<AnalysisAtom>>)
    requires atoms != [] && AscendingTo(cuts, |atoms| - 1)
    ensures |groups| == |cuts| + 1
  {
    Closed(atoms, cuts) + [atoms[Last(cuts) + 1..]]
  }

  lemma {:induction false} ClosedFlatten(atoms: seq<AnalysisAtom>, cuts: seq<int>)
    requires atoms != [] && AscendingTo(cuts, |atoms| - 1)
    ensures Flatten(Closed(atoms, cuts)) == atoms[..Last(cuts) + 1]
    decreases |cuts|
  {
    if cuts != [] {
      var before := cuts[..|cuts| - 1];
      AscendingWeaken(before, Last(cuts), |atoms| - 1);
      ClosedFlatten(atoms, before);
      var closed := Closed(atoms, before);
      assert (closed + [atoms[Last(before) + 1..Last(cuts) + 1]])[..|closed|] == closed;
    }
  }

  // The groups put end to end are the atoms, and none of them is empty.
  lemma {:induction false} GroupsPartition(atoms: seq<AnalysisAtom>, cuts: seq<int>)
    requires atoms != [] && AscendingTo(cuts, |atoms| - 1)
    ensures Flatten(Groups(atoms, cuts)) == atoms
    ensures forall g :: 0 <= g < |Groups(atoms, cuts)| ==> Groups(atoms, cuts)[g] != []
  {
    ClosedFlatten(atoms, cuts);
    var closed := Closed(atoms, cuts);
    assert (closed + [atoms[Last(cuts) + 1..]])[..|closed|] == closed;
    ClosedNonEmpty(atoms, cuts);
  }

  lemma {:induction false} ClosedNonEmpty(atoms: seq<AnalysisAtom>, cuts: seq<int>)
    requires AscendingTo(cuts, |atoms| - 1)
    ensures forall g :: 0 <= g < |Closed(atoms, cuts)| ==> Closed(atoms, cuts)[g] != []
    decreases |cuts|
  {
    if cuts != [] {
      AscendingWeaken(cuts[..|cuts| - 1], Last(cuts), |atoms| - 1);
      ClosedNonEmpty(atoms, cuts[..|cuts| - 1]);
    }
  }

  lemma {:induction false} ClosedSizes(atoms: seq<AnalysisAtom>, cuts: seq<int>, minAtoms: int)
    requires AscendingTo(cuts, |atoms| - 1) && Gaps(cuts, minAtoms)
    ensures forall g :: 0 <= g < |Closed(atoms, cuts)| ==> |Closed(atoms, cuts)[g]| >= minAtoms
    decreases |cuts|
  {
    if cuts != [] {
      AscendingWeaken(cuts[..|cuts| - 1], Last(cuts), |atoms| - 1);
      ClosedSizes(atoms, cuts[..|cuts| - 1], minAtoms);
    }
  }

  // Whenever the pass selects a boundary, every group it makes has at least minAtoms atoms.
  lemma {:induction false} GreedyGroupSizes(atoms: seq<AnalysisAtom>, scores: seq<AdjacentBoundaryScore>, policy: SegmentPolicy)
    requires |scores| == |atoms| - 1
    requires Greedy(atoms, scores, policy, |scores|) != []
    ensures var cuts := Greedy(atoms, scores, policy, |scores|);
            && AscendingTo(cuts, |atoms| - 1)
            && forall g :: 0 <= g < |Groups(atoms, cuts)| ==> |Groups(atoms, cuts)[g]| >= policy.minAtoms
  {
    GreedySpaced(atoms, scores, policy, |scores|);
    ClosedSizes(atoms, Greedy(atoms, scores, policy, |scores|), policy.minAtoms);
  }

  ghost predicate OneBlock(group: seq<AnalysisAtom>) {
    forall i, j :: 0 <= i < |group| && 0 <= j < |group| ==> group[i].blockId == group[j].blockId
  }

  lemma {:induction false} NoChangeOneBlock(atoms: seq<AnalysisAtom>, lo: nat, hi: nat)
    requires lo < hi <= |atoms|
    requires forall i :: lo <= i < hi - 1 ==> !BlockChange(atoms, i)
    ensures forall i :: lo <= i < hi ==> atoms[i].blockId == atoms[lo].blockId
    decreases hi
  {
    if lo + 1 < hi {
      NoChangeOneBlock(atoms, lo, hi - 1);
      assert !BlockChange(atoms, hi - 2);
    }
  }

  lemma {:induction false} ClosedPure(atoms: seq<AnalysisAtom>, cuts: seq<int>)
    requires AscendingTo(cuts, |atoms| - 1)
    requires forall i :: 0 <= i < Last(cuts) && BlockChange(atoms, i) ==> i in cuts
    ensures forall g :: 0 <= g < |Closed(atoms, cuts)| ==> OneBlock(Closed(atoms, cuts)[g])
    decreases |cuts|
  {
    if cuts != [] {
      var before, last := cuts[..|cuts| - 1], Last(cuts);
      AscendingWeaken(before, last, |atoms| - 1);
      AscendingBounds(before, last);
      assert cuts == before + [last];
      forall i | Last(before) < i < last ensures !BlockChange(atoms, i) {
        assert i !in before;
      }
      ClosedPure(atoms, before);
      NoChangeOneBlock(atoms, Last(before) + 1, last + 1);
    }
  }

  // When every block change is a cut, no group mixes blocks.
  lemma {:induction false} GroupsPure(atoms: seq<AnalysisAtom>, cuts: seq<int>)
    requires atoms != [] && AscendingTo(cuts, |atoms| - 1)
    requires forall i :: 0 <= i < |atoms| - 1 && BlockChange(atoms, i) ==> i in cuts
    ensures forall g :: 0 <= g < |Groups(atoms, cuts)| ==> OneBlock(Groups(atoms, cuts)[g])
  {
    AscendingBounds(cuts, |atoms| - 1);
    ClosedPure(atoms, cuts);
    forall i | Last(cuts) < i < |atoms| - 1 ensures !BlockChange(atoms, i) {
      assert i !in cuts;
    }
    NoChangeOneBlock(atoms, Last(cuts) + 1, |atoms|);
  }

  // The loop of _segments_from_boundaries.
  method SplitAtBoundaries(atoms: seq<AnalysisAtom>, cuts: seq<int>) returns (groups: seq<seq<AnalysisAtom>>)
    requires atoms != [] && AscendingTo(cuts, |atoms| - 1)
    ensures groups == Groups(atoms, cuts)
  {
    groups := [];
    var start := 0;
    assert cuts[..|cuts|] == cuts;
    for c := 0 to |cuts|
      invariant AscendingTo(cuts[..c], |atoms| - 1)
      invariant start == Last(cuts[..c]) + 1
      invariant groups == Closed(atoms, cuts[..c])
    {
      AscendingPrefix(cuts, |atoms| - 1, c + 1);
      assert cuts[..c + 1][..c] == cuts[..c];
      groups := groups + [atoms[start..cuts[c] + 1]];
      start := cuts[c] + 1;
    }
    groups := groups + [atoms[start..]];
  }

  lemma {:induction false} AscendingPrefix(cuts: seq<int>, hi: int, c: nat)
    requires AscendingTo(cuts, hi) && c <= |cuts|
    ensures AscendingTo(cuts[..c], hi)
    decreases |cuts|
  {
    if c < |cuts| {
      AscendingPrefix(cuts[..|cuts| - 1], Last(cuts), c);
      assert cuts[..|cuts| - 1][..c] == cuts[..c];
      AscendingWeaken(cuts[..c], Last(cuts), hi);
    } else {
      assert cuts[..c] == cuts;
    }
  }

  // ---------------------------------------------------------------- extra boundaries for oversized groups

  function Chars(atoms: seq<AnalysisAtom>): (n: nat) {
    if atoms == [] then 0 else Chars(atoms[..|atoms| - 1]) + |atoms[|atoms| - 1].text|
  }

  // The inner boundary lo <= at < hi with the lowest cosine, the leftmost of those.
  ghost predicate Weakest(scores: seq<AdjacentBoundaryScore>, lo: int, hi: int, at: int)
    requires 0 <= lo && hi <= |scores|
  {
    && lo <= at < hi
    && (forall j :: lo <= j < hi ==> scores[at].cosine <= scores[j].cosine)
    && (forall j :: lo <= j < at ==> scores[at].cosine < scores[j].cosine)
  }

  predicate Oversized(group: seq<AnalysisAtom>, policy: SegmentPolicy) {
    Chars(group) > policy.targetChars && |group| > policy.minAtoms && |group| >= 2
  }

  // Group ends: increasing positions below hi.
  predicate Increasing(ends: seq<int>, hi: int) {
    && (forall i :: 0 <= i < |ends| ==> 0 <= ends[i] < hi)
    && (forall i, j :: 0 <= i < j < |ends| ==> ends[i] < ends[j])
  }

  function GroupStart(ends: seq<int>, n: nat): int
    requires n <= |ends|
  {
    if n == 0 then 0 else ends[n - 1] + 1
  }

  // The extra cuts of the first n groups that end at `ends`: one at the weakest inner boundary of each oversized group, no
  // others.
  ghost predicate TargetCuts(atoms: seq<AnalysisAtom>, scores: seq<AdjacentBoundaryScore>, policy: SegmentPolicy,
                             ends: seq<int>, n: nat, extra: seq<int>)
    requires |scores| == |atoms| - 1 && Increasing(ends, |atoms|) && n <= |ends|
    decreases n
  {
    if n == 0 then extra == []
    else
      var lo, end := GroupStart(ends, n - 1), ends[n - 1];
      if Oversized(atoms[lo..end + 1], policy)
      then extra != [] && Weakest(scores, lo, end, extra[|extra| - 1])
           && TargetCuts(atoms, scores, policy, ends, n - 1, extra[..|extra| - 1])
      else TargetCuts(atoms, scores, policy, ends, n - 1, extra)
  }

  lemma {:induction false} TargetCutsPush(atoms: seq<AnalysisAtom>, scores: seq<AdjacentBoundaryScore>, policy: SegmentPolicy,
                                          ends: seq<int>, n: nat, extra: seq<int>, at: int)
    requires |scores| == |atoms| - 1 && Increasing(ends, |atoms|) && n < |ends|
    requires TargetCuts(atoms, scores, policy, ends, n, extra)
    requires Oversized(atoms[GroupStart(ends, n)..ends[n] + 1], policy) && Weakest(scores, GroupStart(ends, n), ends[n], at)
    ensures TargetCuts(atoms, scores, policy, ends, n + 1, extra + [at])
  {
    assert (extra + [at])[..|extra|] == extra;
  }

  lemma {:induction false} TargetCutsSkip(atoms: seq<AnalysisAtom>, scores: seq<AdjacentBoundaryScore>, policy: SegmentPolicy,
                                          ends: seq<int>, n: nat, extra: seq<int>)
    requires |scores| == |atoms| - 1 && Increasing(ends, |atoms|) && n < |ends|
    requires TargetCuts(atoms, scores, policy, ends, n, extra)
    requires !Oversized(atoms[GroupStart(ends, n)..ends[n] + 1], policy)
    ensures TargetCuts(atoms, scores, policy, ends, n + 1, extra)
  {
  }

  lemma {:induction false} TargetCutsAscending(atoms: seq<AnalysisAtom>, scores: seq<AdjacentBoundaryScore>,
                                               policy: SegmentPolicy, ends: seq<int>, n: nat, extra: seq<int>)
    requires |scores| == |atoms| - 1 && Increasing(ends, |atoms|) && n <= |ends|
    requires TargetCuts(atoms, scores, policy, ends, n, extra)
    ensures AscendingTo(extra, if n == 0 then 0 else ends[n - 1])
    decreases n
  {
    if n > 0 {
      var lo, end := GroupStart(ends, n - 1), ends[n - 1];
      if Oversized(atoms[lo..end + 1], policy) {
        TargetCutsAscending(atoms, scores, policy, ends, n - 1, extra[..|extra| - 1]);
        AscendingWeaken(extra[..|extra| - 1], if n == 1 then 0 else ends[n - 2], Last(extra));
      } else {
        TargetCutsAscending(atoms, scores, policy, ends, n - 1, extra);
        AscendingWeaken(extra, if n == 1 then 0 else ends[n - 2], end);
      }
    }
  }

  // An extra cut is never one of the ends.
  lemma {:induction false} TargetCutsAreNew(atoms: seq<AnalysisAtom>, scores: seq<AdjacentBoundaryScore>,
                                            policy: SegmentPolicy, ends: seq<int>, n: nat, extra: seq<int>, k: nat)
    requires |scores| == |atoms| - 1 && Increasing(ends, |atoms|) && n <= |ends|
    requires TargetCuts(atoms, scores, policy, ends, n, extra) && k < |extra|
    ensures forall i :: 0 <= i < |ends| ==> ends[i] != extra[k]
    decreases n
  {
    if n > 0 {
      var lo, end := GroupStart(ends, n - 1), ends[n - 1];
      if !Oversized(atoms[lo..end + 1], policy) {
        TargetCutsAreNew(atoms, scores, policy, ends, n - 1, extra, k);
      } else if k < |extra| - 1 {
        TargetCutsAreNew(atoms, scores, policy, ends, n - 1, extra[..|extra| - 1], k);
      } else {
        NewInside(ends, n, extra[k]);
      }
    }
  }

  lemma {:induction false} NewInside(ends: seq<int>, n: nat, x: int)
    requires (forall i, j :: 0 <= i < j < |ends| ==> ends[i] < ends[j]) && 0 < n <= |ends|
    requires GroupStart(ends, n - 1) <= x < ends[n - 1]
    ensures forall i :: 0 <= i < |ends| ==> ends[i] != x
  {
    forall i | 0 <= i < |ends| ensures ends[i] != x {
      if i < n - 1 { assert ends[i] <= ends[n - 2]; } else { assert ends[n - 1] <= ends[i]; }
    }
  }

  // min(candidates, key=(cosine, index)) over the inner boundaries that are not taken yet
  method WeakestCandidate(scores: seq<AdjacentBoundaryScore>, existing: seq<int>, lo: int, hi: int) returns (at: Option<int>)
    requires 0 <= lo <= hi <= |scores|
    requires forall b :: lo <= b < hi ==> b !in existing
    ensures at.None? <==> lo == hi
    ensures at.Some? ==> Weakest(scores, lo, hi, at.value)
  {
    at := None;
    for index := lo to hi
      invariant at.None? <==> index == lo
      invariant at.Some? ==> Weakest(scores, lo, index, at.value)
    {
      if index !in existing && (at.None? || scores[index].cosine < scores[at.value].cosine) {
        at := Some(index);
      }
    }
  }

  lemma {:induction false} EndsIncrease(cuts: seq<int>, hi: int)
    requires AscendingTo(cuts, hi) && hi >= 0
    ensures Increasing(cuts + [hi], hi + 1)
  {
    AscendingBounds(cuts, hi);
  }

  // The extra boundary of the group from start to end, if it is too large.
  method ExtraBoundary(atoms: seq<AnalysisAtom>, scores: seq<AdjacentBoundaryScore>, existing: seq<int>, policy: SegmentPolicy,
                       start: int, end: int) returns (at: Option<int>)
    requires |scores| == |atoms| - 1 && 0 <= start <= end < |atoms|
    requires forall b :: start <= b < end ==> b !in existing
    ensures at.Some? <==> Oversized(atoms[start..end + 1], policy)
    ensures at.Some? ==> Weakest(scores, start, end, at.value)
  {
    var group := atoms[start..end + 1];
    if Chars(group) > policy.targetChars && |group| > policy.minAtoms {
      at := WeakestCandidate(scores, existing, start, end);
    } else {
      at := None;
    }
  }

  method TargetSizeBoundaryIndexes(
    atoms: seq<AnalysisAtom>, scores: seq<AdjacentBoundaryScore>, existing: seq<int>, policy: SegmentPolicy)
    returns (extra: seq<int>)
    requires atoms != [] && |scores| == |atoms| - 1 && AscendingTo(existing, |scores|)
    ensures Increasing(existing + [|atoms| - 1], |atoms|)
    ensures TargetCuts(atoms, scores, policy, existing + [|atoms| - 1], |existing| + 1, extra)
  {
    extra := [];
    var ends := existing + [|atoms| - 1];
    EndsIncrease(existing, |atoms| - 1);
    var start := 0;
    for e := 0 to |ends|
      invariant start == GroupStart(ends, e)
      invariant TargetCuts(atoms, scores, policy, ends, e, extra)
    {
      var end := ends[e];
      InnerIndexesFree(existing, ends, e, start, end);
      var at := ExtraBoundary(atoms, scores, existing, policy, start, end);
      if at.Some? {
        TargetCutsPush(atoms, scores, policy, ends, e, extra, at.value);
        extra := extra + [at.value];
      } else {
        TargetCutsSkip(atoms, scores, policy, ends, e, extra);
      }
      start := end + 1;
    }
  }

  // Strictly between two ends there is no taken boundary.
  lemma {:induction false} InnerIndexesFree(existing: seq<int>, ends: seq<int>, e: nat, start: int, end: int)
    requires |ends| == |existing| + 1 && ends[..|existing|] == existing && e < |ends|
    requires forall i, j :: 0 <= i < j < |ends| ==> ends[i] < ends[j]
    requires start == GroupStart(ends, e) && end == ends[e]
    ensures forall b :: start <= b < end ==> b !in existing
  {
    forall i | 0 <= i < |existing| ensures existing[i] < start || end <= existing[i] {
      assert existing[i] == ends[i];
      if i < e { assert ends[i] <= ends[e - 1]; } else { assert ends[e] <= ends[i]; }
    }
  }

  // ---------------------------------------------------------------- when the extra cuts keep min_atoms

  ghost predicate AtLeast(groups: seq<seq<AnalysisAtom>>, n: int) {
    forall g :: 0 <= g < |groups| ==> |groups[g]| >= n
  }

  // The weakest inner boundary of the group that ends at ends[e] leaves minAtoms on both sides, if that group is oversized.
  ghost predicate RoomToCut(atoms: seq<AnalysisAtom>, scores: seq<AdjacentBoundaryScore>, policy: SegmentPolicy,
                            ends: seq<int>, e: nat)
    requires |scores| == |atoms| - 1 && Increasing(ends, |atoms|) && e < |ends|
  {
    var lo, end := GroupStart(ends, e), ends[e];
    Oversized(atoms[lo..end + 1], policy) ==>
      forall w :: Weakest(scores, lo, end, w) ==> w - lo + 1 >= policy.minAtoms && end - w >= policy.minAtoms
  }

  ghost predicate RoomToCutUpTo(atoms: seq<AnalysisAtom>, scores: seq<AdjacentBoundaryScore>, policy: SegmentPolicy,
                                ends: seq<int>, n: nat)
    requires |scores| == |atoms| - 1 && Increasing(ends, |atoms|) && n <= |ends|
  {
    forall e :: 0 <= e < n ==> RoomToCut(atoms, scores, policy, ends, e)
  }

  lemma {:induction false} AtLeastPush(groups: seq<seq<AnalysisAtom>>, last: seq<AnalysisAtom>, n: int)
    ensures AtLeast(groups + [last], n) <==> AtLeast(groups, n) && |last| >= n
  {
    var all := groups + [last];
    assert all[|groups|] == last && forall g :: 0 <= g < |groups| ==> all[g] == groups[g];
    if AtLeast(all, n) {
      forall g | 0 <= g < |groups| ensures |groups[g]| >= n { assert |all[g]| >= n; }
    }
  }

  lemma {:induction false} ClosedSizesExactly(atoms: seq<AnalysisAtom>, cuts: seq<int>, n: int)
    requires AscendingTo(cuts, |atoms| - 1)
    ensures AtLeast(Closed(atoms, cuts), n) <==> Gaps(cuts, n)
    decreases |cuts|
  {
    if cuts != [] {
      var before := cuts[..|cuts| - 1];
      AscendingWeaken(before, Last(cuts), |atoms| - 1);
      ClosedSizesExactly(atoms, before, n);
      AtLeastPush(Closed(atoms, before), atoms[Last(before) + 1..Last(cuts) + 1], n);
    }
  }

  lemma {:induction false} GroupSizesExactly(atoms: seq<AnalysisAtom>, cuts: seq<int>, n: int)
    requires atoms != [] && AscendingTo(cuts, |atoms| - 1)
    ensures AtLeast(Groups(atoms, cuts), n) <==> Gaps(cuts + [|atoms| - 1], n)
  {
    var end := |atoms| - 1;
    var last := atoms[Last(cuts) + 1..];
    GapsPush(cuts, end, n);
    ClosedSizesExactly(atoms, cuts, n);
    AtLeastPush(Closed(atoms, cuts), last, n);
    assert |last| == end - Last(cuts) > 0;
  }

  lemma {:induction false} UnionAbove(left: seq<int>, right: seq<int>, x: int)
    requires Last(right) < x && 0 <= x
    ensures Union(left + [x], right) == Union(left, right) + [x]
  {
    assert (left + [x])[..|left|] == left;
  }

  // With the extra cut of its last group, if any, the first n groups end where they did before.
  lemma {:induction false} RefinedEnds(atoms: seq<AnalysisAtom>, scores: seq<AdjacentBoundaryScore>, policy: SegmentPolicy,
                                       ends: seq<int>, n: nat, extra: seq<int>)
    requires |scores| == |atoms| - 1 && Increasing(ends, |atoms|) && 0 < n <= |ends|
    requires TargetCuts(atoms, scores, policy, ends, n, extra)
    ensures var lo, end := GroupStart(ends, n - 1), ends[n - 1];
            Union(ends[..n], extra) ==
              if Oversized(atoms[lo..end + 1], policy)
              then Union(ends[..n - 1], extra[..|extra| - 1]) + [Last(extra)] + [end]
              else Union(ends[..n - 1], extra) + [end]
  {
    var lo, end := GroupStart(ends, n - 1), ends[n - 1];
    TargetCutsAscending(atoms, scores, policy, ends, n, extra);
    assert ends[..n] == ends[..n - 1] + [end];
    UnionAbove(ends[..n - 1], extra, end);
    if Oversized(atoms[lo..end + 1], policy) {
      assert Last(ends[..n - 1]) == lo - 1 < Last(extra);
      if n == 1 { assert extra == extra[..|extra| - 1] + [Last(extra)]; }
    }
  }

  lemma {:induction false} WeakestIsOne(scores: seq<AdjacentBoundaryScore>, lo: int, hi: int, v: int, w: int)
    requires 0 <= lo && hi <= |scores| && Weakest(scores, lo, hi, v) && Weakest(scores, lo, hi, w)
    ensures v == w
  {
    assert scores[v].cosine <= scores[w].cosine <= scores[v].cosine;
  }

  lemma {:induction false} GapsPush(cuts: seq<int>, x: int, n: int)
    ensures Gaps(cuts + [x], n) <==> Last(cuts) < x && x - Last(cuts) >= n && Gaps(cuts, n)
  {
    assert (cuts + [x])[..|cuts|] == cuts;
  }

  // Refining the first n groups leaves their last end, and keeps min_atoms exactly when there is room for the extra cuts.
  ghost predicate RefinesWell(atoms: seq<AnalysisAtom>, scores: seq<AdjacentBoundaryScore>, policy: SegmentPolicy,
                              ends: seq<int>, n: nat, extra: seq<int>)
    requires |scores| == |atoms| - 1 && Increasing(ends, |atoms|) && n <= |ends|
  {
    && Last(Union(ends[..n], extra)) == Last(ends[..n])
    && (Gaps(Union(ends[..n], extra), policy.minAtoms)
        <==> Gaps(ends[..n], policy.minAtoms) && RoomToCutUpTo(atoms, scores, policy, ends, n))
  }

  lemma {:induction false} RefinedGaps(atoms: seq<AnalysisAtom>, scores: seq<AdjacentBoundaryScore>, policy: SegmentPolicy,
                                       ends: seq<int>, n: nat, extra: seq<int>)
    requires |scores| == |atoms| - 1 && Increasing(ends, |atoms|) && n <= |ends|
    requires TargetCuts(atoms, scores, policy, ends, n, extra)
    ensures RefinesWell(atoms, scores, policy, ends, n, extra)
    decreases n
  {
    if n > 0 {
      if Oversized(atoms[GroupStart(ends, n - 1)..ends[n - 1] + 1], policy) {
        RefinedGaps(atoms, scores, policy, ends, n - 1, extra[..|extra| - 1]);
        RefinedEnds(atoms, scores, policy, ends, n, extra);
        RefinedGapsCut(atoms, scores, policy, ends, n, extra, extra[..|extra| - 1], Last(extra));
      } else {
        RefinedGaps(atoms, scores, policy, ends, n - 1, extra);
        RefinedEnds(atoms, scores, policy, ends, n, extra);
        RefinedGapsUncut(atoms, scores, policy, ends, n, extra);
      }
    }
  }

  lemma {:induction false} RoomUpTo(atoms: seq<AnalysisAtom>, scores: seq<AdjacentBoundaryScore>, policy: SegmentPolicy,
                                    ends: seq<int>, n: nat)
    requires |scores| == |atoms| - 1 && Increasing(ends, |atoms|) && 0 < n <= |ends|
    ensures RoomToCutUpTo(atoms, scores, policy, ends, n)
            <==> RoomToCutUpTo(atoms, scores, policy, ends, n - 1) && RoomToCut(atoms, scores, policy, ends, n - 1)
  {
  }

  lemma {:induction false} EndsStep(ends: seq<int>, n: nat)
    requires 0 < n <= |ends|
    ensures ends[..n] == ends[..n - 1] + [ends[n - 1]] && Last(ends[..n]) == ends[n - 1]
    ensures Last(ends[..n - 1]) == GroupStart(ends, n - 1) - 1
  {
  }

  lemma {:induction false} RefinedGapsCut(atoms: seq<AnalysisAtom>, scores: seq<AdjacentBoundaryScore>, policy: SegmentPolicy,
                                          ends: seq<int>, n: nat, extra: seq<int>, rest: seq<int>, w: int)
    requires |scores| == |atoms| - 1 && Increasing(ends, |atoms|) && 0 < n <= |ends|
    requires Oversized(atoms[GroupStart(ends, n - 1)..ends[n - 1] + 1], policy)
    requires Weakest(scores, GroupStart(ends, n - 1), ends[n - 1], w)
    requires Union(ends[..n], extra) == Union(ends[..n - 1], rest) + [w] + [ends[n - 1]]
    requires RefinesWell(atoms, scores, policy, ends, n - 1, rest)
    ensures RefinesWell(atoms, scores, policy, ends, n, extra)
  {
    EndsStep(ends, n);
    RoomByWeakest(atoms, scores, policy, ends, n - 1, w);
    RoomUpTo(atoms, scores, policy, ends, n);
    GapsRefined(Union(ends[..n - 1], rest), ends[..n - 1], w, ends[n - 1], policy.minAtoms,
                RoomToCutUpTo(atoms, scores, policy, ends, n - 1));
  }

  lemma {:induction false} RefinedGapsUncut(atoms: seq<AnalysisAtom>, scores: seq<AdjacentBoundaryScore>, policy: SegmentPolicy,
                                            ends: seq<int>, n: nat, extra: seq<int>)
    requires |scores| == |atoms| - 1 && Increasing(ends, |atoms|) && 0 < n <= |ends|
    requires !Oversized(atoms[GroupStart(ends, n - 1)..ends[n - 1] + 1], policy)
    requires Union(ends[..n], extra) == Union(ends[..n - 1], extra) + [ends[n - 1]]
    requires RefinesWell(atoms, scores, policy, ends, n - 1, extra)
    ensures RefinesWell(atoms, scores, policy, ends, n, extra)
  {
    EndsStep(ends, n);
    RoomUpTo(atoms, scores, policy, ends, n);
    assert RoomToCut(atoms, scores, policy, ends, n - 1);
    GapsPush(Union(ends[..n - 1], extra), ends[n - 1], policy.minAtoms);
    GapsPush(ends[..n - 1], ends[n - 1], policy.minAtoms);
  }

  lemma {:induction false} GapsRefined(refined: seq<int>, ends: seq<int>, w: int, end: int, n: int, room: bool)
    requires Last(refined) == Last(ends) < w < end
    requires Gaps(refined, n) <==> Gaps(ends, n) && room
    ensures Gaps(refined + [w] + [end], n) <==> Gaps(ends + [end], n) && room && w - Last(ends) >= n && end - w >= n
  {
    GapsPush(refined, w, n);
    GapsPush(refined + [w], end, n);
    GapsPush(ends, end, n);
  }

  lemma {:induction false} RoomByWeakest(atoms: seq<AnalysisAtom>, scores: seq<AdjacentBoundaryScore>, policy: SegmentPolicy,
                                         ends: seq<int>, e: nat, w: int)
    requires |scores| == |atoms| - 1 && Increasing(ends, |atoms|) && e < |ends|
    requires Oversized(atoms[GroupStart(ends, e)..ends[e] + 1], policy) && Weakest(scores, GroupStart(ends, e), ends[e], w)
    ensures RoomToCut(atoms, scores, policy, ends, e)
            <==> w - GroupStart(ends, e) + 1 >= policy.minAtoms && ends[e] - w >= policy.minAtoms
  {
    forall v | Weakest(scores, GroupStart(ends, e), ends[e], v) ensures v == w {
      WeakestIsOne(scores, GroupStart(ends, e), ends[e], v, w);
    }
  }

  lemma {:induction false} ExtraGaps(atoms: seq<AnalysisAtom>, scores: seq<AdjacentBoundaryScore>, policy: SegmentPolicy,
                                     existing: seq<int>, extra: seq<int>, end: int)
    requires end == |scores| == |atoms| - 1 && AscendingTo(existing, end) && Increasing(existing + [end], |atoms|)
    requires TargetCuts(atoms, scores, policy, existing + [end], |existing| + 1, extra)
    ensures AscendingTo(Union(existing, extra), end)
    ensures Gaps(Union(existing, extra) + [end], policy.minAtoms)
            <==> Gaps(existing + [end], policy.minAtoms)
                 && RoomToCutUpTo(atoms, scores, policy, existing + [end], |existing| + 1)
  {
    var ends, n := existing + [end], |existing| + 1;
    TargetCutsAscending(atoms, scores, policy, ends, n, extra);
    assert ends[..n] == ends && ends[n - 1] == end;
    UnionAscends(existing, extra, end);
    UnionAbove(existing, extra, end);
    RefinedGaps(atoms, scores, policy, ends, n, extra);
  }

  // Every group keeps minAtoms after the extra cuts exactly when every group had as many before and the weakest inner
  // boundary of every oversized group leaves as many on both sides.
  lemma {:induction false} MinAtomsExactly(atoms: seq<AnalysisAtom>, scores: seq<AdjacentBoundaryScore>, policy: SegmentPolicy,
                                           existing: seq<int>, extra: seq<int>)
    requires atoms != [] && |scores| == |atoms| - 1 && AscendingTo(existing, |scores|)
    requires Increasing(existing + [|atoms| - 1], |atoms|)
    requires TargetCuts(atoms, scores, policy, existing + [|atoms| - 1], |existing| + 1, extra)
    ensures AscendingTo(Union(existing, extra), |scores|)
    ensures AtLeast(Groups(atoms, Union(existing, extra)), policy.minAtoms)
            <==> AtLeast(Groups(atoms, existing), policy.minAtoms)
                 && RoomToCutUpTo(atoms, scores, policy, existing + [|atoms| - 1], |existing| + 1)
  {
    ExtraGaps(atoms, scores, policy, existing, extra, |atoms| - 1);
    GroupSizesExactly(atoms, existing, policy.minAtoms);
    GroupSizesExactly(atoms, Union(existing, extra), policy.minAtoms);
  }

  // For the boundaries of the greedy pass: before the extra cuts only the uncut document can be too short.
  lemma {:induction false} GreedyMinAtomsExactly(atoms: seq<AnalysisAtom>, scores: seq<AdjacentBoundaryScore>, policy: SegmentPolicy,
                                                 extra: seq<int>)
    requires atoms != [] && |scores| == |atoms| - 1
    requires var chosen := Greedy(atoms, scores, policy, |scores|);
             Increasing(chosen + [|atoms| - 1], |atoms|)
             && TargetCuts(atoms, scores, policy, chosen + [|atoms| - 1], |chosen| + 1, extra)
    ensures var chosen := Greedy(atoms, scores, policy, |scores|);
            && AscendingTo(Union(chosen, extra), |atoms| - 1)
            && (AtLeast(Groups(atoms, Union(chosen, extra)), policy.minAtoms)
                <==> (chosen != [] || |atoms| >= policy.minAtoms)
                     && RoomToCutUpTo(atoms, scores, policy, chosen + [|atoms| - 1], |chosen| + 1))
  {
    var chosen := Greedy(atoms, scores, policy, |scores|);
    GreedySpaced(atoms, scores, policy, |scores|);
    MinAtomsExactly(atoms, scores, policy, chosen, extra);
    UncutTooShort(atoms, scores, policy);
  }

  lemma {:induction false} UncutTooShort(atoms: seq<AnalysisAtom>, scores: seq<AdjacentBoundaryScore>, policy: SegmentPolicy)
    requires atoms != [] && |scores| == |atoms| - 1
    ensures var chosen := Greedy(atoms, scores, policy, |scores|);
            && AscendingTo(chosen, |scores|)
            && (AtLeast(Groups(atoms, chosen), policy.minAtoms) <==> chosen != [] || |atoms| >= policy.minAtoms)
  {
    var chosen := Greedy(atoms, scores, policy, |scores|);
    GreedySpaced(atoms, scores, policy, |scores|);
    if chosen == [] {
      WholeGroup(atoms, policy.minAtoms);
    } else {
      GreedyGroupSizes(atoms, scores, policy);
    }
  }

  lemma {:induction false} WholeGroup(atoms: seq<AnalysisAtom>, n: int)
    requires atoms != []
    ensures AtLeast(Groups(atoms, []), n) <==> |atoms| >= n
  {
    assert Groups(atoms, []) == [atoms] && [atoms][0] == atoms;
  }

  function OneLetter(i: nat): AnalysisAtom {
    AnalysisAtom(AtomId("input", "block", i), "input", "block", "x", TextRange(2 * i, 2 * i + 1), Paragraph, i)
  }

  function OneLetterScore(i: nat, cosine: real): AdjacentBoundaryScore {
    AdjacentBoundaryScore(OneLetter(i).id, OneLetter(i + 1).id, cosine, cosine < 0.5)
  }

  function ThreeLetters(): seq<AnalysisAtom> {
    [OneLetter(0), OneLetter(1), OneLetter(2)]
  }

  function ThreeLettersScores(): seq<AdjacentBoundaryScore> {
    [OneLetterScore(0, 0.9), OneLetterScore(1, 0.95)]
  }

  lemma {:induction false} ThreeLettersOversized(policy: SegmentPolicy)
    requires policy.targetChars <= 1 && policy.minAtoms <= 2
    ensures ThreeLetters()[0..3] == ThreeLetters() && Oversized(ThreeLetters(), policy)
  {
    var atoms := ThreeLetters();
    assert atoms[..2][|atoms[..2]| - 1] == OneLetter(1);
    assert Chars(atoms[..2]) >= 1;
    assert atoms[|atoms| - 1] == OneLetter(2) && Chars(atoms) >= 2;
  }

  lemma {:induction false} ThreeLettersUncut(policy: SegmentPolicy)
    ensures Greedy(ThreeLetters(), ThreeLettersScores(), policy, 2) == []
  {
    var atoms, scores := ThreeLetters(), ThreeLettersScores();
    assert !Eligible(atoms, scores, policy, 0) && !Eligible(atoms, scores, policy, 1);
    assert Greedy(atoms, scores, policy, 0) == [] && Greedy(atoms, scores, policy, 1) == [];
  }

  // It does fail: of three short atoms of one block that the greedy pass leaves together, the first is cut off.
  lemma {:induction false} ExtraCutBreaksMinAtoms(extra: seq<int>)
    ensures var atoms, scores, policy := ThreeLetters(), ThreeLettersScores(), SegmentPolicy(2, 1, 100, 0.5, true);
            && Greedy(atoms, scores, policy, 2) == []
            && (TargetCuts(atoms, scores, policy, [2], 1, extra) <==> extra == [0])
            && AscendingTo([0], 2) && Union([], [0]) == [0]
            && |Groups(atoms, [0])[0]| == 1 < policy.minAtoms
  {
    var atoms, scores, policy := ThreeLetters(), ThreeLettersScores(), SegmentPolicy(2, 1, 100, 0.5, true);
    ThreeLettersUncut(policy);
    ThreeLettersOversized(policy);
    assert Weakest(scores, 0, 2, 0);
    assert [0][..0] == [];
    TargetCutsPush(atoms, scores, policy, [2], 0, [], 0);
    assert [] + [0] == [0];
    if TargetCuts(atoms, scores, policy, [2], 1, extra) {
      WeakestIsOne(scores, 0, 2, 0, Last(extra));
      assert extra == extra[..|extra| - 1] + [0] == [0];
    }
    assert Closed(atoms, [0]) == [atoms[0..1]];
  }
}
