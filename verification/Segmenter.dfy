// Grouping atoms into analysis segments (apps/api/app/segmenter/builder.py).
module Segmenter {
  import opened Options
  import opened Spans
  import opened Atoms
  import opened Boundaries
  import opened Packing
  import Sorting

  datatype SegmentType = Semantic | Structure | SizeFallback | SingleAtom

  // The segment hash is taken to be injective in what it digests.
  datatype SegmentId = SegmentId(inputId: string, first: AtomId, last: AtomId, ordinal: nat)

  datatype AnalysisSegment = AnalysisSegment(
    id: SegmentId, inputId: string, atomIds: seq<AtomId>, text: string, range: TextRange, segmentType: SegmentType, ordinal: nat)

  // A vector component is a number or one of the float values that are not finite.
  datatype Component = Finite(value: real) | NonFinite

  datatype AtomEmbedding = AtomEmbedding(atomId: AtomId, vector: seq<Component>)

  datatype SegmentFailure = InvalidEmbeddingVector | SimilarityCalculationFailed

  // MissingEmbedding stands for the KeyError of looking up an atom that has no embedding.
  datatype BuildOutcome =
    | Segmented(segments: seq<AnalysisSegment>, scores: seq<AdjacentBoundaryScore>, failure: Option<SegmentFailure>)
    | MissingEmbedding

  type Vectors = map<AtomId, seq<Component>>

  // ---------------------------------------------------------------- groups and the segments made of them

  datatype Group = Group(atoms: seq<AnalysisAtom>, kind: SegmentType)

  function Ids(atoms: seq<AnalysisAtom>): (ids: seq<AtomId>)
    ensures |ids| == |atoms| && forall i :: 0 <= i < |atoms| ==> ids[i] == atoms[i].id
  {
    if atoms == [] then [] else Ids(atoms[..|atoms| - 1]) + [atoms[|atoms| - 1].id]
  }

  function Texts(atoms: seq<AnalysisAtom>): (text: string)
    ensures |text| == Chars(atoms)
  {
    if atoms == [] then "" else Texts(atoms[..|atoms| - 1]) + atoms[|atoms| - 1].text
  }

  function MinStart(atoms: seq<AnalysisAtom>): (r: int)
    requires atoms != []
    ensures forall i :: 0 <= i < |atoms| ==> r <= atoms[i].range.start
    ensures exists i :: 0 <= i < |atoms| && r == atoms[i].range.start
  {
    var last := atoms[|atoms| - 1].range.start;
    if |atoms| == 1 then last
    else
      var r := MinStart(atoms[..|atoms| - 1]);
      if last < r then last else r
  }

  function MaxEnd(atoms: seq<AnalysisAtom>): (r: int)
    requires atoms != []
    ensures forall i :: 0 <= i < |atoms| ==> atoms[i].range.end <= r
    ensures exists i :: 0 <= i < |atoms| && r == atoms[i].range.end
  {
    var last := atoms[|atoms| - 1].range.end;
    if |atoms| == 1 then last
    else
      var r := MaxEnd(atoms[..|atoms| - 1]);
      if last > r then last else r
  }

  function BuildSegment(inputId: string, atoms: seq<AnalysisAtom>, ordinal: nat, kind: SegmentType): AnalysisSegment
    requires atoms != []
  {
    AnalysisSegment(
      SegmentId(inputId, atoms[0].id, atoms[|atoms| - 1].id, ordinal),
      inputId, Ids(atoms), Texts(atoms), TextRange(MinStart(atoms), MaxEnd(atoms)), kind, ordinal)
  }

  predicate NonEmptyGroups(groups: seq<Group>) {
    forall g :: 0 <= g < |groups| ==> groups[g].atoms != []
  }

  function SegmentsOf(inputId: string, groups: seq<Group>): (segments: seq<AnalysisSegment>)
    requires NonEmptyGroups(groups)
    ensures |segments| == |groups|
    ensures forall g :: 0 <= g < |groups| ==> segments[g] == BuildSegment(inputId, groups[g].atoms, g, groups[g].kind)
  {
    if groups == [] then []
    else
      var n := |groups| - 1;
      SegmentsOf(inputId, groups[..n]) + [BuildSegment(inputId, groups[n].atoms, n, groups[n].kind)]
  }

  function AtomsIn(groups: seq<Group>): seq<AnalysisAtom> {
    if groups == [] then [] else AtomsIn(groups[..|groups| - 1]) + groups[|groups| - 1].atoms
  }

  function KindFor(group: seq<AnalysisAtom>, kind: SegmentType): SegmentType {
    if |group| == 1 then SingleAtom else kind
  }

  function Typed(parts: seq<seq<AnalysisAtom>>, kind: SegmentType): (groups: seq<Group>)
    ensures |groups| == |parts|
    ensures forall g :: 0 <= g < |parts| ==> groups[g] == Group(parts[g], KindFor(parts[g], kind))
    ensures AtomsIn(groups) == Flatten(parts)
  {
    if parts == [] then []
    else
      var n := |parts| - 1;
      var init := Typed(parts[..n], kind);
      var r := init + [Group(parts[n], KindFor(parts[n], kind))];
      assert r[..n] == init;
      r
  }

  function Resized(parts: seq<seq<AnalysisAtom>>): (groups: seq<Group>)
    ensures |groups| == |parts|
    ensures forall g :: 0 <= g < |parts| ==> groups[g] == Group(parts[g], SizeFallback)
    ensures AtomsIn(groups) == Flatten(parts)
  {
    if parts == [] then []
    else
      var n := |parts| - 1;
      var init := Resized(parts[..n]);
      var r := init + [Group(parts[n], SizeFallback)];
      assert r[..n] == init;
      r
  }

  // What size enforcement makes of one group, and of all of them.
  function ResizeOne(group: Group, maxChars: int): seq<Group> {
    if Chars(group.atoms) <= maxChars then [group] else Resized(Packed(group.atoms, maxChars))
  }

  function Resize(groups: seq<Group>, maxChars: int): seq<Group> {
    if groups == [] then []
    else Resize(groups[..|groups| - 1], maxChars) + ResizeOne(groups[|groups| - 1], maxChars)
  }

  lemma {:induction false} AtomsInConcat(left: seq<Group>, right: seq<Group>)
    ensures AtomsIn(left + right) == AtomsIn(left) + AtomsIn(right)
    decreases |right|
  {
    if right == [] {
      assert left + right == left;
    } else {
      var n := |right| - 1;
      AtomsInConcat(left, right[..n]);
      var both := left + right;
      assert both[..|both| - 1] == left + right[..n] && both[|both| - 1] == right[n];
      assert AtomsIn(both) == AtomsIn(left + right[..n]) + right[n].atoms;
      assert AtomsIn(left) + (AtomsIn(right[..n]) + right[n].atoms) == (AtomsIn(left) + AtomsIn(right[..n])) + right[n].atoms;
    }
  }

  predicate AcceptableGroups(groups: seq<Group>, maxChars: int) {
    forall g :: 0 <= g < |groups| ==> Acceptable(groups[g].atoms, maxChars)
  }

  lemma {:induction false} ResizeOneKeeps(group: Group, maxChars: int)
    requires group.atoms != []
    ensures AtomsIn(ResizeOne(group, maxChars)) == group.atoms
    ensures NonEmptyGroups(ResizeOne(group, maxChars)) && AcceptableGroups(ResizeOne(group, maxChars), maxChars)
  {
    if Chars(group.atoms) <= maxChars {
      assert [group][..0] == [];
    } else {
      PackedIsPartition(group.atoms, maxChars);
    }
  }

  lemma {:induction false} ResizeKeeps(groups: seq<Group>, maxChars: int)
    requires NonEmptyGroups(groups)
    ensures AtomsIn(Resize(groups, maxChars)) == AtomsIn(groups)
    ensures NonEmptyGroups(Resize(groups, maxChars)) && AcceptableGroups(Resize(groups, maxChars), maxChars)
  {
    if groups != [] {
      var n := |groups| - 1;
      ResizeKeeps(groups[..n], maxChars);
      ResizeOneKeeps(groups[n], maxChars);
      AtomsInConcat(Resize(groups[..n], maxChars), ResizeOne(groups[n], maxChars));
    }
  }

  // Each group is cut into the fewest acceptable consecutive groups, whichever branch handles it.
  lemma {:induction false} ResizeOneIsFewest(group: Group, maxChars: int, parts: seq<seq<AnalysisAtom>>)
    requires group.atoms != [] && AcceptablePartition(parts, group.atoms, maxChars)
    ensures |ResizeOne(group, maxChars)| <= |parts|
  {
    PackedIsFewest(group.atoms, maxChars, parts);
    if Chars(group.atoms) <= maxChars {
      FittingIsPackedWhole(group.atoms, maxChars);
    }
  }

  ghost predicate PureGroups(groups: seq<Group>) {
    forall g :: 0 <= g < |groups| ==> OneBlock(groups[g].atoms)
  }

  ghost predicate AllOf(atoms: seq<AnalysisAtom>, blockId: string) {
    forall i :: 0 <= i < |atoms| ==> atoms[i].blockId == blockId
  }

  lemma {:induction false} PartOfPure(groups: seq<Group>, blockId: string)
    requires AllOf(AtomsIn(groups), blockId)
    ensures forall g :: 0 <= g < |groups| ==> AllOf(groups[g].atoms, blockId)
  {
    if groups != [] {
      var n := |groups| - 1;
      var init, last := AtomsIn(groups[..n]), groups[n].atoms;
      AllOfSplit(init, last, blockId);
      PartOfPure(groups[..n], blockId);
      assert forall g :: 0 <= g < n ==> groups[..n][g] == groups[g];
    }
  }

  lemma {:induction false} AllOfSplit(left: seq<AnalysisAtom>, right: seq<AnalysisAtom>, blockId: string)
    requires AllOf(left + right, blockId)
    ensures AllOf(left, blockId) && AllOf(right, blockId)
  {
    assert forall i :: 0 <= i < |left| ==> (left + right)[i] == left[i];
    assert forall i :: 0 <= i < |right| ==> (left + right)[|left| + i] == right[i];
  }

  lemma {:induction false} ResizePure(groups: seq<Group>, maxChars: int)
    requires NonEmptyGroups(groups) && PureGroups(groups)
    ensures PureGroups(Resize(groups, maxChars))
  {
    if groups != [] {
      var n := |groups| - 1;
      ResizePure(groups[..n], maxChars);
      ResizeOneKeeps(groups[n], maxChars);
      PartOfPure(ResizeOne(groups[n], maxChars), groups[n].atoms[0].blockId);
    }
  }

  // ---------------------------------------------------------------- looking atoms up by id

  predicate DistinctIds(atoms: seq<AnalysisAtom>) {
    forall i, j :: 0 <= i < j < |atoms| ==> atoms[i].id != atoms[j].id
  }

  function AtomsById(atoms: seq<AnalysisAtom>): map<AtomId, AnalysisAtom> {
    if atoms == [] then map[] else AtomsById(atoms[..|atoms| - 1])[atoms[|atoms| - 1].id := atoms[|atoms| - 1]]
  }

  // Every one of these atoms is found under its own id.
  predicate Known(byId: map<AtomId, AnalysisAtom>, atoms: seq<AnalysisAtom>) {
    forall i :: 0 <= i < |atoms| ==> atoms[i].id in byId && byId[atoms[i].id] == atoms[i]
  }

  lemma {:induction false} AtomsByIdKnown(atoms: seq<AnalysisAtom>)
    requires DistinctIds(atoms)
    ensures Known(AtomsById(atoms), atoms)
    ensures forall id :: id in AtomsById(atoms) ==> exists i :: 0 <= i < |atoms| && atoms[i].id == id
  {
    if atoms != [] {
      var n := |atoms| - 1;
      AtomsByIdKnown(atoms[..n]);
      assert AtomsById(atoms) == AtomsById(atoms[..n])[atoms[n].id := atoms[n]];
      forall i | 0 <= i < n ensures atoms[i].id in AtomsById(atoms) && AtomsById(atoms)[atoms[i].id] == atoms[i] {
        assert atoms[..n][i] == atoms[i] && atoms[i].id != atoms[n].id;
      }
      forall id | id in AtomsById(atoms) ensures exists i :: 0 <= i < |atoms| && atoms[i].id == id {
        if id != atoms[n].id {
          var i :| 0 <= i < n && atoms[..n][i].id == id;
          assert atoms[i].id == id;
        }
      }
    }
  }

  function Lookup(byId: map<AtomId, AnalysisAtom>, ids: seq<AtomId>): (atoms: seq<AnalysisAtom>)
    requires forall i :: 0 <= i < |ids| ==> ids[i] in byId
    ensures |atoms| == |ids| && forall i :: 0 <= i < |ids| ==> atoms[i] == byId[ids[i]]
  {
    if ids == [] then [] else Lookup(byId, ids[..|ids| - 1]) + [byId[ids[|ids| - 1]]]
  }

  ghost predicate KnownGroups(byId: map<AtomId, AnalysisAtom>, groups: seq<Group>) {
    forall g :: 0 <= g < |groups| ==> Known(byId, groups[g].atoms)
  }

  lemma {:induction false} KnownSplit(byId: map<AtomId, AnalysisAtom>, left: seq<AnalysisAtom>, right: seq<AnalysisAtom>)
    requires Known(byId, left + right)
    ensures Known(byId, left) && Known(byId, right)
  {
    assert forall i :: 0 <= i < |left| ==> (left + right)[i] == left[i];
    assert forall i :: 0 <= i < |right| ==> (left + right)[|left| + i] == right[i];
  }

  lemma {:induction false} KnownParts(byId: map<AtomId, AnalysisAtom>, groups: seq<Group>)
    requires Known(byId, AtomsIn(groups))
    ensures KnownGroups(byId, groups)
  {
    if groups != [] {
      var n := |groups| - 1;
      KnownSplit(byId, AtomsIn(groups[..n]), groups[n].atoms);
      KnownParts(byId, groups[..n]);
    }
  }

  // ---------------------------------------------------------------- size enforcement

  // The segments carry the ids, text and type of the groups; their ordinals may still be provisional.
  ghost predicate Represents(segments: seq<AnalysisSegment>, groups: seq<Group>) {
    && |segments| == |groups|
    && forall g :: 0 <= g < |groups| ==>
      segments[g].atomIds == Ids(groups[g].atoms) && segments[g].text == Texts(groups[g].atoms) && segments[g].segmentType == groups[g].kind
  }

  lemma {:induction false} RepresentsConcat(segments: seq<AnalysisSegment>, groups: seq<Group>, segments': seq<AnalysisSegment>, groups': seq<Group>)
    requires Represents(segments, groups) && Represents(segments', groups')
    ensures Represents(segments + segments', groups + groups')
  {
  }

  // The segments stand for the parts a packing loop has closed.
  ghost predicate Stands(segments: seq<AnalysisSegment>, parts: seq<seq<AnalysisAtom>>) {
    Represents(segments, Resized(parts))
  }

  // Closing the open group: one more segment, one more part.
  method ClosePart(inputId: string, resized: seq<AnalysisSegment>, current: seq<AnalysisAtom>, ordinal: nat, ghost parts: seq<seq<AnalysisAtom>>)
    returns (resized': seq<AnalysisSegment>)
    requires current != [] && Stands(resized, parts)
    ensures Stands(resized', parts + [current])
  {
    var segment := BuildSegment(inputId, current, ordinal, SizeFallback);
    resized' := resized + [segment];
    ghost var groups, groups' := Resized(parts), Resized(parts + [current]);
    assert groups' == groups + [Group(current, SizeFallback)];
  }

  lemma {:induction false} PackNext(atoms: seq<AnalysisAtom>, i: nat, maxChars: int)
    requires i < |atoms|
    ensures Pack(atoms[..i + 1], maxChars) == Push(Pack(atoms[..i], maxChars), atoms[i], maxChars)
  {
    assert atoms[..i + 1][..i] == atoms[..i];
  }

  lemma {:induction false} CharsNext(atoms: seq<AnalysisAtom>, atom: AnalysisAtom)
    ensures Chars(atoms + [atom]) == Chars(atoms) + |atom.text|
    ensures Chars([]) == 0
  {
    assert (atoms + [atom])[..|atoms|] == atoms;
  }

  // The inner packing loop over one oversized segment.
  method PackSegment(inputId: string, segment: AnalysisSegment, byId: map<AtomId, AnalysisAtom>, maxChars: int, ordinal: nat, ghost group: Group)
    returns (resized: seq<AnalysisSegment>)
    requires segment.atomIds == Ids(group.atoms) && Known(byId, group.atoms)
    ensures Represents(resized, Resized(Packed(group.atoms, maxChars)))
  {
    ghost var atoms := group.atoms;
    ghost var state := Pack([], maxChars);
    resized := [];
    var current: seq<AnalysisAtom> := [];
    var currentLength := 0;
    for i := 0 to |segment.atomIds|
      invariant state == Pack(atoms[..i], maxChars) && current == state.current
      invariant currentLength == Chars(current)
      invariant Stands(resized, state.closed)
    {
      var atom := byId[segment.atomIds[i]];
      assert atom == atoms[i];
      PackNext(atoms, i, maxChars);
      state := Push(state, atom, maxChars);
      if current != [] && currentLength + |atom.text| > maxChars {
        resized := ClosePart(inputId, resized, current, ordinal + |resized|, Pack(atoms[..i], maxChars).closed);
        current := [];
        currentLength := 0;
      }
      CharsNext(current, atom);
      current := current + [atom];
      currentLength := currentLength + |atom.text|;
    }
    assert atoms[..|atoms|] == atoms;
    if current != [] {
      resized := ClosePart(inputId, resized, current, ordinal + |resized|, state.closed);
    }
  }

  // One round of the outer loop: a segment that fits stays as it is.
  method ResizeSegment(inputId: string, segment: AnalysisSegment, byId: map<AtomId, AnalysisAtom>, maxChars: int, ordinal: nat, ghost group: Group)
    returns (pieces: seq<AnalysisSegment>)
    requires Represents([segment], [group]) && Known(byId, group.atoms)
    ensures Represents(pieces, ResizeOne(group, maxChars))
  {
    assert [segment][0] == segment && [group][0] == group;
    if |segment.text| <= maxChars {
      pieces := [segment];
    } else {
      pieces := PackSegment(inputId, segment, byId, maxChars, ordinal, group);
    }
  }

  method EnforceMaxChars(inputId: string, segments: seq<AnalysisSegment>, atoms: seq<AnalysisAtom>, maxChars: int, ghost groups: seq<Group>)
    returns (result: seq<AnalysisSegment>)
    requires NonEmptyGroups(groups) && Represents(segments, groups)
    requires DistinctIds(atoms) && AtomsIn(groups) == atoms
    ensures NonEmptyGroups(Resize(groups, maxChars))
    ensures result == SegmentsOf(inputId, Resize(groups, maxChars))
  {
    var byId := AtomsById(atoms);
    AtomsByIdKnown(atoms);
    KnownParts(byId, groups);
    var resized: seq<AnalysisSegment> := [];
    for s := 0 to |segments|
      invariant Represents(resized, Resize(groups[..s], maxChars))
    {
      assert groups[..s + 1][..s] == groups[..s];
      assert Known(byId, groups[s].atoms);
      var pieces := ResizeSegment(inputId, segments[s], byId, maxChars, |resized|, groups[s]);
      RepresentsConcat(resized, Resize(groups[..s], maxChars), pieces, ResizeOne(groups[s], maxChars));
      resized := resized + pieces;
    }
    assert groups[..|groups|] == groups;
    ResizeKeeps(groups, maxChars);
    KnownParts(byId, Resize(groups, maxChars));
    result := Rebuild(inputId, resized, byId, Resize(groups, maxChars));
  }

  lemma {:induction false} LookupIds(byId: map<AtomId, AnalysisAtom>, atoms: seq<AnalysisAtom>)
    requires Known(byId, atoms)
    ensures (forall i :: 0 <= i < |atoms| ==> Ids(atoms)[i] in byId) && Lookup(byId, Ids(atoms)) == atoms
  {
  }

  lemma {:induction false} SegmentsOfNext(inputId: string, groups: seq<Group>, g: nat)
    requires NonEmptyGroups(groups) && g < |groups|
    ensures NonEmptyGroups(groups[..g]) && NonEmptyGroups(groups[..g + 1])
    ensures SegmentsOf(inputId, groups[..g + 1])
            == SegmentsOf(inputId, groups[..g]) + [BuildSegment(inputId, groups[g].atoms, g, groups[g].kind)]
  {
    assert groups[..g + 1][..g] == groups[..g];
  }

  // One segment, rebuilt from its atom ids with its final ordinal.
  method RebuildSegment(inputId: string, segment: AnalysisSegment, byId: map<AtomId, AnalysisAtom>, ordinal: nat, ghost group: Group)
    returns (rebuilt: AnalysisSegment)
    requires group.atoms != [] && segment.atomIds == Ids(group.atoms) && segment.segmentType == group.kind && Known(byId, group.atoms)
    ensures rebuilt == BuildSegment(inputId, group.atoms, ordinal, group.kind)
  {
    LookupIds(byId, group.atoms);
    rebuilt := BuildSegment(inputId, Lookup(byId, segment.atomIds), ordinal, segment.segmentType);
  }

  // The final comprehension over all segments.
  method Rebuild(inputId: string, resized: seq<AnalysisSegment>, byId: map<AtomId, AnalysisAtom>, ghost groups: seq<Group>)
    returns (result: seq<AnalysisSegment>)
    requires NonEmptyGroups(groups) && Represents(resized, groups) && KnownGroups(byId, groups)
    ensures result == SegmentsOf(inputId, groups)
  {
    result := [];
    for g := 0 to |resized|
      invariant NonEmptyGroups(groups[..g]) && result == SegmentsOf(inputId, groups[..g])
    {
      var rebuilt := RebuildSegment(inputId, resized[g], byId, g, groups[g]);
      SegmentsOfNext(inputId, groups, g);
      result := result + [rebuilt];
    }
    assert groups[..|groups|] == groups;
  }

  // The comprehension at the end of _segments_from_boundaries.
  method SegmentsFromBoundaries(inputId: string, atoms: seq<AnalysisAtom>, cuts: seq<int>, kind: SegmentType)
    returns (segments: seq<AnalysisSegment>)
    requires atoms != [] && AscendingTo(cuts, |atoms| - 1)
    ensures NonEmptyGroups(Typed(Groups(atoms, cuts), kind))
    ensures segments == SegmentsOf(inputId, Typed(Groups(atoms, cuts), kind))
  {
    GroupsPartition(atoms, cuts);
    var groups := SplitAtBoundaries(atoms, cuts);
    segments := SegmentsOf(inputId, Typed(groups, kind));
  }

  lemma {:induction false} SegmentsRepresent(inputId: string, groups: seq<Group>)
    requires NonEmptyGroups(groups)
    ensures Represents(SegmentsOf(inputId, groups), groups)
  {
  }

  // ---------------------------------------------------------------- embeddings and scores

  // {embedding.atom_id: embedding for ...}: a later entry replaces an earlier one.
  function VectorMap(embeddings: seq<AtomEmbedding>): Vectors {
    if embeddings == [] then map[]
    else
      var last := embeddings[|embeddings| - 1];
      VectorMap(embeddings[..|embeddings| - 1])[last.atomId := last.vector]
  }

  predicate ValidVector(vector: seq<Component>) {
    vector != [] && forall i :: 0 <= i < |vector| ==> vector[i].Finite?
  }

  predicate ZeroVector(vector: seq<Component>) {
    forall i :: 0 <= i < |vector| ==> vector[i] == Finite(0.0)
  }

  // The vectors of these atoms are finite, not empty and of one dimension; an atom without a vector is passed over.
  predicate ValidEmbeddings(atoms: seq<AnalysisAtom>, vectors: Vectors) {
    && (forall i :: 0 <= i < |atoms| && atoms[i].id in vectors ==> ValidVector(vectors[atoms[i].id]))
    && (forall i, j :: 0 <= i < |atoms| && 0 <= j < |atoms| && atoms[i].id in vectors && atoms[j].id in vectors ==>
          |vectors[atoms[i].id]| == |vectors[atoms[j].id]|)
  }

  lemma {:induction false} AllEqual(s: set<int>, x: int, y: int)
    ensures (forall d :: d in s ==> d == x) ==> |s| <= 1
    ensures |s| <= 1 && x in s && y in s ==> x == y
  {
    if forall d :: d in s ==> d == x {
      assert s <= {x};
      assert |{x} - s| + |s| == 1;
    }
    if x in s && y in s && x != y {
      assert |s - {x}| == |s| - 1 && y in s - {x};
    }
  }

  method ValidateEmbeddings(atoms: seq<AnalysisAtom>, vectors: Vectors) returns (valid: bool)
    ensures valid <==> ValidEmbeddings(atoms, vectors)
  {
    var dimensions: set<int> := {};
    ghost var first := 0;
    for a := 0 to |atoms|
      invariant forall i :: 0 <= i < a && atoms[i].id in vectors ==>
        ValidVector(vectors[atoms[i].id]) && |vectors[atoms[i].id]| in dimensions
      invariant forall d :: d in dimensions ==> exists i :: 0 <= i < a && atoms[i].id in vectors && |vectors[atoms[i].id]| == d
      invariant dimensions != {} ==> first in dimensions
    {
      if atoms[a].id !in vectors { continue; }
      var vector := vectors[atoms[a].id];
      if !ValidVector(vector) { return false; }
      if dimensions == {} { first := |vector|; }
      dimensions := dimensions + {|vector|};
    }
    forall x, y | x in dimensions && y in dimensions ensures |dimensions| <= 1 ==> x == y { AllEqual(dimensions, x, y); }
    AllEqual(dimensions, first, first);
    return |dimensions| <= 1;
  }

  datatype ScoreOutcome = Scores(scores: seq<AdjacentBoundaryScore>) | ZeroNorm | NoVector

  // Neighbours i and i + 1 can be compared.
  predicate Comparable(atoms: seq<AnalysisAtom>, vectors: Vectors, i: nat)
    requires i + 1 < |atoms|
  {
    && atoms[i].id in vectors && !ZeroVector(vectors[atoms[i].id])
    && atoms[i + 1].id in vectors && !ZeroVector(vectors[atoms[i + 1].id])
  }

  // One score for every two neighbours: their ids, the cosine of their vectors, and selected exactly below the threshold.
  ghost predicate ScoresOf(atoms: seq<AnalysisAtom>, vectors: Vectors, cosine: (seq<Component>, seq<Component>) -> real,
                           threshold: real, scores: seq<AdjacentBoundaryScore>)
  {
    && |scores| == |atoms| - 1
    && forall i :: 0 <= i < |scores| ==> Comparable(atoms, vectors, i) && ScoreOf(atoms, vectors, cosine, threshold, scores[i], i)
  }

  ghost predicate ScoreOf(atoms: seq<AnalysisAtom>, vectors: Vectors, cosine: (seq<Component>, seq<Component>) -> real,
                          threshold: real, score: AdjacentBoundaryScore, i: nat)
    requires i + 1 < |atoms| && Comparable(atoms, vectors, i)
  {
    && score.left == atoms[i].id && score.right == atoms[i + 1].id
    && score.cosine == cosine(vectors[atoms[i].id], vectors[atoms[i + 1].id])
    && (score.selected <==> cosine(vectors[atoms[i].id], vectors[atoms[i + 1].id]) < threshold)
  }

  predicate AllComparable(atoms: seq<AnalysisAtom>, vectors: Vectors) {
    forall i :: 0 <= i < |atoms| - 1 ==> Comparable(atoms, vectors, i)
  }

  // The first neighbours that cannot be compared.
  ghost predicate FirstIncomparable(atoms: seq<AnalysisAtom>, vectors: Vectors, i: nat)
    requires i + 1 < |atoms|
  {
    !Comparable(atoms, vectors, i) && forall j :: 0 <= j < i ==> Comparable(atoms, vectors, j)
  }

  // The first neighbours that cannot be compared include an atom without a vector.
  ghost predicate MissesVector(atoms: seq<AnalysisAtom>, vectors: Vectors) {
    exists i: nat :: i + 1 < |atoms| && FirstIncomparable(atoms, vectors, i) && (atoms[i].id !in vectors || atoms[i + 1].id !in vectors)
  }

  // Scoring succeeds exactly when all neighbours can be compared; otherwise the first that cannot decide whether a
  // vector is missing or a norm is zero. The cosine itself is an oracle.
  method BoundaryScores(atoms: seq<AnalysisAtom>, vectors: Vectors, cosine: (seq<Component>, seq<Component>) -> real, threshold: real)
    returns (outcome: ScoreOutcome)
    requires atoms != []
    ensures outcome.Scores? <==> AllComparable(atoms, vectors)
    ensures outcome.Scores? ==> ScoresOf(atoms, vectors, cosine, threshold, outcome.scores)
    ensures outcome.NoVector? <==> MissesVector(atoms, vectors)
  {
    var scores := [];
    for i := 0 to |atoms| - 1
      invariant |scores| == i
      invariant forall j :: 0 <= j < i ==> Comparable(atoms, vectors, j) && ScoreOf(atoms, vectors, cosine, threshold, scores[j], j)
    {
      if atoms[i].id !in vectors || atoms[i + 1].id !in vectors {
        assert FirstIncomparable(atoms, vectors, i);
        return NoVector;
      }
      if ZeroVector(vectors[atoms[i].id]) || ZeroVector(vectors[atoms[i + 1].id]) {
        assert FirstIncomparable(atoms, vectors, i);
        OneFirstIncomparable(atoms, vectors, i);
        return ZeroNorm;
      }
      var similarity := cosine(vectors[atoms[i].id], vectors[atoms[i + 1].id]);
      scores := scores + [AdjacentBoundaryScore(atoms[i].id, atoms[i + 1].id, similarity, similarity < threshold)];
    }
    outcome := Scores(scores);
  }

  lemma {:induction false} OneFirstIncomparable(atoms: seq<AnalysisAtom>, vectors: Vectors, i: nat)
    requires i + 1 < |atoms| && FirstIncomparable(atoms, vectors, i)
    ensures forall j: nat :: j + 1 < |atoms| && FirstIncomparable(atoms, vectors, j) ==> j == i
  {
  }

  // ---------------------------------------------------------------- build_segments

  function Changes(atoms: seq<AnalysisAtom>, i: nat): (cuts: seq<int>)
    requires i < |atoms|
    ensures AscendingTo(cuts, i)
    ensures forall b :: 0 <= b < i ==> (b in cuts <==> BlockChange(atoms, b))
  {
    if i == 0 then []
    else
      var before := Changes(atoms, i - 1);
      AscendingWeaken(before, i - 1, i);
      AscendingBounds(before, i - 1);
      if BlockChange(atoms, i - 1) then
        var cuts := before + [i - 1];
        assert cuts[..|before|] == before;
        cuts
      else before
  }

  function StructureCuts(atoms: seq<AnalysisAtom>, policy: SegmentPolicy): (cuts: seq<int>)
    requires atoms != []
    ensures AscendingTo(cuts, |atoms| - 1)
    ensures policy.respectBlockBoundary ==> forall b :: 0 <= b < |atoms| - 1 ==> (b in cuts <==> BlockChange(atoms, b))
    ensures !policy.respectBlockBoundary ==> cuts == []
  {
    if policy.respectBlockBoundary then Changes(atoms, |atoms| - 1) else []
  }

  // What every path of build_segments owes: the atoms of the groups, put end to end, are the sorted atoms; no group is
  // empty, and each one fits or is a single atom.
  ghost predicate Partitioned(sorted: seq<AnalysisAtom>, groups: seq<Group>, policy: SegmentPolicy) {
    AtomsIn(groups) == sorted && NonEmptyGroups(groups) && AcceptableGroups(groups, policy.maxChars)
  }

  // Groups cut after the given indexes and then resized.
  ghost function CutGroups(atoms: seq<AnalysisAtom>, cuts: seq<int>, kind: SegmentType, maxChars: int): seq<Group>
    requires atoms != [] && AscendingTo(cuts, |atoms| - 1)
  {
    Resize(Typed(Groups(atoms, cuts), kind), maxChars)
  }

  ghost predicate CutsChanges(atoms: seq<AnalysisAtom>, cuts: seq<int>) {
    forall i :: 0 <= i < |atoms| - 1 && BlockChange(atoms, i) ==> i in cuts
  }

  lemma {:induction false} CutGroupsFacts(atoms: seq<AnalysisAtom>, cuts: seq<int>, kind: SegmentType, policy: SegmentPolicy)
    requires atoms != [] && AscendingTo(cuts, |atoms| - 1)
    ensures Partitioned(atoms, CutGroups(atoms, cuts, kind, policy.maxChars), policy)
    ensures CutsChanges(atoms, cuts) ==> PureGroups(CutGroups(atoms, cuts, kind, policy.maxChars))
  {
    GroupsPartition(atoms, cuts);
    var whole := Typed(Groups(atoms, cuts), kind);
    ResizeKeeps(whole, policy.maxChars);
    if CutsChanges(atoms, cuts) {
      GroupsPure(atoms, cuts);
      ResizePure(whole, policy.maxChars);
    }
  }

  lemma {:induction false} WholeGroups(inputId: string, atoms: seq<AnalysisAtom>, cuts: seq<int>, kind: SegmentType)
    requires atoms != [] && AscendingTo(cuts, |atoms| - 1)
    ensures var whole := Typed(Groups(atoms, cuts), kind);
            AtomsIn(whole) == atoms && NonEmptyGroups(whole) && Represents(SegmentsOf(inputId, whole), whole)
  {
    GroupsPartition(atoms, cuts);
    SegmentsRepresent(inputId, Typed(Groups(atoms, cuts), kind));
  }

  // _segments_from_boundaries followed by _enforce_max_chars
  method SegmentsForCuts(inputId: string, atoms: seq<AnalysisAtom>, cuts: seq<int>, kind: SegmentType, policy: SegmentPolicy)
    returns (segments: seq<AnalysisSegment>)
    requires atoms != [] && DistinctIds(atoms) && AscendingTo(cuts, |atoms| - 1)
    ensures NonEmptyGroups(CutGroups(atoms, cuts, kind, policy.maxChars))
    ensures segments == SegmentsOf(inputId, CutGroups(atoms, cuts, kind, policy.maxChars))
  {
    var first := SegmentsFromBoundaries(inputId, atoms, cuts, kind);
    WholeGroups(inputId, atoms, cuts, kind);
    segments := EnforceMaxChars(inputId, first, atoms, policy.maxChars, Typed(Groups(atoms, cuts), kind));
  }

  method FallbackSegments(inputId: string, atoms: seq<AnalysisAtom>, policy: SegmentPolicy) returns (segments: seq<AnalysisSegment>)
    requires atoms != [] && DistinctIds(atoms)
    ensures NonEmptyGroups(CutGroups(atoms, StructureCuts(atoms, policy), Structure, policy.maxChars))
    ensures segments == SegmentsOf(inputId, CutGroups(atoms, StructureCuts(atoms, policy), Structure, policy.maxChars))
  {
    segments := SegmentsForCuts(inputId, atoms, StructureCuts(atoms, policy), Structure, policy);
  }

  // The boundaries of the semantic path: the greedy ones, and one more for each oversized group they leave.
  ghost predicate SemanticCuts(atoms: seq<AnalysisAtom>, scores: seq<AdjacentBoundaryScore>, policy: SegmentPolicy, cuts: seq<int>)
    requires atoms != [] && |scores| == |atoms| - 1
  {
    var chosen := Greedy(atoms, scores, policy, |scores|);
    && AscendingTo(cuts, |scores|)
    && Increasing(chosen + [|atoms| - 1], |atoms|)
    && exists extra :: TargetCuts(atoms, scores, policy, chosen + [|atoms| - 1], |chosen| + 1, extra) && cuts == Union(chosen, extra)
  }

  // After the extra cuts every group keeps min_atoms exactly when the document is cut by the greedy pass or long enough
  // uncut, and each oversized group has room on both sides of its weakest inner boundary; so always with min_atoms of 1.
  lemma {:induction false} SemanticMinAtomsExactly(
    atoms: seq<AnalysisAtom>, scores: seq<AdjacentBoundaryScore>, policy: SegmentPolicy, cuts: seq<int>)
    requires atoms != [] && |scores| == |atoms| - 1 && SemanticCuts(atoms, scores, policy, cuts)
    ensures var chosen := Greedy(atoms, scores, policy, |scores|);
            AtLeast(Groups(atoms, cuts), policy.minAtoms)
            <==> (chosen != [] || |atoms| >= policy.minAtoms)
                 && RoomToCutUpTo(atoms, scores, policy, chosen + [|atoms| - 1], |chosen| + 1)
    ensures policy.minAtoms <= 1 ==> AtLeast(Groups(atoms, cuts), policy.minAtoms)
  {
    var chosen := Greedy(atoms, scores, policy, |scores|);
    var extra :| TargetCuts(atoms, scores, policy, chosen + [|atoms| - 1], |chosen| + 1, extra) && cuts == Union(chosen, extra);
    GreedyMinAtomsExactly(atoms, scores, policy, extra);
    if policy.minAtoms <= 1 { GroupsPartition(atoms, cuts); }
  }

  lemma {:induction false} SemanticCutsChanges(atoms: seq<AnalysisAtom>, scores: seq<AdjacentBoundaryScore>, policy: SegmentPolicy, extra: seq<int>)
    requires atoms != [] && |scores| == |atoms| - 1 && policy.respectBlockBoundary && policy.minAtoms <= 1
    requires AscendingTo(Greedy(atoms, scores, policy, |scores|), |scores|) && AscendingTo(extra, |scores|)
    ensures CutsChanges(atoms, Union(Greedy(atoms, scores, policy, |scores|), extra))
  {
    var chosen := Greedy(atoms, scores, policy, |scores|);
    UnionOfAscending(chosen, extra, |scores|);
    forall i | 0 <= i < |atoms| - 1 && BlockChange(atoms, i) ensures i in chosen {
      GreedyTakesAll(atoms, scores, policy, |scores|, i);
    }
  }

  // selected | target
  method SemanticBoundaries(atoms: seq<AnalysisAtom>, scores: seq<AdjacentBoundaryScore>, policy: SegmentPolicy)
    returns (boundaries: seq<int>)
    requires atoms != [] && |scores| == |atoms| - 1
    ensures SemanticCuts(atoms, scores, policy, boundaries)
    ensures policy.respectBlockBoundary && policy.minAtoms <= 1 ==> CutsChanges(atoms, boundaries)
  {
    var chosen := SelectedBoundaryIndexes(atoms, scores, policy);
    GreedySpaced(atoms, scores, policy, |scores|);
    var extra := TargetSizeBoundaryIndexes(atoms, scores, chosen, policy);
    TargetCutsAscending(atoms, scores, policy, chosen + [|atoms| - 1], |chosen| + 1, extra);
    UnionOfAscending(chosen, extra, |scores|);
    boundaries := Union(chosen, extra);
    if policy.respectBlockBoundary && policy.minAtoms <= 1 {
      SemanticCutsChanges(atoms, scores, policy, extra);
    }
  }

  predicate ByOrdinal(left: AnalysisAtom, right: AnalysisAtom) {
    left.ordinal <= right.ordinal
  }

  function SortedAtoms(atoms: seq<AnalysisAtom>): seq<AnalysisAtom> {
    Sorting.Sort(atoms, ByOrdinal)
  }

  lemma {:induction false} SortedAtomsFacts(atoms: seq<AnalysisAtom>)
    ensures multiset(SortedAtoms(atoms)) == multiset(atoms) && |SortedAtoms(atoms)| == |atoms|
    ensures Sorting.SortedBy(SortedAtoms(atoms), ByOrdinal)
    ensures DistinctIds(atoms) ==> DistinctIds(SortedAtoms(atoms))
  {
    Sorting.SortPermutes(atoms, ByOrdinal);
    Sorting.SortSorted(atoms, ByOrdinal);
    if DistinctIds(atoms) {
      DistinctIdsPermuted(atoms, SortedAtoms(atoms));
    }
  }

  lemma {:induction false} DistinctIdsPermuted(atoms: seq<AnalysisAtom>, sorted: seq<AnalysisAtom>)
    requires DistinctIds(atoms) && multiset(atoms) == multiset(sorted)
    ensures DistinctIds(sorted)
  {
    forall i, j | 0 <= i < j < |sorted| ensures sorted[i].id != sorted[j].id {
      assert sorted[i] in multiset(atoms) && sorted[j] in multiset(atoms);
      var p :| 0 <= p < |atoms| && atoms[p] == sorted[i];
      var q :| 0 <= q < |atoms| && atoms[q] == sorted[j];
      Sorting.OccursOnce(atoms, p);
      if sorted[i] == sorted[j] { Sorting.OccursTwice(sorted, i, j); }
    }
  }

  // The ids of these atoms.
  function IdSet(atoms: seq<AnalysisAtom>): (ids: set<AtomId>)
    ensures forall id :: id in ids <==> exists i :: 0 <= i < |atoms| && atoms[i].id == id
  {
    if atoms == [] then {}
    else
      var n := |atoms| - 1;
      var before := IdSet(atoms[..n]);
      assert forall i :: 0 <= i < n ==> atoms[..n][i] == atoms[i];
      before + {atoms[n].id}
  }

  lemma {:induction false} IdSetSize(atoms: seq<AnalysisAtom>)
    ensures |IdSet(atoms)| <= |atoms|
  {
    if atoms != [] { IdSetSize(atoms[..|atoms| - 1]); }
  }

  lemma {:induction false} SubsetOfSameSize<T>(small: set<T>, large: set<T>)
    requires small <= large && |small| >= |large|
    ensures small == large
  {
    assert |large - small| == |large| - |small|;
  }

  // Embeddings only for the atoms at hand, and as many as atoms: none is missing.
  lemma {:induction false} NoneMissing(atoms: seq<AnalysisAtom>, vectors: Vectors)
    requires vectors.Keys <= IdSet(atoms) && |vectors| >= |atoms|
    ensures forall i :: 0 <= i < |atoms| ==> atoms[i].id in vectors
  {
    assert |vectors.Keys| == |vectors|;
    IdSetSize(atoms);
    SubsetOfSameSize(vectors.Keys, IdSet(atoms));
    forall i | 0 <= i < |atoms| ensures atoms[i].id in vectors {
      assert atoms[i].id in IdSet(atoms);
    }
  }

  // What holds on every path: the groups partition the atoms in ordinal order, the segments are made of the groups, and
  // blocks are kept apart on every structure path, and on the semantic path when single atoms may stand alone.
  ghost predicate GoodOutcome(inputId: string, sorted: seq<AnalysisAtom>, policy: SegmentPolicy, outcome: BuildOutcome, groups: seq<Group>) {
    outcome.Segmented? ==>
      && Partitioned(sorted, groups, policy)
      && outcome.segments == SegmentsOf(inputId, groups)
      && (policy.respectBlockBoundary && (policy.minAtoms <= 1 || outcome.scores == []) ==> PureGroups(groups))
  }

  // Which of the paths was taken, and what it made.
  ghost predicate PathTaken(sorted: seq<AnalysisAtom>, vectors: Vectors, policy: SegmentPolicy,
                            cosine: (seq<Component>, seq<Component>) -> real, outcome: BuildOutcome, groups: seq<Group>)
    requires sorted != []
  {
    if !ValidEmbeddings(sorted, vectors) then StructurePath(sorted, policy, outcome, groups, Some(InvalidEmbeddingVector))
    else if |vectors| < |sorted| then StructurePath(sorted, policy, outcome, groups, None)
    else if AllComparable(sorted, vectors) then
      && outcome.Segmented? && outcome.failure == None
      && ScoresOf(sorted, vectors, cosine, policy.cosineBreakThreshold, outcome.scores)
      && SemanticPath(sorted, policy, outcome.scores, groups)
    else if MissesVector(sorted, vectors) then outcome == MissingEmbedding
    else StructurePath(sorted, policy, outcome, groups, Some(SimilarityCalculationFailed))
  }

  ghost predicate StructurePath(sorted: seq<AnalysisAtom>, policy: SegmentPolicy, outcome: BuildOutcome, groups: seq<Group>, failure: Option<SegmentFailure>)
    requires sorted != []
  {
    && outcome.Segmented? && outcome.failure == failure && outcome.scores == []
    && groups == CutGroups(sorted, StructureCuts(sorted, policy), Structure, policy.maxChars)
  }

  ghost predicate SemanticPath(sorted: seq<AnalysisAtom>, policy: SegmentPolicy, scores: seq<AdjacentBoundaryScore>, groups: seq<Group>)
    requires sorted != [] && |scores| == |sorted| - 1
  {
    exists cuts :: SemanticCuts(sorted, scores, policy, cuts) && groups == CutGroups(sorted, cuts, Semantic, policy.maxChars)
  }

  method BuildSegments(
    inputId: string, requestAtoms: seq<AnalysisAtom>, embeddings: seq<AtomEmbedding>, policy: SegmentPolicy,
    cosine: (seq<Component>, seq<Component>) -> real)
    returns (outcome: BuildOutcome, ghost groups: seq<Group>)
    requires DistinctIds(requestAtoms)
    ensures GoodOutcome(inputId, SortedAtoms(requestAtoms), policy, outcome, groups)
    ensures requestAtoms == [] ==> outcome == Segmented([], [], None)
    ensures requestAtoms != [] ==> SortedAtoms(requestAtoms) != []
    ensures requestAtoms != [] ==>
      PathTaken(SortedAtoms(requestAtoms), VectorMap(embeddings), policy, cosine, outcome, groups)
    // an embedding is missed only when some embedding belongs to no atom of the request
    ensures VectorMap(embeddings).Keys <= IdSet(SortedAtoms(requestAtoms)) ==> outcome.Segmented?
  {
    var atoms := SortedAtoms(requestAtoms);
    SortedAtomsFacts(requestAtoms);
    groups := [];
    if atoms == [] {
      return Segmented([], [], None), groups;
    }
    var vectors := VectorMap(embeddings);
    outcome, groups := BuildSorted(inputId, atoms, vectors, policy, cosine);
  }

  // The body of build_segments once the atoms are sorted and not empty.
  method BuildSorted(
    inputId: string, atoms: seq<AnalysisAtom>, vectors: Vectors, policy: SegmentPolicy,
    cosine: (seq<Component>, seq<Component>) -> real)
    returns (outcome: BuildOutcome, ghost groups: seq<Group>)
    requires atoms != [] && DistinctIds(atoms)
    ensures GoodOutcome(inputId, atoms, policy, outcome, groups)
    ensures PathTaken(atoms, vectors, policy, cosine, outcome, groups)
    ensures vectors.Keys <= IdSet(atoms) ==> outcome.Segmented?
  {
    var valid := ValidateEmbeddings(atoms, vectors);
    if !valid {
      outcome, groups := StructureOutcome(inputId, atoms, policy, Some(InvalidEmbeddingVector));
    } else if |vectors| < |atoms| {
      outcome, groups := StructureOutcome(inputId, atoms, policy, None);
    } else {
      if vectors.Keys <= IdSet(atoms) { NoneMissing(atoms, vectors); }
      var scored := BoundaryScores(atoms, vectors, cosine, policy.cosineBreakThreshold);
      match scored {
        case NoVector =>
          outcome, groups := MissingEmbedding, [];
        case ZeroNorm =>
          outcome, groups := StructureOutcome(inputId, atoms, policy, Some(SimilarityCalculationFailed));
        case Scores(scores) =>
          outcome, groups := SemanticOutcome(inputId, atoms, scores, policy);
      }
    }
  }

  method StructureOutcome(inputId: string, atoms: seq<AnalysisAtom>, policy: SegmentPolicy, failure: Option<SegmentFailure>)
    returns (outcome: BuildOutcome, ghost groups: seq<Group>)
    requires atoms != [] && DistinctIds(atoms)
    ensures GoodOutcome(inputId, atoms, policy, outcome, groups)
    ensures StructurePath(atoms, policy, outcome, groups, failure)
  {
    var segments := FallbackSegments(inputId, atoms, policy);
    groups := CutGroups(atoms, StructureCuts(atoms, policy), Structure, policy.maxChars);
    CutGroupsFacts(atoms, StructureCuts(atoms, policy), Structure, policy);
    outcome := Segmented(segments, [], failure);
  }

  lemma {:induction false} SemanticGood(inputId: string, atoms: seq<AnalysisAtom>, policy: SegmentPolicy, outcome: BuildOutcome, groups: seq<Group>)
    requires atoms != [] && outcome.Segmented? && |outcome.scores| == |atoms| - 1
    requires Partitioned(atoms, groups, policy) && outcome.segments == SegmentsOf(inputId, groups)
    requires policy.respectBlockBoundary && policy.minAtoms <= 1 ==> PureGroups(groups)
    ensures GoodOutcome(inputId, atoms, policy, outcome, groups)
  {
    if outcome.scores == [] { SingleAtomPure(atoms, groups); }
  }

  method SemanticOutcome(inputId: string, atoms: seq<AnalysisAtom>, scores: seq<AdjacentBoundaryScore>, policy: SegmentPolicy)
    returns (outcome: BuildOutcome, ghost groups: seq<Group>)
    requires atoms != [] && DistinctIds(atoms) && |scores| == |atoms| - 1
    ensures GoodOutcome(inputId, atoms, policy, outcome, groups)
    ensures outcome.Segmented? && outcome.failure == None && outcome.scores == scores
    ensures SemanticPath(atoms, policy, scores, groups)
  {
    var boundaries := SemanticBoundaries(atoms, scores, policy);
    groups := CutGroups(atoms, boundaries, Semantic, policy.maxChars);
    CutGroupsFacts(atoms, boundaries, Semantic, policy);
    var segments := SegmentsForCuts(inputId, atoms, boundaries, Semantic, policy);
    outcome := Segmented(segments, scores, None);
    assert SemanticPath(atoms, policy, scores, groups);
    SemanticGood(inputId, atoms, policy, outcome, groups);
  }

  lemma {:induction false} SingleAtomPure(atoms: seq<AnalysisAtom>, groups: seq<Group>)
    requires |atoms| == 1 && AtomsIn(groups) == atoms
    ensures PureGroups(groups)
  {
    PartOfPure(groups, atoms[0].blockId);
    assert forall g :: 0 <= g < |groups| ==> AllOf(groups[g].atoms, atoms[0].blockId);
  }

  // ---------------------------------------------------------------- what the segments say

  function AllIds(segments: seq<AnalysisSegment>): seq<AtomId> {
    if segments == [] then [] else AllIds(segments[..|segments| - 1]) + segments[|segments| - 1].atomIds
  }

  function AllText(segments: seq<AnalysisSegment>): string {
    if segments == [] then "" else AllText(segments[..|segments| - 1]) + segments[|segments| - 1].text
  }

  lemma {:induction false} IdsConcat(left: seq<AnalysisAtom>, right: seq<AnalysisAtom>)
    ensures Ids(left + right) == Ids(left) + Ids(right)
  {
  }

  lemma {:induction false} Associate(a: string, b: string, c: string)
    ensures a + b + c == a + (b + c)
  {
  }

  lemma {:induction false} TextsConcat(left: seq<AnalysisAtom>, right: seq<AnalysisAtom>)
    ensures Texts(left + right) == Texts(left) + Texts(right)
    decreases |right|
  {
    if right == [] {
      assert left + right == left;
    } else {
      var n := |right| - 1;
      TextsConcat(left, right[..n]);
      assert (left + right)[..|left| + n] == left + right[..n] && (left + right)[|left| + n] == right[n];
      assert Texts(left + right) == Texts(left + right[..n]) + right[n].text;
      Associate(Texts(left), Texts(right[..n]), right[n].text);
    }
  }

  // The segments' atom ids put end to end are the ids of the grouped atoms, and so are their texts; ordinals count from 0.
  lemma {:induction false} SegmentsConcatenate(inputId: string, groups: seq<Group>)
    requires NonEmptyGroups(groups)
    ensures AllIds(SegmentsOf(inputId, groups)) == Ids(AtomsIn(groups))
    ensures AllText(SegmentsOf(inputId, groups)) == Texts(AtomsIn(groups))
    ensures forall g :: 0 <= g < |groups| ==> SegmentsOf(inputId, groups)[g].ordinal == g
  {
    if groups != [] {
      var n := |groups| - 1;
      var segments, init := SegmentsOf(inputId, groups), SegmentsOf(inputId, groups[..n]);
      SegmentsConcatenate(inputId, groups[..n]);
      assert segments[..n] == init;
      IdsConcat(AtomsIn(groups[..n]), groups[n].atoms);
      TextsConcat(AtomsIn(groups[..n]), groups[n].atoms);
    }
  }
}
