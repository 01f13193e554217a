// Joining lexical signals to segments (apps/api/app/mapping/builder.py).
module Mapping {
  import opened Options
  import opened Spans
  import opened Atoms
  import opened Boundaries
  import opened Segmenter
  import Scanner

  datatype Severity = Info | Low | Medium | High | Critical

  // The fields the join looks at; the descriptive fields are copied through unchanged by the source.
  datatype Signal = Signal(id: Scanner.SignalId, inputId: string, blockId: string, range: TextRange, severity: Severity)

  datatype MappingBasis = OffsetOverlap | AtomMembership

  datatype MappedSignal = MappedSignal(id: Scanner.SignalId, severity: Severity, atomIds: seq<AtomId>, basis: MappingBasis)

  datatype SegmentSignalSet = SegmentSignalSet(
    segmentId: SegmentId, signalIds: seq<Scanner.SignalId>, signals: seq<MappedSignal>, maxSeverity: Option<Severity>, signalCount: nat)

  // ---------------------------------------------------------------- one signal against one segment

  // [atoms_by_id[id] for id in segment.atom_ids if id in atoms_by_id]
  function SegmentAtoms(byId: map<AtomId, AnalysisAtom>, ids: seq<AtomId>): seq<AnalysisAtom> {
    if ids == [] then []
    else
      var n := |ids| - 1;
      SegmentAtoms(byId, ids[..n]) + if ids[n] in byId then [byId[ids[n]]] else []
  }

  lemma {:induction false} SegmentAtomsMembers(byId: map<AtomId, AnalysisAtom>, ids: seq<AtomId>)
    ensures forall a :: a in SegmentAtoms(byId, ids) ==> exists i :: 0 <= i < |ids| && ids[i] in byId && byId[ids[i]] == a
    ensures forall i :: 0 <= i < |ids| && ids[i] in byId ==> byId[ids[i]] in SegmentAtoms(byId, ids)
  {
    if ids != [] {
      var n := |ids| - 1;
      var init := ids[..n];
      SegmentAtomsMembers(byId, init);
      forall a | a in SegmentAtoms(byId, ids) ensures exists i :: 0 <= i < |ids| && ids[i] in byId && byId[ids[i]] == a {
        if a in SegmentAtoms(byId, init) {
          var i :| 0 <= i < n && init[i] in byId && byId[init[i]] == a;
          assert ids[i] in byId && byId[ids[i]] == a;
        } else {
          assert ids[n] in byId && byId[ids[n]] == a;
        }
      }
      forall i | 0 <= i < |ids| && ids[i] in byId ensures byId[ids[i]] in SegmentAtoms(byId, ids) {
        if i < n { assert init[i] in byId; }
      }
    }
  }

  predicate Touches(signal: Signal, atom: AnalysisAtom) {
    atom.blockId == signal.blockId && Overlaps(atom.range, signal.range)
  }

  function OverlappingIds(signal: Signal, atoms: seq<AnalysisAtom>): (ids: seq<AtomId>)
    ensures ids == [] <==> forall a :: a in atoms ==> !Touches(signal, a)
    ensures forall id :: id in ids <==> exists a :: a in atoms && Touches(signal, a) && a.id == id
  {
    if atoms == [] then []
    else
      var n := |atoms| - 1;
      assert forall a :: a in atoms <==> a in atoms[..n] || a == atoms[n];
      OverlappingIds(signal, atoms[..n]) + if Touches(signal, atoms[n]) then [atoms[n].id] else []
  }

  predicate CanUseSegmentOffsetOverlap(signal: Signal, segment: AnalysisSegment, atoms: seq<AnalysisAtom>) {
    && Overlaps(segment.range, signal.range)
    && atoms != [] && forall i :: 0 <= i < |atoms| ==> atoms[i].blockId == signal.blockId
  }

  function MapSignal(signal: Signal, segment: AnalysisSegment, atoms: seq<AnalysisAtom>): Option<MappedSignal> {
    var ids := OverlappingIds(signal, atoms);
    if ids == [] then None
    else
      var basis := if CanUseSegmentOffsetOverlap(signal, segment, atoms) then OffsetOverlap else AtomMembership;
      Some(MappedSignal(signal.id, signal.severity, ids, basis))
  }

  predicate IsValidSignalRange(range: TextRange) {
    range.start < range.end
  }

  // The segment holds an atom of the signal's block that overlaps the signal.
  ghost predicate Hits(signal: Signal, segment: AnalysisSegment, byId: map<AtomId, AnalysisAtom>) {
    exists i :: 0 <= i < |segment.atomIds| && segment.atomIds[i] in byId && Touches(signal, byId[segment.atomIds[i]])
  }

  lemma {:induction false} MapSignalHits(signal: Signal, segment: AnalysisSegment, byId: map<AtomId, AnalysisAtom>)
    ensures MapSignal(signal, segment, SegmentAtoms(byId, segment.atomIds)).Some? <==> Hits(signal, segment, byId)
  {
    var atoms := SegmentAtoms(byId, segment.atomIds);
    SegmentAtomsMembers(byId, segment.atomIds);
    if Hits(signal, segment, byId) {
      var i :| 0 <= i < |segment.atomIds| && segment.atomIds[i] in byId && Touches(signal, byId[segment.atomIds[i]]);
      assert byId[segment.atomIds[i]] in atoms;
    }
    if OverlappingIds(signal, atoms) != [] {
      var a :| a in atoms && Touches(signal, a);
      var i :| 0 <= i < |segment.atomIds| && segment.atomIds[i] in byId && byId[segment.atomIds[i]] == a;
    }
  }

  // A segment that holds atoms of several blocks maps by atom membership, whatever its range.
  lemma {:induction false} MixedByMembership(signal: Signal, segment: AnalysisSegment, byId: map<AtomId, AnalysisAtom>, i: nat)
    requires Hits(signal, segment, byId)
    requires i < |segment.atomIds| && segment.atomIds[i] in byId && byId[segment.atomIds[i]].blockId != signal.blockId
    ensures var mapped := MapSignal(signal, segment, SegmentAtoms(byId, segment.atomIds));
            mapped.Some? && mapped.value.id == signal.id && mapped.value.basis == AtomMembership
  {
    var atoms := SegmentAtoms(byId, segment.atomIds);
    MapSignalHits(signal, segment, byId);
    SegmentAtomsMembers(byId, segment.atomIds);
    var k :| 0 <= k < |atoms| && atoms[k] == byId[segment.atomIds[i]];
    assert !CanUseSegmentOffsetOverlap(signal, segment, atoms);
  }

  // ---------------------------------------------------------------- specification of the whole join

  function FilterInput(signals: seq<Signal>, inputId: string): (kept: seq<Signal>)
    ensures forall s :: s in kept <==> s in signals && s.inputId == inputId
  {
    if signals == [] then []
    else
      var n := |signals| - 1;
      assert forall s :: s in signals <==> s in signals[..n] || s == signals[n];
      FilterInput(signals[..n], inputId) + if signals[n].inputId == inputId then [signals[n]] else []
  }

  predicate HasId(signals: seq<Signal>, id: Scanner.SignalId) {
    exists i :: 0 <= i < |signals| && signals[i].id == id
  }

  // The first signal with each id, in order.
  function Dedupe(signals: seq<Signal>): seq<Signal> {
    if signals == [] then []
    else
      var n := |signals| - 1;
      Dedupe(signals[..n]) + if HasId(signals[..n], signals[n].id) then [] else [signals[n]]
  }

  ghost predicate DistinctSignals(signals: seq<Signal>) {
    forall i, j :: 0 <= i < j < |signals| ==> signals[i].id != signals[j].id
  }

  lemma {:induction false} DedupeKeepsIds(signals: seq<Signal>, id: Scanner.SignalId)
    ensures HasId(Dedupe(signals), id) <==> HasId(signals, id)
  {
    if signals != [] {
      var n := |signals| - 1;
      var before := Dedupe(signals[..n]);
      DedupeKeepsIds(signals[..n], id);
      HasIdLast(signals, id);
      if HasId(signals[..n], signals[n].id) {
        assert Dedupe(signals) == before;
      } else {
        assert Dedupe(signals) == before + [signals[n]];
        HasIdLast(before + [signals[n]], id);
        assert (before + [signals[n]])[..|before|] == before;
      }
    }
  }

  lemma {:induction false} HasIdLast(signals: seq<Signal>, id: Scanner.SignalId)
    requires signals != []
    ensures HasId(signals, id) <==> HasId(signals[..|signals| - 1], id) || signals[|signals| - 1].id == id
  {
    var init := signals[..|signals| - 1];
    assert forall i :: 0 <= i < |init| ==> init[i] == signals[i];
  }

  lemma {:induction false} DedupeDistinct(signals: seq<Signal>)
    ensures DistinctSignals(Dedupe(signals))
  {
    if signals != [] {
      var n := |signals| - 1;
      DedupeDistinct(signals[..n]);
      DedupeKeepsIds(signals[..n], signals[n].id);
      var before := Dedupe(signals[..n]);
      if !HasId(signals[..n], signals[n].id) {
        forall i | 0 <= i < |before| ensures before[i].id != signals[n].id { assert !HasId(before, signals[n].id); }
      }
    }
  }

  // What deduplication keeps is the first signal of its id.
  lemma {:induction false} DedupeKeepsFirst(signals: seq<Signal>, s: nat)
    requires s < |signals| && !HasId(signals[..s], signals[s].id)
    ensures signals[s] in Dedupe(signals)
    decreases |signals|
  {
    var n := |signals| - 1;
    if s < n {
      assert signals[..n][..s] == signals[..s];
      DedupeKeepsFirst(signals[..n], s);
    }
  }

  // A segment claims a signal when it is the first to hold an overlapping atom (any that does, when several are allowed).
  ghost predicate Claims(signal: Signal, segments: seq<AnalysisSegment>, k: nat, byId: map<AtomId, AnalysisAtom>, allowMultiple: bool)
    requires k < |segments|
  {
    && IsValidSignalRange(signal.range)
    && Hits(signal, segments[k], byId)
    && (allowMultiple || forall j :: 0 <= j < k ==> !Hits(signal, segments[j], byId))
  }

  ghost predicate SomeHit(signal: Signal, segments: seq<AnalysisSegment>, k: nat, byId: map<AtomId, AnalysisAtom>)
    requires k <= |segments|
  {
    IsValidSignalRange(signal.range) && exists j :: 0 <= j < k && Hits(signal, segments[j], byId)
  }

  // What segment k's signal set holds, in the order of the signals.
  ghost function Claimed(signals: seq<Signal>, segments: seq<AnalysisSegment>, k: nat, byId: map<AtomId, AnalysisAtom>, allowMultiple: bool): seq<MappedSignal>
    requires k < |segments|
  {
    if signals == [] then []
    else
      var n := |signals| - 1;
      var mapped := MapSignal(signals[n], segments[k], SegmentAtoms(byId, segments[k].atomIds));
      Claimed(signals[..n], segments, k, byId, allowMultiple)
      + if Claims(signals[n], segments, k, byId, allowMultiple) && mapped.Some? then [mapped.value] else []
  }

  function SeverityOrder(s: Severity): int {
    match s case Info => 0 case Low => 1 case Medium => 2 case High => 3 case Critical => 4
  }

  function MaxSeverity(signals: seq<MappedSignal>): (r: Option<Severity>)
    ensures r.None? <==> signals == []
    ensures r.Some? ==> exists i :: 0 <= i < |signals| && signals[i].severity == r.value
    ensures r.Some? ==> forall i :: 0 <= i < |signals| ==> SeverityOrder(signals[i].severity) <= SeverityOrder(r.value)
  {
    if signals == [] then None
    else
      var last := signals[|signals| - 1].severity;
      match MaxSeverity(signals[..|signals| - 1])
      case None => Some(last)
      case Some(s) => if SeverityOrder(last) > SeverityOrder(s) then Some(last) else Some(s)
  }

  predicate Graded(signals: seq<MappedSignal>, severity: Severity) {
    exists i :: 0 <= i < |signals| && signals[i].severity == severity
  }

  // The worst severity of a set, from critical down to info.
  lemma {:induction false} WorstSeverity(signals: seq<MappedSignal>)
    ensures MaxSeverity(signals)
            == if Graded(signals, Critical) then Some(Critical)
               else if Graded(signals, High) then Some(High)
               else if Graded(signals, Medium) then Some(Medium)
               else if Graded(signals, Low) then Some(Low)
               else if Graded(signals, Info) then Some(Info)
               else None
  {
    if signals != [] {
      var first := signals[0].severity;
      assert Graded(signals, first);
      var i :| 0 <= i < |signals| && signals[i].severity == MaxSeverity(signals).value;
      assert Graded(signals, signals[i].severity);
    }
  }

  function MappedIds(signals: seq<MappedSignal>): (ids: seq<Scanner.SignalId>)
    ensures |ids| == |signals| && forall i :: 0 <= i < |signals| ==> ids[i] == signals[i].id
  {
    if signals == [] then [] else MappedIds(signals[..|signals| - 1]) + [signals[|signals| - 1].id]
  }

  // ---------------------------------------------------------------- the loops

  method DedupeSignalsById(signals: seq<Signal>) returns (deduped: seq<Signal>)
    ensures deduped == Dedupe(signals)
  {
    deduped := [];
    var seen: set<Scanner.SignalId> := {};
    for s := 0 to |signals|
      invariant deduped == Dedupe(signals[..s])
      invariant forall id :: id in seen <==> HasId(signals[..s], id)
    {
      assert signals[..s + 1][..s] == signals[..s];
      forall id ensures HasId(signals[..s + 1], id) <==> HasId(signals[..s], id) || signals[s].id == id {
        HasIdLast(signals[..s + 1], id);
      }
      if signals[s].id in seen { continue; }
      seen := seen + {signals[s].id};
      deduped := deduped + [signals[s]];
    }
    assert signals[..|signals|] == signals;
  }

  // assigned_signal_ids before segment k: the ids of the signals some earlier segment holds.
  ghost predicate AssignedBefore(assignedIds: set<Scanner.SignalId>, signals: seq<Signal>, segments: seq<AnalysisSegment>, k: nat, byId: map<AtomId, AnalysisAtom>)
    requires k <= |segments|
  {
    forall s :: 0 <= s < |signals| ==> (signals[s].id in assignedIds <==> SomeHit(signals[s], segments, k, byId))
  }

  // The assigned ids within segment k: the first n signals are up to date with it, the others not yet.
  ghost predicate AssignedWithin(ids: set<Scanner.SignalId>, before: set<Scanner.SignalId>, signals: seq<Signal>,
                                 segments: seq<AnalysisSegment>, k: nat, byId: map<AtomId, AnalysisAtom>, n: nat)
    requires k < |segments| && n <= |signals|
  {
    && (forall i :: n <= i < |signals| ==> (signals[i].id in ids <==> signals[i].id in before))
    && (forall i :: 0 <= i < n ==> (signals[i].id in ids <==> SomeHit(signals[i], segments, k + 1, byId)))
  }

  lemma {:induction false} AssignedNext(ids: set<Scanner.SignalId>, before: set<Scanner.SignalId>, signals: seq<Signal>,
                                        segments: seq<AnalysisSegment>, k: nat, byId: map<AtomId, AnalysisAtom>, n: nat, mapped: bool)
    requires k < |segments| && n < |signals| && DistinctSignals(signals)
    requires AssignedWithin(ids, before, signals, segments, k, byId, n)
    requires mapped || signals[n].id in before <==> SomeHit(signals[n], segments, k + 1, byId)
    ensures AssignedWithin(if mapped then ids + {signals[n].id} else ids, before, signals, segments, k, byId, n + 1)
  {
  }

  // The list of mapped signals and the grown set of assigned ids after segment k.
  method MapSegmentSignals(
    segments: seq<AnalysisSegment>, k: nat, signals: seq<Signal>, byId: map<AtomId, AnalysisAtom>, allowMultiple: bool,
    assignedIds: set<Scanner.SignalId>) returns (signalSet: SegmentSignalSet, assignedIds': set<Scanner.SignalId>)
    requires k < |segments|
    requires DistinctSignals(signals)
    requires AssignedBefore(assignedIds, signals, segments, k, byId)
    ensures SetFor(signalSet, signals, segments, k, byId, allowMultiple)
    ensures AssignedBefore(assignedIds', signals, segments, k + 1, byId)
  {
    var segment := segments[k];
    var segmentAtoms := SegmentAtoms(byId, segment.atomIds);
    var mapped: seq<MappedSignal> := [];
    assignedIds' := assignedIds;
    for s := 0 to |signals|
      invariant mapped == Claimed(signals[..s], segments, k, byId, allowMultiple)
      invariant AssignedWithin(assignedIds', assignedIds, signals, segments, k, byId, s)
    {
      assert signals[..s + 1][..s] == signals[..s];
      var signal := signals[s];
      MapSignalHits(signal, segment, byId);
      NextHit(signal, segments, k, byId);
      AssignedNext(assignedIds', assignedIds, signals, segments, k, byId, s,
                   (allowMultiple || signal.id !in assignedIds') && IsValidSignalRange(signal.range) && Hits(signal, segment, byId));
      if !allowMultiple && signal.id in assignedIds' { continue; }
      if !IsValidSignalRange(signal.range) { continue; }
      var mappedSignal := MapSignal(signal, segment, segmentAtoms);
      if mappedSignal.Some? {
        mapped := mapped + [mappedSignal.value];
        assignedIds' := assignedIds' + {signal.id};
      }
    }
    assert signals[..|signals|] == signals;
    signalSet := SegmentSignalSet(segment.id, MappedIds(mapped), mapped, MaxSeverity(mapped), |mapped|);
  }

  lemma {:induction false} NextHit(signal: Signal, segments: seq<AnalysisSegment>, k: nat, byId: map<AtomId, AnalysisAtom>)
    requires k < |segments|
    ensures SomeHit(signal, segments, k + 1, byId) <==>
      SomeHit(signal, segments, k, byId) || (IsValidSignalRange(signal.range) && Hits(signal, segments[k], byId))
  {
  }

  // The signal set of segment k is made of what the segment claims.
  ghost predicate SetFor(signalSet: SegmentSignalSet, signals: seq<Signal>, segments: seq<AnalysisSegment>, k: nat,
                         byId: map<AtomId, AnalysisAtom>, allowMultiple: bool)
    requires k < |segments|
  {
    && signalSet.segmentId == segments[k].id
    && signalSet.signals == Claimed(signals, segments, k, byId, allowMultiple)
    && signalSet.signalIds == MappedIds(signalSet.signals)
    && signalSet.signalCount == |signalSet.signals|
    && signalSet.maxSeverity == MaxSeverity(signalSet.signals)
  }

  method MapSignalsToSegments(
    inputId: string, segments: seq<AnalysisSegment>, atoms: seq<AnalysisAtom>, lexicalSignals: seq<Signal>, allowMultiple: bool)
    returns (signalSets: seq<SegmentSignalSet>)
    ensures |signalSets| == |segments|
    ensures forall k :: 0 <= k < |segments| ==>
      SetFor(signalSets[k], Dedupe(FilterInput(lexicalSignals, inputId)), segments, k, AtomsById(atoms), allowMultiple)
  {
    var byId := AtomsById(atoms);
    var signals := DedupeSignalsById(FilterInput(lexicalSignals, inputId));
    DedupeDistinct(FilterInput(lexicalSignals, inputId));
    var assignedIds: set<Scanner.SignalId> := {};
    signalSets := [];
    for k := 0 to |segments|
      invariant |signalSets| == k
      invariant AssignedBefore(assignedIds, signals, segments, k, byId)
      invariant forall j :: 0 <= j < k ==> SetFor(signalSets[j], signals, segments, j, byId, allowMultiple)
    {
      var signalSet;
      signalSet, assignedIds := MapSegmentSignals(segments, k, signals, byId, allowMultiple, assignedIds);
      signalSets := signalSets + [signalSet];
    }
  }

  // ---------------------------------------------------------------- exactly one segment for every signal that hits

  predicate MappedId(mapped: seq<MappedSignal>, id: Scanner.SignalId) {
    exists i :: 0 <= i < |mapped| && mapped[i].id == id
  }

  lemma {:induction false} ClaimedFrom(
    signals: seq<Signal>, segments: seq<AnalysisSegment>, k: nat, byId: map<AtomId, AnalysisAtom>, allowMultiple: bool, id: Scanner.SignalId)
    requires k < |segments| && MappedId(Claimed(signals, segments, k, byId, allowMultiple), id)
    ensures HasId(signals, id)
  {
    if signals != [] {
      var n := |signals| - 1;
      HasIdLast(signals, id);
      if id != signals[n].id {
        var claimed, before := Claimed(signals, segments, k, byId, allowMultiple), Claimed(signals[..n], segments, k, byId, allowMultiple);
        var i :| 0 <= i < |claimed| && claimed[i].id == id;
        assert i < |before| && before[i].id == id;
        ClaimedFrom(signals[..n], segments, k, byId, allowMultiple, id);
      }
    }
  }

  // At most one entry carries the id, and it is this one.
  ghost predicate OnlyEntry(mapped: seq<MappedSignal>, entry: MappedSignal) {
    exists i :: 0 <= i < |mapped| && mapped[i] == entry && forall j :: 0 <= j < |mapped| && mapped[j].id == entry.id ==> j == i
  }

  // What segment k's set says about one signal: there once, mapped as the segment maps it, if claimed; otherwise not at all.
  ghost predicate SaysRightly(claimed: seq<MappedSignal>, signal: Signal, segments: seq<AnalysisSegment>, k: nat, byId: map<AtomId, AnalysisAtom>, allowMultiple: bool)
    requires k < |segments|
  {
    var mapped := MapSignal(signal, segments[k], SegmentAtoms(byId, segments[k].atomIds));
    if Claims(signal, segments, k, byId, allowMultiple)
    then mapped.Some? && OnlyEntry(claimed, mapped.value)
    else !MappedId(claimed, signal.id)
  }

  lemma {:induction false} OnlyEntryAppend(mapped: seq<MappedSignal>, entry: MappedSignal, next: seq<MappedSignal>)
    requires OnlyEntry(mapped, entry) && forall i :: 0 <= i < |next| ==> next[i].id != entry.id
    ensures OnlyEntry(mapped + next, entry)
  {
    var i :| 0 <= i < |mapped| && mapped[i] == entry && forall j :: 0 <= j < |mapped| && mapped[j].id == entry.id ==> j == i;
    assert (mapped + next)[i] == entry;
  }

  lemma {:induction false} NotMappedAppend(mapped: seq<MappedSignal>, id: Scanner.SignalId, next: seq<MappedSignal>)
    requires !MappedId(mapped, id) && forall i :: 0 <= i < |next| ==> next[i].id != id
    ensures !MappedId(mapped + next, id)
  {
  }

  lemma {:induction false} NotClaimedYet(signals: seq<Signal>, segments: seq<AnalysisSegment>, k: nat, byId: map<AtomId, AnalysisAtom>, allowMultiple: bool)
    requires k < |segments| && signals != [] && DistinctSignals(signals)
    ensures !MappedId(Claimed(signals[..|signals| - 1], segments, k, byId, allowMultiple), signals[|signals| - 1].id)
  {
    var n := |signals| - 1;
    if MappedId(Claimed(signals[..n], segments, k, byId, allowMultiple), signals[n].id) {
      ClaimedFrom(signals[..n], segments, k, byId, allowMultiple, signals[n].id);
    }
  }

  // A set holds a signal exactly when its segment claims it.
  lemma {:induction false} ClaimedExactly(
    signals: seq<Signal>, s: nat, segments: seq<AnalysisSegment>, k: nat, byId: map<AtomId, AnalysisAtom>, allowMultiple: bool)
    requires k < |segments| && s < |signals| && DistinctSignals(signals)
    ensures SaysRightly(Claimed(signals, segments, k, byId, allowMultiple), signals[s], segments, k, byId, allowMultiple)
  {
    var n := |signals| - 1;
    var before := Claimed(signals[..n], segments, k, byId, allowMultiple);
    var mapped := MapSignal(signals[n], segments[k], SegmentAtoms(byId, segments[k].atomIds));
    var next := if Claims(signals[n], segments, k, byId, allowMultiple) && mapped.Some? then [mapped.value] else [];
    if s < n {
      ClaimedExactly(signals[..n], s, segments, k, byId, allowMultiple);
      assert signals[s].id != signals[n].id;
      var earlier := MapSignal(signals[s], segments[k], SegmentAtoms(byId, segments[k].atomIds));
      if Claims(signals[s], segments, k, byId, allowMultiple) {
        OnlyEntryAppend(before, earlier.value, next);
      } else {
        NotMappedAppend(before, signals[s].id, next);
      }
    } else {
      MapSignalHits(signals[n], segments[k], byId);
      NotClaimedYet(signals, segments, k, byId, allowMultiple);
      if Claims(signals[n], segments, k, byId, allowMultiple) {
        NewEntry(before, mapped.value);
      }
    }
  }

  lemma {:induction false} NewEntry(mapped: seq<MappedSignal>, entry: MappedSignal)
    requires !MappedId(mapped, entry.id)
    ensures OnlyEntry(mapped + [entry], entry)
  {
    assert (mapped + [entry])[|mapped|] == entry;
    assert forall j :: 0 <= j < |mapped| ==> mapped[j].id != entry.id;
  }

  // With single matches, one segment claims the signal if any segment is hit: the first; and no other does.
  lemma {:induction false} OneSegmentClaims(signal: Signal, segments: seq<AnalysisSegment>, byId: map<AtomId, AnalysisAtom>, hit: nat)
    returns (first: nat)
    requires IsValidSignalRange(signal.range) && hit < |segments| && Hits(signal, segments[hit], byId)
    ensures first <= hit && Claims(signal, segments, first, byId, false)
    ensures forall k :: 0 <= k < |segments| && k != first ==> !Claims(signal, segments, k, byId, false)
  {
    first := 0;
    while !Hits(signal, segments[first], byId)
      invariant first <= hit && forall j :: 0 <= j < first ==> !Hits(signal, segments[j], byId)
      decreases hit - first
    {
      first := first + 1;
    }
  }

  // The signal sets hold a signal exactly when some segment holds an atom that it overlaps.
  lemma {:induction false} MappedExactlyWhenHit(
    signals: seq<Signal>, s: nat, segments: seq<AnalysisSegment>, byId: map<AtomId, AnalysisAtom>, allowMultiple: bool,
    signalSets: seq<SegmentSignalSet>)
    requires |signalSets| == |segments| && s < |signals| && DistinctSignals(signals)
    requires forall k :: 0 <= k < |segments| ==> SetFor(signalSets[k], signals, segments, k, byId, allowMultiple)
    ensures (exists k :: 0 <= k < |segments| && MappedId(signalSets[k].signals, signals[s].id))
            <==> SomeHit(signals[s], segments, |segments|, byId)
  {
    var signal := signals[s];
    forall k | 0 <= k < |segments|
      ensures MappedId(signalSets[k].signals, signal.id) <==> Claims(signal, segments, k, byId, allowMultiple)
    {
      assert SetFor(signalSets[k], signals, segments, k, byId, allowMultiple);
      ClaimedExactly(signals, s, segments, k, byId, allowMultiple);
    }
    if SomeHit(signal, segments, |segments|, byId) {
      var hit :| 0 <= hit < |segments| && Hits(signal, segments[hit], byId);
      var first := OneSegmentClaims(signal, segments, byId, hit);
      assert MappedId(signalSets[first].signals, signal.id);
    }
  }
}
