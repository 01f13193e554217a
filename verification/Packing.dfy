// Size enforcement: greedy packing of atoms into groups of at most max_chars
// (apps/api/app/segmenter/builder.py:203-228).
module Packing {
  import opened Spans
  import opened Atoms
  import opened Boundaries

  // A group that size enforcement leaves alone: it fits, or it is a single atom.
  predicate Acceptable(group: seq<AnalysisAtom>, maxChars: int) {
    |group| == 1 || Chars(group) <= maxChars
  }

  // Non-empty acceptable groups that give the atoms when put end to end.
  ghost predicate AcceptablePartition(parts: seq<seq<AnalysisAtom>>, atoms: seq<AnalysisAtom>, maxChars: int) {
    && Flatten(parts) == atoms
    && forall p :: 0 <= p < |parts| ==> parts[p] != [] && Acceptable(parts[p], maxChars)
  }

  // The state of the packing loop: groups already closed, and the one being filled.
  datatype PackState = PackState(closed: seq<seq<AnalysisAtom>>, current: seq<AnalysisAtom>)

  function Push(state: PackState, atom: AnalysisAtom, maxChars: int): PackState {
    if state.current != [] && Chars(state.current) + |atom.text| > maxChars
    then PackState(state.closed + [state.current], [atom])
    else PackState(state.closed, state.current + [atom])
  }

  function Pack(atoms: seq<AnalysisAtom>, maxChars: int): PackState {
    if atoms == [] then PackState([], [])
    else Push(Pack(atoms[..|atoms| - 1], maxChars), atoms[|atoms| - 1], maxChars)
  }

  function Packed(atoms: seq<AnalysisAtom>, maxChars: int): seq<seq<AnalysisAtom>> {
    var state := Pack(atoms, maxChars);
    if state.current == [] then state.closed else state.closed + [state.current]
  }

  lemma {:induction false} CharsConcat(left: seq<AnalysisAtom>, right: seq<AnalysisAtom>)
    ensures Chars(left + right) == Chars(left) + Chars(right)
    decreases |right|
  {
    if right == [] {
      assert left + right == left;
    } else {
      var n := |right| - 1;
      CharsConcat(left, right[..n]);
      assert (left + right)[..|left| + n] == left + right[..n];
    }
  }

  // A shorter suffix of the same atoms has no more characters.
  lemma {:induction false} CharsSuffix(atoms: seq<AnalysisAtom>, short: nat, long: nat)
    requires short <= long <= |atoms|
    ensures Chars(atoms[|atoms| - short..]) <= Chars(atoms[|atoms| - long..])
  {
    var s := atoms[|atoms| - long..];
    CharsConcat(s[..long - short], s[long - short..]);
    assert s == s[..long - short] + s[long - short..];
    assert s[long - short..] == atoms[|atoms| - short..];
  }

  // The groups made so far hold the atoms seen so far, in order, and are all acceptable.
  ghost predicate Holds(state: PackState, atoms: seq<AnalysisAtom>, maxChars: int) {
    && Flatten(state.closed) + state.current == atoms
    && (atoms != [] ==> state.current != [] && Acceptable(state.current, maxChars))
    && forall p :: 0 <= p < |state.closed| ==> state.closed[p] != [] && Acceptable(state.closed[p], maxChars)
  }

  lemma {:induction false} PushHolds(state: PackState, atoms: seq<AnalysisAtom>, atom: AnalysisAtom, maxChars: int)
    requires Holds(state, atoms, maxChars)
    ensures Holds(Push(state, atom, maxChars), atoms + [atom], maxChars)
  {
    CharsConcat(state.current, [atom]);
    assert [atom][..0] == [];
    assert (state.closed + [state.current])[..|state.closed|] == state.closed;
  }

  lemma {:induction false} PackKeepsAtoms(atoms: seq<AnalysisAtom>, maxChars: int)
    ensures Holds(Pack(atoms, maxChars), atoms, maxChars)
  {
    if atoms != [] {
      var n := |atoms| - 1;
      PackKeepsAtoms(atoms[..n], maxChars);
      PushHolds(Pack(atoms[..n], maxChars), atoms[..n], atoms[n], maxChars);
      assert atoms == atoms[..n] + [atoms[n]];
    }
  }

  lemma {:induction false} PackedIsPartition(atoms: seq<AnalysisAtom>, maxChars: int)
    ensures AcceptablePartition(Packed(atoms, maxChars), atoms, maxChars)
  {
    PackKeepsAtoms(atoms, maxChars);
    var s := Pack(atoms, maxChars);
    assert (s.closed + [s.current])[..|s.closed|] == s.closed;
  }

  // The same partition without the last atom.
  function DropLast(parts: seq<seq<AnalysisAtom>>): seq<seq<AnalysisAtom>>
    requires parts != [] && parts[|parts| - 1] != []
  {
    var n := |parts| - 1;
    if |parts[n]| == 1 then parts[..n] else parts[..n] + [parts[n][..|parts[n]| - 1]]
  }

  lemma {:induction false} DropLastIsPartition(parts: seq<seq<AnalysisAtom>>, atoms: seq<AnalysisAtom>, maxChars: int)
    requires atoms != [] && AcceptablePartition(parts, atoms, maxChars)
    ensures parts != [] && parts[|parts| - 1] != []
    ensures |parts[|parts| - 1]| <= |atoms| && parts[|parts| - 1] == atoms[|atoms| - |parts[|parts| - 1]|..]
    ensures AcceptablePartition(DropLast(parts), atoms[..|atoms| - 1], maxChars)
  {
    var n := |parts| - 1;
    var last := parts[n];
    assert Flatten(parts) == Flatten(parts[..n]) + last;
    var dropped := DropLast(parts);
    if |last| == 1 {
      assert Flatten(parts[..n]) == atoms[..|atoms| - 1];
    } else {
      var shorter := last[..|last| - 1];
      assert dropped[..n] == parts[..n];
      assert Flatten(dropped) == Flatten(parts[..n]) + shorter == atoms[..|atoms| - 1];
    }
  }

  // Greedy packing stays ahead: it never needs more groups than another acceptable partition, and when it needs as many,
  // its open group is no longer than the other's last one.
  lemma {:induction false} PackStaysAhead(atoms: seq<AnalysisAtom>, maxChars: int, parts: seq<seq<AnalysisAtom>>)
    requires atoms != [] && AcceptablePartition(parts, atoms, maxChars)
    ensures var s := Pack(atoms, maxChars);
            && parts != []
            && |s.closed| + 1 <= |parts|
            && (|s.closed| + 1 == |parts| ==> |s.current| <= |parts[|parts| - 1]|)
    decreases |atoms|
  {
    var n := |atoms| - 1;
    var before := atoms[..n];
    DropLastIsPartition(parts, atoms, maxChars);
    if n > 0 {
      var s, rest, last := Pack(before, maxChars), DropLast(parts), parts[|parts| - 1];
      PackStaysAhead(before, maxChars, rest);
      if |last| > 1 && |s.closed| + 1 == |rest| {
        PackKeepsAtoms(before, maxChars);
        DropLastIsPartition(rest, before, maxChars);
        CurrentFits(atoms, maxChars, s.current, last);
      }
    }
  }

  // The open group is a suffix of the other partition's last group, so one more atom still fits.
  lemma {:induction false} CurrentFits(atoms: seq<AnalysisAtom>, maxChars: int, current: seq<AnalysisAtom>, last: seq<AnalysisAtom>)
    requires atoms != [] && |current| < |last| <= |atoms|
    requires current == atoms[..|atoms| - 1][|atoms| - 1 - |current|..]
    requires last == atoms[|atoms| - |last|..] && Chars(last) <= maxChars
    ensures Chars(current) + |atoms[|atoms| - 1].text| <= maxChars
  {
    var grown := atoms[|atoms| - 1 - |current|..];
    assert grown[..|current|] == current;
    CharsSuffix(atoms, |current| + 1, |last|);
  }

  // Size enforcement uses the fewest groups: every partition into acceptable consecutive groups has at least as many.
  lemma {:induction false} PackedIsFewest(atoms: seq<AnalysisAtom>, maxChars: int, parts: seq<seq<AnalysisAtom>>)
    requires AcceptablePartition(parts, atoms, maxChars)
    ensures |Packed(atoms, maxChars)| <= |parts|
  {
    if atoms != [] {
      PackStaysAhead(atoms, maxChars, parts);
    }
  }

  // A group that fits is packed as it is, so leaving it alone is packing it.
  lemma {:induction false} FittingIsPackedWhole(atoms: seq<AnalysisAtom>, maxChars: int)
    requires atoms != [] && Chars(atoms) <= maxChars
    ensures Pack(atoms, maxChars) == PackState([], atoms) && Packed(atoms, maxChars) == [atoms]
  {
    var n := |atoms| - 1;
    if n > 0 {
      FittingIsPackedWhole(atoms[..n], maxChars);
    }
    assert atoms[..n] + [atoms[n]] == atoms;
  }
}
