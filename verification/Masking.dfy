// Choosing and applying placeholders (apps/api/app/masking/placeholder.py).
module Masking {
  import opened Spans
  import Sorting

  datatype Detection = Detection(detectorKey: string, category: string, start: int, end: int, placeholder: string, valueLength: int) {
    function Range(): TextRange { TextRange(start, end) }

    function Length(): int { end - start }
  }

  predicate ValidDetection(d: Detection) {
    0 <= d.start < d.end
  }

  predicate Collide(a: Detection, b: Detection) {
    Overlaps(a.Range(), b.Range())
  }

  // ---------------------------------------------------------------- sort keys

  // Python's order on strings.
  predicate StringLeq(a: string, b: string) {
    if a == "" then true
    else if b == "" then false
    else if a[0] != b[0] then a[0] < b[0]
    else StringLeq(a[1..], b[1..])
  }

  lemma {:induction false} StringLeqTotal(a: string, b: string)
    ensures StringLeq(a, b) || StringLeq(b, a)
  {
    if a != "" && b != "" && a[0] == b[0] { StringLeqTotal(a[1..], b[1..]); }
  }

  lemma {:induction false} StringLeqTransitive(a: string, b: string, c: string)
    requires StringLeq(a, b) && StringLeq(b, c)
    ensures StringLeq(a, c)
  {
    if a != "" && b != "" && c != "" && a[0] == b[0] == c[0] { StringLeqTransitive(a[1..], b[1..], c[1..]); }
  }

  // The order is decided at the first place where the strings differ, and a string comes before its extensions.
  lemma {:induction false} StringLeqDecided(a: string, b: string, i: nat)
    requires i <= |a| && i <= |b| && a[..i] == b[..i]
    ensures i < |a| && i < |b| && a[i] < b[i] ==> StringLeq(a, b) && !StringLeq(b, a)
    ensures i == |a| < |b| ==> StringLeq(a, b) && !StringLeq(b, a)
  {
    if i > 0 {
      assert a[0] == a[..i][0] == b[..i][0] == b[0];
      assert a[1..][..i - 1] == a[..i][1..] && b[1..][..i - 1] == b[..i][1..];
      StringLeqDecided(a[1..], b[1..], i - 1);
    }
  }

  // key=(-(end - start), start, detector_key)
  predicate LongestFirst(a: Detection, b: Detection) {
    if a.Length() != b.Length() then a.Length() > b.Length()
    else if a.start != b.start then a.start < b.start
    else StringLeq(a.detectorKey, b.detectorKey)
  }

  predicate StartFirst(a: Detection, b: Detection) {
    a.start <= b.start
  }

  lemma {:induction false} LongestFirstOrders()
    ensures Sorting.TotalPreorder(LongestFirst)
  {
    forall a, b ensures LongestFirst(a, b) || LongestFirst(b, a) {
      StringLeqTotal(a.detectorKey, b.detectorKey);
    }
    forall a, b, c | LongestFirst(a, b) && LongestFirst(b, c) ensures LongestFirst(a, c) {
      if StringLeq(a.detectorKey, b.detectorKey) && StringLeq(b.detectorKey, c.detectorKey) {
        StringLeqTransitive(a.detectorKey, b.detectorKey, c.detectorKey);
      }
    }
  }

  // ---------------------------------------------------------------- longest-first selection

  predicate Free(d: Detection, accepted: seq<Detection>) {
    ValidDetection(d) && forall i :: 0 <= i < |accepted| ==> !Collide(d, accepted[i])
  }

  // The accepted detections after the loop has seen this prefix.
  function Accept(ordered: seq<Detection>): seq<Detection> {
    if ordered == [] then []
    else
      var n := |ordered| - 1;
      var before := Accept(ordered[..n]);
      if Free(ordered[n], before) then before + [ordered[n]] else before
  }

  predicate Disjoint(ds: seq<Detection>) {
    forall i, j :: 0 <= i < j < |ds| ==> !Collide(ds[i], ds[j])
  }

  lemma {:induction false} AcceptFacts(ordered: seq<Detection>)
    ensures Disjoint(Accept(ordered))
    ensures forall i :: 0 <= i < |Accept(ordered)| ==> ValidDetection(Accept(ordered)[i]) && Accept(ordered)[i] in ordered
  {
    if ordered != [] {
      var n := |ordered| - 1;
      AcceptFacts(ordered[..n]);
      assert forall d :: d in ordered[..n] ==> d in ordered;
    }
  }

  // The winner is longer than d, or as long and starts earlier, or starts there too and has a key that is not greater.
  predicate NotAfter(winner: Detection, d: Detection) {
    || winner.end - winner.start > d.end - d.start
    || (winner.end - winner.start == d.end - d.start && winner.start < d.start)
    || (winner.end == d.end && winner.start == d.start && StringLeq(winner.detectorKey, d.detectorKey))
  }

  // A valid detection that is passed over collides with an accepted one that does not come after it in the order.
  lemma {:induction false} AcceptBlocks(ordered: seq<Detection>, d: Detection)
    requires Sorting.SortedBy(ordered, LongestFirst) && d in ordered && ValidDetection(d)
    ensures exists i :: 0 <= i < |Accept(ordered)| && Collide(d, Accept(ordered)[i]) && NotAfter(Accept(ordered)[i], d)
  {
    var n := |ordered| - 1;
    var before, all := Accept(ordered[..n]), Accept(ordered);
    AcceptFacts(ordered[..n]);
    if d in ordered[..n] {
      AcceptBlocks(ordered[..n], d);
      var i :| 0 <= i < |before| && Collide(d, before[i]) && NotAfter(before[i], d);
      assert all[i] == before[i];
    } else if Free(d, before) {
      StringLeqTotal(d.detectorKey, d.detectorKey);
      assert all[|before|] == d && Collide(d, all[|before|]);
    } else {
      var i :| 0 <= i < |before| && Collide(d, before[i]);
      var j :| 0 <= j < n && ordered[..n][j] == before[i];
      assert LongestFirst(ordered[j], ordered[n]);
      assert all[i] == before[i];
    }
  }

  function Selected(detections: seq<Detection>): seq<Detection> {
    Sorting.Sort(Accept(Sorting.Sort(detections, LongestFirst)), StartFirst)
  }

  method NonOverlappingDetections(detections: seq<Detection>) returns (accepted: seq<Detection>)
    ensures accepted == Selected(detections)
  {
    var ordered := Sorting.Sort(detections, LongestFirst);
    accepted := [];
    for i := 0 to |ordered|
      invariant accepted == Accept(ordered[..i])
    {
      assert ordered[..i + 1][..i] == ordered[..i];
      var detection := ordered[i];
      if detection.start < 0 || detection.end <= detection.start { continue; }
      if exists k :: 0 <= k < |accepted| && detection.start < accepted[k].end && accepted[k].start < detection.end { continue; }
      accepted := accepted + [detection];
    }
    assert ordered[..|ordered|] == ordered;
    accepted := Sorting.Sort(accepted, StartFirst);
  }

  // Left to right, valid, no two colliding: what the replacement loop relies on.
  ghost predicate Ranges(ds: seq<Detection>) {
    && (forall i :: 0 <= i < |ds| ==> ValidDetection(ds[i]))
    && (forall i, j :: 0 <= i < j < |ds| ==> ds[i].end <= ds[j].start)
  }

  lemma {:induction false} SelectedRanges(detections: seq<Detection>)
    ensures Ranges(Selected(detections))
    ensures forall d :: d in Selected(detections) ==> d in detections
  {
    var ordered := Sorting.Sort(detections, LongestFirst);
    var accepted := Accept(ordered);
    Sorting.SortPermutes(detections, LongestFirst);
    AcceptFacts(ordered);
    Sorting.SortPermutes(accepted, StartFirst);
    Sorting.SortSorted(accepted, StartFirst);
    var s := Selected(detections);
    assert forall i :: 0 <= i < |s| ==> s[i] in accepted;
    SortedDisjoint(accepted, s);
  }

  lemma {:induction false} SortedDisjoint(accepted: seq<Detection>, s: seq<Detection>)
    requires Disjoint(accepted) && multiset(accepted) == multiset(s)
    requires forall i :: 0 <= i < |accepted| ==> ValidDetection(accepted[i])
    requires forall i :: 0 <= i < |s| ==> s[i] in accepted
    requires Sorting.SortedBy(s, StartFirst)
    ensures Ranges(s)
  {
    forall i, j | 0 <= i < j < |s| ensures s[i].end <= s[j].start {
      OneCopy(accepted, s[i]);
      if s[i] == s[j] {
        Sorting.OccursTwice(s, i, j);
      }
      assert StartFirst(s[i], s[j]);
    }
  }

  lemma {:induction false} OneCopy(ds: seq<Detection>, d: Detection)
    requires Disjoint(ds) && d in ds && ValidDetection(d)
    ensures multiset(ds)[d] == 1
  {
    var p :| 0 <= p < |ds| && ds[p] == d;
    forall i | 0 <= i < |ds| && i != p ensures ds[i] != d {
      if i < p { assert !Collide(ds[i], ds[p]); } else { assert !Collide(ds[p], ds[i]); }
    }
    Sorting.OccursOnce(ds, p);
  }

  // Every valid detection collides with a selected one that does not come after it: itself, if it was selected.
  lemma {:induction false} SelectedBlocks(detections: seq<Detection>, d: Detection) returns (winner: Detection)
    requires d in detections && ValidDetection(d)
    ensures winner in Selected(detections) && d.start < winner.end && winner.start < d.end && NotAfter(winner, d)
  {
    var ordered := Sorting.Sort(detections, LongestFirst);
    LongestFirstOrders();
    Sorting.SortPermutes(detections, LongestFirst);
    Sorting.SortSorted(detections, LongestFirst);
    AcceptBlocks(ordered, d);
    var accepted := Accept(ordered);
    var i :| 0 <= i < |accepted| && Collide(d, accepted[i]) && NotAfter(accepted[i], d);
    winner := accepted[i];
    Sorting.SortPermutes(accepted, StartFirst);
    assert winner in accepted;
  }

  // ---------------------------------------------------------------- equal sort keys

  predicate SameKey(a: Detection, b: Detection) {
    a.start == b.start && a.end == b.end && a.detectorKey == b.detectorKey
  }

  lemma {:induction false} AcceptCollides(ordered: seq<Detection>, d: Detection)
    requires d in ordered && ValidDetection(d)
    ensures exists i :: 0 <= i < |Accept(ordered)| && Collide(d, Accept(ordered)[i])
  {
    var n := |ordered| - 1;
    var before, all := Accept(ordered[..n]), Accept(ordered);
    if d in ordered[..n] {
      AcceptCollides(ordered[..n], d);
      var i :| 0 <= i < |before| && Collide(d, before[i]);
      assert all[i] == before[i];
    } else if Free(d, before) {
      assert all[|before|] == d;
    } else {
      var i :| 0 <= i < |before| && Collide(d, before[i]);
      assert all[i] == before[i];
    }
  }

  lemma {:induction false} FreeIsFirst(ordered: seq<Detection>, d: Detection)
    requires Free(d, Accept(ordered))
    ensures forall e :: e in ordered ==> !SameKey(e, d)
  {
    forall e | e in ordered ensures !SameKey(e, d) {
      if SameKey(e, d) { AcceptCollides(ordered, e); }
    }
  }

  // Of valid detections with one key, which all cover one range, the first in the order of the loop stands for all.
  lemma {:induction false} AcceptTakesFirst(ordered: seq<Detection>, d: Detection)
    requires d in Accept(ordered)
    ensures var equal := Sorting.Filter(ordered, x => SameKey(x, d)); equal != [] && equal[0] == d
  {
    var n := |ordered| - 1;
    var keep := x => SameKey(x, d);
    assert ordered == ordered[..n] + [ordered[n]];
    Sorting.FilterAppend(ordered[..n], ordered[n], keep);
    if d in Accept(ordered[..n]) {
      AcceptTakesFirst(ordered[..n], d);
    } else {
      FreeIsFirst(ordered[..n], d);
      Sorting.FilterNone(ordered[..n], keep);
    }
  }

  // Ties are decided by the order of the input: of the detections with one start, end and key only the first can be
  // selected.
  lemma {:induction false} FirstOfEqualsSelected(detections: seq<Detection>, d: Detection)
    requires d in Selected(detections)
    ensures var equal := Sorting.Filter(detections, x => SameKey(x, d)); equal != [] && equal[0] == d
  {
    var ordered, keep := Sorting.Sort(detections, LongestFirst), x => SameKey(x, d);
    Sorting.SortPermutes(Accept(ordered), StartFirst);
    AcceptTakesFirst(ordered, d);
    forall x, y | x in detections && y in detections && keep(x) && keep(y) ensures LongestFirst(x, y) {
      StringLeqTotal(x.detectorKey, y.detectorKey);
    }
    Sorting.SortStable(detections, LongestFirst, keep);
  }

  // ---------------------------------------------------------------- how much longest-first gives away

  function TotalLength(ds: seq<Detection>): int {
    if ds == [] then 0 else TotalLength(ds[..|ds| - 1]) + ds[|ds| - 1].Length()
  }

  function Interval(lo: int, hi: int): set<int> {
    set i | lo <= i < hi && TextRange(lo, hi).Contains(i)
  }

  lemma {:induction false} IntervalSize(lo: int, hi: int)
    requires lo <= hi
    ensures |Interval(lo, hi)| == hi - lo
    decreases hi - lo
  {
    if lo < hi {
      IntervalSize(lo, hi - 1);
      assert Interval(lo, hi) == Interval(lo, hi - 1) + {hi - 1};
    }
  }

  // The text positions the detections cover.
  function Covered(ds: seq<Detection>): set<int> {
    if ds == [] then {} else Covered(ds[..|ds| - 1]) + Interval(ds[|ds| - 1].start, ds[|ds| - 1].end)
  }

  // The positions a detection at most as long could reach when it collides with one of these.
  function Reach(ds: seq<Detection>): set<int> {
    if ds == [] then {}
    else
      var last := ds[|ds| - 1];
      Reach(ds[..|ds| - 1]) + Interval(last.start - last.Length() + 1, last.end + last.Length() - 1)
  }

  lemma {:induction false} CoveredMember(ds: seq<Detection>, x: int)
    ensures x in Covered(ds) <==> exists i :: 0 <= i < |ds| && ds[i].Range().Contains(x)
  {
    if ds != [] {
      var n := |ds| - 1;
      CoveredMember(ds[..n], x);
      if x in Covered(ds[..n]) {
        var i :| 0 <= i < n && ds[..n][i].Range().Contains(x);
        assert ds[i].Range().Contains(x);
      } else if x in Covered(ds) {
        assert ds[n].Range().Contains(x);
      }
      if i :| 0 <= i < |ds| && ds[i].Range().Contains(x) {
        if i < n { assert ds[..n][i].Range().Contains(x); }
      }
    }
  }

  lemma {:induction false} ReachMember(ds: seq<Detection>, i: nat, x: int)
    requires i < |ds| && ds[i].start - ds[i].Length() < x < ds[i].end + ds[i].Length() - 1
    ensures x in Reach(ds)
  {
    if i < |ds| - 1 { ReachMember(ds[..|ds| - 1], i, x); }
  }

  lemma {:induction false} CoveredSize(ds: seq<Detection>)
    requires Disjoint(ds) && forall i :: 0 <= i < |ds| ==> ValidDetection(ds[i])
    ensures |Covered(ds)| == TotalLength(ds)
  {
    if ds != [] {
      var n := |ds| - 1;
      CoveredSize(ds[..n]);
      IntervalSize(ds[n].start, ds[n].end);
      forall x | x in Covered(ds[..n]) ensures x !in Interval(ds[n].start, ds[n].end) {
        CoveredMember(ds[..n], x);
        var i :| 0 <= i < n && ds[..n][i].Range().Contains(x);
        assert !Collide(ds[i], ds[n]);
      }
      assert Covered(ds[..n]) !! Interval(ds[n].start, ds[n].end);
    }
  }

  lemma {:induction false} ReachSize(ds: seq<Detection>)
    requires forall i :: 0 <= i < |ds| ==> ValidDetection(ds[i])
    ensures |Reach(ds)| <= 3 * TotalLength(ds) - 2 * |ds|
  {
    if ds != [] {
      var n := |ds| - 1;
      var last := ds[n];
      ReachSize(ds[..n]);
      IntervalSize(last.start - last.Length() + 1, last.end + last.Length() - 1);
    }
  }

  lemma {:induction false} SubsetSize(small: set<int>, large: set<int>)
    requires small <= large
    ensures |small| <= |large|
  {
    assert |large - small| + |small| == |large|;
  }

  // Longest-first keeps at least a third: no pairwise disjoint choice of valid detections covers more than three times
  // what the selection covers (and two characters less for every selected detection).
  lemma {:induction false} OneThird(detections: seq<Detection>, other: seq<Detection>)
    requires Disjoint(other)
    requires forall i :: 0 <= i < |other| ==> ValidDetection(other[i]) && other[i] in detections
    ensures TotalLength(other) <= 3 * TotalLength(Selected(detections)) - 2 * |Selected(detections)|
  {
    var chosen := Selected(detections);
    SelectedRanges(detections);
    CoveredSize(other);
    ReachSize(chosen);
    forall x | x in Covered(other) ensures x in Reach(chosen) {
      CoveredMember(other, x);
      var i :| 0 <= i < |other| && other[i].Range().Contains(x);
      var winner := SelectedBlocks(detections, other[i]);
      var w :| 0 <= w < |chosen| && chosen[w] == winner;
      ReachMember(chosen, w, x);
    }
    SubsetSize(Covered(other), Reach(chosen));
  }
}
