// Live intervals: sorted ranges of life numbers, and splitting them.
module LiveIntervals {

  datatype Location = Nowhere | Reg(idx: nat) | Slot(idx: nat)

  // A range from b up to but not including e, and where its value is kept (an entry of locations_).
  datatype LiveRange = LiveRange(b: nat, e: nat, loc: Location)

  // The ranges of an instruction, in order, and the life numbers of its users.
  datatype LiveInterval = LiveInterval(ranges: seq<LiveRange>, usePoints: seq<nat>)

  predicate Contains(r: LiveRange, x: nat) {
    r.b <= x < r.e
  }

  ghost predicate Covers(ranges: seq<LiveRange>, x: nat) {
    exists k :: 0 <= k < |ranges| && Contains(ranges[k], x)
  }

  // Non-empty ranges, in order and without overlaps.
  ghost predicate Sorted(ranges: seq<LiveRange>) {
    && (forall k :: 0 <= k < |ranges| ==> ranges[k].b < ranges[k].e)
    && (forall j, k :: 0 <= j < k < |ranges| ==> ranges[j].e <= ranges[k].b)
  }

  ghost predicate WellFormed(ranges: seq<LiveRange>) {
    ranges != [] && Sorted(ranges)
  }

  function Startpoint(ranges: seq<LiveRange>): nat
    requires ranges != []
  {
    ranges[0].b
  }

  function Endpoint(ranges: seq<LiveRange>): nat
    requires ranges != []
  {
    ranges[|ranges| - 1].e
  }

  // LiveInterval::FindRangeCoveringOrAfter; a point before the start fails its assertion.
  method FindRangeCoveringOrAfter(was: seq<LiveRange>, point: nat) returns (ok: bool, ranges: seq<LiveRange>, k: nat)
    requires WellFormed(was)
    ensures ok <==> Startpoint(was) <= point
    ensures ok && point >= Endpoint(was) ==> ranges == was + [LiveRange(point, point + 2, Nowhere)] && k == |was|
    ensures ok && point < Endpoint(was) ==> ranges == was && k < |was| && point < was[k].e &&
                                            forall j :: 0 <= j < k ==> was[j].e <= point
  {
    ranges, k := was, 0;
    if was[0].b > point {
      return false, ranges, k;
    }
    ok := true;
    if point >= Endpoint(was) {
      ranges := was + [LiveRange(point, point + 2, Nowhere)];
      k := |was|;
    } else {
      while !(point <= ranges[k].b || point < ranges[k].e)
        invariant k < |was| && forall j :: 0 <= j < k ==> was[j].e <= point
        decreases |was| - k
      {
        k := k + 1;
      }
    }
  }

  ghost predicate Front(was: seq<LiveRange>, ranges: seq<LiveRange>, point: nat, k: nat) {
    k <= |ranges| &&
    forall j :: 0 <= j < k ==> j < |was| && ranges[j].b == was[j].b && ranges[j].e <= was[j].e &&
                               ranges[j].loc == was[j].loc && ranges[j].e <= point
  }

  // x stands in the gap that begins at the point: up to the next range, or two numbers behind the last one.
  ghost predicate InGap(was: seq<LiveRange>, point: nat, x: nat) {
    && was != [] && point <= x < (if point >= Endpoint(was) then point + 2 else Endpoint(was))
    && forall y: nat :: point <= y <= x ==> !Covers(was, y)
  }

  // The k-th range of the result begins at the split point; the ranges in front of it end there or earlier, and
  // are the old ones, the last of them possibly shortened. What is covered is what was, and the gap at the split point.
  ghost predicate IsSplit(was: seq<LiveRange>, ranges: seq<LiveRange>, point: nat, k: nat) {
    && k < |ranges| && ranges[k].b == point && Front(was, ranges, point, k)
    && (forall x: nat :: Covers(was, x) ==> Covers(ranges, x))
    && (forall x: nat :: Covers(ranges, x) && !Covers(was, x) ==> InGap(was, point, x))
    && (forall x: nat :: InGap(was, point, x) ==> Covers(ranges, x))
  }

  // LiveInterval::SplitAt
  method SplitAt(was: seq<LiveRange>, point: nat) returns (ok: bool, ranges: seq<LiveRange>, k: nat)
    requires WellFormed(was)
    ensures ok <==> Startpoint(was) <= point
    ensures ok ==> WellFormed(ranges) && IsSplit(was, ranges, point, k) && Startpoint(ranges) == Startpoint(was)
    ensures ok ==> Endpoint(ranges) == if point >= Endpoint(was) then point + 2 else Endpoint(was)
  {
    hide Covers, Sorted, Front, InGap;
    ok, ranges, k := FindRangeCoveringOrAfter(was, point);
    if !ok {
      return;
    }
    ghost var found := ranges;
    FoundFront(was, found, point, k);
    var r := ranges[k];
    if r.b < point {
      ranges := ranges[..k] + [LiveRange(r.b, point, r.loc), LiveRange(point, r.e, Nowhere)] + ranges[k + 1..];
      CutKeeps(found, ranges, point, k);
      CutSorted(was, found, ranges, point, k);
      k := k + 1;
    } else {
      ranges := ranges[k := LiveRange(point, r.e, r.loc)];
      if point >= Endpoint(was) {
        assert ranges == found;
        AppendFills(was, found, point);
      } else {
        WidenFills(was, ranges, point, k);
      }
      WidenSorted(was, found, ranges, point, k);
    }
  }

  lemma FoundFront(was: seq<LiveRange>, found: seq<LiveRange>, point: nat, k: nat)
    requires WellFormed(was) && Startpoint(was) <= point
    requires point >= Endpoint(was) ==> found == was + [LiveRange(point, point + 2, Nowhere)] && k == |was|
    requires point < Endpoint(was) ==>
              found == was && k < |was| && point < was[k].e && forall j :: 0 <= j < k ==> was[j].e <= point
    ensures k < |found| && WellFormed(found) && point < found[k].e && Startpoint(found) == Startpoint(was)
    ensures found[k].b < point ==> k < |was| && found == was
    ensures point >= Endpoint(was) ==> found[k] == LiveRange(point, point + 2, Nowhere)
    ensures Front(was, found, point, k)
    ensures Endpoint(found) == if point >= Endpoint(was) then point + 2 else Endpoint(was)
  {
  }

  lemma CutSorted(was: seq<LiveRange>, found: seq<LiveRange>, ranges: seq<LiveRange>, point: nat, k: nat)
    requires WellFormed(found) && k < |found| && found[k].b < point < found[k].e && found == was
    requires Front(was, found, point, k)
    requires ranges ==
              found[..k] + [LiveRange(found[k].b, point, found[k].loc), LiveRange(point, found[k].e, Nowhere)] +
              found[k + 1..]
    ensures WellFormed(ranges) && Front(was, ranges, point, k + 1) && ranges[k + 1].b == point
    ensures Startpoint(ranges) == Startpoint(found) && Endpoint(ranges) == Endpoint(found)
  {
    CutAt(found, ranges, point, k);
    assert Sorted(ranges) by {
      hide Front;
    }
  }

  lemma CutAt(found: seq<LiveRange>, ranges: seq<LiveRange>, point: nat, k: nat)
    requires k < |found|
    requires ranges ==
              found[..k] + [LiveRange(found[k].b, point, found[k].loc), LiveRange(point, found[k].e, Nowhere)] +
              found[k + 1..]
    ensures |ranges| == |found| + 1 && ranges[k] == LiveRange(found[k].b, point, found[k].loc)
    ensures ranges[k + 1] == LiveRange(point, found[k].e, Nowhere)
    ensures forall j :: 0 <= j < k ==> ranges[j] == found[j]
    ensures forall j :: k + 1 < j < |ranges| ==> ranges[j] == found[j - 1]
  {
  }

  lemma WidenSorted(was: seq<LiveRange>, found: seq<LiveRange>, ranges: seq<LiveRange>, point: nat, k: nat)
    requires WellFormed(found) && k < |found| && point <= found[k].b && Front(was, found, point, k)
    requires Startpoint(found) <= point && ranges == found[k := LiveRange(point, found[k].e, found[k].loc)]
    ensures WellFormed(ranges) && Front(was, ranges, point, k)
    ensures Startpoint(ranges) == Startpoint(found) && Endpoint(ranges) == Endpoint(found)
  {
  }

  lemma CoversEnd(was: seq<LiveRange>, x: nat)
    requires WellFormed(was) && Covers(was, x)
    ensures x < Endpoint(was)
  {
    var k :| 0 <= k < |was| && Contains(was[k], x);
    assert k < |was| - 1 ==> was[k].e <= was[|was| - 1].b;
  }

  // All ranges but the k-th are the old ones.
  lemma Changed(was: seq<LiveRange>, ranges: seq<LiveRange>, k: nat, x: nat)
    requires k < |ranges| && forall j :: 0 <= j < |ranges| && j != k ==> j < |was| && ranges[j] == was[j]
    requires Covers(ranges, x)
    ensures Covers(was, x) || Contains(ranges[k], x)
  {
  }

  lemma NotInside(was: seq<LiveRange>, k: nat, x: nat)
    requires k < |was| && !Covers(was, x)
    ensures !Contains(was[k], x)
  {
  }

  // A range behind the end fills the gap there.
  lemma AppendFills(was: seq<LiveRange>, found: seq<LiveRange>, point: nat)
    requires WellFormed(was) && point >= Endpoint(was) && found == was + [LiveRange(point, point + 2, Nowhere)]
    ensures forall x: nat :: Covers(was, x) ==> Covers(found, x)
    ensures forall x: nat :: Covers(found, x) && !Covers(was, x) ==> InGap(was, point, x)
    ensures forall x: nat :: InGap(was, point, x) ==> Covers(found, x)
  {
    forall x: nat | Covers(was, x) ensures Covers(found, x) {
      var k :| 0 <= k < |was| && Contains(was[k], x);
      assert Contains(found[k], x);
    }
    forall x: nat | Covers(found, x) && !Covers(was, x) ensures InGap(was, point, x) {
      Changed(was, found, |was|, x);
      forall y: nat | point <= y <= x ensures !Covers(was, y) {
        if Covers(was, y) {
          CoversEnd(was, y);
        }
      }
    }
    forall x: nat | InGap(was, point, x) ensures Covers(found, x) {
      assert Contains(found[|was|], x);
    }
  }

  lemma CutKeeps(found: seq<LiveRange>, ranges: seq<LiveRange>, point: nat, k: nat)
    requires k < |found| && found[k].b < point < found[k].e
    requires ranges ==
              found[..k] + [LiveRange(found[k].b, point, found[k].loc), LiveRange(point, found[k].e, Nowhere)] +
              found[k + 1..]
    ensures forall x: nat :: Covers(found, x) <==> Covers(ranges, x)
    ensures forall x: nat :: !InGap(found, point, x)
  {
    assert Contains(found[k], point);
    assert Covers(found, point);
    forall x: nat ensures Covers(found, x) <==> Covers(ranges, x) {
      if Covers(found, x) {
        var j :| 0 <= j < |found| && Contains(found[j], x);
        assert Contains(ranges[if j < k || (j == k && x < point) then j else j + 1], x);
      }
      if Covers(ranges, x) {
        var j :| 0 <= j < |ranges| && Contains(ranges[j], x);
        assert Contains(found[if j <= k then j else j - 1], x);
      }
    }
  }

  // Beginning a range earlier fills the gap in front of it.
  lemma WidenFills(was: seq<LiveRange>, ranges: seq<LiveRange>, point: nat, k: nat)
    requires WellFormed(was) && k < |was| && point <= was[k].b && (forall j :: 0 <= j < k ==> was[j].e <= point)
    requires ranges == was[k := LiveRange(point, was[k].e, was[k].loc)] && point < Endpoint(was)
    ensures forall x: nat :: Covers(was, x) ==> Covers(ranges, x)
    ensures forall x: nat :: Covers(ranges, x) && !Covers(was, x) ==> InGap(was, point, x)
    ensures forall x: nat :: InGap(was, point, x) ==> Covers(ranges, x)
  {
    forall x: nat | Covers(was, x) ensures Covers(ranges, x) {
      var j :| 0 <= j < |was| && Contains(was[j], x);
      assert Contains(ranges[j], x);
    }
    forall x: nat | Covers(ranges, x) && !Covers(was, x) ensures InGap(was, point, x) {
      Changed(was, ranges, k, x);
      NotInside(was, k, x);
      GapInFront(was, point, k, x);
    }
    forall x: nat | InGap(was, point, x) ensures Covers(ranges, x) {
      assert Contains(was[k], was[k].b);
      assert Covers(was, was[k].b);
      assert Contains(ranges[k], x);
    }
  }

  lemma GapInFront(was: seq<LiveRange>, point: nat, k: nat, x: nat)
    requires WellFormed(was) && k < |was| && point <= x < was[k].b && forall j :: 0 <= j < k ==> was[j].e <= point
    ensures InGap(was, point, x)
  {
    forall y: nat, j | point <= y <= x && 0 <= j < |was| ensures !Contains(was[j], y) {
      if j > k {
        assert was[k].e <= was[j].b;
      }
    }
    assert k < |was| - 1 ==> was[k].e <= was[|was| - 1].b;
  }
}
