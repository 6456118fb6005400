// Liveness and register allocation together: values that are needed at the same time have different places.
module Backend {
  import opened Cfg
  import opened Ir
  import opened LinearOrdering
  import opened LiveIntervals
  import opened LivenessSpec
  import opened Liveness
  import opened LiveCoverage
  import opened LiveOrder
  import FillIntervals
  import opened RegAllocState
  import opened RegAllocPlaces
  import opened AllocationInput
  import opened SpillLog
  import RegAlloc

  // ---------------------------------------------------------------- use points

  // Insertion into an ordered set.
  method InsertPoint(was: seq<nat>, x: nat) returns (points: seq<nat>)
    requires Ascending(was)
    ensures Ascending(points) && forall y: nat :: y in points <==> y in was || y == x
  {
    var n := 0;
    while n < |was| && was[n] < x
      invariant n <= |was| && forall i :: 0 <= i < n ==> was[i] < x
    {
      n := n + 1;
    }
    if n < |was| && was[n] == x {
      return was;
    }
    points := was[..n] + [x] + was[n..];
    assert was == was[..n] + was[n..];
  }

  // FillIntervalUsepoints: the life numbers of the users, in order.
  method UsePoints(p: Program, lns: map<nat, nat>, v: nat) returns (points: seq<nat>)
    ensures UsesOf(p, lns, v, points)
  {
    points := [];
    var users := set y | y in p.insts && y in lns && v in p.insts[y].inputs;
    ghost var all := users;
    while users != {}
      invariant Ascending(points) && users <= all
      invariant forall x: nat :: x in points <==> exists y :: y in all - users && lns[y] == x
      decreases |users|
    {
      var y :| y in users;
      users := users - {y};
      points := InsertPoint(points, lns[y]);
    }
  }

  method WithUsePoints(p: Program, lns: map<nat, nat>, ranges: map<nat, seq<LiveRange>>) returns (iv: Intervals)
    ensures iv.Keys == ranges.Keys && forall i :: i in iv ==> iv[i].ranges == ranges[i]
    ensures AllUses(p, lns, iv)
  {
    hide UsesOf;
    iv := map[];
    var todo := ranges.Keys;
    while todo != {}
      invariant iv.Keys == ranges.Keys - todo && todo <= ranges.Keys
      invariant AllUses(p, lns, iv) && forall i :: i in iv ==> iv[i].ranges == ranges[i]
      decreases |todo|
    {
      var v :| v in todo;
      todo := todo - {v};
      var points := UsePoints(p, lns, v);
      iv := iv[v := LiveInterval(ranges[v], points)];
    }
  }

  // ---------------------------------------------------------------- places

  // v is kept at loc at life number x.
  ghost predicate KeptAt(iv: Intervals, v: nat, loc: Location, x: nat) {
    v in iv && exists a :: 0 <= a < |iv[v].ranges| && iv[v].ranges[a].loc == loc && Contains(iv[v].ranges[a], x)
  }

  ghost predicate HasPlace(iv: Intervals, v: nat, x: nat) {
    exists loc :: loc != Nowhere && KeptAt(iv, v, loc, x)
  }

  lemma PlacesDiffer(iv: Intervals, slots: nat, v: nat, w: nat, loc: Location, x: nat)
    requires NoConflict(iv) && SlotsOwned(iv, slots) && v != w && x % 2 == 0 && loc != Nowhere
    ensures !(KeptAt(iv, v, loc, x) && KeptAt(iv, w, loc, x))
  {
    hide NoConflict, SlotsOwned;
    if KeptAt(iv, v, loc, x) && KeptAt(iv, w, loc, x) {
      match loc {
        case Reg(r) => RegistersDiffer(iv, v, w, r, x);
        case Slot(s) => SlotsDiffer(iv, slots, v, w, s);
      }
    }
  }

  lemma RegistersDiffer(iv: Intervals, v: nat, w: nat, r: nat, x: nat)
    requires NoConflict(iv) && x % 2 == 0 && KeptAt(iv, v, Reg(r), x) && KeptAt(iv, w, Reg(r), x)
    ensures v == w
  {
    assert Holds(iv, v, r, x) && Holds(iv, w, r, x);
  }

  lemma SlotsDiffer(iv: Intervals, slots: nat, v: nat, w: nat, s: nat)
    requires SlotsOwned(iv, slots) && v in iv && w in iv
    requires exists a :: 0 <= a < |iv[v].ranges| && iv[v].ranges[a].loc == Slot(s)
    requires exists a :: 0 <= a < |iv[w].ranges| && iv[w].ranges[a].loc == Slot(s)
    ensures v == w
  {
    assert InSlot(iv, v, s) && InSlot(iv, w, s);
  }

  lemma CoveredPlaced(iv: Intervals, v: nat, x: nat)
    requires v in iv && AllLocated(iv[v].ranges) && Covers(iv[v].ranges, x)
    ensures HasPlace(iv, v, x)
  {
    var a :| 0 <= a < |iv[v].ranges| && Contains(iv[v].ranges[a], x);
    assert KeptAt(iv, v, iv[v].ranges[a].loc, x);
  }

  // ---------------------------------------------------------------- what the allocation is given

  lemma SeparatedWellFormed(rs: seq<LiveRange>)
    requires rs != [] && FillIntervals.Separated(rs)
    ensures WellFormed(rs)
  {
  }

  lemma NonEmpty(a: seq<LiveRange>, b: seq<LiveRange>)
    requires WellFormed(b) && SameCover(a, b)
    ensures a != []
  {
    assert Contains(b[0], b[0].b);
    assert Covers(b, b[0].b);
  }

  lemma SameBackwards(a: seq<LiveRange>, b: seq<LiveRange>)
    requires SameCover(a, b)
    ensures SameCover(a, Backwards(b))
  {
    hide Covers;
    forall x: nat ensures Covers(a, x) <==> Covers(Backwards(b), x) {
      BackwardsCovers(b, x);
    }
  }

  // The merged ranges of the analysis are intervals.
  lemma DeliveredOk(p: Program, order: seq<Elem>, lns: map<nat, nat>, life: nat, m: RangeMap,
                    intervals: map<nat, seq<LiveRange>>)
    requires Strict(p) && InRange(p, order) && Numbered(p, order, lns, life)
    requires (forall i :: 0 <= i < |order| ==> BlockOk(p, order[i].block)) && RangesRight(p, order, 0, m)
    requires intervals.Keys == m.Keys
    requires forall v :: v in intervals ==> FillIntervals.Separated(intervals[v]) && SameCover(intervals[v], m[v])
    ensures forall v :: v in intervals ==> WellFormed(intervals[v])
  {
    hide InputsReady, PhiReady, Unique, AllReachable, Numbered, BlockOk, RangesOf, SameCover, Sorted;
    hide FillIntervals.Separated;
    forall v | v in intervals ensures WellFormed(intervals[v]) {
      RangesSorted(p, order, lns, life, v, 0);
      assert Rng(m, v) == RangesOf(p, order, v, 0);
      SameBackwards(intervals[v], m[v]);
      NonEmpty(intervals[v], Backwards(m[v]));
      SeparatedWellFormed(intervals[v]);
    }
  }

  lemma OrderReady(p: Program, order: seq<Elem>, lns: map<nat, nat>, life: nat)
    requires Strict(p) && InRange(p, order) && Topological(p.g, order) && Numbered(p, order, lns, life)
    requires PhisDistinct(p)
    ensures RegAlloc.OrderOk(p, order, lns, life)
  {
    hide InputsReady, PhiReady, Unique, AllReachable, Numbered;
  }

  lemma UnplacedReady(p: Program, order: seq<Elem>, m: RangeMap, intervals: map<nat, seq<LiveRange>>, iv: Intervals)
    requires InRange(p, order) && RangesRight(p, order, 0, m) && intervals.Keys == m.Keys
    requires forall v :: v in intervals ==> WellFormed(intervals[v]) && SameCover(intervals[v], m[v])
    requires iv.Keys == intervals.Keys && forall i :: i in iv ==> iv[i].ranges == intervals[i]
    ensures IntervalsOk(Unplaced(iv)) && CoversRanges(p, order, Unplaced(iv))
    ensures forall i :: i in iv ==> CoversAll(intervals[i], Unplaced(iv)[i].ranges)
  {
    hide WellFormed, Covers, RangesOf, Unplaced, CoversAll, RangesRight;
    forall i | i in iv
      ensures i in Unplaced(iv) && WellFormed(Unplaced(iv)[i].ranges) && CoversAll(intervals[i], Unplaced(iv)[i].ranges)
    {
      UnplacedSame(iv, i);
    }
    forall v: nat, x: nat
      ensures (v in Unplaced(iv) && Covers(Unplaced(iv)[v].ranges, x)) <==> Covers(RangesOf(p, order, v, 0), x)
    {
      UnplacedCovers(p, order, m, intervals, iv, v, x);
    }
  }

  lemma UnplacedCovers(p: Program, order: seq<Elem>, m: RangeMap, intervals: map<nat, seq<LiveRange>>, iv: Intervals,
                       v: nat, x: nat)
    requires InRange(p, order) && RangesRight(p, order, 0, m) && intervals.Keys == m.Keys
    requires forall v :: v in intervals ==> SameCover(intervals[v], m[v])
    requires iv.Keys == intervals.Keys && forall i :: i in iv ==> iv[i].ranges == intervals[i]
    ensures (v in Unplaced(iv) && Covers(Unplaced(iv)[v].ranges, x)) <==> Covers(RangesOf(p, order, v, 0), x)
  {
    hide Covers, RangesOf;
    assert Rng(m, v) == RangesOf(p, order, v, 0);
    if v in m {
      SetFromCovers(iv[v].ranges, 0, Nowhere, x);
      assert SameCover(intervals[v], m[v]);
    } else {
      NothingCovered(x);
    }
  }

  // Every needed value has a place, and different values have different places at an even life number.
  ghost predicate Sound(p: Program, order: seq<Elem>, places: Intervals)
    requires InRange(p, order)
  {
    && (forall v, x: nat :: v in p.insts && HasDst(p.insts[v].op) && Used(p, v) && Needed(p, order, v, x) ==>
          HasPlace(places, v, x))
    && (forall v: nat, w: nat, loc, x: nat :: v != w && x % 2 == 0 && loc != Nowhere && KeptAt(places, v, loc, x) ==>
          !KeptAt(places, w, loc, x))
  }

  lemma AllocationSound(p: Program, order: seq<Elem>, lns: map<nat, nat>, m: RangeMap,
                        intervals: map<nat, seq<LiveRange>>, iv: Intervals, places: Intervals, slots: nat)
    requires Strict(p) && AllPlaced(p) && InRange(p, order) && Topological(p.g, order)
    requires intervals.Keys == m.Keys && forall v :: v in intervals ==> SameCover(intervals[v], m[v])
    requires RangesRight(p, order, 0, m)
    requires iv.Keys == intervals.Keys && places.Keys == iv.Keys
    requires forall i :: i in iv ==> CoversAll(intervals[i], iv[i].ranges) && CoversAll(iv[i].ranges, places[i].ranges)
    requires RegAlloc.AllPlaced(p, order, lns, places) && NoConflict(places) && SlotsOwned(places, slots)
    ensures Sound(p, order, places)
  {
    hide InputsReady, PhiReady, Unique, AllReachable, Needed, KeptAt, HasPlace, NoConflict, SlotsOwned, Used, RangesOf;
    forall v, x: nat | v in p.insts && HasDst(p.insts[v].op) && Used(p, v) && Needed(p, order, v, x)
      ensures HasPlace(places, v, x)
    {
      CoveredIffNeeded(p, order, v, x);
      assert Rng(m, v) == RangesOf(p, order, v, 0);
      CoveredIn(m, intervals, iv, places, v, x);
      PlacedIn(p, order, lns, places, v);
      CoveredPlaced(places, v, x);
    }
    forall v: nat, w: nat, loc, x: nat | v != w && x % 2 == 0 && loc != Nowhere && KeptAt(places, v, loc, x)
      ensures !KeptAt(places, w, loc, x)
    {
      PlacesDiffer(places, slots, v, w, loc, x);
    }
  }

  lemma CoveredIn(m: RangeMap, intervals: map<nat, seq<LiveRange>>, iv: Intervals, places: Intervals, v: nat, x: nat)
    requires intervals.Keys == m.Keys == iv.Keys == places.Keys
    requires forall i :: i in intervals ==> SameCover(intervals[i], m[i])
    requires forall i :: i in iv ==> CoversAll(intervals[i], iv[i].ranges) && CoversAll(iv[i].ranges, places[i].ranges)
    requires Covers(Rng(m, v), x)
    ensures v in places && Covers(places[v].ranges, x)
  {
    hide Covers;
    NothingCovered(x);
    assert v in m;
    assert SameCover(intervals[v], m[v]) && CoversAll(intervals[v], iv[v].ranges)
      && CoversAll(iv[v].ranges, places[v].ranges);
  }

  lemma PlacedIn(p: Program, order: seq<Elem>, lns: map<nat, nat>, places: Intervals, v: nat)
    requires InRange(p, order) && AllPlaced(p) && Topological(p.g, order) && RegAlloc.AllPlaced(p, order, lns, places)
    requires v in p.insts && HasDst(p.insts[v].op)
    ensures v in places && AllLocated(places[v].ranges)
  {
    hide AllLocated, InRegister, WellFormed, InBlock;
    var c: nat :| c < p.g.Size() && InBlock(p, v, c);
    assert c in BlocksOf(order);
    var j :| 0 <= j < |order| && order[j].block == c;
  }

  // Graph::BuildLiveness and Graph::AllocateRegisters. They come to their end for every program that the analysis
  // accepts and whose phis fit; never for one the analysis does not accept, or with more phis in a block than
  // registers.
  method AllocateRegisters(p: Program, order: seq<Elem>, lns: map<nat, nat>, regs: nat, life: nat)
    returns (ok: bool, places: Intervals, ghost spills: seq<Spill>)
    requires Strict(p) && PhisDistinct(p) && AllPlaced(p) && regs > 0
    requires InRange(p, order) && Topological(p.g, order) && Numbered(p, order, lns, life)
    ensures ok ==> Sound(p, order, places) && SpillsExplained(p, lns, regs, places, spills)
    ensures AllBlocksOk(p) && PhisFit(p, order, lns, regs) ==> ok
    ensures ok ==> AllBlocksOk(p) && RegAlloc.PhisFew(p, order, regs, |order|)
  {
    hide InputsReady, PhiReady, Unique, AllReachable, Topological, Numbered, BlockOk, PhisDistinct, AllPlaced;
    hide RangesRight;
    hide SameCover, CoversAll, Unplaced, Blank, IntervalsOk, NoConflict, SlotsOwned, Needed, Used, CoversRanges;
    hide FillIntervals.Separated, RegAlloc.OrderOk, RegAlloc.IntervalsFit, RegAlloc.AllPlaced, RegAlloc.PhisFit, Sound;
    hide RegAlloc.PhisFew, PhisFit, AllBlocksOk, WellFormed, SpillsExplained, AllUses, SlotsLogged, SpillOk;
    places, spills := map[], [];
    var la := new LivenessAnalysis(p, order, lns, life);
    OrderBlocksOk(p, order);
    ok := la.CalculateLifeRanges();
    if ok {
      var intervals := Fill(la);
      var iv := WithUsePoints(p, lns, intervals);
      DeliveredOk(p, order, lns, life, la.ranges, intervals);
      OrderReady(p, order, lns, life);
      UnplacedReady(p, order, la.ranges, intervals, iv);
      InputFits(p, order, lns, life, Unplaced(iv));
      if PhisFit(p, order, lns, regs) {
        PhisFitThere(p, order, lns, life, Unplaced(iv), regs);
      }
      var ra := new RegAlloc.RegAlloc(p, order, lns, regs, iv);
      ok := ra.AllocateRegisters(life);
      places, spills := ra.intervals, ra.spills;
      if ok {
        UnplacedUses(p, lns, iv);
        Explained(p, lns, regs, Unplaced(iv), places, spills);
        AllocationSound(p, order, lns, la.ranges, intervals, Unplaced(iv), places, ra.slotsUsed);
      }
    }
  }
}
