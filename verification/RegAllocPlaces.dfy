// What the allocation gives every interval: a place for each of its ranges, and a register at its definition.
module RegAllocPlaces {
  import opened LiveIntervals
  import opened RegAllocState

  ghost predicate AllLocated(ranges: seq<LiveRange>) {
    forall a :: 0 <= a < |ranges| ==> ranges[a].loc != Nowhere
  }

  ghost predicate InRegister(ranges: seq<LiveRange>, x: nat) {
    exists a :: 0 <= a < |ranges| && ranges[a].loc.Reg? && Contains(ranges[a], x)
  }

  // The interval begins at `start`, in a register, and every range of it has a place.
  ghost predicate Settled(ranges: seq<LiveRange>, start: nat) {
    WellFormed(ranges) && Startpoint(ranges) == start && AllLocated(ranges) && InRegister(ranges, start)
  }

  ghost predicate CoversAll(was: seq<LiveRange>, now: seq<LiveRange>) {
    forall x: nat :: Covers(was, x) ==> Covers(now, x)
  }

  // Nothing that was covered has been lost, and the intervals of `res` are settled where they are defined.
  ghost predicate Settlement(iv0: Intervals, iv: Intervals, lns: map<nat, nat>, res: set<nat>) {
    && iv.Keys == iv0.Keys
    && (forall i :: i in iv ==> CoversAll(iv0[i].ranges, iv[i].ranges))
    && (forall i :: i in res ==> i in iv && i in lns && lns[i] % 2 == 0 && Settled(iv[i].ranges, lns[i]))
  }

  ghost predicate InSlot(iv: Intervals, i: nat, s: nat) {
    i in iv && exists a :: 0 <= a < |iv[i].ranges| && iv[i].ranges[a].loc == Slot(s)
  }

  // Slots below n are in use, each by one interval only.
  ghost predicate SlotsOwned(iv: Intervals, n: nat) {
    && (forall i: nat, s: nat :: InSlot(iv, i, s) ==> s < n)
    && (forall i: nat, j: nat, s: nat :: InSlot(iv, i, s) && InSlot(iv, j, s) ==> i == j)
  }

  lemma SetFromCovers(now: seq<LiveRange>, k: nat, loc: Location, x: nat)
    requires k <= |now|
    ensures Covers(SetFrom(now, k, loc), x) <==> Covers(now, x)
  {
    var s := SetFrom(now, k, loc);
    if Covers(now, x) {
      var a :| 0 <= a < |now| && Contains(now[a], x);
      assert Contains(s[a], x);
    }
    if Covers(s, x) {
      var a :| 0 <= a < |s| && Contains(s[a], x);
      assert Contains(now[a], x);
    }
  }

  lemma SplitCovers(was: seq<LiveRange>, now: seq<LiveRange>, point: nat, k: nat, loc: Location)
    requires IsSplit(was, now, point, k)
    ensures CoversAll(was, SetFrom(now, k, loc))
  {
    hide Covers, Front;
    forall x: nat | Covers(was, x) ensures Covers(SetFrom(now, k, loc), x) {
      SetFromCovers(now, k, loc, x);
    }
  }

  lemma SetFromSame(now: seq<LiveRange>, k: nat, loc: Location)
    requires WellFormed(now) && k <= |now|
    ensures WellFormed(SetFrom(now, k, loc)) && Startpoint(SetFrom(now, k, loc)) == Startpoint(now)
  {
  }

  // A settled interval stays settled when it is split behind its start, or gets a register from there on.
  lemma SplitSettled(was: seq<LiveRange>, now: seq<LiveRange>, point: nat, k: nat, loc: Location, start: nat)
    requires Settled(was, start) && IsSplit(was, now, point, k) && WellFormed(now) && Startpoint(now) == start
    requires loc != Nowhere && start <= point && (loc.Reg? || start < point)
    ensures Settled(SetFrom(now, k, loc), start)
  {
    hide Covers;
    SetFromSame(now, k, loc);
    var s := SetFrom(now, k, loc);
    var a :| 0 <= a < |was| && was[a].loc.Reg? && Contains(was[a], start);
    assert a == 0;
    assert Contains(s[0], start);
  }

  // A fresh interval is settled when it gets a register as a whole.
  lemma WholeSettled(was: seq<LiveRange>, now: seq<LiveRange>, k: nat, r: nat)
    requires WellFormed(was) && WellFormed(now) && Startpoint(now) == Startpoint(was)
    requires IsSplit(was, now, Startpoint(was), k)
    ensures Settled(SetFrom(now, k, Reg(r)), Startpoint(was))
  {
    hide Covers;
    SetFromSame(now, k, Reg(r));
    assert k == 0;
    assert Contains(SetFrom(now, k, Reg(r))[0], Startpoint(was));
  }

  lemma WholeSplit(was: seq<LiveRange>)
    requires WellFormed(was)
    ensures IsSplit(was, was, Startpoint(was), 0)
  {
    assert Contains(was[0], Startpoint(was));
    assert Covers(was, Startpoint(was));
    hide Covers;
  }

  lemma SettlementStep(iv0: Intervals, iv: Intervals, iv': Intervals, lns: map<nat, nat>, res: set<nat>, i: nat)
    requires Settlement(iv0, iv, lns, res) && i in iv && iv'.Keys == iv.Keys
    requires forall j :: j in iv && j != i ==> iv'[j].ranges == iv[j].ranges
    requires CoversAll(iv[i].ranges, iv'[i].ranges)
    requires i in res && i in lns ==> Settled(iv'[i].ranges, lns[i])
    ensures Settlement(iv0, iv', lns, res)
  {
    hide Settled, Covers;
    forall j | j in iv' ensures CoversAll(iv0[j].ranges, iv'[j].ranges) {
      assert CoversAll(iv0[j].ranges, iv[j].ranges);
    }
  }

  // The interval of i has been split and placed from there on.
  lemma Replaced(iv0: Intervals, iv: Intervals, lns: map<nat, nat>, res: set<nat>, i: nat, now: seq<LiveRange>,
                 point: nat, k: nat, loc: Location)
    requires Settlement(iv0, iv, lns, res) && i in iv && IsSplit(iv[i].ranges, now, point, k) && WellFormed(now)
    requires Startpoint(now) <= point && WellFormed(iv[i].ranges) && Startpoint(now) == Startpoint(iv[i].ranges)
    requires loc.Reg? || (loc.Slot? && point % 2 == 1)
    ensures k <= |now| && Settlement(iv0, Relocated(iv, i, now, k, loc), lns, res)
  {
    hide IsSplit, WellFormed, Covers, InRegister, AllLocated;
    SplitBound(iv[i].ranges, now, point, k);
    SplitCovers(iv[i].ranges, now, point, k, loc);
    if i in res {
      SplitSettled(iv[i].ranges, now, point, k, loc, lns[i]);
    }
    SettlementStep(iv0, iv, Relocated(iv, i, now, k, loc), lns, res, i);
  }

  lemma SplitBound(was: seq<LiveRange>, now: seq<LiveRange>, point: nat, k: nat)
    requires IsSplit(was, now, point, k)
    ensures k < |now|
  {
  }

  lemma OneMoreSettled(iv0: Intervals, iv: Intervals, lns: map<nat, nat>, res: set<nat>, x: nat)
    requires Settlement(iv0, iv, lns, res) && x in iv && x in lns && lns[x] % 2 == 0 && Settled(iv[x].ranges, lns[x])
    ensures Settlement(iv0, iv, lns, res + {x})
  {
  }

  function Unplaced(iv: Intervals): (iv': Intervals)
    ensures iv'.Keys == iv.Keys && Blank(iv')
  {
    map i | i in iv :: LiveInterval(SetFrom(iv[i].ranges, 0, Nowhere), iv[i].usePoints)
  }

  lemma UnplacedSame(iv: Intervals, i: nat)
    requires i in iv && WellFormed(iv[i].ranges)
    ensures i in Unplaced(iv) && WellFormed(Unplaced(iv)[i].ranges)
    ensures Startpoint(Unplaced(iv)[i].ranges) == Startpoint(iv[i].ranges)
    ensures CoversAll(iv[i].ranges, Unplaced(iv)[i].ranges)
  {
    hide Covers;
    SetFromSame(iv[i].ranges, 0, Nowhere);
    forall x: nat ensures Covers(SetFrom(iv[i].ranges, 0, Nowhere), x) <==> Covers(iv[i].ranges, x) {
      SetFromCovers(iv[i].ranges, 0, Nowhere, x);
    }
  }

  lemma NothingSettled(iv: Intervals, lns: map<nat, nat>)
    requires Blank(iv)
    ensures Settlement(iv, iv, lns, {}) && SlotsOwned(iv, 0)
  {
    hide Covers;
  }

  lemma SameRangesSettled(iv0: Intervals, iv: Intervals, iv': Intervals, lns: map<nat, nat>, res: set<nat>, n: nat)
    requires Settlement(iv0, iv, lns, res) && SlotsOwned(iv, n) && SameRanges(iv, iv')
    ensures Settlement(iv0, iv', lns, res) && SlotsOwned(iv', n)
  {
    hide Settled, CoversAll;
    forall i: nat, s: nat | InSlot(iv', i, s) ensures InSlot(iv, i, s) {
      assert iv'[i].ranges == iv[i].ranges;
    }
  }

  // Only i can get a slot, and only the one it is given.
  lemma RelocatedSlots(iv: Intervals, i: nat, now: seq<LiveRange>, point: nat, k: nat, loc: Location, j: nat, s: nat)
    requires i in iv && IsSplit(iv[i].ranges, now, point, k) && k <= |now|
    requires InSlot(Relocated(iv, i, now, k, loc), j, s)
    ensures InSlot(iv, j, s) || (j == i && loc == Slot(s))
  {
    hide Covers;
    var iv' := Relocated(iv, i, now, k, loc);
    var a :| 0 <= a < |iv'[j].ranges| && iv'[j].ranges[a].loc == Slot(s);
    if j == i && a < k {
      assert iv[i].ranges[a].loc == Slot(s);
    } else if j != i {
      assert iv[j].ranges[a].loc == Slot(s);
    }
  }

  // No interval has got a slot,
  ghost predicate SlotsKept(iv: Intervals, iv': Intervals) {
    forall j: nat, s: nat :: InSlot(iv', j, s) ==> InSlot(iv, j, s)
  }

  // or none but u, which has got this one.
  ghost predicate SlotsFrom(iv: Intervals, iv': Intervals, u: nat, slot: nat) {
    forall j: nat, s: nat :: InSlot(iv', j, s) ==> InSlot(iv, j, s) || (j == u && s == slot)
  }

  lemma SameRangesSlots(iv: Intervals, iv': Intervals)
    requires SameRanges(iv, iv')
    ensures SlotsKept(iv, iv')
  {
    forall j: nat, s: nat | InSlot(iv', j, s) ensures InSlot(iv, j, s) {
      assert iv'[j].ranges == iv[j].ranges;
    }
  }

  lemma SlotsThen(iv: Intervals, iv1: Intervals, iv2: Intervals, iv': Intervals, u: nat, slot: nat)
    requires SlotsKept(iv, iv1) && SlotsFrom(iv1, iv2, u, slot) && SlotsKept(iv2, iv')
    ensures SlotsFrom(iv, iv', u, slot)
  {
    hide InSlot;
  }

  lemma RegisterSlots(iv: Intervals, i: nat, now: seq<LiveRange>, point: nat, k: nat, r: nat, n: nat)
    requires SlotsOwned(iv, n) && i in iv && IsSplit(iv[i].ranges, now, point, k) && k <= |now|
    ensures SlotsOwned(Relocated(iv, i, now, k, Reg(r)), n) && SlotsKept(iv, Relocated(iv, i, now, k, Reg(r)))
  {
    hide InSlot, IsSplit, Relocated;
    forall j: nat, s: nat | InSlot(Relocated(iv, i, now, k, Reg(r)), j, s) ensures InSlot(iv, j, s) {
      RelocatedSlots(iv, i, now, point, k, Reg(r), j, s);
    }
  }

  lemma NextSlot(iv: Intervals, i: nat, now: seq<LiveRange>, point: nat, k: nat, n: nat)
    requires SlotsOwned(iv, n) && i in iv && IsSplit(iv[i].ranges, now, point, k) && k <= |now|
    ensures SlotsOwned(Relocated(iv, i, now, k, Slot(n)), n + 1)
    ensures SlotsFrom(iv, Relocated(iv, i, now, k, Slot(n)), i, n)
  {
    hide InSlot, IsSplit, Relocated;
    forall j: nat, s: nat | InSlot(Relocated(iv, i, now, k, Slot(n)), j, s)
      ensures InSlot(iv, j, s) || (j == i && s == n)
    {
      RelocatedSlots(iv, i, now, point, k, Slot(n), j, s);
    }
  }

  // ---------------------------------------------------------------- what a step changes

  function EndAfter(iv: Intervals, i: nat, point: nat): nat {
    if point >= End(iv, i) then point + 2 else End(iv, i)
  }

  // Interval i has got a register from the point on and is active.
  ghost predicate Took(iv: Intervals, active: seq<nat>, iv': Intervals, active': seq<nat>, i: nat, point: nat) {
    && CurrentLocation(iv', i).Reg? && End(iv', i) == EndAfter(iv, i, point)
    && (forall j: nat :: j != i ==> CurrentLocation(iv', j) == CurrentLocation(iv, j) && End(iv', j) == End(iv, j))
    && (forall j: nat :: j in active' <==> j in active || j == i)
  }

  // Interval i has got the register of u, which has moved to a slot.
  ghost predicate Swapped(iv: Intervals, active: seq<nat>, iv': Intervals, active': seq<nat>, u: nat, slot: nat, i: nat,
                          point: nat)
  {
    && u in active && u != i && CurrentLocation(iv', u) == Slot(slot) && End(iv', u) == End(iv, u)
    && CurrentLocation(iv', i).Reg? && End(iv', i) == EndAfter(iv, i, point)
    && (forall j: nat :: j != i && j != u ==>
      CurrentLocation(iv', j) == CurrentLocation(iv, j) && End(iv', j) == End(iv, j))
    && (forall j: nat :: j in active' <==> (j in active && j != u) || j == i)
  }

  // What has a register without being active has ended.
  ghost predicate Expired(iv: Intervals, active: seq<nat>, t: nat) {
    forall i: nat :: CurrentLocation(iv, i).Reg? && i !in active ==> End(iv, i) <= t
  }

  // Active intervals reach up to t.
  ghost predicate Reaching(iv: Intervals, active: seq<nat>, t: nat) {
    forall i: nat :: i in active ==> End(iv, i) >= t
  }

  // Splitting has prolonged intervals up to `lim` only.
  ghost predicate Stretch(iv0: Intervals, iv: Intervals, lim: nat) {
    forall i: nat :: End(iv, i) <= End(iv0, i) || End(iv, i) <= lim
  }

  // The results visited so far have numbers below n.
  ghost predicate Earlier(lns: map<nat, nat>, res: set<nat>, n: nat) {
    forall i :: i in res ==> i in lns && lns[i] < n
  }

  // IsActive: v is in a register at life number ln, as an active interval or as one that ends there.
  ghost predicate HasRegister(iv: Intervals, active: seq<nat>, v: nat, ln: nat) {
    CurrentLocation(iv, v).Reg? && (v in active || End(iv, v) == ln)
  }

  // v is in a register at ln, or has moved to one of the slots from s0 up to s1.
  ghost predicate Served(iv: Intervals, active: seq<nat>, v: nat, ln: nat, s0: nat, s1: nat) {
    HasRegister(iv, active, v, ln) || (CurrentLocation(iv, v).Slot? && s0 <= CurrentLocation(iv, v).idx < s1)
  }

  lemma TookBounds(iv0: Intervals, iv: Intervals, active: seq<nat>, iv': Intervals, active': seq<nat>, i: nat,
                   point: nat, t: nat, lim: nat)
    requires Took(iv, active, iv', active', i, point) && Expired(iv, active, t) && Stretch(iv0, iv, lim)
    requires Reaching(iv, active, t) && EndAfter(iv, i, point) >= t
    ensures Expired(iv', active', t) && Reaching(iv', active', t)
    ensures Stretch(iv0, iv', if point < End(iv, i) || point + 2 <= lim then lim else point + 2)
  {
  }

  lemma SwappedBounds(iv0: Intervals, iv: Intervals, active: seq<nat>, iv': Intervals, active': seq<nat>, u: nat,
                      slot: nat, i: nat, point: nat, t: nat, lim: nat)
    requires Swapped(iv, active, iv', active', u, slot, i, point) && Expired(iv, active, t) && Stretch(iv0, iv, lim)
    requires Reaching(iv, active, t) && EndAfter(iv, i, point) >= t
    ensures Expired(iv', active', t) && Reaching(iv', active', t)
    ensures Stretch(iv0, iv', if point < End(iv, i) || point + 2 <= lim then lim else point + 2)
  {
  }

  lemma TookServes(iv: Intervals, active: seq<nat>, iv': Intervals, active': seq<nat>, i: nat, point: nat, ln: nat,
                   s0: nat, s1: nat)
    requires Took(iv, active, iv', active', i, point)
    ensures HasRegister(iv', active', i, ln)
    ensures forall v: nat :: Served(iv, active, v, ln, s0, s1) ==> Served(iv', active', v, ln, s0, s1)
  {
  }

  lemma SwappedServes(iv: Intervals, active: seq<nat>, iv': Intervals, active': seq<nat>, u: nat, slot: nat, i: nat,
                      point: nat, ln: nat, s0: nat)
    requires Swapped(iv, active, iv', active', u, slot, i, point) && s0 <= slot
    ensures HasRegister(iv', active', i, ln)
    ensures forall v: nat :: Served(iv, active, v, ln, s0, slot) ==> Served(iv', active', v, ln, s0, slot + 1)
  {
  }

  // After Take following a spill.
  lemma SpillThenTake(iv: Intervals, active: seq<nat>, iv1: Intervals, active1: seq<nat>, iv': Intervals,
                      active': seq<nat>, u: nat, slot: nat, i: nat, point: nat)
    requires u in active && u != i && CurrentLocation(iv1, u) == Slot(slot)
    requires forall j: nat :: End(iv1, j) == End(iv, j)
    requires forall j: nat :: j != u ==> CurrentLocation(iv1, j) == CurrentLocation(iv, j)
    requires forall j: nat :: j in active1 <==> j in active && j != u
    requires Took(iv1, active1, iv', active', i, point)
    ensures Swapped(iv, active, iv', active', u, slot, i, point)
  {
  }

  // An interval that keeps all it covers ends no earlier.
  lemma EndsGrow(iv0: Intervals, iv: Intervals, lns: map<nat, nat>, res: set<nat>, i: nat)
    requires Settlement(iv0, iv, lns, res) && i in iv && WellFormed(iv0[i].ranges) && WellFormed(iv[i].ranges)
    ensures End(iv0, i) <= End(iv, i)
  {
    var was, now := iv0[i].ranges, iv[i].ranges;
    assert CoversAll(was, now);
    var x: nat := Endpoint(was) - 1;
    assert Contains(was[|was| - 1], x);
    assert Covers(was, x);
    var a :| 0 <= a < |now| && Contains(now[a], x);
    assert a < |now| - 1 ==> now[a].e <= now[|now| - 1].b;
  }

  // A settled interval begins at its definition, has a place and ends later.
  lemma SettledFacts(iv0: Intervals, iv: Intervals, lns: map<nat, nat>, res: set<nat>, i: nat)
    requires Settlement(iv0, iv, lns, res) && i in res
    ensures i in iv && i in lns && lns[i] % 2 == 0 && WellFormed(iv[i].ranges) && Startpoint(iv[i].ranges) == lns[i]
    ensures CurrentLocation(iv, i) != Nowhere && lns[i] < End(iv, i)
  {
    var now := iv[i].ranges;
    assert |now| > 1 ==> now[0].e <= now[|now| - 1].b;
  }

  // Different values of a set are no more than the set has.
  lemma {:induction false} MembersSize(active: seq<nat>, s: set<nat>)
    requires forall i, j :: 0 <= i < j < |active| ==> active[i] != active[j]
    requires forall k :: 0 <= k < |active| ==> active[k] in s
    ensures |active| <= |s|
  {
    if active != [] {
      var last := active[|active| - 1];
      MembersSize(active[..|active| - 1], s - {last});
    }
  }
}
