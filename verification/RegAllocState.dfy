// The state of the linear scan: which interval holds which register from when on.
module RegAllocState {
  import opened LiveIntervals
  import opened FiniteSets

  type Intervals = map<nat, LiveInterval>

  // Interval i has register r at life number x.
  ghost predicate Holds(iv: Intervals, i: nat, r: nat, x: nat) {
    i in iv && exists a :: 0 <= a < |iv[i].ranges| && iv[i].ranges[a].loc == Reg(r) && Contains(iv[i].ranges[a], x)
  }

  // No two intervals have the same register at the same even life number.
  ghost predicate NoConflict(iv: Intervals) {
    forall i, j, r, x: nat :: x % 2 == 0 && Holds(iv, i, r, x) && Holds(iv, j, r, x) ==> i == j
  }

  // RegAlloc::CurrentLocation
  function CurrentLocation(iv: Intervals, i: nat): Location {
    if i in iv && iv[i].ranges != [] then iv[i].ranges[|iv[i].ranges| - 1].loc else Nowhere
  }

  function End(iv: Intervals, i: nat): nat {
    if i in iv && iv[i].ranges != [] then Endpoint(iv[i].ranges) else 0
  }

  // From t on, registers are held by active intervals only, each in its current register.
  ghost predicate Future(iv: Intervals, active: seq<nat>, t: nat) {
    forall i, r, x: nat :: x % 2 == 0 && x >= t && Holds(iv, i, r, x) ==>
      i in active && CurrentLocation(iv, i) == Reg(r)
  }

  ghost predicate IntervalsOk(iv: Intervals) {
    forall i :: i in iv ==> WellFormed(iv[i].ranges)
  }

  // The active intervals have different registers, and exactly these are busy.
  ghost predicate ActiveOk(regs: nat, iv: Intervals, active: seq<nat>, busy: seq<bool>) {
    && |busy| == regs
    && (forall k :: 0 <= k < |active| ==>
          active[k] in iv && CurrentLocation(iv, active[k]).Reg? &&
          CurrentLocation(iv, active[k]).idx < regs && busy[CurrentLocation(iv, active[k]).idx])
    && (forall j, k :: 0 <= j < k < |active| ==>
          active[j] != active[k] && CurrentLocation(iv, active[j]) != CurrentLocation(iv, active[k]))
    && (forall r :: 0 <= r < regs && busy[r] ==> HeldBy(iv, active, r))
  }

  ghost predicate HeldBy(iv: Intervals, active: seq<nat>, r: nat) {
    exists k :: 0 <= k < |active| && CurrentLocation(iv, active[k]) == Reg(r)
  }

  // `active_` is sorted by increasing endpoint.
  ghost predicate SortedActive(iv: Intervals, active: seq<nat>) {
    forall j, k :: 0 <= j < k < |active| ==> End(iv, active[j]) <= End(iv, active[k])
  }

  // Intervals of instructions that have not been visited are as they were.
  ghost predicate Untouched(iv0: Intervals, iv: Intervals, done: set<nat>) {
    && iv.Keys == iv0.Keys
    && (forall i :: i in iv && i !in done ==> iv[i].ranges == iv0[i].ranges)
  }

  // Nothing has a location at the start.
  ghost predicate Blank(iv: Intervals) {
    forall i, a :: i in iv && 0 <= a < |iv[i].ranges| ==> iv[i].ranges[a].loc == Nowhere
  }

  ghost predicate Inv(regs: nat, iv: Intervals, active: seq<nat>, busy: seq<bool>, t: nat) {
    && IntervalsOk(iv) && NoConflict(iv) && Future(iv, active, t) && ActiveOk(regs, iv, active, busy)
    && SortedActive(iv, active)
  }

  // ---------------------------------------------------------------- changing one interval

  function SetFrom(ranges: seq<LiveRange>, k: nat, loc: Location): (s: seq<LiveRange>)
    requires k <= |ranges|
    ensures |s| == |ranges|
  {
    seq(|ranges|, a requires 0 <= a < |ranges| => if a < k then ranges[a] else ranges[a].(loc := loc))
  }

  // The ranges `now` are `was` split at point; from the k-th on they lie at or behind it.
  ghost predicate Resplit(was: seq<LiveRange>, now: seq<LiveRange>, point: nat, k: nat) {
    && WellFormed(now) && k < |now| && Front(was, now, point, k)
    && (forall a :: k <= a < |now| ==> point <= now[a].b)
  }

  lemma SplitResplit(was: seq<LiveRange>, now: seq<LiveRange>, point: nat, k: nat)
    requires WellFormed(now) && IsSplit(was, now, point, k)
    ensures Resplit(was, now, point, k)
  {
    hide Covers;
  }

  ghost function Relocated(iv: Intervals, i: nat, now: seq<LiveRange>, k: nat, loc: Location): Intervals
    requires i in iv && k <= |now|
  {
    iv[i := LiveInterval(SetFrom(now, k, loc), iv[i].usePoints)]
  }

  // Interval i has its old registers in front of the point, and the new one from there on.
  lemma RelocatedHolds(iv: Intervals, i: nat, now: seq<LiveRange>, point: nat, k: nat, loc: Location, j: nat, r: nat,
                       x: nat)
    requires i in iv && Resplit(iv[i].ranges, now, point, k) && Holds(Relocated(iv, i, now, k, loc), j, r, x)
    ensures if j == i then (Holds(iv, i, r, x) && x < point) || (loc == Reg(r) && point <= x) else Holds(iv, j, r, x)
  {
    var iv' := Relocated(iv, i, now, k, loc);
    var a :| 0 <= a < |iv'[j].ranges| && iv'[j].ranges[a].loc == Reg(r) && Contains(iv'[j].ranges[a], x);
    if j == i && a < k {
      assert Contains(iv[i].ranges[a], x);
    }
  }

  lemma RelocatedFacts(iv: Intervals, i: nat, now: seq<LiveRange>, point: nat, k: nat, loc: Location)
    requires i in iv && Resplit(iv[i].ranges, now, point, k)
    ensures var iv' := Relocated(iv, i, now, k, loc);
            && iv'.Keys == iv.Keys && CurrentLocation(iv', i) == loc && End(iv', i) == Endpoint(now)
            && WellFormed(iv'[i].ranges)
            && (forall j :: j != i ==> CurrentLocation(iv', j) == CurrentLocation(iv, j) && End(iv', j) == End(iv, j))
  {
  }

  // An interval that is not active gets a register no active interval has.
  lemma TakeRegister(iv: Intervals, active: seq<nat>, active': seq<nat>, t: nat, i: nat, now: seq<LiveRange>,
                     point: nat, k: nat, r: nat)
    requires NoConflict(iv) && Future(iv, active, t) && i in iv && i !in active && Resplit(iv[i].ranges, now, point, k)
    requires t % 2 == 0 && t <= point + 1 && !HeldBy(iv, active, r)
    requires forall j :: j in active' <==> j in active || j == i
    ensures NoConflict(Relocated(iv, i, now, k, Reg(r))) && Future(Relocated(iv, i, now, k, Reg(r)), active', t)
  {
    var iv' := Relocated(iv, i, now, k, Reg(r));
    hide Holds, Resplit;
    RelocatedFacts(iv, i, now, point, k, Reg(r));
    forall j, j', r', x: nat | x % 2 == 0 && Holds(iv', j, r', x) && Holds(iv', j', r', x) ensures j == j' {
      TakeAt(iv, active, t, i, now, point, k, r, j, r', x);
      TakeAt(iv, active, t, i, now, point, k, r, j', r', x);
    }
    forall j, r', x: nat | x % 2 == 0 && x >= t && Holds(iv', j, r', x)
      ensures j in active' && CurrentLocation(iv', j) == Reg(r')
    {
      TakeAt(iv, active, t, i, now, point, k, r, j, r', x);
    }
  }

  // Who holds a register afterwards held it before, or is i with its new register, which no other interval
  // has from t on.
  lemma TakeAt(iv: Intervals, active: seq<nat>, t: nat, i: nat, now: seq<LiveRange>, point: nat, k: nat, r: nat,
               j: nat, r': nat, x: nat)
    requires Future(iv, active, t) && i in iv && i !in active && Resplit(iv[i].ranges, now, point, k)
    requires t % 2 == 0 && t <= point + 1 && !HeldBy(iv, active, r) && x % 2 == 0
    requires Holds(Relocated(iv, i, now, k, Reg(r)), j, r', x)
    ensures j != i ==> Holds(iv, j, r', x) && (r' == r ==> x < t)
    ensures j == i ==> (Holds(iv, i, r', x) && x < t) || (r' == r && x >= t)
  {
    hide Holds, Resplit, Relocated;
    RelocatedHolds(iv, i, now, point, k, Reg(r), j, r', x);
    if x >= t && Holds(iv, j, r', x) {
      ActiveHolds(iv, active, t, j, r', x);
    }
  }

  lemma ActiveHolds(iv: Intervals, active: seq<nat>, t: nat, j: nat, r: nat, x: nat)
    requires Future(iv, active, t) && x % 2 == 0 && x >= t && Holds(iv, j, r, x)
    ensures j in active && HeldBy(iv, active, r)
  {
    var k :| 0 <= k < |active| && active[k] == j;
  }

  // An active interval is spilled from the point in front of t on.
  lemma GiveRegister(iv: Intervals, active: seq<nat>, active': seq<nat>, t: nat, u: nat, now: seq<LiveRange>, k: nat,
                     slot: nat)
    requires NoConflict(iv) && Future(iv, active, t) && u in iv && t > 0 && Resplit(iv[u].ranges, now, t - 1, k)
    requires forall j :: j in active' <==> j in active && j != u
    ensures NoConflict(Relocated(iv, u, now, k, Slot(slot))) && Future(Relocated(iv, u, now, k, Slot(slot)), active', t)
  {
    var iv' := Relocated(iv, u, now, k, Slot(slot));
    hide Holds, Resplit;
    RelocatedFacts(iv, u, now, t - 1, k, Slot(slot));
    forall j, j', r, x: nat | x % 2 == 0 && Holds(iv', j, r, x) && Holds(iv', j', r, x) ensures j == j' {
      RelocatedHolds(iv, u, now, t - 1, k, Slot(slot), j, r, x);
      RelocatedHolds(iv, u, now, t - 1, k, Slot(slot), j', r, x);
    }
    forall j, r, x: nat | x % 2 == 0 && x >= t && Holds(iv', j, r, x)
      ensures j in active' && CurrentLocation(iv', j) == Reg(r)
    {
      RelocatedHolds(iv, u, now, t - 1, k, Slot(slot), j, r, x);
    }
  }

  // ---------------------------------------------------------------- the active list and the busy registers

  function Insert(s: seq<nat>, m: nat, i: nat): seq<nat>
    requires m <= |s|
  {
    s[..m] + [i] + s[m..]
  }

  function Remove(s: seq<nat>, m: nat): seq<nat>
    requires m < |s|
  {
    s[..m] + s[m + 1..]
  }

  lemma InsertMembers(s: seq<nat>, m: nat, i: nat)
    requires m <= |s|
    ensures forall j: nat :: j in Insert(s, m, i) <==> j in s || j == i
  {
    assert s == s[..m] + s[m..];
  }

  lemma RemoveMembers(s: seq<nat>, m: nat)
    requires m < |s| && forall j, k :: 0 <= j < k < |s| ==> s[j] != s[k]
    ensures forall j: nat :: j in Remove(s, m) <==> j in s && j != s[m]
  {
    assert s == s[..m] + [s[m]] + s[m + 1..];
    assert s[m] !in s[..m] && s[m] !in s[m + 1..];
  }

  // Registers and endpoints of the other intervals are the same in both states.
  ghost predicate SameOthers(iv: Intervals, iv': Intervals, i: nat) {
    iv'.Keys == iv.Keys && forall j: nat :: j != i ==>
      CurrentLocation(iv', j) == CurrentLocation(iv, j) && End(iv', j) == End(iv, j)
  }

  lemma ActivateOk(regs: nat, iv: Intervals, iv': Intervals, active: seq<nat>, busy: seq<bool>, m: nat, i: nat, r: nat)
    requires ActiveOk(regs, iv, active, busy) && SameOthers(iv, iv', i) && m <= |active| && i in iv && i !in active
    requires r < regs && CurrentLocation(iv', i) == Reg(r) && !HeldBy(iv, active, r)
    ensures ActiveOk(regs, iv', Insert(active, m, i), busy[r := true])
  {
    var s := Insert(active, m, i);
    InsertMembers(active, m, i);
    forall k | 0 <= k < |active|
      ensures active[k] != i && CurrentLocation(iv', active[k]) == CurrentLocation(iv, active[k]) != Reg(r)
    {
      assert active[k] in active;
    }
    InsertDistinct(iv', active, m, i);
    forall q | 0 <= q < regs && busy[r := true][q] ensures HeldBy(iv', s, q) {
      if q == r {
        assert s[m] == i;
      } else {
        assert HeldBy(iv, active, q);
        var k :| 0 <= k < |active| && CurrentLocation(iv, active[k]) == Reg(q);
        assert s[if k < m then k else k + 1] == active[k];
      }
    }
    forall k | 0 <= k < |s|
      ensures s[k] in iv' && CurrentLocation(iv', s[k]).Reg? && CurrentLocation(iv', s[k]).idx < regs
      ensures busy[r := true][CurrentLocation(iv', s[k]).idx]
    {
      assert s[k] == if k < m then active[k] else if k == m then i else active[k - 1];
    }
  }

  lemma InsertDistinct(iv: Intervals, active: seq<nat>, m: nat, i: nat)
    requires m <= |active|
    requires forall j, k :: 0 <= j < k < |active| ==>
              active[j] != active[k] && CurrentLocation(iv, active[j]) != CurrentLocation(iv, active[k])
    requires forall k :: 0 <= k < |active| ==>
              active[k] != i && CurrentLocation(iv, active[k]) != CurrentLocation(iv, i)
    ensures var s := Insert(active, m, i);
            forall j, k :: 0 <= j < k < |s| ==> s[j] != s[k] && CurrentLocation(iv, s[j]) != CurrentLocation(iv, s[k])
  {
    var s := Insert(active, m, i);
    forall j, k | 0 <= j < k < |s| ensures s[j] != s[k] && CurrentLocation(iv, s[j]) != CurrentLocation(iv, s[k]) {
      assert s[j] == if j < m then active[j] else if j == m then i else active[j - 1];
      assert s[k] == if k < m then active[k] else if k == m then i else active[k - 1];
    }
  }

  lemma OthersStay(iv: Intervals, iv': Intervals, active: seq<nat>, m: nat)
    requires m < |active| && SameOthers(iv, iv', active[m])
    requires forall j, k :: 0 <= j < k < |active| ==> active[j] != active[k]
    ensures var s := Remove(active, m);
            forall k :: 0 <= k < |s| ==>
              s[k] == active[if k < m then k else k + 1] != active[m] &&
              CurrentLocation(iv', s[k]) == CurrentLocation(iv, s[k])
  {
    hide CurrentLocation;
  }

  // Leaving the active list frees the register, and nobody else has it.
  lemma DeactivateOk(regs: nat, iv: Intervals, iv': Intervals, active: seq<nat>, busy: seq<bool>, m: nat)
    requires ActiveOk(regs, iv, active, busy) && m < |active| && SameOthers(iv, iv', active[m])
    ensures CurrentLocation(iv, active[m]).Reg? && CurrentLocation(iv, active[m]).idx < regs
    ensures var r := CurrentLocation(iv, active[m]).idx;
            ActiveOk(regs, iv', Remove(active, m), busy[r := false]) && !HeldBy(iv', Remove(active, m), r)
  {
    var s, r := Remove(active, m), CurrentLocation(iv, active[m]).idx;
    OthersStay(iv, iv', active, m);
    hide SameOthers, CurrentLocation;
    forall q | 0 <= q < regs && busy[r := false][q] ensures HeldBy(iv', s, q) {
      assert HeldBy(iv, active, q);
      var k :| 0 <= k < |active| && CurrentLocation(iv, active[k]) == Reg(q);
      assert s[if k < m then k else k - 1] == active[k];
    }
    forall k | 0 <= k < |s| ensures CurrentLocation(iv', s[k]) != Reg(r) {
      var k' := if k < m then k else k + 1;
      assert active[k'] == s[k] && k' != m;
    }
  }

  lemma InsertSorted(iv: Intervals, active: seq<nat>, m: nat, i: nat)
    requires SortedActive(iv, active) && m <= |active|
    requires forall k :: 0 <= k < m ==> End(iv, active[k]) <= End(iv, i)
    requires forall k :: m <= k < |active| ==> End(iv, i) <= End(iv, active[k])
    ensures SortedActive(iv, Insert(active, m, i))
  {
    var s := Insert(active, m, i);
    forall j, k | 0 <= j < k < |s| ensures End(iv, s[j]) <= End(iv, s[k]) {
      assert s[j] == if j < m then active[j] else if j == m then i else active[j - 1];
      assert s[k] == if k < m then active[k] else if k == m then i else active[k - 1];
    }
  }

  lemma RemoveSorted(iv: Intervals, iv': Intervals, active: seq<nat>, m: nat)
    requires SortedActive(iv, active) && m < |active| && SameOthers(iv, iv', active[m])
    requires forall j, k :: 0 <= j < k < |active| ==> active[j] != active[k]
    ensures SortedActive(iv', Remove(active, m))
  {
    var s := Remove(active, m);
    forall k | 0 <= k < |s| ensures s[k] == active[if k < m then k else k + 1] && End(iv', s[k]) == End(iv, s[k]) {
      assert s[k] != active[m];
    }
  }

  lemma SortedElsewhere(iv: Intervals, iv': Intervals, active: seq<nat>, i: nat)
    requires SortedActive(iv, active) && SameOthers(iv, iv', i) && i !in active
    ensures SortedActive(iv', active)
  {
    forall k | 0 <= k < |active| ensures End(iv', active[k]) == End(iv, active[k]) {
      assert active[k] in active;
    }
  }

  // With fewer active intervals than registers, one is free.
  lemma {:induction false} FreeRegister(regs: nat, iv: Intervals, active: seq<nat>, busy: seq<bool>) returns (r: nat)
    requires ActiveOk(regs, iv, active, busy) && |active| < regs
    ensures r < regs && !busy[r]
  {
    if forall q :: 0 <= q < regs ==> busy[q] {
      AllHeld(regs, iv, active);
    }
    r :| 0 <= r < regs && !busy[r];
  }

  ghost function HeldRegisters(iv: Intervals, active: seq<nat>): set<nat> {
    if active == [] then {} else
      HeldRegisters(iv, active[1..]) + if CurrentLocation(iv, active[0]).Reg? then {CurrentLocation(iv, active[0]).idx}
        else {}
  }

  lemma {:induction false} HeldSize(iv: Intervals, active: seq<nat>)
    ensures |HeldRegisters(iv, active)| <= |active|
    ensures forall r: nat :: HeldBy(iv, active, r) ==> r in HeldRegisters(iv, active)
  {
    if active != [] {
      HeldSize(iv, active[1..]);
      forall r: nat | HeldBy(iv, active, r) ensures r in HeldRegisters(iv, active) {
        var k :| 0 <= k < |active| && CurrentLocation(iv, active[k]) == Reg(r);
        if k > 0 {
          assert CurrentLocation(iv, active[1..][k - 1]) == Reg(r);
        }
      }
    }
  }

  lemma AllHeld(regs: nat, iv: Intervals, active: seq<nat>)
    requires forall r :: 0 <= r < regs ==> HeldBy(iv, active, r)
    ensures regs <= |active|
  {
    HeldSize(iv, active);
    var all := UpTo(regs);
    SubsetSize(all, HeldRegisters(iv, active));
  }

  // ---------------------------------------------------------------- whole steps

  lemma NothingHeld(regs: nat, iv: Intervals)
    requires IntervalsOk(iv) && Blank(iv)
    ensures Inv(regs, iv, [], seq(regs, _ => false), 0)
  {
  }

  lemma HoldsBeforeEnd(iv: Intervals, i: nat, r: nat, x: nat)
    requires IntervalsOk(iv) && Holds(iv, i, r, x)
    ensures x < End(iv, i)
  {
    var a :| 0 <= a < |iv[i].ranges| && iv[i].ranges[a].loc == Reg(r) && Contains(iv[i].ranges[a], x);
    assert a < |iv[i].ranges| - 1 ==> iv[i].ranges[a].e <= iv[i].ranges[|iv[i].ranges| - 1].b;
  }

  lemma LaterFuture(iv: Intervals, active: seq<nat>, t: nat, t': nat)
    requires Future(iv, active, t) && t <= t'
    ensures Future(iv, active, t')
  {
  }

  // The first active interval ends at or before t.
  lemma ExpireFirst(regs: nat, iv: Intervals, active: seq<nat>, busy: seq<bool>, t: nat)
    requires Inv(regs, iv, active, busy, t) && active != [] && End(iv, active[0]) <= t
    ensures CurrentLocation(iv, active[0]).Reg? && CurrentLocation(iv, active[0]).idx < regs
    ensures |busy| == regs && busy[CurrentLocation(iv, active[0]).idx]
    ensures Inv(regs, iv, active[1..], busy[CurrentLocation(iv, active[0]).idx := false], t)
  {
    hide Holds, NoConflict;
    assert Remove(active, 0) == active[1..];
    DeactivateOk(regs, iv, iv, active, busy, 0);
    RemoveSorted(iv, iv, active, 0);
    RemoveMembers(active, 0);
    forall i, r, x: nat | x % 2 == 0 && x >= t && Holds(iv, i, r, x) ensures i in active[1..] {
      HoldsBeforeEnd(iv, i, r, x);
    }
  }

  lemma NotHeld(regs: nat, iv: Intervals, active: seq<nat>, busy: seq<bool>, r: nat)
    requires ActiveOk(regs, iv, active, busy) && r < regs && !busy[r]
    ensures !HeldBy(iv, active, r)
  {
  }

  lemma NotActive(regs: nat, iv: Intervals, active: seq<nat>, busy: seq<bool>, i: nat)
    requires ActiveOk(regs, iv, active, busy) && !CurrentLocation(iv, i).Reg?
    ensures i !in active
  {
  }

  lemma RelocatedOthers(iv: Intervals, i: nat, now: seq<LiveRange>, point: nat, k: nat, loc: Location)
    requires i in iv && IntervalsOk(iv) && Resplit(iv[i].ranges, now, point, k)
    ensures SameOthers(iv, Relocated(iv, i, now, k, loc), i) && IntervalsOk(Relocated(iv, i, now, k, loc))
    ensures CurrentLocation(Relocated(iv, i, now, k, loc), i) == loc
  {
    RelocatedFacts(iv, i, now, point, k, loc);
  }

  // An interval takes a free register and joins the active ones at position m.
  lemma Activate(regs: nat, iv: Intervals, active: seq<nat>, busy: seq<bool>, t: nat, i: nat, now: seq<LiveRange>,
                 point: nat, k: nat, r: nat, m: nat)
    requires Inv(regs, iv, active, busy, t) && i in iv && i !in active && Resplit(iv[i].ranges, now, point, k)
    requires t % 2 == 0 && t <= point + 1 && r < regs && !HeldBy(iv, active, r) && m <= |active|
    requires var iv' := Relocated(iv, i, now, k, Reg(r));
             (forall j :: 0 <= j < m ==> End(iv', active[j]) <= End(iv', i)) &&
             (forall j :: m <= j < |active| ==> End(iv', i) <= End(iv', active[j]))
    ensures |busy| == regs && Inv(regs, Relocated(iv, i, now, k, Reg(r)), Insert(active, m, i), busy[r := true], t)
  {
    hide NoConflict, Future, HeldBy, Resplit, IntervalsOk;
    ResplitBound(iv[i].ranges, now, point, k);
    var iv' := Relocated(iv, i, now, k, Reg(r));
    RelocatedOthers(iv, i, now, point, k, Reg(r));
    InsertMembers(active, m, i);
    TakeRegister(iv, active, Insert(active, m, i), t, i, now, point, k, r);
    ActivateOk(regs, iv, iv', active, busy, m, i, r);
    SortedElsewhere(iv, iv', active, i);
    InsertSorted(iv', active, m, i);
  }

  lemma ResplitBound(was: seq<LiveRange>, now: seq<LiveRange>, point: nat, k: nat)
    requires Resplit(was, now, point, k)
    ensures k < |now| && now != []
  {
  }

  // The m-th active interval is spilled in front of t, and its register is free.
  lemma Deactivate(regs: nat, iv: Intervals, active: seq<nat>, busy: seq<bool>, t: nat, m: nat, now: seq<LiveRange>,
                   k: nat, slot: nat)
    requires Inv(regs, iv, active, busy, t) && m < |active| && active[m] in iv && t > 0
    requires Resplit(iv[active[m]].ranges, now, t - 1, k)
    ensures k <= |now| && CurrentLocation(iv, active[m]).Reg? && CurrentLocation(iv, active[m]).idx < regs
    ensures |busy| == regs
    ensures var r := CurrentLocation(iv, active[m]).idx;
            var iv' := Relocated(iv, active[m], now, k, Slot(slot));
            Inv(regs, iv', Remove(active, m), busy[r := false], t) && !HeldBy(iv', Remove(active, m), r)
  {
    hide NoConflict, Future, HeldBy, Resplit, IntervalsOk;
    ResplitBound(iv[active[m]].ranges, now, t - 1, k);
    var u := active[m];
    var iv' := Relocated(iv, u, now, k, Slot(slot));
    RelocatedOthers(iv, u, now, t - 1, k, Slot(slot));
    RemoveMembers(active, m);
    GiveRegister(iv, active, Remove(active, m), t, u, now, k, slot);
    DeactivateOk(regs, iv, iv', active, busy, m);
    RemoveSorted(iv, iv', active, m);
  }

  // Only use points have changed.
  ghost predicate SameRanges(iv: Intervals, iv': Intervals) {
    iv.Keys == iv'.Keys && forall i :: i in iv ==> iv'[i].ranges == iv[i].ranges
  }

  lemma SameRangesInv(regs: nat, iv: Intervals, iv': Intervals, active: seq<nat>, busy: seq<bool>, t: nat)
    requires Inv(regs, iv, active, busy, t) && SameRanges(iv, iv')
    ensures Inv(regs, iv', active, busy, t)
  {
    SameRangesNow(iv, iv');
    hide Holds, CurrentLocation, End;
    forall r | 0 <= r < regs && busy[r] ensures HeldBy(iv', active, r) {
      assert HeldBy(iv, active, r);
    }
  }

  lemma SameRangesNow(iv: Intervals, iv': Intervals)
    requires SameRanges(iv, iv')
    ensures forall i, r, x: nat :: Holds(iv', i, r, x) <==> Holds(iv, i, r, x)
    ensures forall i: nat :: CurrentLocation(iv', i) == CurrentLocation(iv, i) && End(iv', i) == End(iv, i)
  {
    forall i, r, x: nat ensures Holds(iv', i, r, x) <==> Holds(iv, i, r, x) {
      assert i in iv ==> iv'[i].ranges == iv[i].ranges;
    }
  }

  lemma HeadNotHeld(iv: Intervals, active: seq<nat>)
    requires active != [] && CurrentLocation(iv, active[0]).Reg?
    requires forall k :: 0 < k < |active| ==> CurrentLocation(iv, active[0]) != CurrentLocation(iv, active[k])
    ensures !HeldBy(iv, active[1..], CurrentLocation(iv, active[0]).idx)
  {
  }

  lemma {:induction false} ActiveRegisters(regs: nat, iv: Intervals, active: seq<nat>)
    requires forall k :: 0 <= k < |active| ==>
              CurrentLocation(iv, active[k]).Reg? && CurrentLocation(iv, active[k]).idx < regs
    requires forall j, k :: 0 <= j < k < |active| ==> CurrentLocation(iv, active[j]) != CurrentLocation(iv, active[k])
    ensures |HeldRegisters(iv, active)| == |active| && HeldRegisters(iv, active) <= UpTo(regs)
    ensures forall r: nat :: r in HeldRegisters(iv, active) ==> HeldBy(iv, active, r)
  {
    if active != [] {
      ActiveRegisters(regs, iv, active[1..]);
      forall r: nat | r in HeldRegisters(iv, active) ensures HeldBy(iv, active, r) {
        if CurrentLocation(iv, active[0]) != Reg(r) {
          assert HeldBy(iv, active[1..], r);
          var k :| 0 <= k < |active[1..]| && CurrentLocation(iv, active[1..][k]) == Reg(r);
          assert active[k + 1] == active[1..][k];
        } else {
          assert CurrentLocation(iv, active[0]) == Reg(r);
        }
      }
      HeadNotHeld(iv, active);
    }
  }

  lemma ActiveCount(regs: nat, iv: Intervals, active: seq<nat>)
    requires forall k :: 0 <= k < |active| ==>
              CurrentLocation(iv, active[k]).Reg? && CurrentLocation(iv, active[k]).idx < regs
    requires forall j, k :: 0 <= j < k < |active| ==> CurrentLocation(iv, active[j]) != CurrentLocation(iv, active[k])
    ensures |active| <= regs
  {
    ActiveRegisters(regs, iv, active);
    SubsetSize(HeldRegisters(iv, active), UpTo(regs));
  }
}
