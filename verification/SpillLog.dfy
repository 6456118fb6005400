// What has been spilled in a run of the allocation, and why.
module SpillLog {
  import opened Ir
  import opened LiveIntervals
  import opened RegAllocState
  import opened RegAllocPlaces
  import opened SpillChoice
  import opened Reloads

  // In the state `at`, the interval at position k of the active ones has been spilled at the point.
  datatype Spill = Spilled(at: Snap, k: nat, point: nat)

  // All registers were taken, and the interval is the one chosen by the use points of iv0.
  ghost predicate SpillOk(regs: nat, iv0: Intervals, s: Spill, n: nat) {
    && s.at.slots == n && |s.at.active| == regs && Victim(s.at, s.k, s.point)
    && SameUses(iv0, s.at.iv, s.point) && forall i: nat :: i in s.at.active ==> i in iv0
  }

  // What is kept in a slot is what has been spilled when it was handed out.
  ghost predicate SlotsLogged(iv: Intervals, spills: seq<Spill>) {
    forall i: nat, s: nat :: InSlot(iv, i, s) ==>
      s < |spills| && spills[s].k < |spills[s].at.active| && spills[s].at.active[spills[s].k] == i
  }

  // All spills of a run up to t, one for each slot.
  ghost predicate Logged(regs: nat, iv0: Intervals, iv: Intervals, slots: nat, spills: seq<Spill>, t: nat) {
    && |spills| == slots && SameUses(iv0, iv, t) && SlotsLogged(iv, spills)
    && (forall s: nat :: s < |spills| ==> SpillOk(regs, iv0, spills[s], s))
  }

  lemma NothingLogged(regs: nat, iv0: Intervals, t: nat)
    requires Blank(iv0)
    ensures Logged(regs, iv0, iv0, 0, [], t)
  {
    hide NextUse;
  }

  lemma LogNow(regs: nat, iv0: Intervals, iv: Intervals, slots: nat, spills: seq<Spill>, t: nat)
    requires Logged(regs, iv0, iv, slots, spills, t)
    ensures |spills| == slots && SlotsLogged(iv, spills)
    ensures forall s: nat :: s < |spills| ==> SpillOk(regs, iv0, spills[s], s)
  {
    hide NextUse, SpillOk, SlotsLogged;
  }

  lemma LogKept(regs: nat, iv0: Intervals, iv: Intervals, slots: nat, spills: seq<Spill>, iv': Intervals, point: nat,
                t: nat)
    requires Logged(regs, iv0, iv, slots, spills, t) && SlotsKept(iv, iv') && SameUses(iv, iv', point) && point <= t
    ensures Logged(regs, iv0, iv', slots, spills, t)
  {
    hide NextUse, SpillOk, InSlot;
  }

  lemma LogSwap(regs: nat, iv0: Intervals, s: Snap, s': Snap, spills: seq<Spill>, k: nat, i: nat, point: nat)
    requires Logged(regs, iv0, s.iv, s.slots, spills, point) && Swaps(s, s', k, i, point) && |s.active| == regs
    requires k < |s.active| && SlotsFrom(s.iv, s'.iv, s.active[k], s.slots)
    requires forall i: nat :: i in s.active ==> i in iv0
    ensures Logged(regs, iv0, s'.iv, s'.slots, spills + [Spilled(s, k, point)], point)
  {
    hide NextUse, InSlot, Chosen, Swapped, Victim;
    var more := spills + [Spilled(s, k, point)];
    SwapFacts(s, s', k, i, point);
    hide Swaps;
    SameUsesOn(iv0, s.iv, s'.iv, point, point);
    forall n: nat | n < |more| ensures SpillOk(regs, iv0, more[n], n) {
      assert n < |spills| ==> SpillOk(regs, iv0, spills[n], n);
    }
  }

  lemma SwapFacts(s: Snap, s': Snap, k: nat, i: nat, point: nat)
    requires Swaps(s, s', k, i, point)
    ensures Victim(s, k, point) && SameUses(s.iv, s'.iv, point) && s'.slots == s.slots + 1
  {
    hide Victim, SameUses, Swapped;
  }

  // ---------------------------------------------------------------- the choice, by the users of the program

  // An instruction at life number x uses v.
  ghost predicate IsUse(p: Program, lns: map<nat, nat>, v: nat, x: nat) {
    exists y :: y in p.insts && y in lns && v in p.insts[y].inputs && lns[y] == x
  }

  // The first use of v behind t, if there is one.
  ghost predicate FirstUse(p: Program, lns: map<nat, nat>, v: nat, t: nat, o: Option<nat>) {
    match o
    case None => forall x: nat :: IsUse(p, lns, v, x) ==> x <= t
    case Some(n) => n > t && IsUse(p, lns, v, n) && forall x: nat :: IsUse(p, lns, v, x) && x > t ==> n <= x
  }

  ghost predicate Ascending(s: seq<nat>) {
    forall i, j :: 0 <= i < j < |s| ==> s[i] < s[j]
  }

  // The use points of the intervals are the life numbers of the users, each once, in order.
  ghost predicate UsesOf(p: Program, lns: map<nat, nat>, v: nat, points: seq<nat>) {
    Ascending(points) && forall x: nat :: x in points <==> IsUse(p, lns, v, x)
  }

  ghost predicate AllUses(p: Program, lns: map<nat, nat>, iv: Intervals) {
    forall v :: v in iv ==> UsesOf(p, lns, v, iv[v].usePoints)
  }

  lemma {:induction false} DroppedExpired(points: seq<nat>, t: nat)
    requires Ascending(points)
    ensures forall x: nat :: x in DropExpired(points, t) <==> x in points && x > t
    ensures Ascending(DropExpired(points, t))
  {
    if points != [] && points[0] <= t {
      assert points == [points[0]] + points[1..];
      DroppedExpired(points[1..], t);
    } else if points != [] {
      forall x | x in points ensures x > t {
        var j :| 0 <= j < |points| && points[j] == x;
        assert j > 0 ==> points[0] < points[j];
      }
    }
  }

  lemma FirstOfSome(p: Program, lns: map<nat, nat>, v: nat, t: nat, left: seq<nat>)
    requires Ascending(left) && left != [] && forall x: nat :: x in left <==> IsUse(p, lns, v, x) && x > t
    ensures FirstUse(p, lns, v, t, Some(left[0]))
  {
    hide IsUse;
    assert left[0] in left;
    forall x: nat | IsUse(p, lns, v, x) && x > t ensures left[0] <= x {
      var j :| 0 <= j < |left| && left[j] == x;
      assert j > 0 ==> left[0] < left[j];
    }
  }

  lemma FirstOfNone(p: Program, lns: map<nat, nat>, v: nat, t: nat, left: seq<nat>)
    requires left == [] && forall x: nat :: x in left <==> IsUse(p, lns, v, x) && x > t
    ensures FirstUse(p, lns, v, t, None)
  {
    hide IsUse;
    forall x: nat | IsUse(p, lns, v, x) ensures x <= t {
      assert x > t ==> x in left;
    }
  }

  lemma NextIsFirst(p: Program, lns: map<nat, nat>, iv: Intervals, v: nat, t: nat)
    requires v in iv && UsesOf(p, lns, v, iv[v].usePoints)
    ensures FirstUse(p, lns, v, t, NextUse(iv, v, t))
  {
    hide IsUse, FirstUse;
    var left := DropExpired(iv[v].usePoints, t);
    DroppedExpired(iv[v].usePoints, t);
    hide DropExpired, Ascending;
    if left == [] {
      FirstOfNone(p, lns, v, t, left);
    } else {
      FirstOfSome(p, lns, v, t, left);
    }
  }

  // The value spilled has no use behind the point, or none nearer than those of the values in front of it; and it is
  // the last such value.
  ghost predicate ChosenByUse(p: Program, lns: map<nat, nat>, active: seq<nat>, k: nat, point: nat) {
    exists next: seq<Option<nat>> :: |next| == |active| && Chosen(next, k) &&
      forall j :: 0 <= j < |active| ==> FirstUse(p, lns, active[j], point, next[j])
  }

  lemma ChosenUses(p: Program, lns: map<nat, nat>, regs: nat, iv0: Intervals, s: Spill, n: nat)
    requires SpillOk(regs, iv0, s, n) && AllUses(p, lns, iv0)
    ensures |s.at.active| == regs && ChosenByUse(p, lns, s.at.active, s.k, s.point)
  {
    hide Chosen, NextUse, UsesOf, FirstUse;
    var next := NextUses(s.at.iv, s.at.active, s.point);
    forall j | 0 <= j < |s.at.active| ensures FirstUse(p, lns, s.at.active[j], s.point, next[j]) {
      NextIsFirst(p, lns, iv0, s.at.active[j], s.point);
    }
  }

  // Every value in a slot was spilled for lack of registers, and chosen by the uses of the values in the registers.
  ghost predicate SpillsExplained(p: Program, lns: map<nat, nat>, regs: nat, places: Intervals, spills: seq<Spill>) {
    && SlotsLogged(places, spills)
    && (forall s: nat :: s < |spills| ==>
          |spills[s].at.active| == regs && ChosenByUse(p, lns, spills[s].at.active, spills[s].k, spills[s].point))
  }

  lemma Explained(p: Program, lns: map<nat, nat>, regs: nat, iv0: Intervals, places: Intervals, spills: seq<Spill>)
    requires SlotsLogged(places, spills) && AllUses(p, lns, iv0)
    requires forall s: nat :: s < |spills| ==> SpillOk(regs, iv0, spills[s], s)
    ensures SpillsExplained(p, lns, regs, places, spills)
  {
    hide SlotsLogged, SpillOk, AllUses, ChosenByUse;
    forall s: nat | s < |spills|
      ensures |spills[s].at.active| == regs && ChosenByUse(p, lns, spills[s].at.active, spills[s].k, spills[s].point)
    {
      ChosenUses(p, lns, regs, iv0, spills[s], s);
    }
  }

  lemma UnplacedUses(p: Program, lns: map<nat, nat>, iv: Intervals)
    requires AllUses(p, lns, iv)
    ensures AllUses(p, lns, Unplaced(iv))
  {
    hide UsesOf;
  }

  // For one value: no use behind the point, or one that no value in front of it outlasts.
  lemma SpilledLast(p: Program, lns: map<nat, nat>, active: seq<nat>, k: nat, point: nat)
    requires ChosenByUse(p, lns, active, k, point)
    ensures k < |active|
    ensures forall i: nat, x: nat, y: nat :: i < k && IsUse(p, lns, active[k], x) && x > point &&
                                             IsUse(p, lns, active[i], y) && y > point ==>
              exists z: nat :: point < z <= x && IsUse(p, lns, active[i], z)
  {
    hide IsUse;
    var next: seq<Option<nat>> :| |next| == |active| && Chosen(next, k) &&
      forall j :: 0 <= j < |active| ==> FirstUse(p, lns, active[j], point, next[j]);
    forall i: nat, x: nat, y: nat | i < k && IsUse(p, lns, active[k], x) && x > point &&
                                    IsUse(p, lns, active[i], y) && y > point
      ensures exists z: nat :: point < z <= x && IsUse(p, lns, active[i], z)
    {
      assert FirstUse(p, lns, active[k], point, next[k]) && FirstUse(p, lns, active[i], point, next[i]);
      assert next[k].Some? && next[i].Some?;
      assert next[i].value <= next[k].value;
    }
  }
}
