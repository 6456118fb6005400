// Reloading the operands of an instruction: what is spilled for it, and when an operand loses its register again.
module Reloads {
  import opened FiniteSets
  import opened LiveIntervals
  import opened RegAllocState
  import opened RegAllocPlaces
  import opened SpillChoice

  // What the allocation has at hand: intervals, active ones, and slots used.
  datatype Snap = Snap(iv: Intervals, active: seq<nat>, slots: nat)

  // The active intervals are listed once each, by increasing endpoint.
  ghost predicate Listed(s: Snap) {
    SortedActive(s.iv, s.active) && forall j, k :: 0 <= j < k < |s.active| ==> s.active[j] != s.active[k]
  }

  // Use points have gone, but none behind the point.
  ghost predicate SameUses(iv: Intervals, iv': Intervals, point: nat) {
    forall i: nat, t: nat :: t >= point ==> NextUse(iv', i, t) == NextUse(iv, i, t)
  }

  // The interval at position k of the active ones is to be spilled.
  ghost predicate Victim(s: Snap, k: nat, point: nat) {
    k < |s.active| && Chosen(NextUses(s.iv, s.active, point), k)
  }

  // i gets a free register from the point on.
  ghost predicate Takes(s: Snap, s': Snap, i: nat, point: nat) {
    && Took(s.iv, s.active, s'.iv, s'.active, i, point) && s'.slots == s.slots && |s'.active| == |s.active| + 1
    && SameUses(s.iv, s'.iv, point)
  }

  // i gets the register of the k-th active interval.
  ghost predicate Swaps(s: Snap, s': Snap, k: nat, i: nat, point: nat) {
    && Victim(s, k, point) && Swapped(s.iv, s.active, s'.iv, s'.active, s.active[k], s.slots, i, point)
    && s'.slots == s.slots + 1 && |s'.active| == |s.active| && SameUses(s.iv, s'.iv, point)
  }

  // A result gets a register at its definition.
  ghost predicate Place(regs: nat, s: Snap, s': Snap, i: nat, ln: nat) {
    if |s.active| < regs then Takes(s, s', i, ln) else exists k: nat :: Swaps(s, s', k, i, ln)
  }

  // The interval to be spilled for a result begins at the same number, and cannot be split in front of it.
  ghost predicate Blocked(regs: nat, lns: map<nat, nat>, s: Snap, ln: nat) {
    |s.active| >= regs && exists k: nat :: Victim(s, k, ln) && s.active[k] in lns && lns[s.active[k]] >= ln
  }

  ghost predicate InReg(s: Snap, v: nat) {
    CurrentLocation(s.iv, v).Reg?
  }

  // An operand that is in no register gets one.
  ghost predicate Reload(regs: nat, s: Snap, s': Snap, v: nat, ln: nat) {
    if InReg(s, v) then s' == s
    else if |s.active| < regs then ln > 0 && Takes(s, s', v, ln - 1)
    else exists k: nat :: Swaps(s, s', k, v, ln)
  }

  // The operands, one after the other.
  ghost predicate Reloaded(regs: nat, trace: seq<Snap>, inputs: seq<nat>, ln: nat) {
    |trace| == |inputs| + 1 && forall j: nat :: j < |inputs| ==> Reload(regs, trace[j], trace[j + 1], inputs[j], ln)
  }

  // ---------------------------------------------------------------- single steps

  lemma SameUsesOn(iv: Intervals, iv1: Intervals, iv2: Intervals, point: nat, point': nat)
    requires SameUses(iv, iv1, point) && SameUses(iv1, iv2, point') && point <= point'
    ensures SameUses(iv, iv2, point')
  {
    hide NextUse;
  }

  lemma {:induction false} DropTwice(uses: seq<nat>, point: nat, t: nat)
    requires point <= t
    ensures DropExpired(DropExpired(uses, point), t) == DropExpired(uses, t)
  {
    if uses != [] && uses[0] <= point {
      DropTwice(uses[1..], point, t);
    }
  }

  // Dropping expired use points changes no later next use.
  lemma DroppedSame(iv: Intervals, iv': Intervals, ids: seq<nat>, point: nat)
    requires UsesDropped(iv, iv', ids, point) && iv.Keys == iv'.Keys
    ensures SameUses(iv, iv', point)
  {
    hide DropExpired;
    forall i: nat, t: nat | t >= point ensures NextUse(iv', i, t) == NextUse(iv, i, t) {
      if i in iv {
        DropTwice(iv[i].usePoints, point, t);
      }
    }
  }

  lemma KeptUses(iv: Intervals, iv': Intervals, point: nat)
    requires iv.Keys == iv'.Keys && forall i :: i in iv ==> iv'[i].usePoints == iv[i].usePoints
    ensures SameUses(iv, iv', point)
  {
    hide DropExpired;
  }

  // Afterwards the operand is in a register; others lose theirs only as victims.
  lemma ReloadStep(regs: nat, s: Snap, s': Snap, v: nat, ln: nat, w: nat)
    requires Reload(regs, s, s', v, ln)
    ensures InReg(s', v)
    ensures w != v ==> (InReg(s', w) <==> InReg(s, w) && !Loses(regs, s, v, w, ln))
    ensures w == v ==> !Loses(regs, s, v, w, ln)
  {
    hide Chosen, SameUses, NextUses;
    if !InReg(s, v) && |s.active| >= regs {
      var k: nat :| Swaps(s, s', k, v, ln);
      forall j: nat | Victim(s, j, ln) ensures j == k {
        OneVictim(s, j, k, ln);
      }
    }
  }

  lemma OneVictim(s: Snap, j: nat, k: nat, ln: nat)
    requires Victim(s, j, ln) && Victim(s, k, ln)
    ensures j == k
  {
  }

  // The reload of v spills w.
  ghost predicate Loses(regs: nat, s: Snap, v: nat, w: nat, ln: nat) {
    !InReg(s, v) && |s.active| >= regs && exists k: nat :: Victim(s, k, ln) && s.active[k] == w && w != v
  }

  // ---------------------------------------------------------------- which operands lose their registers

  // The reload of the j-th operand spills v, and v is not reloaded behind it.
  ghost predicate LostAt(regs: nat, trace: seq<Snap>, inputs: seq<nat>, ln: nat, v: nat, j: nat) {
    j < |inputs| && j < |trace| && Loses(regs, trace[j], inputs[j], v, ln) && v !in inputs[j..]
  }

  lemma {:induction false} StaysOut(regs: nat, trace: seq<Snap>, inputs: seq<nat>, ln: nat, v: nat, j: nat)
    requires Reloaded(regs, trace, inputs, ln) && j <= |inputs| && v !in inputs[j..] && !InReg(trace[j], v)
    ensures !InReg(trace[|inputs|], v)
    decreases |inputs| - j
  {
    hide Reload, InReg;
    if j < |inputs| {
      assert inputs[j..][0] == inputs[j] && inputs[j + 1..] == inputs[j..][1..];
      ReloadStep(regs, trace[j], trace[j + 1], inputs[j], ln, v);
      StaysOut(regs, trace, inputs, ln, v, j + 1);
    }
  }

  // A value in a register in front of the j-th operand that is among no later ones.
  lemma {:induction false} LostBehind(regs: nat, trace: seq<Snap>, inputs: seq<nat>, ln: nat, v: nat, j: nat)
    requires Reloaded(regs, trace, inputs, ln) && j <= |inputs| && v !in inputs[j..] && InReg(trace[j], v)
    requires !InReg(trace[|inputs|], v)
    ensures exists i: nat :: LostAt(regs, trace, inputs, ln, v, i)
    decreases |inputs| - j
  {
    hide Reload, InReg;
    if j < |inputs| {
      assert inputs[j..][0] == inputs[j] && inputs[j + 1..] == inputs[j..][1..];
      ReloadStep(regs, trace[j], trace[j + 1], inputs[j], ln, v);
      if InReg(trace[j + 1], v) {
        LostBehind(regs, trace, inputs, ln, v, j + 1);
      } else {
        assert LostAt(regs, trace, inputs, ln, v, j);
      }
    }
  }

  lemma LastOccurrence(s: seq<nat>, v: nat) returns (m: nat)
    requires v in s
    ensures m < |s| && s[m] == v && v !in s[m + 1..]
  {
    m := |s| - 1;
    while s[m] != v
      invariant m < |s| && v !in s[m + 1..] && v in s[..m + 1]
      decreases m
    {
      assert s[m..] == [s[m]] + s[m + 1..] && s[..m + 1] == s[..m] + [s[m]];
      m := m - 1;
    }
  }

  // An operand is without a register in the end exactly when it is the victim of a later operand's reload, and is not
  // reloaded itself behind that.
  lemma LostIff(regs: nat, trace: seq<Snap>, inputs: seq<nat>, ln: nat, v: nat)
    requires Reloaded(regs, trace, inputs, ln) && v in inputs
    ensures !InReg(trace[|inputs|], v) <==> exists j: nat :: LostAt(regs, trace, inputs, ln, v, j)
  {
    hide Reload, InReg, Loses;
    var m := LastOccurrence(inputs, v);
    ReloadStep(regs, trace[m], trace[m + 1], v, ln, v);
    if !InReg(trace[|inputs|], v) {
      LostBehind(regs, trace, inputs, ln, v, m + 1);
    }
    if j: nat :| LostAt(regs, trace, inputs, ln, v, j) {
      assert inputs[j..][0] == inputs[j] && inputs[j + 1..] == inputs[j..][1..];
      ReloadStep(regs, trace[j], trace[j + 1], inputs[j], ln, v);
      StaysOut(regs, trace, inputs, ln, v, j + 1);
    }
  }

  // ---------------------------------------------------------------- when nothing is spilled

  // The operands that have to be reloaded.
  ghost function Missing(s: Snap, inputs: seq<nat>): set<nat> {
    set v | v in inputs && !InReg(s, v)
  }

  lemma MissingStep(regs: nat, s: Snap, s': Snap, inputs: seq<nat>, ln: nat)
    requires inputs != [] && Reload(regs, s, s', inputs[0], ln)
    ensures InReg(s, inputs[0]) ==> Missing(s', inputs[1..]) == Missing(s, inputs) && s' == s
    ensures !InReg(s, inputs[0]) ==> inputs[0] in Missing(s, inputs)
    ensures !InReg(s, inputs[0]) && |s.active| < regs ==>
              Missing(s', inputs[1..]) == Missing(s, inputs) - {inputs[0]} && |s'.active| == |s.active| + 1
                && s'.slots == s.slots
    ensures !InReg(s, inputs[0]) && |s.active| >= regs ==> s'.slots == s.slots + 1 && |s'.active| == |s.active|
  {
    assert inputs == [inputs[0]] + inputs[1..];
    hide Reload, InReg;
    forall w
      ensures w in inputs[1..] && w != inputs[0] ==>
                (Loses(regs, s, inputs[0], w, ln) || (InReg(s', w) <==> InReg(s, w)))
    {
      ReloadStep(regs, s, s', inputs[0], ln, w);
    }
    ReloadStep(regs, s, s', inputs[0], ln, inputs[0]);
    ReloadSizes(regs, s, s', inputs[0], ln);
  }

  lemma ReloadSizes(regs: nat, s: Snap, s': Snap, v: nat, ln: nat)
    requires Reload(regs, s, s', v, ln)
    ensures InReg(s, v) ==> s' == s
    ensures !InReg(s, v) && |s.active| < regs ==> |s'.active| == |s.active| + 1 && s'.slots == s.slots
    ensures !InReg(s, v) && |s.active| >= regs ==> s'.slots == s.slots + 1 && |s'.active| == |s.active|
  {
    hide Took, Swapped, Victim, SameUses, InReg;
  }

  lemma {:induction false} SlotsGrow(regs: nat, trace: seq<Snap>, inputs: seq<nat>, ln: nat)
    requires Reloaded(regs, trace, inputs, ln)
    ensures trace[|inputs|].slots >= trace[0].slots
  {
    hide Reload, InReg;
    if inputs != [] {
      ReloadSizes(regs, trace[0], trace[1], inputs[0], ln);
      SlotsGrow(regs, trace[1..], inputs[1..], ln);
    }
  }

  // The reloads take no slot exactly when the active intervals and the missing operands do not outnumber the registers.
  lemma {:induction false} SpillsIff(regs: nat, trace: seq<Snap>, inputs: seq<nat>, ln: nat)
    requires Reloaded(regs, trace, inputs, ln) && |trace[0].active| <= regs
    ensures trace[|inputs|].slots == trace[0].slots <==> |trace[0].active| + |Missing(trace[0], inputs)| <= regs
  {
    hide Reload, InReg, Missing;
    if inputs == [] {
      NothingMissing(trace[0]);
    } else {
      MissingStep(regs, trace[0], trace[1], inputs, ln);
      assert inputs[0] in Missing(trace[0], inputs) ==> |Missing(trace[0], inputs)| > 0;
      if InReg(trace[0], inputs[0]) || |trace[0].active| < regs {
        SpillsIff(regs, trace[1..], inputs[1..], ln);
      } else {
        SlotsGrow(regs, trace[1..], inputs[1..], ln);
      }
    }
  }

  lemma NothingMissing(s: Snap)
    ensures Missing(s, []) == {}
  {
  }

  // If they take none, no operand loses its register.
  lemma {:induction false} NoneLost(regs: nat, trace: seq<Snap>, inputs: seq<nat>, ln: nat, v: nat)
    requires Reloaded(regs, trace, inputs, ln) && |trace[0].active| + |Missing(trace[0], inputs)| <= regs && v in inputs
    ensures InReg(trace[|inputs|], v)
  {
    hide Reload, InReg, Missing, Victim;
    SpillsIff(regs, trace, inputs, ln);
    LostIff(regs, trace, inputs, ln, v);
    if j: nat :| LostAt(regs, trace, inputs, ln, v, j) {
      SpilledAt(regs, trace, inputs, ln, j);
      assert false;
    }
  }

  lemma {:induction false} SpilledAt(regs: nat, trace: seq<Snap>, inputs: seq<nat>, ln: nat, j: nat)
    requires Reloaded(regs, trace, inputs, ln) && j < |inputs| && !InReg(trace[j], inputs[j])
    requires |trace[j].active| >= regs
    ensures trace[|inputs|].slots > trace[0].slots
  {
    hide Reload, InReg;
    ReloadSizes(regs, trace[0], trace[1], inputs[0], ln);
    if j == 0 {
      SlotsGrow(regs, trace[1..], inputs[1..], ln);
    } else {
      SpilledAt(regs, trace[1..], inputs[1..], ln, j - 1);
    }
  }
}
