// Three runs of the allocation with two registers: one reloads an operand and loses another, one spills an interval
// that is used again instead of one that is not, one cannot place the second of two phis.
module SpillRuns {
  import opened FiniteSets
  import opened Ir
  import opened LinearOrdering
  import opened LiveIntervals
  import opened RegAllocState
  import opened RegAllocPlaces
  import opened SpillChoice
  import opened Reloads
  import RA = RegAlloc

  const REGS := 2
  const GRAPH := Cfg.Graph([[], [0]], [[1], []])

  // The instructions stand at the even numbers behind the start of the block.
  const NUMBERS: map<nat, nat> := map[0 := 2, 1 := 4, 2 := 6, 3 := 8, 4 := 10, 5 := 12, 6 := 14]

  // The values 0, 1 and 2 are used again at 14, 12 and 10; the instruction at 8 reads 1 and 0.
  function Reader(): Program {
    Program(GRAPH, [[], []], [[], [0, 1, 2, 3, 4, 5, 6]], map[
      0 := Inst(Parameter, ARRAY, 0, EQ, []),
      1 := Inst(Parameter, ARRAY, 0, EQ, []),
      2 := Inst(Parameter, ARRAY, 0, EQ, []),
      3 := Inst(Add, INT64, 0, EQ, [1, 0]),
      4 := Inst(CheckNull, ARRAY, 0, EQ, [2]),
      5 := Inst(CheckNull, ARRAY, 0, EQ, [1]),
      6 := Inst(Return, ARRAY, 0, EQ, [0])])
  }

  function ReaderIntervals(): Intervals {
    map[
      0 := LiveInterval([LiveRange(2, 14, Nowhere)], [8, 14]),
      1 := LiveInterval([LiveRange(4, 12, Nowhere)], [8, 12]),
      2 := LiveInterval([LiveRange(6, 10, Nowhere)], [10]),
      3 := LiveInterval([LiveRange(8, 10, Nowhere)], []),
      4 := LiveInterval([LiveRange(10, 12, Nowhere)], []),
      5 := LiveInterval([LiveRange(12, 14, Nowhere)], [])]
  }

  // The value 0 is read last at 10, the value 1 at 12.
  function Writer(): Program {
    Program(GRAPH, [[], []], [[], [0, 1, 2, 3, 4, 5]], map[
      0 := Inst(Parameter, INT64, 0, EQ, []),
      1 := Inst(Parameter, INT64, 0, EQ, []),
      2 := Inst(Parameter, INT64, 0, EQ, []),
      3 := Inst(Add, INT64, 0, EQ, [1, 2]),
      4 := Inst(Neg, INT64, 0, EQ, [0]),
      5 := Inst(Return, INT64, 0, EQ, [1])])
  }

  function WriterIntervals(): Intervals {
    map[
      0 := LiveInterval([LiveRange(2, 10, Nowhere)], [10]),
      1 := LiveInterval([LiveRange(4, 12, Nowhere)], [8, 12]),
      2 := LiveInterval([LiveRange(6, 8, Nowhere)], [8]),
      3 := LiveInterval([LiveRange(8, 10, Nowhere)], []),
      4 := LiveInterval([LiveRange(10, 12, Nowhere)], [])]
  }

  // ---------------------------------------------------------------- one visit

  // The state s is left by the visit of x at ln.
  ghost predicate Visited(s: Snap, fills: seq<Snap>, s': Snap, inputs: seq<nat>, x: nat, ln: nat) {
    && |fills| > 0 && fills[0].iv == s.iv && fills[0].slots == s.slots
    && (forall i: nat :: i in fills[0].active <==> i in s.active && End(s.iv, i) > ln)
    && Reloaded(REGS, fills, inputs, ln) && Place(REGS, fills[|fills| - 1], s', x, ln)
    && (forall j: nat :: j < |fills| ==> Listed(fills[j])) && Listed(s')
  }

  lemma VisitedFacts(s: Snap, fills: seq<Snap>, s': Snap, inputs: seq<nat>, x: nat, ln: nat)
    requires Visited(s, fills, s', inputs, x, ln)
    ensures |fills| == |inputs| + 1 && fills[0].iv == s.iv && (forall j: nat :: j < |fills| ==> Listed(fills[j]))
    ensures Listed(s')
    ensures forall i: nat :: i in fills[0].active <==> i in s.active && End(s.iv, i) > ln
    ensures Place(REGS, fills[|inputs|], s', x, ln)
    ensures forall j: nat :: j < |inputs| ==> Reload(REGS, fills[j], fills[j + 1], inputs[j], ln)
  {
    hide Listed, Place, Reload, End;
  }

  // With both registers taken the result gets one of them.
  lemma PlaceFull(s: Snap, s': Snap, x: nat, ln: nat) returns (k: nat)
    requires Place(REGS, s, s', x, ln) && |s.active| >= REGS
    ensures Swaps(s, s', k, x, ln) && Victim(s, k, ln)
  {
    hide Takes, Victim, Swapped, SameUses;
    k :| Swaps(s, s', k, x, ln);
  }

  lemma PlaceFree(s: Snap, s': Snap, x: nat, ln: nat)
    requires Place(REGS, s, s', x, ln) && |s.active| < REGS
    ensures Takes(s, s', x, ln)
  {
    hide Takes, Swaps;
  }

  lemma ReloadFree(s: Snap, s': Snap, v: nat, ln: nat)
    requires Reload(REGS, s, s', v, ln) && !InReg(s, v) && |s.active| < REGS
    ensures ln > 0 && Takes(s, s', v, ln - 1)
  {
    hide Takes, Swaps, InReg;
  }

  // Ends and next uses are those of the start.
  ghost predicate Like(iv0: Intervals, s: Snap, ln: nat) {
    (forall i: nat :: End(s.iv, i) == End(iv0, i)) && SameUses(iv0, s.iv, ln)
  }

  lemma LikeLater(iv0: Intervals, s: Snap, s': Snap, ln: nat, ln': nat)
    requires Like(iv0, s, ln) && s'.iv == s.iv && ln <= ln'
    ensures Like(iv0, s', ln')
  {
    hide End, NextUse;
  }

  // A list of different values is no longer than another with the same values.
  lemma SameMembers(s: seq<nat>, t: seq<nat>)
    requires forall i: nat :: i in s <==> i in t
    requires forall j, k :: 0 <= j < k < |t| ==> t[j] != t[k]
    ensures |t| <= |s|
  {
    RA.MembersCount(t, s);
  }

  // Two listed intervals are in the order of their ends.
  lemma TwoListed(iv0: Intervals, s: Snap, ln: nat, a: nat, b: nat)
    requires Listed(s) && Like(iv0, s, ln) && a != b && End(iv0, a) < End(iv0, b)
    requires forall i: nat :: i in s.active <==> i == a || i == b
    ensures s.active == [a, b]
  {
    hide End, SameUses;
    assert forall i: nat :: i in [a, b] <==> i == a || i == b;
    SameMembers([a, b], s.active);
    assert a in s.active && b in s.active;
    var i, j :| 0 <= i < |s.active| && 0 <= j < |s.active| && s.active[i] == a && s.active[j] == b;
    assert i < j;
  }

  lemma OneListed(s: Snap, a: nat)
    requires Listed(s) && forall i: nat :: i in s.active <==> i == a
    ensures s.active == [a]
  {
    assert forall i: nat :: i in [a] <==> i == a;
    SameMembers([a], s.active);
    assert a in s.active;
  }

  // A value gets a free register and keeps its end.
  lemma TakesOn(iv0: Intervals, s: Snap, s': Snap, x: nat, point: nat, ln: nat)
    requires Takes(s, s', x, point) && Like(iv0, s, ln) && point <= ln && point < End(iv0, x)
    ensures Like(iv0, s', ln) && InReg(s', x) && forall i: nat :: i != x ==> (InReg(s', i) <==> InReg(s, i))
    ensures forall i: nat :: i in s'.active <==> i in s.active || i == x
  {
    hide NextUse, End, CurrentLocation;
    SameUsesOn(iv0, s.iv, s'.iv, ln, ln);
  }

  // A value gets the register of the one to be spilled.
  lemma SwapsOn(iv0: Intervals, s: Snap, s': Snap, k: nat, x: nat, ln: nat)
    requires Swaps(s, s', k, x, ln) && Like(iv0, s, ln) && ln < End(iv0, x)
    ensures Like(iv0, s', ln) && InReg(s', x) && k < |s.active| && s.active[k] != x && !InReg(s', s.active[k])
    ensures forall i: nat :: i != x && i != s.active[k] ==> (InReg(s', i) <==> InReg(s, i))
    ensures forall i: nat :: i in s'.active <==> (i in s.active && i != s.active[k]) || i == x
  {
    hide NextUse, End, CurrentLocation, Chosen;
    SameUsesOn(iv0, s.iv, s'.iv, ln, ln);
  }

  ghost predicate Nearer(x: Option<nat>, y: Option<nat>) {
    x.Some? && y.Some? && x.value < y.value
  }

  // With two active intervals, the second of them used again, the second is to be spilled unless it is used sooner than
  // the first.
  lemma SecondVictim(iv0: Intervals, s: Snap, a: nat, b: nat, ln: nat, k: nat)
    requires Like(iv0, s, ln) && s.active == [a, b] && Victim(s, k, ln)
    ensures Nearer(NextUse(iv0, b, ln), NextUse(iv0, a, ln)) ==> k == 0
    ensures NextUse(iv0, b, ln).Some? && !Nearer(NextUse(iv0, b, ln), NextUse(iv0, a, ln)) ==> k == 1
  {
    hide NextUse, End;
    var next := NextUses(s.iv, s.active, ln);
    assert next[0] == NextUse(iv0, a, ln) && next[1] == NextUse(iv0, b, ln);
    if next[1].Some? && (next[0].Some? ==> next[0].value <= next[1].value) {
      ChosenSecond(next);
      OneChosen(next, 1, k);
    }
  }

  lemma OneChosen(next: seq<Option<nat>>, j: nat, k: nat)
    requires Chosen(next, j) && Chosen(next, k)
    ensures j == k
  {
  }

  // ---------------------------------------------------------------- the run that loses an operand

  ghost predicate ReaderUses(iv0: Intervals) {
    && End(iv0, 0) == 14 && End(iv0, 1) == 12 && End(iv0, 2) == 10 && End(iv0, 3) == 10
    && NextUse(iv0, 0, 6) == Some(8) && NextUse(iv0, 1, 6) == Some(8)
    && NextUse(iv0, 1, 8) == Some(12) && NextUse(iv0, 2, 8) == Some(10)
  }

  lemma ReaderUsesNow()
    ensures ReaderUses(ReaderIntervals())
  {
    hide DropExpired, NextUse;
    NextAt(ReaderIntervals(), 0, 0, 6);
    NextAt(ReaderIntervals(), 1, 0, 6);
    NextAt(ReaderIntervals(), 1, 1, 8);
    NextAt(ReaderIntervals(), 2, 0, 8);
  }

  // A visit of a result without operands, with a register free.
  lemma FirstVisits(iv0: Intervals, s: Snap, f: seq<Snap>, s': Snap, x: nat, ln: nat, t: nat)
    requires Visited(s, f, s', [], x, ln) && Like(iv0, s, t) && t <= ln && ln < End(iv0, x)
    requires (forall i: nat :: i in s.active ==> End(iv0, i) > ln) && Listed(s) && |s.active| < REGS
    ensures Like(iv0, s', ln) && InReg(s', x) && forall i: nat :: i != x ==> (InReg(s', i) <==> InReg(s, i))
    ensures forall i: nat :: i in s'.active <==> i in s.active || i == x
  {
    VisitedFacts(s, f, s', [], x, ln);
    hide Visited, End, InReg, Place;
    LikeLater(iv0, s, f[0], t, ln);
    LikeEnds(iv0, s, t);
    ListedOnce(f[0]);
    SameMembers(s.active, f[0].active);
    PlaceFree(f[0], s', x, ln);
    hide Listed, Like, Takes;
    TakesOn(iv0, f[0], s', x, ln, ln);
    InRegSame(s, f[0]);
  }

  lemma LikeEnds(iv0: Intervals, s: Snap, t: nat)
    requires Like(iv0, s, t)
    ensures forall i: nat :: End(s.iv, i) == End(iv0, i)
  {
    hide End, SameUses;
  }

  lemma ListedOnce(s: Snap)
    requires Listed(s)
    ensures forall j, k :: 0 <= j < k < |s.active| ==> s.active[j] != s.active[k]
  {
    hide SortedActive;
  }

  lemma InRegSame(s: Snap, s': Snap)
    requires s.iv == s'.iv
    ensures forall i: nat :: InReg(s, i) <==> InReg(s', i)
  {
  }

  // A visit of a result without operands, with both registers taken.
  lemma FullVisit(iv0: Intervals, s: Snap, f: seq<Snap>, s': Snap, a: nat, b: nat, x: nat, ln: nat, t: nat)
    returns (k: nat)
    requires Visited(s, f, s', [], x, ln) && Like(iv0, s, t) && t <= ln && ln < End(iv0, x)
    requires s.active == [a, b] && ln < End(iv0, a) < End(iv0, b) && Listed(s)
    ensures Like(iv0, s', ln) && InReg(s', x) && k < 2 && Victim(f[0], k, ln) && f[0].active == [a, b]
    ensures Like(iv0, f[0], ln)
    ensures !InReg(s', s.active[k]) && s.active[k] != x
    ensures forall i: nat :: i != x && i != s.active[k] ==> (InReg(s', i) <==> InReg(s, i))
    ensures forall i: nat :: i in s'.active <==> (i in s.active && i != s.active[k]) || i == x
  {
    VisitedFacts(s, f, s', [], x, ln);
    hide Visited, End, InReg, Place;
    LikeLater(iv0, s, f[0], t, ln);
    LikeEnds(iv0, s, t);
    assert a != b;
    PairMembers(s.active, a, b);
    hide Listed, Swaps, Like, Victim;
    TwoListed(iv0, f[0], ln, a, b);
    k := PlaceFull(f[0], s', x, ln);
    SwapsOn(iv0, f[0], s', k, x, ln);
    InRegSame(s, f[0]);
    VictimBound(f[0], k, ln);
  }

  lemma VictimBound(s: Snap, k: nat, ln: nat)
    requires Victim(s, k, ln)
    ensures k < |s.active|
  {
    hide Chosen;
  }

  lemma PairMembers(s: seq<nat>, a: nat, b: nat)
    requires s == [a, b]
    ensures forall i: nat :: i in s <==> i == a || i == b
  {
  }

  lemma VictimOf(s: Snap, s': Snap, k: nat, x: nat, ln: nat)
    requires Swaps(s, s', k, x, ln)
    ensures Victim(s, k, ln)
  {
  }

  // After the definition of value 2 its register was that of value 0.
  lemma ReaderDefined(iv0: Intervals, s0: Snap, s1: Snap, s2: Snap, s3: Snap, f1: seq<Snap>, f2: seq<Snap>,
                      f3: seq<Snap>)
    requires ReaderUses(iv0) && s0 == Snap(iv0, [], 0) && Visited(s0, f1, s1, [], 0, 2) && Visited(s1, f2, s2, [], 1, 4)
    requires Visited(s2, f3, s3, [], 2, 6)
    ensures Like(iv0, s3, 6) && s3.active == [2, 1] && InReg(s3, 1) && InReg(s3, 2) && !InReg(s3, 0)
  {
    hide InReg, End, NextUse, Reloaded, Place;
    assert Like(iv0, s0, 0);
    FirstVisits(iv0, s0, f1, s1, 0, 2, 0);
    OneListed(s1, 0);
    FirstVisits(iv0, s1, f2, s2, 1, 4, 2);
    TwoListed(iv0, s2, 4, 1, 0);
    var k := FullVisit(iv0, s2, f3, s3, 1, 0, 2, 6, 4);
    SecondVictim(iv0, f3[0], 1, 0, 6, k);
    TwoListed(iv0, s3, 6, 2, 1);
  }

  // The instruction at 8 reloads value 0 into the register of value 1, its other operand.
  lemma ReaderLoses(iv0: Intervals, s: Snap, f: seq<Snap>, s': Snap)
    requires ReaderUses(iv0) && Like(iv0, s, 6) && s.active == [2, 1] && InReg(s, 1) && InReg(s, 2) && !InReg(s, 0)
    requires Visited(s, f, s', [1, 0], 3, 8)
    ensures |f| == 3 && InReg(f[2], 0) && !InReg(f[2], 1) && !InReg(s', 1)
  {
    VisitedFacts(s, f, s', [1, 0], 3, 8);
    hide Visited, NextUse, Listed, Reload, Place, InReg;
    LikeLater(iv0, s, f[0], 6, 8);
    LikeEnds(iv0, s, 6);
    PairMembers(s.active, 2, 1);
    hide End, Like;
    TwoListed(iv0, f[0], 8, 2, 1);
    InRegSame(s, f[0]);
    StaysThere(REGS, f[0], f[1], 1, 8);
    var k := ReloadFull(iv0, f[1], f[2], 0, 8);
    SecondVictim(iv0, f[1], 2, 1, 8, k);
    PlaceLost(f[2], s', 1, 3, 8);
  }

  // A result gives no other value a register.
  lemma PlaceLost(s: Snap, s': Snap, v: nat, x: nat, ln: nat)
    requires Place(REGS, s, s', x, ln) && v != x
    ensures !InReg(s, v) ==> !InReg(s', v)
  {
    hide Victim, SameUses;
  }

  lemma StaysThere(regs: nat, s: Snap, s': Snap, v: nat, ln: nat)
    requires Reload(regs, s, s', v, ln) && InReg(s, v)
    ensures s' == s
  {
  }

  // A reload with both registers taken.
  lemma ReloadFull(iv0: Intervals, s: Snap, s': Snap, v: nat, ln: nat) returns (k: nat)
    requires Reload(REGS, s, s', v, ln) && !InReg(s, v) && |s.active| == REGS && Like(iv0, s, ln) && ln < End(iv0, v)
    ensures Victim(s, k, ln) && InReg(s', v) && !InReg(s', s.active[k])
  {
    hide InReg, Swaps, Takes, Victim;
    k :| Swaps(s, s', k, v, ln);
    SwapsOn(iv0, s, s', k, v, ln);
    VictimOf(s, s', k, v, ln);
  }

  // ---------------------------------------------------------------- the run that spills what is used again

  ghost predicate WriterUses(iv0: Intervals) {
    && End(iv0, 0) == 10 && End(iv0, 1) == 12 && End(iv0, 2) == 8 && End(iv0, 3) == 10 && End(iv0, 4) == 12
    && NextUse(iv0, 0, 6) == Some(10) && NextUse(iv0, 1, 6) == Some(8)
    && NextUse(iv0, 0, 10) == None && NextUse(iv0, 1, 10) == Some(12)
  }

  lemma WriterUsesNow()
    ensures WriterUses(WriterIntervals())
  {
    hide DropExpired, NextUse;
    NextAt(WriterIntervals(), 0, 0, 6);
    NextAt(WriterIntervals(), 1, 0, 6);
    NextAt(WriterIntervals(), 0, 1, 10);
    NextAt(WriterIntervals(), 1, 1, 10);
  }

  lemma WriterDefined(iv0: Intervals, s0: Snap, s1: Snap, s2: Snap, s3: Snap, f1: seq<Snap>, f2: seq<Snap>,
                      f3: seq<Snap>)
    requires WriterUses(iv0) && s0 == Snap(iv0, [], 0) && Visited(s0, f1, s1, [], 0, 2) && Visited(s1, f2, s2, [], 1, 4)
    requires Visited(s2, f3, s3, [], 2, 6)
    ensures Like(iv0, s3, 6) && s3.active == [2, 1] && InReg(s3, 1) && InReg(s3, 2) && !InReg(s3, 0)
  {
    hide InReg, End, NextUse, Reloaded, Place;
    assert Like(iv0, s0, 0);
    FirstVisits(iv0, s0, f1, s1, 0, 2, 0);
    OneListed(s1, 0);
    FirstVisits(iv0, s1, f2, s2, 1, 4, 2);
    TwoListed(iv0, s2, 4, 0, 1);
    var k := FullVisit(iv0, s2, f3, s3, 0, 1, 2, 6, 4);
    SecondVictim(iv0, f3[0], 0, 1, 6, k);
    TwoListed(iv0, s3, 6, 2, 1);
  }

  // The instruction at 8 has both operands in registers, and its result gets that of value 2.
  lemma WriterReads(iv0: Intervals, s: Snap, f: seq<Snap>, s': Snap)
    requires WriterUses(iv0) && Like(iv0, s, 6) && s.active == [2, 1] && InReg(s, 1) && InReg(s, 2) && !InReg(s, 0)
    requires Visited(s, f, s', [1, 2], 3, 8)
    ensures Like(iv0, s', 8) && s'.active == [3, 1] && InReg(s', 1) && !InReg(s', 0)
  {
    VisitedFacts(s, f, s', [1, 2], 3, 8);
    hide Visited, NextUse, Listed, Reload, Place, InReg;
    LikeLater(iv0, s, f[0], 6, 8);
    LikeEnds(iv0, s, 6);
    PairMembers(s.active, 2, 1);
    InRegSame(s, f[0]);
    hide End, Like;
    StaysThere(REGS, f[0], f[1], 1, 8);
    StaysThere(REGS, f[1], f[2], 2, 8);
    OneListed(f[2], 1);
    PlaceFree(f[2], s', 3, 8);
    hide Takes;
    TakesOn(iv0, f[2], s', 3, 8, 8);
    TwoListed(iv0, s', 8, 3, 1);
  }

  // The instruction at 10 reloads value 0, which is not used again; its result gets the register of value 1, which is.
  lemma WriterSpills(iv0: Intervals, s: Snap, f: seq<Snap>, s': Snap)
    requires WriterUses(iv0) && Like(iv0, s, 8) && s.active == [3, 1] && InReg(s, 1) && !InReg(s, 0)
    requires Visited(s, f, s', [0], 4, 10)
    ensures |f| == 2 && f[1].active == [0, 1] && Listed(f[1]) && Like(iv0, f[1], 10) && !InReg(s', 1)
    ensures Chosen(NextUses(f[1].iv, [0, 1], 10), 1) && !Furthest(NextUses(f[1].iv, [0, 1], 10), 1)
  {
    VisitedFacts(s, f, s', [0], 4, 10);
    hide Visited, NextUse, Listed, Reload, Place, InReg, Takes, Swaps, Victim, Chosen, Furthest;
    LikeLater(iv0, s, f[0], 8, 10);
    LikeEnds(iv0, s, 8);
    PairMembers(s.active, 3, 1);
    InRegSame(s, f[0]);
    hide End, Like;
    OneListed(f[0], 1);
    ReloadFree(f[0], f[1], 0, 10);
    TakesOn(iv0, f[0], f[1], 0, 9, 10);
    TwoListed(iv0, f[1], 10, 0, 1);
    var k := PlaceFull(f[1], s', 4, 10);
    SwapsOn(iv0, f[1], s', k, 4, 10);
    SecondVictim(iv0, f[1], 0, 1, 10, k);
    NextLike(iv0, f[1], 10, 0, 1);
    ChosenSecond(NextUses(f[1].iv, [0, 1], 10));
  }

  lemma NextLike(iv0: Intervals, s: Snap, ln: nat, a: nat, b: nat)
    requires Like(iv0, s, ln)
    ensures NextUses(s.iv, [a, b], ln) == [NextUse(iv0, a, ln), NextUse(iv0, b, ln)]
  {
    hide NextUse, End;
  }

  // ---------------------------------------------------------------- the runs

  lemma BlankUnplaced(iv: Intervals)
    requires Blank(iv)
    ensures Unplaced(iv) == iv
  {
    forall i | i in iv ensures Unplaced(iv)[i] == iv[i] {
      assert SetFrom(iv[i].ranges, 0, Nowhere) == iv[i].ranges;
    }
  }

  // The allocation is in front of the next visit.
  ghost predicate Ready(ra: RA.RegAlloc, iv0: Intervals, done: set<nat>, t: nat, lim: nat)
    reads ra
  {
    && ra.regs == REGS && ra.At(t) && Listed(ra.Now()) && Blank(iv0)
    && Untouched(iv0, ra.intervals, RA.Results(ra.p, done)) && ra.Good(iv0, RA.Results(ra.p, done))
    && ra.Bounded(iv0, t, lim)
    && Earlier(ra.lns, RA.Results(ra.p, done), lim)
  }

  // What the visit of x finds: its interval, and those of its operands.
  ghost predicate Fits(p: Program, lns: map<nat, nat>, iv0: Intervals, done: set<nat>, x: nat) {
    && x in p.insts && x in lns && lns[x] == 2 * x + 2 && HasDst(p.insts[x].op) && p.insts[x].op != Phi && x !in done
    && RA.IntervalBegins(iv0, x, lns[x]) && WellFormed(iv0[x].ranges)
    && RA.OperandsDone(p, iv0, RA.Results(p, done), x, lns[x])
  }

  method Next(ra: RA.RegAlloc, x: nat, ghost iv0: Intervals, ghost done: set<nat>, ghost t: nat)
    returns (ghost fills: seq<Snap>)
    requires Fits(ra.p, ra.lns, iv0, done, x) && Ready(ra, iv0, done, t, 2 * x + 2) && t <= 2 * x + 2
    modifies ra
    ensures Ready(ra, iv0, done + {x}, 2 * x + 2, 2 * x + 4)
    ensures Visited(old(ra.Now()), fills, ra.Now(), ra.p.insts[x].inputs, x, 2 * x + 2)
  {
    hide IntervalsOk, NoConflict, Future, ActiveOk, SortedActive, Blank, Settlement, SlotsOwned, Untouched;
    hide Expired, Reaching;
    hide Stretch, RA.IntervalBegins, RA.OperandsDone, Place, Reloaded, Earlier, Listed, RA.Results, WellFormed, End;
    ghost var res := RA.Results(ra.p, done);
    RA.OneMoreResult(ra.p, done, x);
    RA.EarlierMore(ra.lns, res, 2 * x + 2, 2 * x + 4, x);
    RA.EarlierLater(ra.lns, res, 2 * x + 2, 2 * x + 3);
    RA.StretchMore(iv0, ra.intervals, 2 * x + 2, 2 * x + 4);
    var ok;
    ok, fills := ra.Visit(x, 2 * x + 2, iv0, done, t, 2 * x + 4);
    RA.ListedNow(REGS, ra.Now(), ra.busy, 2 * x + 2);
  }

  method Start(p: Program, lns: map<nat, nat>, iv0: Intervals) returns (ra: RA.RegAlloc)
    requires Blank(iv0) && IntervalsOk(iv0)
    ensures fresh(ra) && ra.p == p && ra.lns == lns && ra.Now() == Snap(iv0, [], 0) && Ready(ra, iv0, {}, 0, 2)
  {
    BlankUnplaced(iv0);
    ra := new RA.RegAlloc(p, [], lns, REGS, iv0);
    NothingHeld(REGS, iv0);
    NothingSettled(iv0, lns);
    RA.NoResults(p);
  }

  // The visits of the first n instructions. The states between them are `snaps`, those while operands are filled
  // `fills`.
  method Run(p: Program, lns: map<nat, nat>, iv0: Intervals, n: nat)
    returns (ra: RA.RegAlloc, ghost snaps: seq<Snap>, ghost fills: seq<seq<Snap>>)
    requires Blank(iv0) && IntervalsOk(iv0) && forall x: nat :: x < n ==> Fits(p, lns, iv0, UpTo(x), x)
    ensures fresh(ra) && ra.p == p && ra.lns == lns && Ready(ra, iv0, UpTo(n), 2 * n, 2 * n + 2)
    ensures |snaps| == n + 1 && |fills| == n && snaps[0] == Snap(iv0, [], 0) && ra.Now() == snaps[n]
    ensures forall x: nat :: x < n ==> VisitedAt(p, snaps, fills, x)
  {
    hide Blank, IntervalsOk, Fits, Ready, Visited, UpTo;
    NoneYet();
    ra := Start(p, lns, iv0);
    snaps, fills := [ra.Now()], [];
    for x := 0 to n
      invariant fresh(ra) && ra.p == p && ra.lns == lns && Ready(ra, iv0, UpTo(x), 2 * x, 2 * x + 2)
      invariant |snaps| == x + 1 && |fills| == x && snaps[0] == Snap(iv0, [], 0) && snaps[x] == ra.Now()
      invariant forall y: nat :: y < x ==> VisitedAt(p, snaps, fills, y)
    {
      OneMoreDone(p, lns, iv0, x);
      ghost var f := Next(ra, x, iv0, UpTo(x), 2 * x);
      assert VisitedAt(p, snaps + [ra.Now()], fills + [f], x);
      forall y: nat | y < x ensures VisitedAt(p, snaps + [ra.Now()], fills + [f], y) {
        VisitedMore(p, snaps, fills, ra.Now(), f, y);
      }
      snaps, fills := snaps + [ra.Now()], fills + [f];
    }
  }

  lemma NoneYet()
    ensures UpTo(0) == {}
  {
  }

  lemma VisitedMore(p: Program, snaps: seq<Snap>, fills: seq<seq<Snap>>, s: Snap, f: seq<Snap>, y: nat)
    requires VisitedAt(p, snaps, fills, y)
    ensures VisitedAt(p, snaps + [s], fills + [f], y)
  {
    hide Visited;
  }

  ghost predicate VisitedAt(p: Program, snaps: seq<Snap>, fills: seq<seq<Snap>>, x: nat) {
    && x in p.insts && x < |fills| && x + 1 < |snaps|
    && Visited(snaps[x], fills[x], snaps[x + 1], p.insts[x].inputs, x, 2 * x + 2)
  }

  lemma OneMoreDone(p: Program, lns: map<nat, nat>, iv0: Intervals, x: nat)
    requires Fits(p, lns, iv0, UpTo(x), x)
    ensures x in p.insts && UpTo(x + 1) == UpTo(x) + {x}
  {
    hide RA.OperandsDone, RA.IntervalBegins, WellFormed;
  }

  // The operand v of an instruction behind it has an interval that reaches up to ln.
  ghost predicate OperandFits(p: Program, iv0: Intervals, v: nat, x: nat) {
    v < x && v in p.insts && HasDst(p.insts[v].op) && v in iv0 && WellFormed(iv0[v].ranges) && End(iv0, v) >= 2 * x + 2
  }

  lemma FitsIf(p: Program, lns: map<nat, nat>, iv0: Intervals, x: nat)
    requires x in p.insts && x in lns && lns[x] == 2 * x + 2 && HasDst(p.insts[x].op) && p.insts[x].op != Phi
    requires x in iv0 && iv0[x].ranges != [] && WellFormed(iv0[x].ranges) && Startpoint(iv0[x].ranges) == 2 * x + 2
    requires forall v :: v in p.insts[x].inputs ==> OperandFits(p, iv0, v, x)
    ensures Fits(p, lns, iv0, UpTo(x), x)
  {
    hide WellFormed, End, UpTo;
    forall v | v in p.insts[x].inputs
      ensures v in RA.Results(p, UpTo(x)) && v in iv0 && WellFormed(iv0[v].ranges) && End(iv0, v) >= lns[x]
    {
      assert OperandFits(p, iv0, v, x);
      assert v in UpTo(x);
    }
    hide OperandFits;
  }

  lemma ReaderFits(x: nat)
    requires x < 4
    ensures Fits(Reader(), NUMBERS, ReaderIntervals(), UpTo(x), x)
  {
    hide Fits, UpTo;
    var p, iv0 := Reader(), ReaderIntervals();
    assert x == 3 ==> OperandFits(p, iv0, 0, x) && OperandFits(p, iv0, 1, x);
    hide OperandFits, End;
    FitsIf(p, NUMBERS, iv0, x);
  }

  lemma ReaderBlank()
    ensures Blank(ReaderIntervals()) && IntervalsOk(ReaderIntervals())
  {
  }

  lemma ReaderReady()
    ensures Blank(ReaderIntervals()) && IntervalsOk(ReaderIntervals()) && ReaderUses(ReaderIntervals())
    ensures forall x: nat :: x < 4 ==> Fits(Reader(), NUMBERS, ReaderIntervals(), UpTo(x), x) && x in Reader().insts
    ensures Reader().insts.Keys >= {0, 1, 2, 3} && Reader().insts[3].inputs == [1, 0]
    ensures Reader().insts[0].inputs == Reader().insts[1].inputs == Reader().insts[2].inputs == []
  {
    ReaderBlank();
    ReaderUsesNow();
    hide Blank, IntervalsOk, ReaderUses, Fits, ReaderIntervals, UpTo;
    forall x: nat | x < 4 ensures Fits(Reader(), NUMBERS, ReaderIntervals(), UpTo(x), x) {
      ReaderFits(x);
    }
  }

  // The instruction at 8 reads value 1, which has no register any more when its operands have been filled.
  method LoseOperand() returns (places: Intervals, ghost filled: Snap)
    ensures 3 in Reader().insts && 1 in Reader().insts[3].inputs && !InReg(filled, 1)
    ensures !CurrentLocation(places, 1).Reg?
  {
    ReaderReady();
    hide Blank, IntervalsOk, ReaderUses, Fits, Visited, InReg, UpTo, Reader, ReaderIntervals;
    var ra;
    ghost var s, f;
    ra, s, f := Run(Reader(), NUMBERS, ReaderIntervals(), 4);
    places := ra.intervals;
    assert VisitedAt(Reader(), s, f, 0) && VisitedAt(Reader(), s, f, 1) && VisitedAt(Reader(), s, f, 2)
      && VisitedAt(Reader(), s, f, 3);
    ReaderDefined(ReaderIntervals(), s[0], s[1], s[2], s[3], f[0], f[1], f[2]);
    ReaderLoses(ReaderIntervals(), s[3], f[3], s[4]);
    filled := f[3][2];
    InRegIs(s[4], 1);
  }

  lemma InRegIs(s: Snap, v: nat)
    ensures InReg(s, v) <==> CurrentLocation(s.iv, v).Reg?
  {
  }

  lemma WriterFits(x: nat)
    requires x < 5
    ensures Fits(Writer(), NUMBERS, WriterIntervals(), UpTo(x), x)
  {
    hide Fits, UpTo;
    var p, iv0 := Writer(), WriterIntervals();
    assert x == 3 ==> OperandFits(p, iv0, 1, x) && OperandFits(p, iv0, 2, x);
    assert x == 4 ==> OperandFits(p, iv0, 0, x);
    hide OperandFits, End;
    FitsIf(p, NUMBERS, iv0, x);
  }

  lemma WriterBlank()
    ensures Blank(WriterIntervals()) && IntervalsOk(WriterIntervals())
  {
  }

  lemma WriterReady()
    ensures Blank(WriterIntervals()) && IntervalsOk(WriterIntervals()) && WriterUses(WriterIntervals())
    ensures forall x: nat :: x < 5 ==> Fits(Writer(), NUMBERS, WriterIntervals(), UpTo(x), x) && x in Writer().insts
    ensures Writer().insts.Keys >= {0, 1, 2, 3, 4} && Writer().insts[3].inputs == [1, 2]
    ensures Writer().insts[4].inputs == [0]
    ensures Writer().insts[0].inputs == Writer().insts[1].inputs == Writer().insts[2].inputs == []
  {
    WriterBlank();
    WriterUsesNow();
    hide Blank, IntervalsOk, WriterUses, Fits, WriterIntervals, UpTo;
    forall x: nat | x < 5 ensures Fits(Writer(), NUMBERS, WriterIntervals(), UpTo(x), x) {
      WriterFits(x);
    }
  }

  // When the result at 10 needs a register, value 0 has no further use, but value 1, which has one, is spilled.
  method SpillUsed() returns (places: Intervals, ghost filled: Snap)
    ensures filled.active == [0, 1] && Listed(filled) && !CurrentLocation(places, 1).Reg?
    ensures Chosen(NextUses(filled.iv, [0, 1], 10), 1) && !Furthest(NextUses(filled.iv, [0, 1], 10), 1)
  {
    WriterReady();
    hide Blank, IntervalsOk, WriterUses, Fits, Visited, InReg, Chosen, Furthest, UpTo, Writer, WriterIntervals;
    var ra;
    ghost var s, f;
    ra, s, f := Run(Writer(), NUMBERS, WriterIntervals(), 5);
    places := ra.intervals;
    assert VisitedAt(Writer(), s, f, 0) && VisitedAt(Writer(), s, f, 1) && VisitedAt(Writer(), s, f, 2)
      && VisitedAt(Writer(), s, f, 3);
    assert VisitedAt(Writer(), s, f, 4);
    WriterDefined(WriterIntervals(), s[0], s[1], s[2], s[3], f[0], f[1], f[2]);
    WriterReads(WriterIntervals(), s[3], f[3], s[4]);
    WriterSpills(WriterIntervals(), s[4], f[4], s[5]);
    filled := f[4][1];
    InRegIs(s[5], 1);
  }

  // ---------------------------------------------------------------- the run that fails at a phi

  // A block with two phis at 6, which take the value 1; the value 0 is used at 8, the phis at 10.
  const JOIN_NUMBERS: map<nat, nat> := map[0 := 2, 1 := 4, 2 := 6, 3 := 6, 4 := 8, 5 := 10, 6 := 12]

  function Join(): Program {
    Program(Cfg.Graph([[], [2], [0]], [[2], [], [1]]), [[], [], [2, 3]], [[], [0, 1], [4, 5, 6]], map[
      0 := Inst(Parameter, ARRAY, 0, EQ, []),
      1 := Inst(Parameter, INT64, 0, EQ, []),
      2 := Inst(Phi, INT64, 0, EQ, [1]),
      3 := Inst(Phi, INT64, 0, EQ, [1]),
      4 := Inst(CheckNull, ARRAY, 0, EQ, [0]),
      5 := Inst(Add, INT64, 0, EQ, [2, 3]),
      6 := Inst(Return, INT64, 0, EQ, [5])])
  }

  function JoinIntervals(): Intervals {
    map[
      0 := LiveInterval([LiveRange(2, 8, Nowhere)], [8]),
      1 := LiveInterval([LiveRange(4, 6, Nowhere)], [6]),
      2 := LiveInterval([LiveRange(6, 10, Nowhere)], [10]),
      3 := LiveInterval([LiveRange(6, 10, Nowhere)], [10]),
      4 := LiveInterval([LiveRange(8, 10, Nowhere)], []),
      5 := LiveInterval([LiveRange(10, 12, Nowhere)], [12])]
  }

  ghost predicate JoinUses(iv0: Intervals) {
    && End(iv0, 0) == 8 && End(iv0, 1) == 6 && End(iv0, 2) == 10 && End(iv0, 3) == 10
    && NextUse(iv0, 0, 6) == Some(8) && NextUse(iv0, 2, 6) == Some(10)
  }

  lemma JoinUsesNow()
    ensures JoinUses(JoinIntervals()) && Blank(JoinIntervals()) && IntervalsOk(JoinIntervals())
  {
    hide DropExpired, NextUse;
    NextAt(JoinIntervals(), 0, 0, 6);
    NextAt(JoinIntervals(), 2, 0, 6);
  }

  lemma JoinFits(x: nat)
    requires x < 2
    ensures Fits(Join(), JOIN_NUMBERS, JoinIntervals(), UpTo(x), x)
  {
    hide Fits, UpTo;
    FitsIf(Join(), JOIN_NUMBERS, JoinIntervals(), x);
  }

  // What the visit of a phi finds.
  ghost predicate PhiFits(p: Program, lns: map<nat, nat>, iv0: Intervals, x: nat, ln: nat) {
    && x in p.insts && x in lns && lns[x] == ln && p.insts[x].op == Phi && RA.IntervalBegins(iv0, x, ln)
    && WellFormed(iv0[x].ranges)
  }

  lemma JoinReady()
    ensures JoinUses(JoinIntervals()) && Blank(JoinIntervals()) && IntervalsOk(JoinIntervals())
    ensures forall x: nat :: x < 2 ==> Fits(Join(), JOIN_NUMBERS, JoinIntervals(), UpTo(x), x)
    ensures 0 in Join().insts && 1 in Join().insts && Join().insts[0].inputs == Join().insts[1].inputs == []
    ensures PhiFits(Join(), JOIN_NUMBERS, JoinIntervals(), 2, 6) && PhiFits(Join(), JOIN_NUMBERS, JoinIntervals(), 3, 6)
  {
    JoinUsesNow();
    hide Blank, IntervalsOk, JoinUses, Fits, UpTo;
    forall x: nat | x < 2 ensures Fits(Join(), JOIN_NUMBERS, JoinIntervals(), UpTo(x), x) {
      JoinFits(x);
    }
  }

  lemma JoinDefined(iv0: Intervals, s0: Snap, s1: Snap, s2: Snap, f1: seq<Snap>, f2: seq<Snap>)
    requires JoinUses(iv0) && s0 == Snap(iv0, [], 0) && Visited(s0, f1, s1, [], 0, 2) && Visited(s1, f2, s2, [], 1, 4)
    ensures Like(iv0, s2, 4) && s2.active == [1, 0]
  {
    hide InReg, End, NextUse, Visited;
    assert Like(iv0, s0, 0);
    FirstVisits(iv0, s0, f1, s1, 0, 2, 0);
    VisitedFacts(s0, f1, s1, [], 0, 2);
    OneListed(s1, 0);
    FirstVisits(iv0, s1, f2, s2, 1, 4, 2);
    VisitedFacts(s1, f2, s2, [], 1, 4);
    TwoListed(iv0, s2, 4, 1, 0);
  }

  // A visit of a phi up to the point where its result gets a register.
  ghost predicate AtPhi(s: Snap, f: Snap, ln: nat) {
    f.iv == s.iv && Listed(f) && forall i: nat :: i in f.active <==> i in s.active && End(s.iv, i) > ln
  }

  lemma FirstPhi(iv0: Intervals, s: Snap, f: Snap, lns: map<nat, nat>)
    requires JoinUses(iv0) && Like(iv0, s, 4) && s.active == [1, 0] && AtPhi(s, f, 6)
    ensures Like(iv0, f, 6) && f.active == [0] && !Blocked(REGS, lns, f, 6)
  {
    hide NextUse, Listed;
    LikeLater(iv0, s, f, 4, 6);
    LikeEnds(iv0, s, 4);
    PairMembers(s.active, 1, 0);
    hide End, Like;
    OneListed(f, 0);
  }

  lemma SecondPhi(iv0: Intervals, f: Snap, s: Snap, g: Snap, lns: map<nat, nat>)
    requires JoinUses(iv0) && Like(iv0, f, 6) && f.active == [0] && Place(REGS, f, s, 2, 6) && Listed(s)
    requires AtPhi(s, g, 6)
    requires 2 in lns && lns[2] == 6
    ensures Blocked(REGS, lns, g, 6)
  {
    hide NextUse, Listed, Place, Takes, Like, Chosen;
    PlaceFree(f, s, 2, 6);
    LikeEnds(iv0, f, 6);
    TakesOn(iv0, f, s, 2, 6, 6);
    LikeLater(iv0, s, g, 6, 6);
    LikeEnds(iv0, s, 6);
    assert forall i: nat :: i in f.active <==> i == 0;
    hide End;
    TwoListed(iv0, g, 6, 0, 2);
    NextLike(iv0, g, 6, 0, 2);
    ChosenSecond(NextUses(g.iv, g.active, 6));
    assert Victim(g, 1, 6);
  }

  lemma NotYet(x: nat, y: nat)
    requires x >= 2 && y >= 2 && x != y
    ensures x !in UpTo(2) && y !in UpTo(2) + {x}
  {
    hide UpTo;
  }

  lemma JoinPhi()
    ensures 2 in JOIN_NUMBERS && JOIN_NUMBERS[2] == 6
  {
  }

  // The allocation is in front of a phi at ln.
  ghost predicate PhiReady(ra: RA.RegAlloc, iv0: Intervals, done: set<nat>, t: nat, ln: nat)
    reads ra
  {
    && ra.regs == REGS && ra.At(t) && Listed(ra.Now()) && Blank(iv0)
    && Untouched(iv0, ra.intervals, RA.Results(ra.p, done)) && ra.Good(iv0, RA.Results(ra.p, done))
    && ra.Bounded(iv0, t, ln)
    && Earlier(ra.lns, RA.Results(ra.p, done), ln + 1)
  }

  lemma ReadyForPhi(ra: RA.RegAlloc, iv0: Intervals, done: set<nat>, t: nat, ln: nat)
    requires Ready(ra, iv0, done, t, ln)
    ensures PhiReady(ra, iv0, done, t, ln)
  {
    hide Inv, Listed, Blank, Untouched, Settlement, SlotsOwned, Expired, Reaching, Stretch;
  }

  method NextPhi(ra: RA.RegAlloc, x: nat, ghost iv0: Intervals, ghost done: set<nat>, ghost t: nat, ln: nat)
    returns (ok: bool, ghost f: Snap)
    requires PhiFits(ra.p, ra.lns, iv0, x, ln) && ln % 2 == 0 && x !in done && PhiReady(ra, iv0, done, t, ln) && t <= ln
    modifies ra
    ensures AtPhi(old(ra.Now()), f, ln) && (ok <==> !Blocked(REGS, ra.lns, f, ln))
    ensures ok ==> PhiReady(ra, iv0, done + {x}, ln, ln) && Listed(ra.Now()) && Place(REGS, f, ra.Now(), x, ln)
  {
    hide IntervalsOk, NoConflict, Future, ActiveOk, SortedActive, Blank, Settlement, SlotsOwned, Untouched;
    hide Expired, Reaching;
    hide Stretch, RA.IntervalBegins, Place, Earlier, Listed, RA.Results, WellFormed, End, Blocked;
    RA.OneMoreResult(ra.p, done, x);
    RA.EarlierMore(ra.lns, RA.Results(ra.p, done), ln + 1, ln + 1, x);
    ghost var fills;
    ok, fills := ra.Visit(x, ln, iv0, done, t, ln);
    f := fills[0];
    if ok {
      RA.ListedNow(REGS, ra.Now(), ra.busy, ln);
    }
  }

  // At 6 the value 0 and the first phi hold the registers. The first phi is used last, but it begins at 6 itself, where
  // its range cannot be split, so the second phi gets no register.
  method FailAtPhi() returns (ok: bool)
    ensures !ok
  {
    JoinReady();
    hide Blank, IntervalsOk, JoinUses, Fits, Ready, Visited, UpTo, Join, JoinIntervals, PhiFits, PhiReady;
    hide Place, AtPhi, Blocked, Like, Listed;
    JoinPhi();
    var iv0 := JoinIntervals();
    var ra;
    ghost var s, f;
    ra, s, f := Run(Join(), JOIN_NUMBERS, iv0, 2);
    assert VisitedAt(Join(), s, f, 0) && VisitedAt(Join(), s, f, 1);
    JoinDefined(iv0, s[0], s[1], s[2], f[0], f[1]);
    ReadyForPhi(ra, iv0, UpTo(2), 4, 6);
    NotYet(2, 3);
    ghost var g;
    ok, g := NextPhi(ra, 2, iv0, UpTo(2), 4, 6);
    FirstPhi(iv0, s[2], g, ra.lns);
    ghost var s3 := ra.Now();
    ghost var h;
    ok, h := NextPhi(ra, 3, iv0, UpTo(2) + {2}, 6, 6);
    SecondPhi(iv0, g, s3, h, ra.lns);
  }
}
