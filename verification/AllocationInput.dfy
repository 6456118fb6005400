// What the liveness analysis hands to the register allocation: every operand's interval reaches its use, and what lives
// across the start of a block is what is needed there or behind it.
module AllocationInput {
  import opened Cfg
  import opened FiniteSets
  import opened Ir
  import opened Ssa
  import opened LinearOrdering
  import opened LiveIntervals
  import opened LivenessSpec
  import opened Liveness
  import opened LiveCoverage
  import opened LiveOrder
  import opened RegAllocState
  import opened RegAllocPlaces
  import RegAlloc

  // The intervals cover what the ranges of the analysis cover.
  ghost predicate CoversRanges(p: Program, order: seq<Elem>, iv: Intervals)
    requires InRange(p, order)
  {
    forall v: nat, x: nat :: (v in iv && Covers(iv[v].ranges, x)) <==> Covers(RangesOf(p, order, v, 0), x)
  }

  ghost predicate AllBlocksOk(p: Program)
    requires Ir.Sized(p)
  {
    forall b: nat :: b < p.g.Size() ==> BlockOk(p, b)
  }

  lemma OrderBlocksOk(p: Program, order: seq<Elem>)
    requires InRange(p, order) && Topological(p.g, order)
    ensures (forall j :: 0 <= j < |order| ==> BlockOk(p, order[j].block)) <==> AllBlocksOk(p)
  {
    hide BlockOk;
    if forall j :: 0 <= j < |order| ==> BlockOk(p, order[j].block) {
      forall b: nat | b < p.g.Size() ensures BlockOk(p, b) {
        assert b in BlocksOf(order);
        var j :| 0 <= j < |order| && order[j].block == b;
      }
    }
  }

  // ---------------------------------------------------------------- operands

  // An operand is needed up to its use.
  lemma OperandNeeded(p: Program, order: seq<Elem>, j: nat, k: nat, v: nat)
    requires Strict(p) && InRange(p, order) && j < |order| && k < |p.body[order[j].block]|
    requires UsesAt(p, order[j].block, k, v)
    ensures Needed(p, order, v, order[j].ln + 1 + 2 * k)
  {
    hide InputsReady, PhiReady, Unique, AllReachable, LiveEnd;
    OperandNotBehind(p, order[j].block, k, v);
    assert NeededAt(p, SpanAt(p, order, j), v, order[j].ln + 1 + 2 * k);
  }

  lemma DefinedSomewhere(p: Program, v: nat, b: nat, k: nat) returns (c: nat)
    requires b < |p.phis| && b < |p.body| && k <= |p.body[b]| && Before(p, v, b, k)
    ensures InBlock(p, v, c)
  {
    if LiveIn(p, v, b) {
      c :| InBlock(p, v, c) && StrictlyDominates(p.g, c, b);
    } else {
      c := b;
    }
  }

  // An operand is a result, in a program the analysis accepts.
  lemma OperandResult(p: Program, b: nat, k: nat, v: nat)
    requires Strict(p) && AllBlocksOk(p) && b < p.g.Size() && k < |p.body[b]| && UsesAt(p, b, k, v)
    ensures v in p.insts && HasDst(p.insts[v].op) && Used(p, v)
  {
    hide PhiReady, Unique, AllReachable, Alive, BlockOk, StrictlyDominates;
    assert InputsReady(p, b, k);
    assert p.body[b][k] in p.body[b];
    var c := DefinedSomewhere(p, v, b, k);
    if v in p.body[c] {
      BodyUseAlive(p, c, v, b, k);
      var d :| 0 <= d < |p.body[c]| && p.body[c][d] == v;
      AliveResult(p, c, d);
    }
  }

  lemma AliveResult(p: Program, c: nat, d: nat)
    requires Ir.Sized(p) && c < p.g.Size() && d < |p.body[c]| && BlockOk(p, c) && Alive(p, c, p.body[c][d])
    ensures p.body[c][d] in p.insts && HasDst(p.insts[p.body[c][d]].op)
  {
    hide Alive;
    assert ResultOk(p, c, d);
  }

  // An operand is defined earlier in the order of the visits.
  lemma OperandInFront(p: Program, order: seq<Elem>, j: nat, k: nat, v: nat)
    requires Strict(p) && InRange(p, order) && Topological(p.g, order) && j < |order| && k < |p.body[order[j].block]|
    requires UsesAt(p, order[j].block, k, v)
    ensures RegAlloc.InFront(p, order, j, k, v)
  {
    hide PhiReady, Unique, AllReachable, StrictlyDominates, Topological;
    var b := order[j].block;
    assert InputsReady(p, b, k);
    if LiveIn(p, v, b) {
      var c: nat :| InBlock(p, v, c) && StrictlyDominates(p.g, c, b);
      var i := PositionOf(p.g, order, c);
      DominatorInFront(p.g, order, i, j);
    }
  }

  lemma PositionOf(g: Graph, order: seq<Elem>, c: nat) returns (i: nat)
    requires Topological(g, order) && c < g.Size()
    ensures i < |order| && order[i].block == c
  {
    assert c in BlocksOf(order);
    i :| 0 <= i < |order| && order[i].block == c;
  }

  lemma CoveredEnd(rs: seq<LiveRange>, x: nat)
    requires WellFormed(rs) && Covers(rs, x)
    ensures x < Endpoint(rs)
  {
    var a :| 0 <= a < |rs| && Contains(rs[a], x);
    assert a < |rs| - 1 ==> rs[a].e <= rs[|rs| - 1].b;
  }

  // Operands reach their uses.
  lemma OperandsFit(p: Program, order: seq<Elem>, lns: map<nat, nat>, life: nat, iv: Intervals, j: nat, k: nat)
    requires Strict(p) && InRange(p, order) && Topological(p.g, order) && Numbered(p, order, lns, life)
    requires AllBlocksOk(p)
    requires IntervalsOk(iv) && CoversRanges(p, order, iv) && j < |order| && k < |p.body[order[j].block]|
    ensures RegAlloc.OperandsReach(p, order, lns, iv, j, k)
  {
    hide InputsReady, PhiReady, Unique, AllReachable, AllBlocksOk, Topological, Needed, Used, RangesOf, Covers, Start;
    hide RegAlloc.InFront;
    var x := p.body[order[j].block][k];
    assert BlockNumbered(p, order[j].block, order[j].ln, lns);
    forall v | v in p.insts[x].inputs
      ensures v in p.insts && HasDst(p.insts[v].op) && v in iv && End(iv, v) >= lns[x]
      ensures RegAlloc.InFront(p, order, j, k, v)
    {
      OperandResult(p, order[j].block, k, v);
      OperandNeeded(p, order, j, k, v);
      OperandInFront(p, order, j, k, v);
      CoveredIffNeeded(p, order, v, lns[x] - 1);
      CoveredEnd(iv[v].ranges, lns[x] - 1);
    }
  }

  // A result has an interval, and it begins at the definition.
  lemma ResultFits(p: Program, order: seq<Elem>, lns: map<nat, nat>, life: nat, iv: Intervals, j: nat, v: nat)
    requires Strict(p) && InRange(p, order) && Topological(p.g, order) && Numbered(p, order, lns, life)
    requires AllBlocksOk(p)
    requires IntervalsOk(iv) && CoversRanges(p, order, iv)
    requires j < |order| && InBlock(p, v, order[j].block) && v in p.insts && HasDst(p.insts[v].op)
    ensures v in iv && v in lns && RegAlloc.IntervalBegins(iv, v, lns[v])
  {
    hide InputsReady, PhiReady, Unique, AllReachable, BlockOk, Topological, RangesOf, Covers, Numbered, Sorted;
    FirstRange(p, order, lns, life, v, j);
    var rs := Backwards(RangesOf(p, order, v, 0));
    StartCovered(rs);
    BackwardsCovers(RangesOf(p, order, v, 0), Startpoint(rs));
    forall x: nat ensures Covers(iv[v].ranges, x) <==> Covers(rs, x) {
      BackwardsCovers(RangesOf(p, order, v, 0), x);
    }
    SameStart(iv[v].ranges, rs);
  }

  lemma InputFits(p: Program, order: seq<Elem>, lns: map<nat, nat>, life: nat, iv: Intervals)
    requires Strict(p) && InRange(p, order) && Topological(p.g, order) && Numbered(p, order, lns, life)
    requires AllBlocksOk(p)
    requires IntervalsOk(iv) && CoversRanges(p, order, iv)
    ensures RegAlloc.IntervalsFit(p, order, lns, iv)
  {
    hide Strict, Topological, Numbered, AllBlocksOk, IntervalsOk, CoversRanges, InBlock;
    hide RegAlloc.OperandsReach, RegAlloc.IntervalBegins;
    forall j, v | 0 <= j < |order| && InBlock(p, v, order[j].block) && v in p.insts && HasDst(p.insts[v].op)
      ensures v in iv && v in lns && RegAlloc.IntervalBegins(iv, v, lns[v])
    {
      ResultFits(p, order, lns, life, iv, j, v);
    }
    forall j, k | 0 <= j < |order| && 0 <= k < |p.body[order[j].block]|
      ensures RegAlloc.OperandsReach(p, order, lns, iv, j, k)
    {
      OperandsFit(p, order, lns, life, iv, j, k);
    }
  }

  // ---------------------------------------------------------------- the start of a block

  // The values defined by ln that are needed there or behind it.
  ghost function LiveAcross(p: Program, order: seq<Elem>, lns: map<nat, nat>, ln: nat): set<nat>
    requires InRange(p, order)
  {
    set v | v in p.insts && HasDst(p.insts[v].op) && v in lns && lns[v] <= ln &&
              exists x: nat :: ln <= x && Needed(p, order, v, x)
  }

  // Each block has one phi at most, or registers for all that lives across its start, its phis included.
  ghost predicate PhisFit(p: Program, order: seq<Elem>, lns: map<nat, nat>, regs: nat)
    requires InRange(p, order)
  {
    forall j :: 0 <= j < |order| ==>
      |p.phis[order[j].block]| <= 1 || |LiveAcross(p, order, lns, order[j].ln)| <= regs
  }

  lemma {:induction false} RangeSomewhere(p: Program, order: seq<Elem>, v: nat, x: nat, j: nat) returns (i: nat)
    requires InRange(p, order) && j <= |order| && Covers(RangesOf(p, order, v, j), x)
    ensures j <= i < |order| && Covers(RangeFrom(p, SpanAt(p, order, i), v, 0), x)
    decreases |order| - j
  {
    hide RangeFrom;
    assert j < |order|;
    CoversSum(RangesOf(p, order, v, j + 1), RangeFrom(p, SpanAt(p, order, j), v, 0), x);
    i := j;
    if !Covers(RangeFrom(p, SpanAt(p, order, j), v, 0), x) {
      i := RangeSomewhere(p, order, v, x, j + 1);
    }
  }

  // A value without users lives at its definition only.
  lemma UnusedRange(p: Program, s: Span, v: nat, x: nat) returns (d: nat)
    requires SpanOk(p, s) && !Used(p, v) && Covers(RangeFrom(p, s, v, 0), x)
    ensures d < |p.body[s.b]| && p.body[s.b][d] == v && Ln(s, d) <= x < Ln(s, d) + 2
  {
    hide LiveEnd, Used;
    if Alive(p, s.b, v) {
      AliveUsed(p, s.b, v);
    }
    d := ResultAt(p, s.b, v, 0);
  }

  // Such a value is not there at the start of any block.
  lemma UnusedNotAcross(p: Program, order: seq<Elem>, lns: map<nat, nat>, life: nat, v: nat, j: nat, x: nat)
    requires InRange(p, order) && Numbered(p, order, lns, life) && j < |order| && !Used(p, v)
    requires v in lns && lns[v] <= order[j].ln <= x
    ensures !Covers(RangesOf(p, order, v, 0), x)
  {
    hide Used, RangesOf, Covers, Start, RangeFrom;
    if Covers(RangesOf(p, order, v, 0), x) {
      var i := RangeSomewhere(p, order, v, x, 0);
      var d := UnusedRange(p, SpanAt(p, order, i), v, x);
      assert BlockNumbered(p, order[i].block, order[i].ln, lns);
      StartEven(p, order, j);
      StartEven(p, order, i);
      if i < j {
        StartGrows(p, order, i, j);
      } else if j < i {
        StartGrows(p, order, j, i);
      }
      assert false;
    }
  }

  // What the allocation keeps across the start of a block is needed there or behind it.
  lemma CrossingNeeded(p: Program, order: seq<Elem>, lns: map<nat, nat>, life: nat, iv: Intervals, j: nat)
    requires Strict(p) && InRange(p, order) && Numbered(p, order, lns, life) && IntervalsOk(iv)
    requires CoversRanges(p, order, iv)
    requires j < |order|
    ensures RegAlloc.Crossing(p, lns, iv, order[j].ln) <= LiveAcross(p, order, lns, order[j].ln)
    ensures |RegAlloc.Crossing(p, lns, iv, order[j].ln)| <= |LiveAcross(p, order, lns, order[j].ln)|
  {
    hide InputsReady, PhiReady, Unique, AllReachable, Numbered, Needed, Used, RangesOf, Covers;
    var ln := order[j].ln;
    var live := LiveAcross(p, order, lns, ln);
    forall v | v in RegAlloc.Crossing(p, lns, iv, ln) ensures v in live {
      var x: nat := End(iv, v) - 1;
      EndCovered(iv[v].ranges);
      assert Covers(RangesOf(p, order, v, 0), x);
      if Used(p, v) {
        CoveredIffNeeded(p, order, v, x);
      } else {
        UnusedNotAcross(p, order, lns, life, v, j, x);
      }
    }
    SubsetSize(RegAlloc.Crossing(p, lns, iv, ln), live);
  }

  lemma EndCovered(rs: seq<LiveRange>)
    requires WellFormed(rs)
    ensures Endpoint(rs) > 0 && Covers(rs, Endpoint(rs) - 1)
  {
    assert Contains(rs[|rs| - 1], Endpoint(rs) - 1);
  }

  lemma PhisFitThere(p: Program, order: seq<Elem>, lns: map<nat, nat>, life: nat, iv: Intervals, regs: nat)
    requires Strict(p) && InRange(p, order) && Numbered(p, order, lns, life) && IntervalsOk(iv)
    requires CoversRanges(p, order, iv)
    requires PhisFit(p, order, lns, regs)
    ensures forall j :: 0 <= j < |order| ==> RegAlloc.PhisFit(p, order, lns, iv, regs, j)
  {
    hide Strict, Numbered, IntervalsOk, CoversRanges, RegAlloc.Crossing, LiveAcross;
    forall j | 0 <= j < |order| ensures RegAlloc.PhisFit(p, order, lns, iv, regs, j) {
      CrossingNeeded(p, order, lns, life, iv, j);
    }
  }
}
