// What the live ranges of a value cover, and when the analysis succeeds.
module LiveCoverage {
  import opened Cfg
  import opened Ir
  import opened Ssa
  import opened LinearOrdering
  import opened LiveIntervals
  import opened LivenessSpec
  import opened Liveness
  import FillIntervals

  // The value of v is needed at life number x of the block: v is defined by then, and a use of it follows, in the
  // block or on some path behind it.
  ghost predicate NeededAt(p: Program, s: Span, v: nat, x: nat)
    requires SpanOk(p, s)
  {
    && s.lo <= x < s.hi
    && (forall d :: 0 <= d < |p.body[s.b]| && p.body[s.b][d] == v ==> Ln(s, d) <= x)
    && (LiveEnd(p, s.b, v) || exists k :: 0 <= k < |p.body[s.b]| && UsesAt(p, s.b, k, v) && x < Ln(s, k))
  }

  ghost predicate Needed(p: Program, order: seq<Elem>, v: nat, x: nat)
    requires InRange(p, order)
  {
    exists j :: 0 <= j < |order| && NeededAt(p, SpanAt(p, order, j), v, x)
  }

  lemma OperandBefore(p: Program, b: nat, k: nat, v: nat)
    requires Strict(p) && b < p.g.Size() && k < |p.body[b]| && UsesAt(p, b, k, v) && !InBlock(p, v, b)
    ensures LiveIn(p, v, b)
  {
    hide PhiReady;
    assert InputsReady(p, b, k);
  }

  // Wherever a value is needed, it has been defined on every path.
  lemma NeededDefined(p: Program, s: Span, v: nat, x: nat)
    requires Strict(p) && SpanOk(p, s) && NeededAt(p, s, v, x)
    ensures InBlock(p, v, s.b) || LiveIn(p, v, s.b)
  {
    hide InputsReady, PhiReady;
    if !InBlock(p, v, s.b) {
      if LiveEnd(p, s.b, v) {
        var q :| LeadsToUse(p, q, v) && q[0] == s.b;
        UseBelowDefinition(p, q, v);
        DefinitionAbove(p, q, v);
      } else {
        var k: nat :| k < |p.body[s.b]| && UsesAt(p, s.b, k, v);
        OperandBefore(p, s.b, k, v);
      }
    }
  }

  // The end of a path to a use is below the definition,
  lemma UseBelowDefinition(p: Program, q: seq<nat>, v: nat)
    requires Strict(p) && LeadsToUse(p, q, v) && !InBlock(p, v, q[0])
    ensures LiveIn(p, v, q[|q| - 1])
  {
    hide InputsReady, PhiReady;
    var c := q[|q| - 1];
    if UsedAtEnd(p, c, v) {
      var s :| s in p.g.succs[c] && s < p.g.Size() && PhiTakes(p, s, c, v);
      PhiOperandBefore(p, s, c, v);
    } else {
      var k: nat :| k < |p.body[c]| && UsesAt(p, c, k, v);
      OperandBefore(p, c, k, v);
    }
  }

  lemma PhiOperandBefore(p: Program, s: nat, c: nat, v: nat)
    requires Strict(p) && s < p.g.Size() && c < p.g.Size() && s in p.g.succs[c] && PhiTakes(p, s, c, v)
    requires !InBlock(p, v, c)
    ensures LiveIn(p, v, c)
  {
    hide InputsReady;
    var i := PredIdx(p.g.preds[s], c);
    var phi :| phi in p.phis[s] && i < |p.insts[phi].inputs| && p.insts[phi].inputs[i] == v;
    assert PhiReady(p, s, phi);
    assert c in p.g.preds[s] && Before(p, v, c, |p.body[c]|);
  }

  // and as the path does not pass the definition, so is its start.
  lemma DefinitionAbove(p: Program, q: seq<nat>, v: nat)
    requires Strict(p) && IsPath(p.g, q) && LiveIn(p, v, q[|q| - 1])
    requires forall i :: 0 <= i < |q| ==> !InBlock(p, v, q[i])
    ensures LiveIn(p, v, q[0])
  {
    hide InputsReady, PhiReady, InBlock;
    var d: nat :| InBlock(p, v, d) && StrictlyDominates(p.g, d, q[|q| - 1]);
    assert d !in q[1..];
    forall r | PathTo(p.g, r, ENTRY, q[0]) ensures d in r {
      PathJoin(p.g, r, q, ENTRY, q[0], q[|q| - 1]);
      assert d in r + q[1..];
    }
  }

  // ---------------------------------------------------------------- one block

  lemma UseBehind(p: Program, s: Span, v: nat, x: nat)
    requires SpanOk(p, s)
    ensures var r := LastUse(p, s.b, v, 0);
            (r < |p.body[s.b]| && x < Ln(s, r)) <==>
              exists k :: 0 <= k < |p.body[s.b]| && UsesAt(p, s.b, k, v) && x < Ln(s, k)
  {
  }

  lemma DefinedAt(p: Program, s: Span, v: nat, x: nat)
    requires SpanOk(p, s) && Unique(p)
    ensures var d := ResultAt(p, s.b, v, 0);
            (d < |p.body[s.b]| ==> Ln(s, d) <= x) <==> forall k :: 0 <= k < |p.body[s.b]| && p.body[s.b][k] == v ==>
              Ln(s, k) <= x
    ensures ResultAt(p, s.b, v, 0) == |p.body[s.b]| <==> v !in p.body[s.b]
  {
    assert p.body[s.b][0..] == p.body[s.b];
  }

  // The range of a used value in a block covers exactly the numbers at which it is needed.
  lemma RangeCovers(p: Program, s: Span, v: nat, x: nat)
    requires Strict(p) && SpanOk(p, s) && v in p.insts && HasDst(p.insts[v].op) && Used(p, v)
    ensures Covers(RangeFrom(p, s, v, 0), x) <==> NeededAt(p, s, v, x)
  {
    hide LiveEnd, Unique, InputsReady, PhiReady, AllReachable;
    UseBehind(p, s, v, x);
    DefinedAt(p, s, v, x);
    var rs := RangeFrom(p, s, v, 0);
    assert Covers(rs, x) <==> rs != [] && Contains(rs[0], x);
  }

  lemma CoversSum(a: seq<LiveRange>, b: seq<LiveRange>, x: nat)
    ensures Covers(a + b, x) <==> Covers(a, x) || Covers(b, x)
  {
    if Covers(a, x) {
      var k :| 0 <= k < |a| && Contains(a[k], x);
      assert Contains((a + b)[k], x);
    }
    if Covers(b, x) {
      var k :| 0 <= k < |b| && Contains(b[k], x);
      assert Contains((a + b)[|a| + k], x);
    }
  }

  // ---------------------------------------------------------------- all blocks

  lemma {:induction false} RangesCover(p: Program, order: seq<Elem>, v: nat, x: nat, j: nat)
    requires Strict(p) && InRange(p, order) && v in p.insts && HasDst(p.insts[v].op) && Used(p, v) && j <= |order|
    ensures Covers(RangesOf(p, order, v, j), x) <==>
              exists i :: j <= i < |order| && NeededAt(p, SpanAt(p, order, i), v, x)
    decreases |order| - j
  {
    hide NeededAt, Strict, RangeFrom;
    if j < |order| {
      RangesCover(p, order, v, x, j + 1);
      RangeCovers(p, SpanAt(p, order, j), v, x);
      CoversSum(RangesOf(p, order, v, j + 1), RangeFrom(p, SpanAt(p, order, j), v, 0), x);
    }
  }

  // The ranges of a used value cover a life number exactly when the value is needed there.
  lemma CoveredIffNeeded(p: Program, order: seq<Elem>, v: nat, x: nat)
    requires Strict(p) && InRange(p, order) && v in p.insts && HasDst(p.insts[v].op) && Used(p, v)
    ensures Covers(RangesOf(p, order, v, 0), x) <==> Needed(p, order, v, x)
  {
    RangesCover(p, order, v, x, 0);
  }

  // ---------------------------------------------------------------- when the analysis succeeds

  // Every phi has a user, and no instruction without a result has one.
  ghost predicate UsersFit(p: Program)
    requires Ir.Sized(p)
  {
    && (forall b, x :: 0 <= b < p.g.Size() && x in p.phis[b] ==> Used(p, x))
    && (forall b, x :: 0 <= b < p.g.Size() && x in p.body[b] && !HasDst(p.insts[x].op) ==> !Used(p, x))
  }

  // In strict SSA form with single edges these are the programs the analysis can process.
  lemma BlocksOkIff(p: Program)
    requires Strict(p) && SingleEdges(p.g) && AllPlaced(p)
    ensures (forall b: nat :: b < p.g.Size() ==> BlockOk(p, b)) <==> UsersFit(p)
  {
    hide InputsReady, PhiReady, Unique, AllReachable, SingleEdges, AllPlaced, Used, Alive, InBlock;
    if forall b: nat :: b < p.g.Size() ==> BlockOk(p, b) {
      forall b, x | 0 <= b < p.g.Size() && x in p.phis[b] ensures Used(p, x) {
        assert BlockOk(p, b);
        PhiUsed(p, b, x);
      }
      forall b, x | 0 <= b < p.g.Size() && x in p.body[b] && !HasDst(p.insts[x].op) ensures !Used(p, x) {
        assert BlockOk(p, b);
        ResultUnused(p, b, x);
      }
    }
    if UsersFit(p) {
      forall b: nat | b < p.g.Size() ensures BlockOk(p, b) {
        UsersFitBlock(p, b);
      }
    }
  }

  lemma PhiUsed(p: Program, b: nat, x: nat)
    requires Ir.Sized(p) && b < p.g.Size() && x in p.phis[b] && BlockOk(p, b)
    ensures Used(p, x)
  {
    hide Alive, Used;
    var i :| 0 <= i < |p.phis[b]| && p.phis[b][i] == x;
    AliveUsed(p, b, p.phis[b][i]);
  }

  lemma ResultUnused(p: Program, b: nat, x: nat)
    requires Strict(p) && SingleEdges(p.g) && AllPlaced(p) && b < p.g.Size() && x in p.body[b] && BlockOk(p, b)
    requires !HasDst(p.insts[x].op)
    ensures !Used(p, x)
  {
    hide InputsReady, PhiReady, Unique, AllReachable, SingleEdges, AllPlaced, Used, Alive;
    var k :| 0 <= k < |p.body[b]| && p.body[b][k] == x;
    assert ResultOk(p, b, k);
    if Used(p, x) {
      UsedAlive(p, b, x);
    }
  }

  lemma UsersFitBlock(p: Program, b: nat)
    requires Strict(p) && SingleEdges(p.g) && AllPlaced(p) && UsersFit(p) && b < p.g.Size()
    ensures BlockOk(p, b)
  {
    hide InputsReady, PhiReady, Unique, AllReachable, SingleEdges, AllPlaced, Used, Alive;
    forall k | 0 <= k < |p.body[b]| ensures ResultOk(p, b, k) {
      var x := p.body[b][k];
      if Used(p, x) {
        UsedAlive(p, b, x);
      } else if Alive(p, b, x) {
        AliveUsed(p, b, x);
      }
    }
    forall i | 0 <= i < |p.phis[b]| ensures Alive(p, b, p.phis[b][i]) {
      UsedAlive(p, b, p.phis[b][i]);
    }
  }

  // ---------------------------------------------------------------- the ranges in order

  function Backwards(rs: seq<LiveRange>): (bs: seq<LiveRange>)
    ensures |bs| == |rs| && forall k :: 0 <= k < |rs| ==> bs[k] == rs[|rs| - 1 - k]
  {
    if rs == [] then [] else [rs[|rs| - 1]] + Backwards(rs[..|rs| - 1])
  }

  lemma BackwardsCovers(rs: seq<LiveRange>, x: nat)
    ensures Covers(Backwards(rs), x) <==> Covers(rs, x)
  {
    if Covers(rs, x) {
      var k :| 0 <= k < |rs| && Contains(rs[k], x);
      assert Contains(Backwards(rs)[|rs| - 1 - k], x);
    }
  }

  ghost predicate Within(rs: seq<LiveRange>, lo: nat) {
    forall k :: 0 <= k < |rs| ==> lo <= rs[k].b < rs[k].e
  }

  // In a block that passed the assertions a range is not empty, and lies within the block.
  lemma RangeInBlock(p: Program, s: Span, v: nat)
    requires Strict(p) && SpanOk(p, s) && BlockOk(p, s.b)
    ensures |RangeFrom(p, s, v, 0)| <= 1
    ensures forall k :: 0 <= k < |RangeFrom(p, s, v, 0)| ==>
              s.lo <= RangeFrom(p, s, v, 0)[k].b < RangeFrom(p, s, v, 0)[k].e <= s.hi
  {
    hide InputsReady, PhiReady, Unique, AllReachable, LiveEnd, Alive;
    var d := ResultAt(p, s.b, v, 0);
    if d < |p.body[s.b]| {
      assert ResultOk(p, s.b, d);
      if HasDst(p.insts[v].op) && Used(p, v) {
        ResultInBlock(p, s, d);
      }
    }
  }

  lemma ResultInBlock(p: Program, s: Span, d: nat)
    requires Strict(p) && SpanOk(p, s) && d < |p.body[s.b]| && Alive(p, s.b, p.body[s.b][d])
    ensures Ln(s, d) < EndFrom(p, s, p.body[s.b][d], 0)
  {
    hide InputsReady, PhiReady, Unique, AllReachable, LiveEnd, Alive;
    var x := p.body[s.b][d];
    AliveBehind(p, s, d);
    ResultRange(p, s, d);
    LastUseSame(p, s.b, x, 0, d + 1);
  }

  // Uses further back do not change which use is the last one.
  lemma {:induction false} LastUseSame(p: Program, b: nat, v: nat, k: nat, m: nat)
    requires Ir.Sized(p) && b < p.g.Size() && k <= m <= |p.body[b]|
    ensures LastUse(p, b, v, m) < |p.body[b]| ==> LastUse(p, b, v, k) == LastUse(p, b, v, m)
    decreases m - k
  {
    if k < m {
      LastUseSame(p, b, v, k + 1, m);
    }
  }

  // The ranges are sorted and do not overlap.
  lemma {:induction false} RangesSorted(p: Program, order: seq<Elem>, lns: map<nat, nat>, life: nat, v: nat, j: nat)
    requires Strict(p) && InRange(p, order) && Numbered(p, order, lns, life) && j <= |order|
    requires forall i :: 0 <= i < |order| ==> BlockOk(p, order[i].block)
    ensures Sorted(Backwards(RangesOf(p, order, v, j)))
    ensures j < |order| ==> Within(RangesOf(p, order, v, j), order[j].ln)
    decreases |order| - j
  {
    hide InputsReady, PhiReady, Unique, AllReachable, BlockOk, RangeFrom, Start;
    if j < |order| {
      RangesSorted(p, order, lns, life, v, j + 1);
      RangeInBlock(p, SpanAt(p, order, j), v);
      SpanNumbers(p, order, lns, life, j);
      var s := SpanAt(p, order, j);
      OneMore(RangesOf(p, order, v, j + 1), RangeFrom(p, s, v, 0), s.lo, s.hi);
    }
  }

  lemma OneMore(rs: seq<LiveRange>, r: seq<LiveRange>, lo: nat, hi: nat)
    requires Sorted(Backwards(rs)) && Within(rs, hi) && |r| <= 1 && lo <= hi
    requires forall k :: 0 <= k < |r| ==> lo <= r[k].b < r[k].e <= hi
    ensures Sorted(Backwards(rs + r)) && Within(rs + r, lo)
  {
    var bs := Backwards(rs + r);
    if |r| == 1 {
      assert bs == [r[0]] + Backwards(rs);
    } else {
      assert rs + r == rs;
    }
  }

  // FillIntervals, on ranges without loops: the intervals of every value are separated by real gaps and cover
  // what its ranges cover; for a used value those are the life numbers at which it is needed.
  method Fill(la: LivenessAnalysis) returns (intervals: map<nat, seq<LiveRange>>)
    requires Strict(la.p) && InRange(la.p, la.order) && Numbered(la.p, la.order, la.lns, la.life)
    requires RangesRight(la.p, la.order, 0, la.ranges)
    requires forall i :: 0 <= i < |la.order| ==> BlockOk(la.p, la.order[i].block)
    ensures intervals.Keys == la.ranges.Keys
    ensures forall v :: v in intervals ==>
              FillIntervals.Separated(intervals[v]) && SameCover(intervals[v], la.ranges[v])
    ensures forall v, x: nat :: v in intervals && v in la.p.insts && HasDst(la.p.insts[v].op) && Used(la.p, v) ==>
              (Covers(intervals[v], x) <==> Needed(la.p, la.order, v, x))
  {
    hide InputsReady, PhiReady, Unique, AllReachable, Numbered, BlockOk, Used, Needed, RangesOf, Covers, Sorted;
    intervals := map[];
    var todo := la.ranges.Keys;
    while todo != {}
      invariant intervals.Keys == la.ranges.Keys - todo && todo <= la.ranges.Keys
      invariant forall v :: v in intervals ==>
                FillIntervals.Separated(intervals[v]) && SameCover(intervals[v], la.ranges[v])
      decreases |todo|
    {
      var v :| v in todo;
      todo := todo - {v};
      RangesSorted(la.p, la.order, la.lns, la.life, v, 0);
      assert Rng(la.ranges, v) == RangesOf(la.p, la.order, v, 0);
      var out := FillOne(la.ranges[v]);
      intervals := intervals[v := out];
    }
    forall v, x: nat | v in intervals && v in la.p.insts && HasDst(la.p.insts[v].op) && Used(la.p, v)
      ensures Covers(intervals[v], x) <==> Needed(la.p, la.order, v, x)
    {
      assert Rng(la.ranges, v) == RangesOf(la.p, la.order, v, 0);
      CoveredIffNeeded(la.p, la.order, v, x);
    }
  }

  ghost predicate SameCover(a: seq<LiveRange>, b: seq<LiveRange>) {
    forall x: nat :: Covers(a, x) <==> Covers(b, x)
  }

  method FillOne(ranges: seq<LiveRange>) returns (out: seq<LiveRange>)
    requires ranges != [] && Sorted(Backwards(ranges))
    ensures FillIntervals.Separated(out) && SameCover(out, ranges)
  {
    hide Covers, FillIntervals.Separated;
    out := FillIntervals.Fill(Backwards(ranges), []);
    forall x: nat ensures Covers(out, x) <==> Covers(ranges, x) {
      BackwardsCovers(ranges, x);
      NothingCovered(x);
    }
  }

  lemma NothingCovered(x: nat)
    ensures !Covers([], x)
  {
  }
}
