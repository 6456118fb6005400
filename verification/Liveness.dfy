// Live sets and live ranges, built backwards over the linear order of an acyclic graph.
module Liveness {
  import opened Cfg
  import opened Ir
  import opened Ssa
  import opened LinearOrdering
  import opened LiveIntervals
  import opened LivenessSpec

  // ---------------------------------------------------------------- live sets

  // LiveSet: removed instructions leave a null behind.
  type LiveSet = seq<Option<nat>>

  predicate Has(ls: LiveSet, v: nat) {
    Some(v) in ls
  }

  // Every instruction is listed at most once.
  ghost predicate Distinct(ls: LiveSet) {
    forall i, j :: 0 <= i < j < |ls| && ls[i].Some? ==> ls[i] != ls[j]
  }

  function Find(ls: LiveSet, v: nat): (i: nat)
    ensures i <= |ls| && (i < |ls| ==> ls[i] == Some(v)) && (i == |ls| <==> !Has(ls, v))
  {
    if ls == [] then 0 else if ls[0] == Some(v) then 0 else 1 + Find(ls[1..], v)
  }

  function Extended(ls: LiveSet, v: nat): (ls': LiveSet)
    ensures forall w: nat :: Has(ls', w) <==> Has(ls, w) || w == v
    ensures Distinct(ls) && !Has(ls, v) ==> Distinct(ls')
  {
    ls + [Some(v)]
  }

  lemma RemovedHas(ls: LiveSet, v: nat, w: nat)
    requires Distinct(ls) && Has(ls, v)
    ensures Distinct(ls[Find(ls, v) := None])
    ensures Has(ls[Find(ls, v) := None], w) <==> Has(ls, w) && w != v
  {
    var ls' := ls[Find(ls, v) := None];
    if Has(ls, w) && w != v {
      var i :| 0 <= i < |ls| && ls[i] == Some(w);
      assert ls'[i] == Some(w);
    }
  }

  lemma RemovedOthers(ls: LiveSet, x: nat)
    requires Distinct(ls) && Has(ls, x)
    ensures var ls' := ls[Find(ls, x) := None];
            Distinct(ls') && !Has(ls', x) && forall v: nat :: v != x ==> Has(ls', v) == Has(ls, v)
  {
    RemovedHas(ls, x, x);
    forall v: nat | v != x ensures Has(ls[Find(ls, x) := None], v) == Has(ls, v) {
      RemovedHas(ls, x, v);
    }
  }

  // ---------------------------------------------------------------- ranges

  // An instruction is entered with its first range.
  type RangeMap = m: map<nat, seq<LiveRange>> | forall v :: v in m ==> m[v] != []

  // GetLiveRanges: an instruction met for the first time has none.
  function Rng(m: RangeMap, v: nat): seq<LiveRange> {
    if v in m then m[v] else []
  }

  function Appended(m: RangeMap, v: nat, r: LiveRange): (m': RangeMap)
    ensures Rng(m', v) == Rng(m, v) + [r] && forall w: nat :: w != v ==> Rng(m', w) == Rng(m, w)
  {
    m[v := Rng(m, v) + [r]]
  }

  // The block at position j of the order, with its life numbers.
  function SpanAt(p: Program, order: seq<Elem>, j: nat): (s: Span)
    requires j < |order| && order[j].block < |p.body|
  {
    Span(order[j].block, order[j].ln, order[j].ln + 2 + 2 * |p.body[order[j].block]|)
  }

  // The ranges of v in the blocks from position j on; the last range comes first.
  ghost function RangesOf(p: Program, order: seq<Elem>, v: nat, j: nat): seq<LiveRange>
    requires InRange(p, order) && j <= |order|
    decreases |order| - j
  {
    if j == |order| then [] else RangesOf(p, order, v, j + 1) + RangeFrom(p, SpanAt(p, order, j), v, 0)
  }

  // ---------------------------------------------------------------- the state behind a point of a block

  // What is known of v in front of the k-th instruction: whether it is live, and its ranges so far.
  ghost predicate Tracked(p: Program, s: Span, k: nat, v: nat, ls: LiveSet, m0: RangeMap, m: RangeMap)
    requires SpanOk(p, s) && k <= |p.body[s.b]|
  {
    && (Has(ls, v) <==> LiveFrom(p, s, v, k))
    && Rng(m, v) == Rng(m0, v) + RangeFrom(p, s, v, k)
  }

  // All values have been followed up to the k-th instruction, and those of `done` past it.
  ghost predicate Midway(p: Program, s: Span, k: nat, done: set<nat>, ls: LiveSet, m0: RangeMap, m: RangeMap)
    requires SpanOk(p, s) && k < |p.body[s.b]|
  {
    && Distinct(ls)
    && (forall v: nat :: v !in done ==> Tracked(p, s, k + 1, v, ls, m0, m))
    && (forall v: nat :: v in done ==> Tracked(p, s, k, v, ls, m0, m))
  }

  ghost predicate Reached(p: Program, s: Span, k: nat, ls: LiveSet, m0: RangeMap, m: RangeMap)
    requires SpanOk(p, s) && k <= |p.body[s.b]|
  {
    Distinct(ls) && forall v: nat :: Tracked(p, s, k, v, ls, m0, m)
  }

  lemma TrackedKept(p: Program, s: Span, k: nat, v: nat, ls: LiveSet, m0: RangeMap, m: RangeMap, ls': LiveSet,
                    m': RangeMap)
    requires SpanOk(p, s) && k <= |p.body[s.b]| && Tracked(p, s, k, v, ls, m0, m)
    requires Has(ls', v) == Has(ls, v) && Rng(m', v) == Rng(m, v)
    ensures Tracked(p, s, k, v, ls', m0, m')
  {
  }

  lemma MidwayAt(p: Program, s: Span, k: nat, done: set<nat>, v: nat, ls: LiveSet, m0: RangeMap, m: RangeMap)
    requires SpanOk(p, s) && k < |p.body[s.b]| && Midway(p, s, k, done, ls, m0, m)
    ensures Tracked(p, s, if v in done then k else k + 1, v, ls, m0, m)
    ensures Distinct(ls)
  {
  }

  // One value moves past the k-th instruction.
  lemma StateStep(p: Program, s: Span, k: nat, done: set<nat>, x: nat, m0: RangeMap,
                  ls: LiveSet, m: RangeMap, ls': LiveSet, m': RangeMap)
    requires SpanOk(p, s) && k < |p.body[s.b]| && Midway(p, s, k, done, ls, m0, m)
    requires Distinct(ls') && Tracked(p, s, k, x, ls', m0, m')
    requires forall v: nat :: v != x ==> Has(ls', v) == Has(ls, v) && Rng(m', v) == Rng(m, v)
    ensures Midway(p, s, k, done + {x}, ls', m0, m')
  {
    hide Tracked, Distinct;
    forall v: nat | v !in done + {x} ensures Tracked(p, s, k + 1, v, ls', m0, m') {
      TrackedKept(p, s, k + 1, v, ls, m0, m, ls', m');
    }
    forall v: nat | v in done + {x} ensures Tracked(p, s, k, v, ls', m0, m') {
      if v != x {
        TrackedKept(p, s, k, v, ls, m0, m, ls', m');
      }
    }
  }

  // The result of the k-th instruction and its operands are all that changes there.
  lemma InstructionDone(p: Program, s: Span, k: nat, done: set<nat>, ls: LiveSet, m0: RangeMap, m: RangeMap)
    requires SpanOk(p, s) && k < |p.body[s.b]| && Midway(p, s, k, done, ls, m0, m)
    requires p.body[s.b][k] in done && forall v :: UsesAt(p, s.b, k, v) ==> v in done
    ensures Reached(p, s, k, ls, m0, m)
  {
    hide LiveFrom, RangeFrom;
    forall v: nat ensures Tracked(p, s, k, v, ls, m0, m) {
      if v !in done {
        OtherStep(p, s, v, k);
      }
    }
  }

  // An operand that was not live yet gets a range from the start of the block.
  lemma OperandDone(p: Program, s: Span, k: nat, v: nat, ls: LiveSet, m0: RangeMap, m: RangeMap, ls': LiveSet,
                    m': RangeMap)
    requires SpanOk(p, s) && Strict(p) && k < |p.body[s.b]| && UsesAt(p, s.b, k, v)
    requires Tracked(p, s, k + 1, v, ls, m0, m) && !Has(ls, v) && Has(ls', v)
    requires Rng(m', v) == Rng(m, v) + [LiveRange(s.lo, Ln(s, k), Nowhere)]
    ensures Tracked(p, s, k, v, ls', m0, m')
  {
    hide LiveFrom, RangeFrom, Strict;
    OperandStep(p, s, v, k);
  }

  lemma OperandLive(p: Program, s: Span, k: nat, v: nat, ls: LiveSet, m0: RangeMap, m: RangeMap)
    requires SpanOk(p, s) && Strict(p) && k < |p.body[s.b]| && UsesAt(p, s.b, k, v)
    requires Tracked(p, s, k + 1, v, ls, m0, m) && Has(ls, v)
    ensures Tracked(p, s, k, v, ls, m0, m)
  {
    hide LiveFrom, RangeFrom, Strict;
    OperandStep(p, s, v, k);
  }

  // ---------------------------------------------------------------- results

  lemma AliveUsed(p: Program, b: nat, v: nat)
    requires Ir.Sized(p) && b < p.g.Size() && Alive(p, b, v)
    ensures Used(p, v)
  {
    if UsedIn(p, b, v) {
      var k :| 0 <= k < |p.body[b]| && UsesAt(p, b, k, v);
      assert p.body[b][k] in p.insts;
    } else {
      var q :| LeadsToUse(p, q, v) && q[0] == b;
      var c := q[|q| - 1];
      if UsedAtEnd(p, c, v) {
        var s :| s in p.g.succs[c] && s < p.g.Size() && PhiTakes(p, s, c, v);
      } else {
        var k :| 0 <= k < |p.body[c]| && UsesAt(p, c, k, v);
        assert p.body[c][k] in p.insts;
      }
    }
  }

  // A result is live behind its instruction when it is used in the block or behind it at all.
  lemma AliveBehind(p: Program, s: Span, k: nat)
    requires SpanOk(p, s) && Strict(p) && k < |p.body[s.b]|
    ensures LiveFrom(p, s, p.body[s.b][k], k + 1) <==> Alive(p, s.b, p.body[s.b][k])
  {
    hide Strict, LiveEnd;
    var x := p.body[s.b][k];
    ResultStep(p, s, k);
    UsedFrom(p, s.b, x, k + 1);
    if UsedIn(p, s.b, x) {
      var i :| 0 <= i < |p.body[s.b]| && UsesAt(p, s.b, i, x);
      OperandNotBehind(p, s.b, i, x);
    }
  }

  // What ProcessInstructions asserts of the k-th instruction: a result with users is live behind it, and nothing
  // uses an instruction without a result.
  ghost predicate ResultOk(p: Program, b: nat, k: nat)
    requires Ir.Sized(p) && b < p.g.Size() && k < |p.body[b]|
  {
    var x := p.body[b][k];
    if HasDst(p.insts[x].op) then Used(p, x) ==> Alive(p, b, x) else !Alive(p, b, x)
  }

  // FinalizeDef: the latest range begins at the definition.
  lemma Finalized(p: Program, s: Span, k: nat, ls: LiveSet, m0: RangeMap, m: RangeMap)
    requires SpanOk(p, s) && Strict(p) && k < |p.body[s.b]|
    requires var x := p.body[s.b][k];
             Tracked(p, s, k + 1, x, ls, m0, m) && Has(ls, x) && Used(p, x) && HasDst(p.insts[x].op)
    ensures var x := p.body[s.b][k];
            var rs := Rng(m, x);
            && rs != [] && rs[|rs| - 1].b < Ln(s, k) < rs[|rs| - 1].e
            && Rng(m0, x) + RangeFrom(p, s, x, k) == rs[..|rs| - 1] + [rs[|rs| - 1].(b := Ln(s, k))]
  {
    hide LiveFrom, RangeFrom, Strict;
    var x := p.body[s.b][k];
    ResultRange(p, s, k);
    LiveSpan(p, s, x, k + 1);
  }

  lemma LiveSpan(p: Program, s: Span, v: nat, k: nat)
    requires SpanOk(p, s) && k <= |p.body[s.b]| && LiveFrom(p, s, v, k)
    ensures s.lo < EndFrom(p, s, v, k)
  {
  }

  lemma Unlisted(p: Program, s: Span, k: nat, ls: LiveSet, m0: RangeMap, m: RangeMap, m': RangeMap)
    requires SpanOk(p, s) && Strict(p) && k < |p.body[s.b]|
    requires var x := p.body[s.b][k];
             && Tracked(p, s, k + 1, x, ls, m0, m) && !Has(ls, x)
             && (HasDst(p.insts[x].op) ==> !Used(p, x))
             && Rng(m', x) == if HasDst(p.insts[x].op) then Rng(m, x) + [LiveRange(Ln(s, k), Ln(s, k) + 2, Nowhere)]
               else Rng(m, x)
    ensures Tracked(p, s, k, p.body[s.b][k], ls, m0, m')
  {
    hide LiveFrom, RangeFrom, Strict;
    ResultStep(p, s, k);
    ResultRange(p, s, k);
  }

  // ---------------------------------------------------------------- operands

  ghost function FirstOperands(x: nat, inputs: seq<nat>, i: nat): set<nat>
    requires i <= |inputs|
  {
    {x} + set v | v in inputs[..i]
  }

  lemma OneOperand(x: nat, inputs: seq<nat>, i: nat)
    requires i <= |inputs|
    ensures i < |inputs| ==> FirstOperands(x, inputs, i + 1) == FirstOperands(x, inputs, i) + {inputs[i]}
    ensures FirstOperands(x, inputs, 0) == {x} && FirstOperands(x, inputs, |inputs|) == {x} + set v | v in inputs
  {
    assert i < |inputs| ==> inputs[..i + 1] == inputs[..i] + [inputs[i]];
    assert inputs[..|inputs|] == inputs;
  }

  // ---------------------------------------------------------------- the end of a block

  // v has to be live at the end of b because of its successor s.
  ghost predicate Wanted(p: Program, b: nat, s: nat, v: nat)
    requires Ir.Sized(p) && b < p.g.Size() && s < p.g.Size()
  {
    LiveStart(p, s, v) || PhiTakes(p, s, b, v)
  }

  ghost predicate WantedBySome(p: Program, b: nat, i: nat, v: nat)
    requires Ir.Sized(p) && b < p.g.Size() && i <= |p.g.succs[b]|
  {
    exists j :: 0 <= j < i && Wanted(p, b, p.g.succs[b][j], v)
  }

  lemma LiveEndIff(p: Program, b: nat, v: nat)
    requires Ir.Sized(p) && b < p.g.Size()
    ensures WantedBySome(p, b, |p.g.succs[b]|, v) <==> LiveEnd(p, b, v)
  {
    hide LiveStart, LiveEnd, PhiTakes;
    LiveEndStep(p, b, v);
    if s :| s in p.g.succs[b] && s < p.g.Size() && Wanted(p, b, s, v) {
      var j :| 0 <= j < |p.g.succs[b]| && p.g.succs[b][j] == s;
    }
  }

  ghost predicate PhiOperand(p: Program, s: nat, b: nat, i: nat, v: nat)
    requires Ir.Sized(p) && s < p.g.Size() && i < |p.phis[s]|
  {
    var pi := PredIdx(p.g.preds[s], b);
    var phi := p.phis[s][i];
    pi < |p.insts[phi].inputs| && p.insts[phi].inputs[pi] == v
  }

  // One of the first i phis of s takes v from b.
  ghost predicate PhiOperandOf(p: Program, s: nat, b: nat, i: nat, v: nat)
    requires Ir.Sized(p) && s < p.g.Size() && i <= |p.phis[s]|
  {
    exists j :: 0 <= j < i && PhiOperand(p, s, b, j, v)
  }

  lemma PhiTakesIff(p: Program, s: nat, b: nat, v: nat)
    requires Ir.Sized(p) && s < p.g.Size()
    ensures PhiOperandOf(p, s, b, |p.phis[s]|, v) <==> PhiTakes(p, s, b, v)
  {
    if PhiTakes(p, s, b, v) {
      var phi :| phi in p.phis[s] && PredIdx(p.g.preds[s], b) < |p.insts[phi].inputs| &&
                 p.insts[phi].inputs[PredIdx(p.g.preds[s], b)] == v;
      var j :| 0 <= j < |p.phis[s]| && p.phis[s][j] == phi;
      assert PhiOperand(p, s, b, j, v);
    }
  }

  // Every listed value has got one range, the others none.
  ghost predicate Gained(ls: LiveSet, r: LiveRange, m0: RangeMap, m: RangeMap) {
    && Distinct(ls)
    && (forall v: nat :: Rng(m, v) == if Has(ls, v) then Rng(m0, v) + [r] else Rng(m0, v))
  }

  lemma GainedOne(ls: LiveSet, r: LiveRange, m0: RangeMap, m: RangeMap, v: nat)
    requires Gained(ls, r, m0, m) && !Has(ls, v)
    ensures Gained(Extended(ls, v), r, m0, Appended(m, v, r))
  {
    hide Extended, Appended;
  }

  lemma NothingGained(r: LiveRange, m: RangeMap)
    ensures Gained([], r, m, m)
  {
  }

  lemma ReachedEnd(p: Program, s: Span, ls: LiveSet, m0: RangeMap, m: RangeMap)
    requires SpanOk(p, s) && Gained(ls, LiveRange(s.lo, s.hi, Nowhere), m0, m)
    requires forall v: nat :: Has(ls, v) <==> WantedBySome(p, s.b, |p.g.succs[s.b]|, v)
    ensures Reached(p, s, |p.body[s.b]|, ls, m0, m)
  {
    hide WantedBySome, Has, LiveEnd, RangeFrom, LiveFrom;
    forall v: nat ensures Tracked(p, s, |p.body[s.b]|, v, ls, m0, m) {
      LiveFromEnd(p, s, v);
      LiveEndIff(p, s.b, v);
      assert Rng(m0, v) + [] == Rng(m0, v);
    }
  }

  // ---------------------------------------------------------------- the start of a block

  // A live set holds what is live at the start of the block.
  ghost predicate SetRight(p: Program, b: nat, ls: LiveSet)
    requires Ir.Sized(p) && b < p.g.Size()
  {
    Distinct(ls) && forall v: nat :: Has(ls, v) <==> LiveStart(p, b, v)
  }

  // The ranges found so far are those of the blocks from position j on.
  ghost predicate RangesRight(p: Program, order: seq<Elem>, j: nat, m: RangeMap)
    requires InRange(p, order) && j <= |order|
  {
    forall v: nat :: Rng(m, v) == RangesOf(p, order, v, j)
  }

  ghost predicate PhisDistinct(p: Program) {
    forall b, i, j :: 0 <= b < |p.phis| && 0 <= i < j < |p.phis[b]| ==> p.phis[b][i] != p.phis[b][j]
  }

  // Everything ProcessInstructions asserts of a block.
  ghost predicate BlockOk(p: Program, b: nat)
    requires Ir.Sized(p) && b < p.g.Size()
  {
    && (forall k :: 0 <= k < |p.body[b]| ==> ResultOk(p, b, k))
    && (forall i :: 0 <= i < |p.phis[b]| ==> Alive(p, b, p.phis[b][i]))
  }

  lemma PhiAlive(p: Program, s: Span, v: nat)
    requires SpanOk(p, s) && Unique(p) && v in p.phis[s.b]
    ensures LiveFrom(p, s, v, 0) <==> Alive(p, s.b, v)
  {
    hide LiveEnd;
    UsedFrom(p, s.b, v, 0);
    assert p.body[s.b][0..] == p.body[s.b];
  }

  ghost predicate WithoutPhis(p: Program, s: Span, i: nat, ls: LiveSet)
    requires SpanOk(p, s) && i <= |p.phis[s.b]|
  {
    Distinct(ls) && forall v: nat :: Has(ls, v) <==> LiveFrom(p, s, v, 0) && v !in p.phis[s.b][..i]
  }

  lemma StartRight(p: Program, s: Span, ls: LiveSet)
    requires SpanOk(p, s) && WithoutPhis(p, s, |p.phis[s.b]|, ls)
    ensures SetRight(p, s.b, ls)
  {
    hide LiveFrom, LiveEnd;
    assert p.phis[s.b][..|p.phis[s.b]|] == p.phis[s.b];
    forall v: nat ensures Has(ls, v) <==> LiveStart(p, s.b, v) {
      if v !in p.phis[s.b] {
        LiveFromStart(p, s, v);
      }
    }
  }

  lemma PhiRemoved(p: Program, s: Span, i: nat, ls: LiveSet)
    requires SpanOk(p, s) && i < |p.phis[s.b]| && WithoutPhis(p, s, i, ls) && Has(ls, p.phis[s.b][i])
    ensures WithoutPhis(p, s, i + 1, ls[Find(ls, p.phis[s.b][i]) := None])
  {
    hide LiveFrom, Has;
    RemovedOthers(ls, p.phis[s.b][i]);
    assert p.phis[s.b][..i + 1] == p.phis[s.b][..i] + [p.phis[s.b][i]];
  }

  // ---------------------------------------------------------------- the whole order

  // Every block is listed once, behind its predecessors.
  ghost predicate Topological(g: Graph, order: seq<Elem>) {
    && (forall j :: 0 <= j < |order| ==> order[j].block < |g.preds|)
    && (forall i, j :: 0 <= i < j < |order| ==> order[i].block != order[j].block)
    && (forall j, q :: 0 <= j < |order| && q in g.preds[order[j].block] ==> q in BlocksOf(order[..j]))
    && (forall b: nat :: b < g.Size() ==> b in BlocksOf(order))
  }

  // On a graph without loop headers LinearOrder yields such an order.
  lemma PlacedTopological(g: Graph, loops: Loops, order: seq<Elem>)
    requires g.Valid() && loops.Valid(g) && Placed(g, loops, order)
    requires forall b: nat :: b < g.Size() ==> !loops.IsHeader(b) && b in BlocksOf(order)
    ensures Topological(g, order)
  {
    forall j, q | 0 <= j < |order| && q in g.preds[order[j].block] ensures q in BlocksOf(order[..j]) {
      assert Enabled(g, loops, order[j].block, BlocksOf(order[..j]));
      assert SidePred(g, loops, q, order[j].block);
    }
  }

  lemma SuccBehind(g: Graph, order: seq<Elem>, j: nat, c: nat) returns (i: nat)
    requires g.Valid() && Topological(g, order) && j < |order| && c in g.succs[order[j].block]
    ensures j < i < |order| && order[i].block == c
  {
    assert c < g.Size() && order[j].block in g.preds[c] && c in BlocksOf(order);
    i :| 0 <= i < |order| && order[i].block == c;
    var k :| 0 <= k < |order[..i]| && order[..i][k].block == order[j].block;
    assert order[k].block == order[j].block;
  }

  // The number at which the block at position j ends: that of the next element, the last of which is no block.
  function NextNumber(order: seq<Elem>, life: nat, j: nat): nat
    requires j < |order|
  {
    if j + 1 < |order| then order[j + 1].ln else life
  }

  lemma SpanNumbers(p: Program, order: seq<Elem>, lns: map<nat, nat>, life: nat, j: nat)
    requires InRange(p, order) && Numbered(p, order, lns, life) && j < |order|
    ensures SpanOk(p, SpanAt(p, order, j))
    ensures SpanAt(p, order, j) == Span(order[j].block, order[j].ln, NextNumber(order, life, j))
    ensures BlockNumbered(p, order[j].block, order[j].ln, lns)
  {
    hide BlockNumbered, Start;
    StartStep(p, order, j);
  }

  lemma NothingYet(p: Program, order: seq<Elem>)
    requires InRange(p, order)
    ensures RangesRight(p, order, |order|, map[])
  {
  }

  lemma StartStep(p: Program, order: seq<Elem>, j: nat)
    requires InRange(p, order) && j < |order|
    ensures Start(p, order, j + 1) == Start(p, order, j) + 2 + 2 * |p.body[order[j].block]|
  {
  }

  class LivenessAnalysis {
    const p: Program
    const order: seq<Elem>
    const lns: map<nat, nat>
    const life: nat  // the number of the element behind the last block
    var liveSets: seq<LiveSet>
    var ranges: RangeMap

    constructor (p: Program, order: seq<Elem>, lns: map<nat, nat>, life: nat)
      requires Ir.Sized(p)
      ensures this.p == p && this.order == order && this.lns == lns && this.life == life
      ensures liveSets == seq(p.g.Size(), i => []) && ranges == map[]
    {
      this.p, this.order, this.lns, this.life := p, order, lns, life;
      liveSets, ranges := seq(p.g.Size(), i => []), map[];
    }

    // LiveSet::Extend and LiveRanges::Append
    method Add(b: nat, v: nat, r: LiveRange)
      requires b < |liveSets| && !Has(liveSets[b], v)
      modifies this`liveSets, this`ranges
      ensures liveSets == old(liveSets)[b := Extended(old(liveSets[b]), v)]
      ensures ranges == Appended(old(ranges), v, r)
    {
      liveSets := liveSets[b := Extended(liveSets[b], v)];
      ranges := Appended(ranges, v, r);
    }

    // LiveSet::Remove; it asserts that the instruction is listed.
    method Remove(b: nat, v: nat) returns (ok: bool)
      requires b < |liveSets|
      modifies this`liveSets
      ensures ok <==> Has(old(liveSets[b]), v)
      ensures ok ==> Find(old(liveSets[b]), v) < |old(liveSets[b])| &&
                     liveSets == old(liveSets)[b := old(liveSets[b])[Find(old(liveSets[b]), v) := None]]
      ensures !ok ==> liveSets == old(liveSets)
    {
      var ls := liveSets[b];
      var i := Find(ls, v);
      ok := i < |ls|;
      if ok {
        liveSets := liveSets[b := ls[i := None]];
      }
    }

    // LiveRanges::FinalizeDef, with the assertions of TrimBegin
    method FinalizeDef(v: nat, def: nat) returns (ok: bool)
      modifies this`ranges
      ensures var rs := Rng(old(ranges), v);
              && (ok <==> rs != [] && rs[|rs| - 1].b < def < rs[|rs| - 1].e)
              && (ok ==> Rng(ranges, v) == rs[..|rs| - 1] + [rs[|rs| - 1].(b := def)])
      ensures forall w: nat :: w != v ==> Rng(ranges, w) == Rng(old(ranges), w)
      ensures !ok ==> ranges == old(ranges)
    {
      var rs := Rng(ranges, v);
      ok := rs != [] && rs[|rs| - 1].b < def < rs[|rs| - 1].e;
      if ok {
        ranges := ranges[v := rs[..|rs| - 1] + [rs[|rs| - 1].(b := def)]];
      }
    }

    // ProcessInstructions, the result of one instruction
    method ProcessResult(ghost s: Span, b: nat, k: nat, ghost m0: RangeMap) returns (ok: bool)
      requires Strict(p) && SpanOk(p, s) && b == s.b && k < |p.body[b]| && |liveSets| == p.g.Size()
      requires p.body[b][k] in lns && lns[p.body[b][k]] == Ln(s, k)
      requires Midway(p, s, k, {}, liveSets[b], m0, ranges)
      modifies this`liveSets, this`ranges
      ensures ok <==> ResultOk(p, b, k)
      ensures |liveSets| == p.g.Size() && forall c :: 0 <= c < |liveSets| && c != b ==> liveSets[c] == old(liveSets[c])
      ensures ok ==> Midway(p, s, k, {p.body[b][k]}, liveSets[b], m0, ranges)
    {
      hide Distinct, LiveFrom, RangeFrom, Strict, Alive, Used, Midway;
      var x := p.body[b][k];
      ghost var ls, m := liveSets[b], ranges;
      MidwayAt(p, s, k, {}, x, ls, m0, m);
      AliveBehind(p, s, k);
      if HasDst(p.insts[x].op) {
        if Used(p, x) {
          if Has(ls, x) {
            Finalized(p, s, k, ls, m0, m);
            RemovedOthers(ls, x);
          }
          ok := FinalizeDef(x, lns[x]);
          if ok {
            ok := Remove(b, x);
          }
          if ok {
            ResultStep(p, s, k);
          }
        } else {
          ranges := Appended(ranges, x, LiveRange(lns[x], lns[x] + 2, Nowhere));
          ok := !Has(liveSets[b], x);
          if !ok {
            AliveUsed(p, b, x);
          } else {
            Unlisted(p, s, k, ls, m0, m, ranges);
          }
        }
      } else {
        ok := !Has(liveSets[b], x);
        if ok {
          Unlisted(p, s, k, ls, m0, m, ranges);
        }
      }
      if ok {
        StateStep(p, s, k, {}, x, m0, ls, m, liveSets[b], ranges);
        assert {} + {x} == {x};
      }
    }

    // ProcessInstructions, the operands of one instruction
    method ProcessOperands(ghost s: Span, b: nat, lo: nat, k: nat, ghost m0: RangeMap)
      requires Strict(p) && SpanOk(p, s) && b == s.b && lo == s.lo && k < |p.body[b]| && |liveSets| == p.g.Size()
      requires p.body[b][k] in lns && lns[p.body[b][k]] == Ln(s, k)
      requires Midway(p, s, k, {p.body[b][k]}, liveSets[b], m0, ranges)
      modifies this`liveSets, this`ranges
      ensures |liveSets| == p.g.Size() && forall c :: 0 <= c < |liveSets| && c != b ==> liveSets[c] == old(liveSets[c])
      ensures Reached(p, s, k, liveSets[b], m0, ranges)
    {
      hide Tracked, Midway, LiveFrom, RangeFrom, Strict, FirstOperands, Appended, Extended, Has, Rng;
      var x := p.body[b][k];
      var inputs := p.insts[x].inputs;
      OneOperand(x, inputs, 0);
      for i := 0 to |inputs|
        invariant |liveSets| == p.g.Size()
        invariant forall c :: 0 <= c < |liveSets| && c != b ==> liveSets[c] == old(liveSets[c])
        invariant Midway(p, s, k, FirstOperands(x, inputs, i), liveSets[b], m0, ranges)
      {
        OneOperand(x, inputs, i);
        ProcessOperand(s, b, lo, k, inputs[i], FirstOperands(x, inputs, i), m0);
      }
      InstructionDone(p, s, k, FirstOperands(x, inputs, |inputs|), liveSets[b], m0, ranges);
    }

    method ProcessOperand(ghost s: Span, b: nat, lo: nat, k: nat, v: nat, ghost done: set<nat>, ghost m0: RangeMap)
      requires Strict(p) && SpanOk(p, s) && b == s.b && lo == s.lo && k < |p.body[b]| && |liveSets| == p.g.Size()
      requires p.body[b][k] in lns && lns[p.body[b][k]] == Ln(s, k) && UsesAt(p, b, k, v)
      requires Midway(p, s, k, done, liveSets[b], m0, ranges)
      modifies this`liveSets, this`ranges
      ensures |liveSets| == p.g.Size() && forall c :: 0 <= c < |liveSets| && c != b ==> liveSets[c] == old(liveSets[c])
      ensures Midway(p, s, k, done + {v}, liveSets[b], m0, ranges)
    {
      hide LiveFrom, RangeFrom, Strict, Appended, Extended, Has, Rng;
      ghost var ls, m := liveSets[b], ranges;
      MidwayAt(p, s, k, done, v, ls, m0, m);
      if !Has(liveSets[b], v) {
        OperandStep(p, s, v, k);
        Add(b, v, LiveRange(lo, lns[p.body[b][k]], Nowhere));
        OperandDone(p, s, k, v, ls, m0, m, liveSets[b], ranges);
      } else if v !in done {
        OperandLive(p, s, k, v, ls, m0, m);
      }
      StateStep(p, s, k, done, v, m0, ls, m, liveSets[b], ranges);
    }

    // ProcessInstructions: backwards over the block; ok unless one of its assertions fails.
    method ProcessInstructions(ghost s: Span, b: nat, lo: nat, ghost m0: RangeMap) returns (ok: bool)
      requires Strict(p) && PhisDistinct(p) && SpanOk(p, s) && b == s.b && lo == s.lo && |liveSets| == p.g.Size()
      requires BlockNumbered(p, b, lo, lns)
      requires Reached(p, s, |p.body[b]|, liveSets[b], m0, ranges)
      modifies this`liveSets, this`ranges
      ensures ok <==> BlockOk(p, b)
      ensures |liveSets| == p.g.Size() && forall c :: 0 <= c < |liveSets| && c != b ==> liveSets[c] == old(liveSets[c])
      ensures ok ==>
                SetRight(p, b, liveSets[b]) &&
                forall v: nat :: Rng(ranges, v) == Rng(m0, v) + RangeFrom(p, s, v, 0)
    {
      hide LiveFrom, RangeFrom, Strict, Has, Rng, Tracked, ResultOk, Distinct, SetRight;
      var k := |p.body[b]|;
      while k > 0
        invariant 0 <= k <= |p.body[b]|
        invariant |liveSets| == p.g.Size()
        invariant forall c :: 0 <= c < |liveSets| && c != b ==> liveSets[c] == old(liveSets[c])
        invariant Reached(p, s, k, liveSets[b], m0, ranges)
        invariant forall i :: k <= i < |p.body[b]| ==> ResultOk(p, b, i)
      {
        k := k - 1;
        ok := ProcessResult(s, b, k, m0);
        if !ok {
          return;
        }
        ProcessOperands(s, b, lo, k, m0);
      }
      ok := RemovePhis(s, b, m0);
    }

    method RemovePhis(ghost s: Span, b: nat, ghost m0: RangeMap) returns (ok: bool)
      requires Strict(p) && PhisDistinct(p) && SpanOk(p, s) && b == s.b && |liveSets| == p.g.Size()
      requires Reached(p, s, 0, liveSets[b], m0, ranges)
      modifies this`liveSets
      ensures ok <==> forall i :: 0 <= i < |p.phis[b]| ==> Alive(p, b, p.phis[b][i])
      ensures |liveSets| == p.g.Size() && forall c :: 0 <= c < |liveSets| && c != b ==> liveSets[c] == old(liveSets[c])
      ensures ok ==> SetRight(p, b, liveSets[b])
      ensures forall v: nat :: Rng(ranges, v) == Rng(m0, v) + RangeFrom(p, s, v, 0)
    {
      hide LiveFrom, RangeFrom, Has, Rng, Alive, Distinct, SetRight;
      ok := true;
      forall v: nat ensures Has(liveSets[b], v) <==> LiveFrom(p, s, v, 0)
                    ensures Rng(ranges, v) == Rng(m0, v) + RangeFrom(p, s, v, 0) {
        assert Tracked(p, s, 0, v, liveSets[b], m0, ranges);
      }
      for i := 0 to |p.phis[b]|
        invariant |liveSets| == p.g.Size()
        invariant forall c :: 0 <= c < |liveSets| && c != b ==> liveSets[c] == old(liveSets[c])
        invariant WithoutPhis(p, s, i, liveSets[b])
        invariant forall j :: 0 <= j < i ==> Alive(p, b, p.phis[b][j])
      {
        PhiAlive(p, s, p.phis[b][i]);
        if Has(liveSets[b], p.phis[b][i]) {
          PhiRemoved(p, s, i, liveSets[b]);
        }
        ok := Remove(b, p.phis[b][i]);
        if !ok {
          return;
        }
      }
      StartRight(p, s, liveSets[b]);
    }

    // The body of the loops in InitializeBlock.
    method AddOnce(b: nat, v: nat, r: LiveRange, ghost m0: RangeMap)
      requires b < |liveSets| && Gained(liveSets[b], r, m0, ranges)
      modifies this`liveSets, this`ranges
      ensures |liveSets| == old(|liveSets|)
      ensures forall c :: 0 <= c < |liveSets| && c != b ==> liveSets[c] == old(liveSets[c])
      ensures Gained(liveSets[b], r, m0, ranges)
      ensures forall w: nat :: Has(liveSets[b], w) <==> Has(old(liveSets[b]), w) || w == v
    {
      hide Gained, Appended;
      if !Has(liveSets[b], v) {
        GainedOne(liveSets[b], r, m0, ranges, v);
        Add(b, v, r);
      }
    }

    method AddLive(b: nat, succ: nat, r: LiveRange, ghost m0: RangeMap)
      requires b < |liveSets| && succ < |liveSets| && succ != b && Gained(liveSets[b], r, m0, ranges)
      modifies this`liveSets, this`ranges
      ensures |liveSets| == old(|liveSets|)
      ensures forall c :: 0 <= c < |liveSets| && c != b ==> liveSets[c] == old(liveSets[c])
      ensures Gained(liveSets[b], r, m0, ranges)
      ensures forall w: nat :: Has(liveSets[b], w) <==> Has(old(liveSets[b]), w) || Has(liveSets[succ], w)
    {
      hide Gained;
      var live := liveSets[succ];
      for i := 0 to |live|
        invariant |liveSets| == old(|liveSets|)
        invariant forall c :: 0 <= c < |liveSets| && c != b ==> liveSets[c] == old(liveSets[c])
        invariant Gained(liveSets[b], r, m0, ranges)
        invariant forall w: nat :: Has(liveSets[b], w) <==> Has(old(liveSets[b]), w) || Has(live[..i], w)
      {
        assert live[..i + 1] == live[..i] + [live[i]];
        match live[i] {
          case Some(v) => AddOnce(b, v, r, m0);
          case None =>
        }
      }
      assert live[..|live|] == live;
    }

    method AddPhiOperands(b: nat, succ: nat, r: LiveRange, ghost m0: RangeMap)
      requires Strict(p) && |liveSets| == p.g.Size() && b < p.g.Size() && succ < p.g.Size() && b in p.g.preds[succ]
      requires Gained(liveSets[b], r, m0, ranges)
      modifies this`liveSets, this`ranges
      ensures |liveSets| == old(|liveSets|)
      ensures forall c :: 0 <= c < |liveSets| && c != b ==> liveSets[c] == old(liveSets[c])
      ensures Gained(liveSets[b], r, m0, ranges)
      ensures forall w: nat :: Has(liveSets[b], w) <==> Has(old(liveSets[b]), w) || PhiTakes(p, succ, b, w)
    {
      hide Gained, Has, PhiTakes, InputsReady;
      var predId := PredIdx(p.g.preds[succ], b);
      for i := 0 to |p.phis[succ]|
        invariant |liveSets| == old(|liveSets|)
        invariant forall c :: 0 <= c < |liveSets| && c != b ==> liveSets[c] == old(liveSets[c])
        invariant Gained(liveSets[b], r, m0, ranges)
        invariant forall w: nat :: Has(liveSets[b], w) <==> Has(old(liveSets[b]), w) || PhiOperandOf(p, succ, b, i, w)
      {
        var phi := p.phis[succ][i];
        assert PhiReady(p, succ, phi);
        AddOnce(b, p.insts[phi].inputs[predId], r, m0);
        assert PhiOperand(p, succ, b, i, p.insts[phi].inputs[predId]);
      }
      forall w: nat ensures PhiOperandOf(p, succ, b, |p.phis[succ]|, w) <==> PhiTakes(p, succ, b, w) {
        PhiTakesIff(p, succ, b, w);
      }
    }

    // InitializeBlock: what is live at the end of a block is live over all of it, as far as is known.
    method InitializeBlock(ghost s: Span, b: nat, lo: nat, hi: nat)
      requires Strict(p) && SpanOk(p, s) && s == Span(b, lo, hi) && |liveSets| == p.g.Size() && liveSets[b] == []
      requires forall c :: c in p.g.succs[b] ==> c != b && c < p.g.Size() && SetRight(p, c, liveSets[c])
      modifies this`liveSets, this`ranges
      ensures |liveSets| == p.g.Size() && forall c :: 0 <= c < |liveSets| && c != b ==> liveSets[c] == old(liveSets[c])
      ensures Reached(p, s, |p.body[b]|, liveSets[b], old(ranges), ranges)
    {
      hide Has, Gained, Reached, InputsReady, PhiReady, LiveStart, PhiTakes;
      ghost var m0 := ranges;
      var r := LiveRange(lo, hi, Nowhere);
      NothingGained(r, m0);
      for i := 0 to |p.g.succs[b]|
        invariant |liveSets| == p.g.Size()
        invariant forall c :: 0 <= c < |liveSets| && c != b ==> liveSets[c] == old(liveSets[c])
        invariant Gained(liveSets[b], r, m0, ranges)
        invariant forall v: nat :: Has(liveSets[b], v) <==> WantedBySome(p, b, i, v)
      {
        var succ := p.g.succs[b][i];
        AddLive(b, succ, r, m0);
        AddPhiOperands(b, succ, r, m0);
        WantedNext(p, b, i, liveSets[succ]);
      }
      ReachedEnd(p, s, liveSets[b], m0, ranges);
    }

    // The live sets of the blocks from position j on are right, and the others are empty still.
    ghost predicate SetsRight(j: nat)
      requires InRange(p, order) && j <= |order|
      reads this
    {
      && |liveSets| == p.g.Size()
      && (forall i :: j <= i < |order| ==> SetRight(p, order[i].block, liveSets[order[i].block]))
      && (forall i :: 0 <= i < j ==> liveSets[order[i].block] == [])
    }

    method ProcessBlock(j: nat) returns (ok: bool)
      requires Strict(p) && PhisDistinct(p) && InRange(p, order) && Topological(p.g, order)
      requires Numbered(p, order, lns, life)
      requires j < |order| && SetsRight(j + 1) && RangesRight(p, order, j + 1, ranges)
      modifies this`liveSets, this`ranges
      ensures ok <==> BlockOk(p, order[j].block)
      ensures ok ==> SetsRight(j) && RangesRight(p, order, j, ranges)
    {
      hide Strict, PhisDistinct, Numbered, BlockNumbered, SetRight, BlockOk, Reached, RangeFrom;
      ghost var s := SpanAt(p, order, j);
      ghost var m0 := ranges;
      var b := order[j].block;
      SpanNumbers(p, order, lns, life, j);
      forall c | c in p.g.succs[b] ensures c != b && c < p.g.Size() && SetRight(p, c, liveSets[c]) {
        var i := SuccBehind(p.g, order, j, c);
      }
      InitializeBlock(s, b, order[j].ln, NextNumber(order, life, j));
      ok := ProcessInstructions(s, b, order[j].ln, m0);
      if ok {
        forall v: nat ensures Rng(ranges, v) == RangesOf(p, order, v, j) {
          assert Rng(m0, v) == RangesOf(p, order, v, j + 1);
        }
      }
    }

    // CalculateLifeRanges: backwards over the linear order, without the element behind its last block.
    method CalculateLifeRanges() returns (ok: bool)
      requires Strict(p) && PhisDistinct(p) && InRange(p, order) && Topological(p.g, order)
      requires Numbered(p, order, lns, life)
      requires liveSets == seq(p.g.Size(), i => []) && ranges == map[]
      modifies this`liveSets, this`ranges
      ensures ok <==> forall j :: 0 <= j < |order| ==> BlockOk(p, order[j].block)
      ensures ok ==> SetsRight(0) && RangesRight(p, order, 0, ranges)
    {
      hide Strict, PhisDistinct, Numbered, Topological, BlockOk, SetRight, RangesRight;
      NothingYet(p, order);
      var j := |order|;
      ok := true;
      while j > 0
        invariant 0 <= j <= |order| && SetsRight(j) && RangesRight(p, order, j, ranges)
        invariant forall i :: j <= i < |order| ==> BlockOk(p, order[i].block)
      {
        j := j - 1;
        ok := ProcessBlock(j);
        if !ok {
          return;
        }
      }
    }
  }

  lemma WantedNext(p: Program, b: nat, i: nat, ls: LiveSet)
    requires Ir.Sized(p) && b < p.g.Size() && i < |p.g.succs[b]| && SetRight(p, p.g.succs[b][i], ls)
    ensures forall v: nat :: WantedBySome(p, b, i + 1, v) <==>
              WantedBySome(p, b, i, v) || Has(ls, v) || PhiTakes(p, p.g.succs[b][i], b, v)
  {
    hide LiveStart, PhiTakes, Has;
    forall v: nat ensures Wanted(p, b, p.g.succs[b][i], v) <==> Has(ls, v) || PhiTakes(p, p.g.succs[b][i], b, v) {
    }
  }
}
