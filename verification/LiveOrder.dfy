// The ranges of a value begin at its definition, because what needs the value comes later in the linear order.
module LiveOrder {
  import opened Cfg
  import opened Ir
  import opened Ssa
  import opened LinearOrdering
  import opened LiveIntervals
  import opened LivenessSpec
  import opened Liveness
  import opened LiveCoverage

  // Along a path from the entry the positions in the order grow.
  lemma {:induction false} PathForward(g: Graph, order: seq<Elem>, q: seq<nat>, m: nat, j: nat)
    requires g.Valid() && Topological(g, order) && IsPath(g, q) && m < |q| && j < |order|
    requires order[j].block == q[|q| - 1]
    ensures exists i :: 0 <= i <= j && order[i].block == q[m] && (m < |q| - 1 ==> i < j)
    decreases |q| - m
  {
    if m < |q| - 1 {
      PathForward(g, order, q, m + 1, j);
      var i :| 0 <= i <= j && order[i].block == q[m + 1];
      assert Step(g, q, m + 1);
      var k := PredInFront(g, order, i, q[m]);
    }
  }

  lemma PredInFront(g: Graph, order: seq<Elem>, i: nat, b: nat) returns (k: nat)
    requires g.Valid() && Topological(g, order) && i < |order| && b < g.Size() && order[i].block in g.succs[b]
    ensures k < i && order[k].block == b
  {
    assert b in g.preds[order[i].block];
    k :| 0 <= k < |order[..i]| && order[..i][k].block == b;
  }

  lemma DominatorInFront(g: Graph, order: seq<Elem>, i: nat, j: nat)
    requires g.Valid() && AllReachable(g) && Topological(g, order) && i < |order| && j < |order|
    requires StrictlyDominates(g, order[i].block, order[j].block)
    ensures i < j
  {
    hide Topological;
    InGraph(g, order, j);
    assert Reachable(g, order[j].block);
    var q :| PathTo(g, q, ENTRY, order[j].block);
    var m :| 0 <= m < |q| && q[m] == order[i].block;
    PathForward(g, order, q, m, j);
    var k :| 0 <= k <= j && order[k].block == q[m] && (m < |q| - 1 ==> k < j);
    OnePosition(g, order, i, k);
  }

  lemma InGraph(g: Graph, order: seq<Elem>, j: nat)
    requires g.Valid() && Topological(g, order) && j < |order|
    ensures order[j].block < g.Size()
  {
  }

  lemma OnePosition(g: Graph, order: seq<Elem>, i: nat, j: nat)
    requires Topological(g, order) && i < |order| && j < |order| && order[i].block == order[j].block
    ensures i == j
  {
  }

  // What is live at the start of a block has been defined in a strict dominator.
  lemma LiveDefined(p: Program, b: nat, v: nat)
    requires Strict(p) && b < p.g.Size() && LiveStart(p, b, v)
    ensures LiveIn(p, v, b)
  {
    hide InputsReady, PhiReady, Unique, AllReachable, LiveEnd, LiveIn;
    var s := Span(b, 0, 2 + 2 * |p.body[b]|);
    if LiveEnd(p, b, v) {
      assert NeededAt(p, s, v, 0) by {
        NotInBody(p, b, v);
      }
      NeededDefined(p, s, v, 0);
    } else {
      var k: nat :| k < |p.body[b]| && UsesAt(p, b, k, v);
      OperandBefore(p, b, k, v);
    }
  }

  lemma NotInBody(p: Program, b: nat, v: nat)
    requires Ir.Sized(p) && b < p.g.Size() && !InBlock(p, v, b)
    ensures forall d :: 0 <= d < |p.body[b]| ==> p.body[b][d] != v
  {
  }

  // In front of the block of its definition a value has no range.
  lemma NoRangeInFront(p: Program, order: seq<Elem>, v: nat, i: nat, j: nat)
    requires Strict(p) && InRange(p, order) && Topological(p.g, order) && i < j < |order|
    requires InBlock(p, v, order[j].block)
    ensures RangeFrom(p, SpanAt(p, order, i), v, 0) == []
  {
    hide InputsReady, PhiReady, LiveEnd, Topological;
    var b := order[i].block;
    if order[i].block == order[j].block {
      OnePosition(p.g, order, i, j);
    }
    assert !InBlock(p, v, b);
    if LiveStart(p, b, v) {
      LiveDefined(p, b, v);
      var c: nat :| InBlock(p, v, c) && StrictlyDominates(p.g, c, b);
      assert c == order[j].block;
      DominatorInFront(p.g, order, j, i);
    }
    NotLiveNoRange(p, SpanAt(p, order, i), v);
  }

  lemma NotLiveNoRange(p: Program, s: Span, v: nat)
    requires SpanOk(p, s) && !LiveStart(p, s.b, v) && !InBlock(p, v, s.b)
    ensures RangeFrom(p, s, v, 0) == []
  {
    hide LiveEnd;
    UsedFrom(p, s.b, v, 0);
    DefinedAtNot(p, s.b, v);
  }

  lemma DefinedAtNot(p: Program, b: nat, v: nat)
    requires Ir.Sized(p) && b < p.g.Size() && v !in p.body[b]
    ensures ResultAt(p, b, v, 0) == |p.body[b]|
  {
    assert p.body[b][0..] == p.body[b];
  }

  lemma {:induction false} RangesBehind(p: Program, order: seq<Elem>, v: nat, i: nat, j: nat)
    requires Strict(p) && InRange(p, order) && Topological(p.g, order) && i <= j < |order|
    requires InBlock(p, v, order[j].block)
    ensures RangesOf(p, order, v, i) == RangesOf(p, order, v, j)
    decreases j - i
  {
    hide Strict, Topological, RangeFrom, InBlock;
    if i < j {
      RangesBehind(p, order, v, i + 1, j);
      NoRangeInFront(p, order, v, i, j);
    }
  }

  // The range in the block of the definition begins there.
  lemma RangeBegins(p: Program, s: Span, v: nat, lns: map<nat, nat>)
    requires Strict(p) && SpanOk(p, s) && BlockOk(p, s.b) && BlockNumbered(p, s.b, s.lo, lns)
    requires InBlock(p, v, s.b) && v in p.insts && HasDst(p.insts[v].op)
    ensures |RangeFrom(p, s, v, 0)| == 1 && v in lns && RangeFrom(p, s, v, 0)[0].b == lns[v]
  {
    hide InputsReady, PhiReady, LiveEnd, Alive, AllReachable, ResultOk;
    if v in p.phis[s.b] {
      var i :| 0 <= i < |p.phis[s.b]| && p.phis[s.b][i] == v;
      assert Alive(p, s.b, p.phis[s.b][i]);
      PhiAlive(p, s, v);
      DefinedAtNot(p, s.b, v);
    } else {
      DefinedAt(p, s, v, 0);
    }
  }

  // The first range of every result begins at its definition.
  lemma FirstRange(p: Program, order: seq<Elem>, lns: map<nat, nat>, life: nat, v: nat, j: nat)
    requires Strict(p) && InRange(p, order) && Topological(p.g, order) && Numbered(p, order, lns, life)
    requires forall i :: 0 <= i < |order| ==> BlockOk(p, order[i].block)
    requires j < |order| && InBlock(p, v, order[j].block) && v in p.insts && HasDst(p.insts[v].op)
    ensures var rs := Backwards(RangesOf(p, order, v, 0));
            WellFormed(rs) && v in lns && Startpoint(rs) == lns[v]
  {
    RangesBehind(p, order, v, 0, j);
    RangesSorted(p, order, lns, life, v, 0);
    hide InputsReady, PhiReady, Unique, AllReachable, Topological, BlockOk, RangeFrom, Start, InBlock, Sorted;
    assert BlockNumbered(p, order[j].block, order[j].ln, lns);
    RangeBegins(p, SpanAt(p, order, j), v, lns);
    LastFirst(RangesOf(p, order, v, j + 1), RangeFrom(p, SpanAt(p, order, j), v, 0));
  }

  lemma LastFirst(rs: seq<LiveRange>, r: seq<LiveRange>)
    requires |r| == 1
    ensures Backwards(rs + r) != [] && Backwards(rs + r)[0] == r[0]
  {
  }

  // Intervals that cover the same begin at the same number.
  lemma SameStart(a: seq<LiveRange>, b: seq<LiveRange>)
    requires WellFormed(a) && WellFormed(b) && SameCover(a, b)
    ensures Startpoint(a) == Startpoint(b)
  {
    StartCovered(a);
    StartCovered(b);
  }

  lemma StartCovered(a: seq<LiveRange>)
    requires WellFormed(a)
    ensures Covers(a, Startpoint(a)) && forall x: nat :: Covers(a, x) ==> Startpoint(a) <= x
  {
    assert Contains(a[0], a[0].b);
  }
}
