// What it means that a value is live, and how far into a block.
module LivenessSpec {
  import opened Cfg
  import opened Ir
  import opened Ssa
  import opened LiveIntervals

  // The k-th instruction of b uses v.
  ghost predicate UsesAt(p: Program, b: nat, k: nat, v: nat)
    requires Ir.Sized(p) && b < p.g.Size() && k < |p.body[b]|
  {
    v in p.insts[p.body[b][k]].inputs
  }

  ghost predicate UsedIn(p: Program, b: nat, v: nat)
    requires Ir.Sized(p) && b < p.g.Size()
  {
    exists k :: 0 <= k < |p.body[b]| && UsesAt(p, b, k, v)
  }

  // The operand a phi of s takes on the edge from b.
  ghost predicate PhiTakes(p: Program, s: nat, b: nat, v: nat)
    requires Ir.Sized(p) && s < p.g.Size()
  {
    exists phi :: phi in p.phis[s] && PredIdx(p.g.preds[s], b) < |p.insts[phi].inputs| &&
                  p.insts[phi].inputs[PredIdx(p.g.preds[s], b)] == v
  }

  // A phi of a successor uses v at the end of b.
  ghost predicate UsedAtEnd(p: Program, b: nat, v: nat)
    requires Ir.Sized(p) && b < p.g.Size()
  {
    exists s :: s in p.g.succs[b] && s < p.g.Size() && PhiTakes(p, s, b, v)
  }

  // The path leads from its first block, without passing the definition of v behind it, to a use of v.
  ghost predicate LeadsToUse(p: Program, q: seq<nat>, v: nat)
    requires Ir.Sized(p)
  {
    && IsPath(p.g, q) && (forall i :: 0 < i < |q| ==> !InBlock(p, v, q[i]))
    && ((|q| > 1 && UsedIn(p, q[|q| - 1], v)) || UsedAtEnd(p, q[|q| - 1], v))
  }

  // v is live at the end of b.
  ghost predicate LiveEnd(p: Program, b: nat, v: nat)
    requires Ir.Sized(p)
  {
    exists q :: LeadsToUse(p, q, v) && q[0] == b
  }

  // v is live at the start of b, behind its phis.
  ghost predicate LiveStart(p: Program, b: nat, v: nat)
    requires Ir.Sized(p) && b < p.g.Size()
  {
    !InBlock(p, v, b) && (UsedIn(p, b, v) || LiveEnd(p, b, v))
  }

  // Liveness at the end of a block is liveness at the start of a successor, or the use of a phi there.
  lemma LiveEndStep(p: Program, b: nat, v: nat)
    requires Ir.Sized(p) && b < p.g.Size()
    ensures LiveEnd(p, b, v) <==>
            UsedAtEnd(p, b, v) || exists s :: s in p.g.succs[b] && s < p.g.Size() && LiveStart(p, s, v)
  {
    if q :| LeadsToUse(p, q, v) && q[0] == b {
      if |q| > 1 {
        LiveNext(p, q, v);
      }
    }
    if UsedAtEnd(p, b, v) {
      assert LeadsToUse(p, [b], v);
    }
    if s :| s in p.g.succs[b] && s < p.g.Size() && LiveStart(p, s, v) {
      LivePrevious(p, b, s, v);
    }
  }

  lemma LiveNext(p: Program, q: seq<nat>, v: nat)
    requires Ir.Sized(p) && LeadsToUse(p, q, v) && |q| > 1
    ensures q[1] in p.g.succs[q[0]] && q[1] < p.g.Size() && LiveStart(p, q[1], v)
  {
    assert Step(p.g, q, 1);
    if |q| > 2 || !UsedIn(p, q[1], v) {
      var r := q[1..];
      PathSlice(p.g, q, 1, |q|);
      assert r == q[1..|q|];
      assert LeadsToUse(p, r, v);
    }
  }

  lemma LivePrevious(p: Program, b: nat, s: nat, v: nat)
    requires Ir.Sized(p) && b < p.g.Size() && s in p.g.succs[b] && s < p.g.Size() && LiveStart(p, s, v)
    ensures LiveEnd(p, b, v)
  {
    if UsedIn(p, s, v) {
      var q := [b, s];
      assert Step(p.g, q, 1);
      assert LeadsToUse(p, q, v);
    } else {
      var r :| LeadsToUse(p, r, v) && r[0] == s;
      var q := [b] + r;
      forall i | 0 < i < |q| ensures Step(p.g, q, i) {
        if i > 1 {
          assert Step(p.g, r, i - 1);
        }
      }
      assert LeadsToUse(p, q, v);
    }
  }

  // ---------------------------------------------------------------- used values are live

  // Inst::HasUsers
  predicate Used(p: Program, v: nat) {
    exists y :: y in p.insts && v in p.insts[y].inputs
  }

  // The value of v, defined in b, is used in b or behind it.
  ghost predicate Alive(p: Program, b: nat, v: nat)
    requires Ir.Sized(p) && b < p.g.Size()
  {
    UsedIn(p, b, v) || LiveEnd(p, b, v)
  }

  // There is at most one edge from a block to another.
  ghost predicate SingleEdges(g: Graph) {
    forall b, i, j :: 0 <= b < |g.preds| && 0 <= i < j < |g.preds[b]| ==> g.preds[b][i] != g.preds[b][j]
  }

  ghost predicate AllPlaced(p: Program)
    requires Ir.Sized(p)
  {
    forall y :: y in p.insts ==> exists c: nat :: c < p.g.Size() && InBlock(p, y, c)
  }

  // From a strict dominator a path leads to the block without coming back.
  lemma PathFromDominator(p: Program, b: nat, c: nat) returns (q: seq<nat>)
    requires AllReachable(p.g) && StrictlyDominates(p.g, b, c) && c < p.g.Size()
    ensures PathTo(p.g, q, b, c) && |q| > 1 && forall i :: 0 < i < |q| ==> q[i] != b
  {
    assert Reachable(p.g, c);
    var r :| PathTo(p.g, r, ENTRY, c);
    var i := LastVisit(r, b);
    PathSlice(p.g, r, i, |r|);
    q := r[i..|r|];
  }

  lemma LastVisit(r: seq<nat>, b: nat) returns (i: nat)
    requires b in r
    ensures i < |r| && r[i] == b && forall j :: i < j < |r| ==> r[j] != b
  {
    i := |r| - 1;
    while r[i] != b
      invariant i < |r| && (forall j :: i < j < |r| ==> r[j] != b) && b in r[..i + 1]
      decreases i
    {
      i := i - 1;
    }
  }

  lemma UsedAlive(p: Program, b: nat, v: nat)
    requires Strict(p) && SingleEdges(p.g) && AllPlaced(p) && b < p.g.Size() && InBlock(p, v, b) && Used(p, v)
    ensures Alive(p, b, v)
  {
    hide InputsReady, PhiReady;
    var y :| y in p.insts && v in p.insts[y].inputs;
    var c: nat :| c < p.g.Size() && InBlock(p, y, c);
    if y in p.body[c] {
      var k: nat :| k < |p.body[c]| && p.body[c][k] == y;
      BodyUseAlive(p, b, v, c, k);
    } else {
      PhiUseAlive(p, b, v, c, y);
    }
  }

  // A path from the definition's block, one that never returns to it, keeps clear of the definition.
  lemma ClearPath(p: Program, b: nat, v: nat, q: seq<nat>)
    requires Unique(p) && InBlock(p, v, b) && forall i :: 0 < i < |q| ==> q[i] != b
    ensures forall i :: 0 < i < |q| ==> !InBlock(p, v, q[i])
  {
  }

  lemma BodyUseAlive(p: Program, b: nat, v: nat, c: nat, k: nat)
    requires Strict(p) && b < p.g.Size() && InBlock(p, v, b) && c < p.g.Size() && k < |p.body[c]| && UsesAt(p, c, k, v)
    ensures Alive(p, b, v)
  {
    hide PhiReady;
    assert InputsReady(p, c, k);
    if LiveIn(p, v, c) {
      var d: nat :| InBlock(p, v, d) && StrictlyDominates(p.g, d, c);
      assert d == b;
      var q := PathFromDominator(p, b, c);
      ClearPath(p, b, v, q);
      assert LeadsToUse(p, q, v);
    } else {
      assert InBlock(p, v, c);
    }
  }

  lemma PhiUseAlive(p: Program, b: nat, v: nat, c: nat, y: nat)
    requires Strict(p) && SingleEdges(p.g) && b < p.g.Size() && InBlock(p, v, b) && c < p.g.Size() && y in p.phis[c]
    requires y in p.insts && v in p.insts[y].inputs
    ensures Alive(p, b, v)
  {
    hide Strict, UsedAtEnd, Before;
    var d := PhiUseEnd(p, v, c, y);
    EndUseAlive(p, b, v, d);
  }

  // A phi uses its operand at the end of the predecessor it belongs to.
  lemma PhiUseEnd(p: Program, v: nat, c: nat, y: nat) returns (d: nat)
    requires Strict(p) && SingleEdges(p.g) && c < p.g.Size() && y in p.phis[c] && y in p.insts && v in p.insts[y].inputs
    ensures d < p.g.Size() && UsedAtEnd(p, d, v) && Before(p, v, d, |p.body[d]|)
  {
    hide InputsReady;
    assert PhiReady(p, c, y);
    var i: nat :| i < |p.insts[y].inputs| && p.insts[y].inputs[i] == v;
    d := p.g.preds[c][i];
    assert PredIdx(p.g.preds[c], d) == i;
    assert PhiTakes(p, c, d, v);
    assert c in p.g.succs[d];
  }

  lemma EndUseAlive(p: Program, b: nat, v: nat, d: nat)
    requires Strict(p) && b < p.g.Size() && InBlock(p, v, b) && d < p.g.Size()
    requires UsedAtEnd(p, d, v) && Before(p, v, d, |p.body[d]|)
    ensures Alive(p, b, v)
  {
    hide InputsReady, PhiReady, UsedAtEnd;
    if LiveIn(p, v, d) {
      var e: nat :| InBlock(p, v, e) && StrictlyDominates(p.g, e, d);
      assert e == b;
      var q := PathFromDominator(p, b, d);
      ClearPath(p, b, v, q);
      assert LeadsToUse(p, q, v);
    } else {
      assert InBlock(p, v, d) && d == b;
      assert LeadsToUse(p, [b], v);
    }
  }

  // ---------------------------------------------------------------- the range of a value in one block

  // The last use of v in the block from the k-th instruction on; |body| when there is none.
  ghost function LastUse(p: Program, b: nat, v: nat, k: nat): (r: nat)
    requires Ir.Sized(p) && b < p.g.Size() && k <= |p.body[b]|
    ensures k <= r <= |p.body[b]|
    ensures r < |p.body[b]| ==> UsesAt(p, b, r, v)
    ensures forall i :: r < i < |p.body[b]| ==> !UsesAt(p, b, i, v)
    ensures r == |p.body[b]| ==> forall i :: k <= i < |p.body[b]| ==> !UsesAt(p, b, i, v)
    decreases |p.body[b]| - k
  {
    if k == |p.body[b]| then k
    else
      var r := LastUse(p, b, v, k + 1);
      if r < |p.body[b]| then r else if UsesAt(p, b, k, v) then k else |p.body[b]|
  }

  // A block as the linear order has numbered it: from lo up to hi, its k-th instruction at lo + 2 + 2k.
  datatype Span = Span(b: nat, lo: nat, hi: nat)

  ghost predicate SpanOk(p: Program, s: Span) {
    Ir.Sized(p) && s.b < p.g.Size() && s.hi == s.lo + 2 + 2 * |p.body[s.b]|
  }

  function Ln(s: Span, k: nat): nat {
    s.lo + 2 + 2 * k
  }

  // Where the range of v ends in the block, looking at the instructions from the k-th on; lo when v is not live.
  ghost function EndFrom(p: Program, s: Span, v: nat, k: nat): (e: nat)
    requires SpanOk(p, s) && k <= |p.body[s.b]|
  {
    var r := LastUse(p, s.b, v, k);
    if LiveEnd(p, s.b, v) then s.hi else if r < |p.body[s.b]| then Ln(s, r) else s.lo
  }

  ghost function ResultAt(p: Program, b: nat, v: nat, k: nat): (r: nat)
    requires Ir.Sized(p) && b < p.g.Size() && k <= |p.body[b]|
    ensures k <= r <= |p.body[b]| && (r < |p.body[b]| ==> p.body[b][r] == v)
    ensures r == |p.body[b]| ==> v !in p.body[b][k..]
    decreases |p.body[b]| - k
  {
    if k == |p.body[b]| then k else if p.body[b][k] == v then k else ResultAt(p, b, v, k + 1)
  }

  // The range of v in the block, as far as the instructions from the k-th on tell.
  ghost function RangeFrom(p: Program, s: Span, v: nat, k: nat): (r: seq<LiveRange>)
    requires SpanOk(p, s) && k <= |p.body[s.b]|
  {
    var d := ResultAt(p, s.b, v, k);
    var e := EndFrom(p, s, v, k);
    if d < |p.body[s.b]| then
      if !HasDst(p.insts[v].op) then []
      else [LiveRange(Ln(s, d), if Used(p, v) then e else Ln(s, d) + 2, Nowhere)]
    else if e == s.lo then [] else [LiveRange(s.lo, e, Nowhere)]
  }

  // The live values in front of the k-th instruction.
  ghost predicate LiveFrom(p: Program, s: Span, v: nat, k: nat)
    requires SpanOk(p, s) && k <= |p.body[s.b]|
  {
    v !in p.body[s.b][k..] && EndFrom(p, s, v, k) > s.lo
  }

  // A use in a block at or behind position k.
  lemma UsedFrom(p: Program, b: nat, v: nat, k: nat)
    requires Ir.Sized(p) && b < p.g.Size() && k <= |p.body[b]|
    ensures LastUse(p, b, v, k) < |p.body[b]| <==> exists i :: k <= i < |p.body[b]| && UsesAt(p, b, i, v)
  {
  }

  // In front of the first instruction, apart from the phis, the live values are those live at the start.
  lemma LiveFromStart(p: Program, s: Span, v: nat)
    requires SpanOk(p, s) && v !in p.phis[s.b]
    ensures LiveFrom(p, s, v, 0) <==> LiveStart(p, s.b, v)
  {
    UsedFrom(p, s.b, v, 0);
    assert p.body[s.b][0..] == p.body[s.b];
  }

  // Behind the last instruction nothing is known but the end of the block.
  lemma LiveFromEnd(p: Program, s: Span, v: nat)
    requires SpanOk(p, s)
    ensures LiveFrom(p, s, v, |p.body[s.b]|) <==> LiveEnd(p, s.b, v)
    ensures RangeFrom(p, s, v, |p.body[s.b]|) == if LiveEnd(p, s.b, v) then [LiveRange(s.lo, s.hi, Nowhere)] else []
  {
  }

  // What the k-th instruction uses is not defined from there on in the block.
  lemma OperandNotBehind(p: Program, b: nat, k: nat, v: nat)
    requires Strict(p) && b < p.g.Size() && k < |p.body[b]| && UsesAt(p, b, k, v)
    ensures v !in p.body[b][k..] && forall j :: k <= j < |p.body[b]| ==> p.body[b][j] != v
  {
    hide PhiReady;
    assert InputsReady(p, b, k);
    forall j | k <= j < |p.body[b]| ensures p.body[b][j] != v {
      NotBeforeItself(p, b, j);
      if v in p.body[b][..k] {
        assert v in p.body[b][..j];
      }
    }
  }

  // One instruction, seen from behind: its result ends there.
  lemma ResultStep(p: Program, s: Span, k: nat)
    requires SpanOk(p, s) && Strict(p) && k < |p.body[s.b]|
    ensures var x := p.body[s.b][k];
            && x !in p.body[s.b][k + 1..] && EndFrom(p, s, x, k) == EndFrom(p, s, x, k + 1)
            && !LiveFrom(p, s, x, k) && ResultAt(p, s.b, x, k) == k
  {
    hide PhiReady, InputsReady, AllReachable, LiveEnd;
    var x := p.body[s.b][k];
    if UsesAt(p, s.b, k, x) {
      OperandNotBehind(p, s.b, k, x);
    }
    assert p.body[s.b][k..][0] == x;
  }

  // Other values are not affected,
  lemma OtherStep(p: Program, s: Span, v: nat, k: nat)
    requires SpanOk(p, s) && k < |p.body[s.b]| && v != p.body[s.b][k] && !UsesAt(p, s.b, k, v)
    ensures LiveFrom(p, s, v, k) <==> LiveFrom(p, s, v, k + 1)
    ensures RangeFrom(p, s, v, k) == RangeFrom(p, s, v, k + 1)
  {
    hide LiveEnd;
    assert p.body[s.b][k..] == [p.body[s.b][k]] + p.body[s.b][k + 1..];
  }

  // and an operand that was not live yet becomes so.
  lemma OperandStep(p: Program, s: Span, v: nat, k: nat)
    requires SpanOk(p, s) && Strict(p) && k < |p.body[s.b]| && UsesAt(p, s.b, k, v)
    ensures v != p.body[s.b][k] && LiveFrom(p, s, v, k)
    ensures RangeFrom(p, s, v, k) ==
            if LiveFrom(p, s, v, k + 1) then RangeFrom(p, s, v, k + 1) else [LiveRange(s.lo, Ln(s, k), Nowhere)]
    ensures !LiveFrom(p, s, v, k + 1) ==> RangeFrom(p, s, v, k + 1) == []
  {
    hide LiveEnd, Strict;
    OperandNotBehind(p, s.b, k, v);
    assert p.body[s.b][k..] == [p.body[s.b][k]] + p.body[s.b][k + 1..];
    assert p.body[s.b][k..][0] == p.body[s.b][k];
    ResultBehind(p, s.b, v, k);
    ResultBehind(p, s.b, v, k + 1);
  }

  lemma ResultBehind(p: Program, b: nat, v: nat, k: nat)
    requires Ir.Sized(p) && b < p.g.Size() && k <= |p.body[b]| && v !in p.body[b][k..]
    ensures ResultAt(p, b, v, k) == |p.body[b]|
  {
    forall j | k <= j < |p.body[b]| ensures p.body[b][j] != v {
      assert p.body[b][k..][j - k] == p.body[b][j];
    }
  }

  // The range a result gets: from its definition to the last use behind it, or two numbers when it has no user.
  lemma ResultRange(p: Program, s: Span, k: nat)
    requires SpanOk(p, s) && Strict(p) && k < |p.body[s.b]|
    ensures var x := p.body[s.b][k];
            RangeFrom(p, s, x, k) ==
            if !HasDst(p.insts[x].op) then []
            else [LiveRange(Ln(s, k), if Used(p, x) then EndFrom(p, s, x, k + 1) else Ln(s, k) + 2, Nowhere)]
    ensures var x := p.body[s.b][k];
            RangeFrom(p, s, x, k + 1) == if LiveFrom(p, s, x, k + 1)
              then [LiveRange(s.lo, EndFrom(p, s, x, k + 1), Nowhere)] else []
    ensures var x := p.body[s.b][k];
            LiveFrom(p, s, x, k + 1) ==> Ln(s, k) < EndFrom(p, s, x, k + 1)
  {
    hide LiveEnd, Strict;
    ResultStep(p, s, k);
    ResultBehind(p, s.b, p.body[s.b][k], k + 1);
  }
}
