// Removing checks that a dominating identical check makes redundant.
module ChecksElimination {
  import opened Cfg
  import opened Ir
  import opened Ssa
  import opened Rewrite
  import opened DefUse
  import opened BlockLists
  import opened InstructionGraph
  import opened DominatorTree
  import opened Dominance
  import opened ReversePostOrder
  import opened Strictness

  predicate IsCheck(op: Opcode) {
    op == CheckNull || op == CheckBounds
  }

  ghost predicate SameCheck(p: Program, x: nat, y: nat) {
    && x in p.insts && y in p.insts && IsCheck(p.insts[y].op)
    && p.insts[x].op == p.insts[y].op && p.insts[x].inputs == p.insts[y].inputs
  }

  // The k-th instruction of b is a check, and x is the same check, defined in front of it.
  ghost predicate Redundant(p: Program, x: nat, b: nat, k: nat)
    requires Ir.Sized(p) && b < p.g.Size() && k < |p.body[b]|
  {
    SameCheck(p, x, p.body[b][k]) && Before(p, x, b, k)
  }

  ghost predicate NoneRedundant(p: Program)
    requires Ir.Sized(p)
  {
    forall x: nat, b: nat, k: nat :: b < p.g.Size() && k < |p.body[b]| ==> !Redundant(p, x, b, k)
  }

  // ---------------------------------------------------------------- one removal

  ghost function Removal(b: nat, k: nat, v: nat): Edit {
    Edit(b, k, [], map[], v)
  }

  // The latest result of a dominating identical check is what the redundant check would give, and since
  // that check did not fail on the current operand values, neither would this one.
  lemma RemovalSound(p: Program, b: nat, k: nat, v: nat)
    requires Strict(p) && b < p.g.Size() && k < |p.body[b]| && Redundant(p, v, b, k)
    ensures WellFormed(p, Removal(b, k, v))
    ensures Strict(Apply(p, Removal(b, k, v))) && SameRuns(p, Apply(p, Removal(b, k, v)))
  {
    hide InputsReady, PhiReady, LiveIn, Strict, Apply, SameRuns;
    var e := Removal(b, k, v);
    RemovalWellFormed(p, b, k, v);
    NotBeforeItself(p, b, k);
    forall m: Machine, st: State, env': Env
      | Current(p, m, st.env, b, k) && Related(p, e, st.env, env', b, k)
      ensures SlotKeepsAt(p, e, m, st, env')
    {
      CheckValue(p, b, k, v, m, st, env');
    }
    ApplySound(p, e);
  }

  lemma RemovalWellFormed(p: Program, b: nat, k: nat, v: nat)
    requires Strict(p) && b < p.g.Size() && k < |p.body[b]| && Redundant(p, v, b, k)
    ensures WellFormed(p, Removal(b, k, v)) && Unique(p)
  {
  }

  lemma CheckValue(p: Program, b: nat, k: nat, v: nat, m: Machine, st: State, env': Env)
    requires WellFormed(p, Removal(b, k, v)) && Redundant(p, v, b, k) && v != p.body[b][k]
    requires Current(p, m, st.env, b, k) && Related(p, Removal(b, k, v), st.env, env', b, k)
    ensures SlotKeepsAt(p, Removal(b, k, v), m, st, env')
  {
    hide InputsReady, PhiReady, Before, FreshReady, Unique;
    assert UpToDate(p, m, st.env, v);
  }

  // ---------------------------------------------------------------- what has been visited

  // Where b stands in the order.
  ghost function Rank(order: seq<BlockRef>, b: nat): (r: nat)
    requires Ref(b) in order
    ensures r < |order| && order[r] == Ref(b)
  {
    var r: nat :| r < |order| && order[r] == Ref(b);
    r
  }

  ghost predicate Ordering(g: Graph, order: seq<BlockRef>) {
    && IsRpo(g, order)
    && (forall b: nat :: b < g.Size() ==> Ref(b) in order)
  }

  lemma OrderingOf(g: Graph, order: seq<BlockRef>)
    requires IsRpo(g, order)
    ensures Ordering(g, order)
  {
  }

  lemma RankOf(g: Graph, order: seq<BlockRef>, r: nat)
    requires Ordering(g, order) && r < |order|
    ensures |order| == g.Size() && order[r].Ref? && order[r].id < g.Size()
    ensures Ref(order[r].id) in order && Rank(order, order[r].id) == r
  {
  }

  lemma DominatorRanksLower(g: Graph, order: seq<BlockRef>, d: nat, b: nat)
    requires Ordering(g, order) && d < g.Size() && b < g.Size() && StrictlyDominates(g, d, b)
    ensures Ref(d) in order && Ref(b) in order && Rank(order, d) < Rank(order, b)
  {
    var r := Rank(order, b);
    assert Preceded(g, order, 0, [], r, order[r].id);
    assert PlacedBefore(order, 0, d, r);
    var q :| 0 <= q < r && order[q] == Ref(d);
    RankOf(g, order, q);
  }

  // The j-th instruction of c has been visited when the walk stands at the k-th one of the r-th block.
  ghost predicate Visited(order: seq<BlockRef>, r: nat, k: nat, c: nat, j: nat)
    requires Ref(c) in order
  {
    Rank(order, c) < r || (Rank(order, c) == r && j < k)
  }

  ghost predicate VisitedInst(p: Program, order: seq<BlockRef>, r: nat, k: nat, x: nat) {
    exists c: nat, j: nat ::
      c < p.g.Size() && c < |p.body| && j < |p.body[c]| && Ref(c) in order && Visited(order, r, k, c, j)
        && p.body[c][j] == x
  }

  // What is defined in front of an instruction has been visited before it.
  lemma BeforeIsVisited(p: Program, order: seq<BlockRef>, b: nat, k: nat, x: nat)
    requires Strict(p) && Ordering(p.g, order) && b < p.g.Size() && k <= |p.body[b]|
    requires Before(p, x, b, k) && x in p.insts && p.insts[x].op != Phi
    ensures Ref(b) in order && VisitedInst(p, order, Rank(order, b), k, x)
  {
    hide InputsReady, PhiReady, Unique, IsRpo;
    if LiveIn(p, x, b) {
      var c: nat :| InBlock(p, x, c) && StrictlyDominates(p.g, c, b);
      assert x in p.body[c];
      var j: nat :| j < |p.body[c]| && p.body[c][j] == x;
      DominatorRanksLower(p.g, order, c, b);
      assert Visited(order, Rank(order, b), k, c, j);
    } else {
      assert x in p.body[b][..k];
      var j: nat :| j < k && p.body[b][j] == x;
      assert Visited(order, Rank(order, b), k, b, j);
    }
  }

  // A visited instruction does not use the one the walk stands at.
  lemma VisitedOperands(p: Program, order: seq<BlockRef>, b: nat, k: nat, c: nat, j: nat)
    requires Strict(p) && Ordering(p.g, order) && b < p.g.Size() && k < |p.body[b]| && c < p.g.Size() && j < |p.body[c]|
    requires Ref(b) in order && Ref(c) in order && Visited(order, Rank(order, b), k, c, j)
    ensures p.body[b][k] !in p.insts[p.body[c][j]].inputs
  {
    hide PhiReady, IsRpo, Before;
    var i := p.body[b][k];
    if i in p.insts[p.body[c][j]].inputs {
      assert InputsReady(p, c, j);
      BeforeIsVisited(p, order, c, j, i);
      var d: nat, n: nat :| d < p.g.Size() && n < |p.body[d]| && Ref(d) in order &&
                            Visited(order, Rank(order, c), j, d, n) && p.body[d][n] == i;
      SamePlace(p, b, k, d, n);
    }
  }

  lemma SamePlace(p: Program, b: nat, k: nat, c: nat, j: nat)
    requires Strict(p) && b < p.g.Size() && k < |p.body[b]| && c < p.g.Size() && j < |p.body[c]|
    requires p.body[b][k] == p.body[c][j]
    ensures b == c && j == k
  {
    assert InBlock(p, p.body[b][k], b) && InBlock(p, p.body[b][k], c);
  }

  // No visited check is redundant.
  ghost predicate Clean(p: Program, order: seq<BlockRef>, r: nat, k: nat)
    requires Ir.Sized(p) && Ordering(p.g, order)
  {
    forall x: nat, c: nat, j: nat ::
      c < p.g.Size() && j < |p.body[c]| && Visited(order, r, k, c, j) ==> !Redundant(p, x, c, j)
  }

  // The list holds exactly the visited instructions with this opcode.
  ghost predicate Listed(p: Program, order: seq<BlockRef>, r: nat, k: nat, list: seq<nat>, op: Opcode)
    requires Ir.Sized(p) && Ordering(p.g, order)
  {
    && (forall x :: x in list ==> VisitedInst(p, order, r, k, x) && x in p.insts && p.insts[x].op == op)
    && (forall c: nat, j: nat ::
          c < p.g.Size() && j < |p.body[c]| && Visited(order, r, k, c, j) && p.insts[p.body[c][j]].op == op ==>
          p.body[c][j] in list)
  }

  ghost predicate Progress(p: Program, order: seq<BlockRef>, r: nat, k: nat, nulls: seq<nat>, bounds: seq<nat>) {
    && Strict(p) && Ordering(p.g, order)
    && Clean(p, order, r, k) && Listed(p, order, r, k, nulls, CheckNull) && Listed(p, order, r, k, bounds, CheckBounds)
  }

  // ---------------------------------------------------------------- the walk makes progress

  lemma ProgressStart(p: Program, order: seq<BlockRef>)
    requires Strict(p) && IsRpo(p.g, order)
    ensures Progress(p, order, 0, 0, [], [])
  {
    OrderingOf(p.g, order);
  }

  lemma ProgressBlock(p: Program, order: seq<BlockRef>, r: nat, nulls: seq<nat>, bounds: seq<nat>)
    requires Ir.Sized(p) && Ordering(p.g, order) && r < |order| && order[r].Ref? && order[r].id < |p.body|
    requires Progress(p, order, r, |p.body[order[r].id]|, nulls, bounds)
    ensures Progress(p, order, r + 1, 0, nulls, bounds)
  {
    hide Strict, Redundant, IsRpo, Rank;
    var b := order[r].id;
    RankOf(p.g, order, r);
    forall c: nat, j: nat | c < p.g.Size() && j < |p.body[c]| && Ref(c) in order
      ensures Visited(order, r + 1, 0, c, j) <==> Visited(order, r, |p.body[b]|, c, j)
    {
      if Rank(order, c) == r {
        assert order[r] == Ref(c);
      }
    }
    BlockVisited(p, order, r, nulls);
    BlockVisited(p, order, r, bounds);
  }

  lemma BlockVisited(p: Program, order: seq<BlockRef>, r: nat, list: seq<nat>)
    requires Ordering(p.g, order) && r < |order| && order[r].Ref? && order[r].id < |p.body|
    requires forall x :: x in list ==> VisitedInst(p, order, r, |p.body[order[r].id]|, x)
    ensures forall x :: x in list ==> VisitedInst(p, order, r + 1, 0, x)
  {
    hide IsRpo, Rank;
    var k := |p.body[order[r].id]|;
    forall x | x in list ensures VisitedInst(p, order, r + 1, 0, x) {
      assert VisitedInst(p, order, r, k, x);
      var c: nat, j: nat :| c < p.g.Size() && c < |p.body| && j < |p.body[c]| && Ref(c) in order &&
                            Visited(order, r, k, c, j) && p.body[c][j] == x;
      assert Visited(order, r + 1, 0, c, j);
    }
  }

  // The walk passes the k-th instruction of b.
  lemma VisitedStep(g: Graph, order: seq<BlockRef>, b: nat, k: nat, c: nat, j: nat)
    requires Ordering(g, order) && Ref(b) in order && Ref(c) in order
    ensures Visited(order, Rank(order, b), k + 1, c, j) <==>
            Visited(order, Rank(order, b), k, c, j) || (c == b && j == k)
  {
    hide IsRpo;
  }

  lemma VisitedInstStep(p: Program, order: seq<BlockRef>, b: nat, k: nat, x: nat)
    requires Ordering(p.g, order) && Ref(b) in order && VisitedInst(p, order, Rank(order, b), k, x)
    ensures VisitedInst(p, order, Rank(order, b), k + 1, x)
  {
    hide IsRpo, Rank, Visited;
    var c: nat, j: nat :| c < p.g.Size() && c < |p.body| && j < |p.body[c]| && Ref(c) in order &&
                          Visited(order, Rank(order, b), k, c, j) && p.body[c][j] == x;
    VisitedStep(p.g, order, b, k, c, j);
  }

  lemma VisitedHere(p: Program, order: seq<BlockRef>, b: nat, k: nat)
    requires Ir.Sized(p) && Ordering(p.g, order) && b < p.g.Size() && k < |p.body[b]| && Ref(b) in order
    ensures VisitedInst(p, order, Rank(order, b), k + 1, p.body[b][k])
  {
    hide IsRpo, Rank, Visited;
    VisitedStep(p.g, order, b, k, b, k);
  }

  lemma ListedStep(p: Program, order: seq<BlockRef>, b: nat, k: nat, list: seq<nat>, op: Opcode)
    requires Ir.Sized(p) && Ordering(p.g, order) && b < p.g.Size() && k < |p.body[b]| && Ref(b) in order
    requires Listed(p, order, Rank(order, b), k, list, op)
    ensures p.insts[p.body[b][k]].op == op ==> Listed(p, order, Rank(order, b), k + 1, list + [p.body[b][k]], op)
    ensures p.insts[p.body[b][k]].op != op ==> Listed(p, order, Rank(order, b), k + 1, list, op)
  {
    hide IsRpo, Rank, Visited, VisitedInst;
    var r := Rank(order, b);
    forall x | x in list ensures VisitedInst(p, order, r, k + 1, x) {
      VisitedInstStep(p, order, b, k, x);
    }
    VisitedHere(p, order, b, k);
    forall c: nat, j: nat | c < p.g.Size() && j < |p.body[c]|
      ensures Visited(order, r, k + 1, c, j) ==> Visited(order, r, k, c, j) || (c == b && j == k)
    {
      VisitedStep(p.g, order, b, k, c, j);
    }
  }

  lemma ProgressStep(p: Program, order: seq<BlockRef>, b: nat, k: nat, nulls: seq<nat>, bounds: seq<nat>)
    requires Ir.Sized(p) && b < p.g.Size() && k < |p.body[b]| && Ref(b) in order
    requires Progress(p, order, Rank(order, b), k, nulls, bounds)
    requires forall x: nat :: !Redundant(p, x, b, k)
    ensures var i := p.body[b][k];
            Progress(p, order, Rank(order, b), k + 1, if p.insts[i].op == CheckNull then nulls + [i] else nulls,
                     if p.insts[i].op == CheckBounds then bounds + [i] else bounds)
  {
    hide Strict, Redundant, IsRpo, Rank, Visited, Listed;
    ListedStep(p, order, b, k, nulls, CheckNull);
    ListedStep(p, order, b, k, bounds, CheckBounds);
    forall x: nat, c: nat, j: nat | c < p.g.Size() && j < |p.body[c]| && Visited(order, Rank(order, b), k + 1, c, j)
      ensures !Redundant(p, x, c, j)
    {
      VisitedStep(p.g, order, b, k, c, j);
    }
  }

  // ---------------------------------------------------------------- a removal keeps the progress

  lemma RemovedBody(p: Program, b: nat, k: nat, v: nat, c: nat, j: nat)
    requires Ir.Sized(p) && b < p.g.Size() && k < |p.body[b]| && c < p.g.Size() && (c == b ==> j <= k)
    ensures c < |Apply(p, Removal(b, k, v)).body|
    ensures c != b ==> Apply(p, Removal(b, k, v)).body[c] == p.body[c]
    ensures c == b ==> |Apply(p, Removal(b, k, v)).body[c]| == |p.body[b]| - 1 &&
                       Apply(p, Removal(b, k, v)).body[c][..j] == p.body[c][..j]
  {
  }

  lemma RedirectAbsent(xs: seq<nat>, i: nat, v: nat)
    requires i !in xs
    ensures RedirectAll(xs, i, v) == xs
  {
  }

  // A visited instruction keeps its place and its operands.
  lemma RemovedVisited(p: Program, order: seq<BlockRef>, b: nat, k: nat, v: nat, c: nat, j: nat)
    requires Strict(p) && Ordering(p.g, order) && b < p.g.Size() && k < |p.body[b]| && c < p.g.Size()
    requires Ref(b) in order && Ref(c) in order && Visited(order, Rank(order, b), k, c, j)
    requires Redundant(p, v, b, k)
    ensures c < |Apply(p, Removal(b, k, v)).body|
    ensures j < |p.body[c]| <==> j < |Apply(p, Removal(b, k, v)).body[c]|
    ensures j < |p.body[c]| ==> (
              var p', x := Apply(p, Removal(b, k, v)), p.body[c][j];
              p'.body[c][j] == x && x != p.body[b][k] && x in p'.insts && p'.insts[x] == p.insts[x])
  {
    hide IsRpo, Rank, InputsReady, PhiReady, Before;
    RemovedBody(p, b, k, v, c, if c == b then k else 0);
    if j < |p.body[c]| {
      var x := p.body[c][j];
      if x == p.body[b][k] {
        SamePlace(p, b, k, c, j);
      }
      VisitedOperands(p, order, b, k, c, j);
      RedirectAbsent(p.insts[x].inputs, p.body[b][k], v);
      if c == b {
        assert Apply(p, Removal(b, k, v)).body[c][..k][j] == p.body[c][..k][j];
      }
    }
  }

  lemma RemovedClean(p: Program, order: seq<BlockRef>, b: nat, k: nat, v: nat, x: nat, c: nat, j: nat)
    requires Strict(p) && Ordering(p.g, order) && b < p.g.Size() && k < |p.body[b]| && c < p.g.Size()
    requires Ref(b) in order && Ref(c) in order && Visited(order, Rank(order, b), k, c, j)
    requires Redundant(p, v, b, k) && Strict(Apply(p, Removal(b, k, v)))
    requires j < |Apply(p, Removal(b, k, v)).body[c]| && Redundant(Apply(p, Removal(b, k, v)), x, c, j)
    ensures j < |p.body[c]| && Redundant(p, x, c, j)
  {
    hide IsRpo, Rank, InputsReady, PhiReady, Unique, Visited, Apply, Before, AllReachable;
    var p' := Apply(p, Removal(b, k, v));
    RemovedVisited(p, order, b, k, v, c, j);
    RankBelow(p.g, order, b, k, c, j);
    RemovedBefore(p, b, k, v, x, c, j);
    CheckNotPhi(p, p', b, k, v, x);
    BeforeIsVisited(p, order, c, j, x);
    var d: nat, n: nat :| d < p.g.Size() && d < |p.body| && n < |p.body[d]| && Ref(d) in order &&
                          Visited(order, Rank(order, c), j, d, n) && p.body[d][n] == x;
    VisitedTransitive(order, b, k, c, j, d, n);
    RemovedVisited(p, order, b, k, v, d, n);
  }

  lemma VisitedTransitive(order: seq<BlockRef>, b: nat, k: nat, c: nat, j: nat, d: nat, n: nat)
    requires Ref(b) in order && Ref(c) in order && Ref(d) in order
    requires Visited(order, Rank(order, b), k, c, j) && Visited(order, Rank(order, c), j, d, n)
    ensures Visited(order, Rank(order, b), k, d, n)
  {
  }

  lemma RankBelow(g: Graph, order: seq<BlockRef>, b: nat, k: nat, c: nat, j: nat)
    requires Ordering(g, order) && Ref(b) in order && Ref(c) in order && Visited(order, Rank(order, b), k, c, j)
    ensures c == b ==> j < k
  {
    hide IsRpo;
  }

  lemma CheckNotPhi(p: Program, p': Program, b: nat, k: nat, v: nat, x: nat)
    requires Ir.Sized(p) && b < p.g.Size() && k < |p.body[b]| && p' == Apply(p, Removal(b, k, v))
    requires x in p'.insts && IsCheck(p'.insts[x].op)
    ensures x in p.insts && p.insts[x].op == p'.insts[x].op && p.insts[x].op != Phi
  {
  }

  lemma RemovedBefore(p: Program, b: nat, k: nat, v: nat, x: nat, c: nat, j: nat)
    requires Strict(p) && b < p.g.Size() && k < |p.body[b]| && c < p.g.Size() && (c == b ==> j <= k) && j <= |p.body[c]|
    requires Redundant(p, v, b, k) && j <= |Apply(p, Removal(b, k, v)).body[c]|
    requires c < |Apply(p, Removal(b, k, v)).phis| && Before(Apply(p, Removal(b, k, v)), x, c, j)
    ensures Before(p, x, c, j)
  {
    hide InputsReady, PhiReady, Unique, Redundant, AllReachable;
    var p' := Apply(p, Removal(b, k, v));
    RemovalWellFormed(p, b, k, v);
    SameGraph(p, Removal(b, k, v));
    RemovedBody(p, b, k, v, c, if c == b then j else 0);
    if LiveIn(p', x, c) {
      var d: nat :| InBlock(p', x, d) && StrictlyDominates(p'.g, d, c);
      ApplyInBlock(p, Removal(b, k, v), x, d);
    }
  }

  lemma RemovedListed(p: Program, order: seq<BlockRef>, b: nat, k: nat, v: nat, list: seq<nat>, op: Opcode)
    requires Strict(p) && Ordering(p.g, order) && b < p.g.Size() && k < |p.body[b]| && Ref(b) in order
    requires Redundant(p, v, b, k) && Strict(Apply(p, Removal(b, k, v)))
    requires Listed(p, order, Rank(order, b), k, list, op)
    ensures Listed(Apply(p, Removal(b, k, v)), order, Rank(order, b), k, list, op)
  {
    hide IsRpo, Rank, InputsReady, PhiReady, Unique, Visited, Apply, Before, AllReachable, Redundant;
    var p' := Apply(p, Removal(b, k, v));
    SameGraph(p, Removal(b, k, v));
    forall x | x in list ensures VisitedInst(p', order, Rank(order, b), k, x) && x in p'.insts && p'.insts[x].op == op {
      var c: nat, j: nat :| c < p.g.Size() && c < |p.body| && j < |p.body[c]| && Ref(c) in order &&
                            Visited(order, Rank(order, b), k, c, j) && p.body[c][j] == x;
      RemovedVisited(p, order, b, k, v, c, j);
    }
    forall c: nat, j: nat
      | c < p'.g.Size() && j < |p'.body[c]| && Visited(order, Rank(order, b), k, c, j)
        && p'.insts[p'.body[c][j]].op == op
      ensures p'.body[c][j] in list
    {
      RemovedVisited(p, order, b, k, v, c, j);
    }
  }

  lemma ProgressRemoved(p: Program, order: seq<BlockRef>, b: nat, k: nat, v: nat, nulls: seq<nat>, bounds: seq<nat>)
    requires Ir.Sized(p) && b < p.g.Size() && k < |p.body[b]| && Ref(b) in order && Redundant(p, v, b, k)
    requires Progress(p, order, Rank(order, b), k, nulls, bounds)
    ensures Progress(Apply(p, Removal(b, k, v)), order, Rank(order, b), k, nulls, bounds)
    ensures SameRuns(p, Apply(p, Removal(b, k, v)))
  {
    hide Strict, IsRpo, Rank, Visited, Apply, Before, Redundant, Listed, SameRuns, WellFormed;
    var p' := Apply(p, Removal(b, k, v));
    RemovalSound(p, b, k, v);
    SameGraph(p, Removal(b, k, v));
    StrictSized(p');
    RemovedListed(p, order, b, k, v, nulls, CheckNull);
    RemovedListed(p, order, b, k, v, bounds, CheckBounds);
    forall x: nat, c: nat, j: nat | c < p'.g.Size() && j < |p'.body[c]| && Visited(order, Rank(order, b), k, c, j)
      ensures !Redundant(p', x, c, j)
    {
      if Redundant(p', x, c, j) {
        RemovedClean(p, order, b, k, v, x, c, j);
      }
    }
  }

  // The walk has passed every block.
  lemma ProgressDone(p: Program, order: seq<BlockRef>, nulls: seq<nat>, bounds: seq<nat>)
    requires Progress(p, order, |order|, 0, nulls, bounds)
    ensures Strict(p) && NoneRedundant(p)
  {
    hide IsRpo, Rank, Redundant;
    forall x: nat, b: nat, k: nat | b < p.g.Size() && k < |p.body[b]| ensures !Redundant(p, x, b, k) {
      assert Visited(order, |order|, 0, b, k);
    }
  }

  // The list of visited checks with this opcode has every check that could make the next one redundant.
  lemma MissedNothing(p: Program, order: seq<BlockRef>, b: nat, k: nat, x: nat, nulls: seq<nat>, bounds: seq<nat>)
    requires Ir.Sized(p) && b < p.g.Size() && k < |p.body[b]| && Ref(b) in order && Redundant(p, x, b, k)
    requires Progress(p, order, Rank(order, b), k, nulls, bounds)
    ensures if p.insts[p.body[b][k]].op == CheckNull then x in nulls
              else p.insts[p.body[b][k]].op == CheckBounds && x in bounds
  {
    hide IsRpo, Rank, Before, InputsReady, PhiReady, Unique, Visited, Clean;
    BeforeIsVisited(p, order, b, k, x);
    var c: nat, j: nat :| c < p.g.Size() && c < |p.body| && j < |p.body[c]| && Ref(c) in order &&
                          Visited(order, Rank(order, b), k, c, j) && p.body[c][j] == x;
  }

  lemma ListedPlace(p: Program, order: seq<BlockRef>, b: nat, k: nat, list: seq<nat>, op: Opcode, x: nat)
    returns (c: nat, j: nat)
    requires Strict(p) && Ordering(p.g, order) && b < p.g.Size() && k < |p.body[b]| && Ref(b) in order
    requires Listed(p, order, Rank(order, b), k, list, op) && x in list
    ensures c < p.g.Size() && j < |p.body[c]| && p.body[c][j] == x && x != p.body[b][k]
    ensures x in p.insts && p.insts[x].op == op
  {
    hide IsRpo, Rank, InputsReady, PhiReady, Before, AllReachable;
    c, j :| c < p.g.Size() && c < |p.body| && j < |p.body[c]| && Ref(c) in order &&
            Visited(order, Rank(order, b), k, c, j) && p.body[c][j] == x;
    RankBelow(p.g, order, b, k, c, j);
    if x == p.body[b][k] {
      SamePlace(p, b, k, c, j);
    }
  }

  // What the program says about the k-th instruction of b.
  lemma AbsAt(g: Graph, phis: seq<seq<nat>>, l: Layout, attrs: map<nat, Attr>, inputs: Slots, active: set<nat>,
              b: nat, k: nat)
    requires LayoutOk(l) && PlacesOk(l, phis, g.Size(), active) && b < |l.lists| && k < |l.lists[b]|
    requires AllFilled(l.bb, inputs) && forall x :: x in active ==> x in attrs
    ensures var x, p := l.lists[b][k], AbsOf(g, phis, l, attrs, inputs);
            && x in active && x in attrs && SlotsFilled(inputs, x) && x in p.insts && IsPlaced(l.bb, x)
            && p.insts[x].op == attrs[x].op && p.insts[x].inputs == OperandIds(inputs[x])
  {
    InUse(l, phis, g.Size(), active, b, k);
  }

  lemma SameSlots(s: seq<Option<nat>>, t: seq<Option<nat>>)
    requires forall j :: 0 <= j < |s| ==> s[j].Some?
    requires forall j :: 0 <= j < |t| ==> t[j].Some?
    ensures s == t <==> OperandIds(s) == OperandIds(t)
  {
    if OperandIds(s) == OperandIds(t) {
      forall j | 0 <= j < |s| ensures s[j] == t[j] {
        assert OperandIds(s)[j] == OperandIds(t)[j];
      }
    }
  }

  lemma RedundantNotNone(p: Program, x: nat, b: nat, k: nat)
    requires Ir.Sized(p) && b < p.g.Size() && k < |p.body[b]| && Redundant(p, x, b, k)
    ensures !NoneRedundant(p)
  {
  }

  lemma OtherNotRedundant(p: Program, b: nat, k: nat)
    requires Ir.Sized(p) && b < p.g.Size() && k < |p.body[b]| && !IsCheck(p.insts[p.body[b][k]].op)
    ensures forall x: nat :: !Redundant(p, x, b, k)
  {
  }

  lemma ProgressOther(p: Program, order: seq<BlockRef>, b: nat, k: nat, nulls: seq<nat>, bounds: seq<nat>)
    requires Ir.Sized(p) && b < p.g.Size() && k < |p.body[b]| && Ref(b) in order
    requires Progress(p, order, Rank(order, b), k, nulls, bounds) && !IsCheck(p.insts[p.body[b][k]].op)
    ensures Progress(p, order, Rank(order, b), k + 1, nulls, bounds)
  {
    hide Progress, Rank;
    OtherNotRedundant(p, b, k);
    ProgressStep(p, order, b, k, nulls, bounds);
  }

  class Pass {
    const graph: InstGraph
    const order: seq<BlockRef>  // the reverse postorder
    const idoms: seq<BlockRef>  // the immediate dominators
    var nulls: seq<nat>         // unique_checks_, one list for each opcode
    var bounds: seq<nat>

    constructor (graph: InstGraph, order: seq<BlockRef>, idoms: seq<BlockRef>)
      ensures this.graph == graph && this.order == order && this.idoms == idoms
      ensures nulls == [] && bounds == []
    {
      this.graph, this.order, this.idoms := graph, order, idoms;
      nulls, bounds := [], [];
    }

    ghost predicate Ready()
      reads graph
    {
      graph.Valid() && AllFilled(graph.bb, graph.inputs) && DomTreeOf(graph.g, idoms) && Ir.Sized(graph.Abs())
    }

    // Searches the visited checks with the opcode of inst, the k-th instruction of b, for a dominating
    // check with the same operands.
    method FindDominating(inst: nat, list: seq<nat>, ghost op: Opcode, ghost b: nat, ghost k: nat)
      returns (v: Option<nat>)
      requires Ready() && Strict(graph.Abs()) && Ordering(graph.g, order)
      requires b < graph.g.Size() && b < |graph.lists| && k < |graph.lists[b]| && graph.lists[b][k] == inst
      requires Ref(b) in order && Listed(graph.Abs(), order, Rank(order, b), k, list, op)
      requires IsCheck(op) && inst in graph.attrs && graph.attrs[inst].op == op
      ensures v.Some? ==> Redundant(graph.Abs(), v.value, b, k) && v.value in graph.active &&
                          IsPlaced(graph.bb, v.value) && v.value != inst
      ensures v.None? ==> forall x :: x in list ==> !Redundant(graph.Abs(), x, b, k)
    {
      hide Strict, IsRpo, Rank, Before, Listed, LayoutOk, PlacesOk, Consistent, DomTreeOf, Linked, AllFilled;
      hide OperandIds, IdsOk;
      ghost var p, rank := graph.Abs(), Depths(graph.g);
      StrictSized(p);
      DomTreeLinked(graph.g, idoms);
      ActiveAttrs(graph.active, graph.attrs, graph.bb, graph.nextId);
      AbsAt(graph.g, graph.phis, graph.L(), graph.attrs, graph.inputs, graph.active, b, k);
      for m := 0 to |list|
        invariant forall n :: 0 <= n < m ==> !Redundant(p, list[n], b, k)
      {
        var visited := list[m];
        ghost var c, j := ListedPlace(p, order, b, k, list, op, visited);
        AbsAt(graph.g, graph.phis, graph.L(), graph.attrs, graph.inputs, graph.active, c, j);
        SameSlots(graph.inputs[inst], graph.inputs[visited]);
        DominatesPoint(p, idoms, c, j, b, k);
        if graph.attrs[inst].op == graph.attrs[visited].op && graph.inputs[inst] == graph.inputs[visited] {
          var d := graph.Dominates(visited, inst, idoms, rank, c, j, b, k);
          if d {
            return Some(visited);
          }
        }
      }
      v := None;
    }

    // The state of the walk at the k-th instruction of b, for the program p0 the pass started from.
    ghost predicate At(p0: Program, b: nat, k: nat)
      reads this, graph
    {
      && Ready() && Ir.Sized(p0) && Ref(b) in order
      && Progress(graph.Abs(), order, Rank(order, b), k, nulls, bounds) && SameRuns(p0, graph.Abs())
    }

    // Visit<OPC>: a check with a dominating identical check goes, any other check is remembered.
    method Visit(inst: nat, ghost p0: Program, ghost b: nat, ghost k: nat) returns (ghost removed: bool)
      requires Ready() && b < graph.g.Size() && b < |graph.lists| && k < |graph.lists[b]| && graph.lists[b][k] == inst
      requires At(p0, b, k) && inst in graph.attrs && IsCheck(graph.attrs[inst].op)
      modifies this, graph
      ensures At(p0, b, if removed then k else k + 1)
      ensures removed ==> !NoneRedundant(old(graph.Abs()))
      ensures removed ==> graph.L() == Unlinked(old(graph.L()), b, k)
      ensures !removed ==> graph.U() == old(graph.U()) && graph.L() == old(graph.L()) && graph.attrs == old(graph.attrs)
    {
      hide Strict, IsRpo, Rank, Before, Listed, Redundant, NoneRedundant, SameRuns, Apply, Clean, Ordering;
      hide LayoutOk, PlacesOk, Consistent, DomTreeOf, AllFilled, OperandIds, IdsOk;
      ghost var p := graph.Abs();
      StrictSized(p);
      ActiveAttrs(graph.active, graph.attrs, graph.bb, graph.nextId);
      AbsAt(graph.g, graph.phis, graph.L(), graph.attrs, graph.inputs, graph.active, b, k);
      var op := graph.attrs[inst].op;
      var v := FindDominating(inst, if op == CheckNull then nulls else bounds, op, b, k);
      if v.Some? {
        ProgressRemoved(p, order, b, k, v.value, nulls, bounds);
        NotOwnOperand(p, b, k, graph.inputs[inst]);
        graph.ReplaceByValue(inst, v.value, b, k);
        StrictSized(graph.Abs());
        SameRunsTransitive(p0, p, graph.Abs());
        RedundantNotNone(p, v.value, b, k);
        removed := true;
      } else {
        forall x: nat ensures !Redundant(p, x, b, k) {
          if Redundant(p, x, b, k) {
            MissedNothing(p, order, b, k, x, nulls, bounds);
          }
        }
        if op == CheckNull {
          nulls := nulls + [inst];
        } else {
          bounds := bounds + [inst];
        }
        ProgressStep(p, order, b, k, old(nulls), old(bounds));
        removed := false;
      }
    }

    // The walk over one block, which fetches the next instruction before it visits one.
    method VisitBlock(ghost p0: Program, b: nat)
      requires Ready() && b < graph.g.Size() && At(p0, b, 0) && Ordering(graph.g, order)
      modifies this, graph
      ensures b < |graph.lists| && At(p0, b, |graph.lists[b]|)
      ensures NoneRedundant(old(graph.Abs())) ==>
              graph.U() == old(graph.U()) && graph.L() == old(graph.L()) && graph.attrs == old(graph.attrs)
    {
      hide Strict, IsRpo, Rank, Before, Listed, Redundant, NoneRedundant, SameRuns, Apply, Clean;
      hide LayoutOk, PlacesOk, Consistent, DomTreeOf, AllFilled, OperandIds, IdsOk, Progress;
      BlockHead(graph.L(), graph.phis, graph.g.Size(), graph.active, b);
      var inst := graph.firstInst[b];
      ghost var k: nat := 0;
      while inst != None
        invariant At(p0, b, k) && b < |graph.lists| && k <= |graph.lists[b]|
        invariant inst == if k < |graph.lists[b]| then Some(graph.lists[b][k]) else None
        invariant NoneRedundant(old(graph.Abs())) ==>
          graph.U() == old(graph.U()) && graph.L() == old(graph.L()) && graph.attrs == old(graph.attrs)
        decreases |graph.lists[b]| - k
      {
        ActiveAttrs(graph.active, graph.attrs, graph.bb, graph.nextId);
        AbsAt(graph.g, graph.phis, graph.L(), graph.attrs, graph.inputs, graph.active, b, k);
        NodeAt(graph.L(), b, k);
        var next := graph.next[inst.value];
        ghost var removed := false;
        if IsCheck(graph.attrs[inst.value].op) {
          removed := Visit(inst.value, p0, b, k);
        } else {
          ProgressOther(graph.Abs(), order, b, k, nulls, bounds);
        }
        inst := next;
        k := if removed then k else k + 1;
      }
    }

    // The constructor of the source: the whole pass.
    method Run()
      requires Ready() && Strict(graph.Abs()) && IsRpo(graph.g, order) && nulls == [] && bounds == []
      modifies this, graph
      ensures Ready() && Strict(graph.Abs()) && SameRuns(old(graph.Abs()), graph.Abs())
      ensures NoneRedundant(graph.Abs())
      ensures NoneRedundant(old(graph.Abs())) ==>
              graph.U() == old(graph.U()) && graph.L() == old(graph.L()) && graph.attrs == old(graph.attrs)
    {
      hide Strict, IsRpo, Rank, Before, Listed, Redundant, NoneRedundant, SameRuns, Apply, Clean;
      hide LayoutOk, PlacesOk, Consistent, DomTreeOf, AllFilled, OperandIds, IdsOk, Progress;
      ghost var p0 := graph.Abs();
      StrictSized(p0);
      ProgressStart(p0, order);
      SameRunsReflexive(p0);
      OrderingOf(graph.g, order);
      for r := 0 to |order|
        invariant Ready() && Progress(graph.Abs(), order, r, 0, nulls, bounds) && SameRuns(p0, graph.Abs())
        invariant NoneRedundant(p0) ==>
          graph.U() == old(graph.U()) && graph.L() == old(graph.L()) && graph.attrs == old(graph.attrs)
      {
        RankOf(graph.g, order, r);
        VisitBlock(p0, order[r].id);
        ProgressBlock(graph.Abs(), order, r, nulls, bounds);
      }
      ProgressDone(graph.Abs(), order, nulls, bounds);
    }
  }
}
