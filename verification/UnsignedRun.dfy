// The peephole pass run on the graph of the pair of shifts.
module UnsignedRun {
  import opened Cfg
  import opened Ir
  import opened Rewrite
  import opened DefUse
  import opened BlockLists
  import opened InstructionGraph
  import opened PeepholeRules
  import opened PeepholePatterns
  import opened UnsignedShift
  import DominatorTree
  import Peepholes

  // A graph under construction: its links are those of instructions with smaller ids than the next one.
  ghost predicate Growing(graph: InstGraph)
    reads graph
  {
    && graph.Valid() && AllFilled(graph.bb, graph.inputs)
    && forall x: nat :: x in graph.prev || x in graph.next ==> x < graph.nextId
  }

  // The program with one more instruction at the end of block b.
  function Extended(p: Program, b: nat, x: nat, ins: Inst): Program
    requires b < |p.body|
  {
    p.(body := p.body[b := p.body[b] + [x]], insts := p.insts[x := ins])
  }

  lemma ExtendedAbs(g: Graph, phis: seq<seq<nat>>, l: Layout, attrs: map<nat, Attr>, inputs: Slots, a: Attr,
                    xs: seq<nat>, b: nat, x: nat)
    requires b < |l.lists| == |l.first| == |l.last|
    ensures AbsOf(g, phis, Pushed(l, b, x), attrs[x := a], inputs[x := Somes(xs)]) ==
            Extended(AbsOf(g, phis, l, attrs, inputs), b, x, Inst(a.op, a.ty, a.imm, a.cond, xs))
  {
    SomesIds(xs);
    hide Somes;
    var p := AbsOf(g, phis, Pushed(l, b, x), attrs[x := a], inputs[x := Somes(xs)]);
    var q := Extended(AbsOf(g, phis, l, attrs, inputs), b, x, Inst(a.op, a.ty, a.imm, a.cond, xs));
    assert p.insts == q.insts;
  }

  lemma StillGrowing(l: Layout, b: nat, x: nat, inputs: Slots, xs: seq<nat>)
    requires LayoutOk(l) && b < |l.lists| && AllFilled(l.bb, inputs)
    requires forall y: nat :: y in l.prev || y in l.next ==> y < x
    ensures AllFilled(Pushed(l, b, x).bb, inputs[x := Somes(xs)])
    ensures forall y: nat :: y in Pushed(l, b, x).prev || y in Pushed(l, b, x).next ==> y < x + 1
    ensures |Pushed(l, b, x).lists| == |l.lists|
  {
    assert ListOk(l, b);
    var s := l.lists[b];
    assert s != [] ==> NodeOk(l, b, |s| - 1);
    forall y | IsPlaced(Pushed(l, b, x).bb, y) ensures SlotsFilled(inputs[x := Somes(xs)], y) {
      if y != x {
        assert SlotsFilled(inputs, y);
      }
    }
  }

  // A new instruction with its operands.
  method Create(graph: InstGraph, a: Attr, xs: seq<nat>) returns (x: nat)
    requires graph.Valid() && forall j :: 0 <= j < |xs| ==> xs[j] in graph.active
    modifies graph
    ensures graph.Valid() && x == old(graph.nextId) && graph.nextId == x + 1 && !IsPlaced(graph.bb, x)
    ensures graph.active == old(graph.active) + {x} && graph.L() == old(graph.L())
    ensures graph.attrs == old(graph.attrs)[x := a] && graph.inputs == old(graph.inputs)[x := Somes(xs)]
  {
    hide InstGraph.Valid, Somes;
    x := graph.New(a, |xs|);
    graph.SetInputs(x, xs);
  }

  // Pushed to the end of a block.
  method Append(graph: InstGraph, b: nat, a: Attr, xs: seq<nat>)
    requires Growing(graph) && b < graph.g.Size() && b < |graph.lists|
    requires forall j :: 0 <= j < |xs| ==> xs[j] in graph.active
    modifies graph
    ensures Growing(graph) && graph.active == old(graph.active) + {old(graph.nextId)}
    ensures graph.nextId == old(graph.nextId) + 1 && |graph.lists| == old(|graph.lists|)
    ensures graph.Abs() == Extended(old(graph.Abs()), b, old(graph.nextId), Inst(a.op, a.ty, a.imm, a.cond, xs))
  {
    hide Consistent, PlacesOk, IdsOk, Graph.Valid, Somes, LayoutOk, AllFilled, SlotsFilled, InputsTo;
    ghost var l, attrs, slots := graph.L(), graph.attrs, graph.inputs;
    Ends(graph.L());
    StillGrowing(l, b, graph.nextId, slots, xs);
    ExtendedAbs(graph.g, graph.phis, l, attrs, slots, a, xs, b, graph.nextId);
    hide Pushed, AbsOf, Extended, InstGraph.Valid;
    var x := Create(graph, a, xs);
    graph.PushBack(b, x);
  }

  lemma Ends(l: Layout)
    requires LayoutOk(l)
    ensures |l.lists| == |l.first| == |l.last|
  {
  }

  const EMPTY := Program(GRAPH, [[], []], [[], []], map[])

  method Empty() returns (graph: InstGraph)
    ensures fresh(graph) && Growing(graph) && graph.g == GRAPH && |graph.lists| == 2
    ensures graph.Abs() == EMPTY && graph.active == {} && graph.nextId == 0
  {
    hide AbsOf, Consistent, PlacesOk, IdsOk, LayoutOk, AllFilled;
    PairSized();
    StartsEmpty();
    graph := new InstGraph(GRAPH, [[], []], 0);
  }

  // The graph of PAIR.
  method BuildPair() returns (graph: InstGraph)
    ensures fresh(graph) && Growing(graph) && graph.g == GRAPH && graph.Abs() == PAIR
  {
    hide AbsOf, Consistent, PlacesOk, IdsOk, LayoutOk, AllFilled;
    graph := Empty();
    Append(graph, 1, Attr(Parameter, UINT64, 0, EQ), []);
    Append(graph, 1, Attr(Const, UINT64, 32, EQ), []);
    Append(graph, 1, Attr(Shl, UINT64, 0, EQ), [0, 1]);
    Append(graph, 1, Attr(Ashr, UINT64, 0, EQ), [2, 1]);
    Append(graph, 1, Attr(Return, UINT64, 0, EQ), [3]);
    PairGrown();
  }

  lemma StartsEmpty()
    ensures AbsOf(GRAPH, [[], []], NoInsts([[], []], 0), PhiAttrs(0), NoUses(GRAPH.preds, [[], []], 0).inputs) ==
            EMPTY
    ensures AllFilled(NoInsts([[], []], 0).bb, NoUses(GRAPH.preds, [[], []], 0).inputs)
  {
  }

  lemma PairGrown()
    ensures var p := Extended(Extended(Extended(EMPTY, 1, 0, INSTS[0]), 1, 1, INSTS[1]), 1, 2, INSTS[2]);
            Extended(Extended(p, 1, 3, INSTS[3]), 1, 4, INSTS[4]) == PAIR
  {
    var p := Extended(Extended(Extended(EMPTY, 1, 0, INSTS[0]), 1, 1, INSTS[1]), 1, 2, INSTS[2]);
    var q := Extended(Extended(p, 1, 3, INSTS[3]), 1, 4, INSTS[4]);
    assert [] + [0] + [1] + [2] + [3] + [4] == BODY;
    assert q.body == [[], BODY];
    assert q.insts == INSTS;
  }

  // The second shift is the only match.
  lemma OnlyMatch(k: nat)
    requires FirstMatch(PAIR, 1, k)
    ensures k == 3
  {
    PairMatches();
  }

  lemma PairRewritten(x: nat, q: Program)
    requires x !in PAIR.insts && IsApplied(PAIR, Rewriting(PAIR, 1, 3, 3, x), q)
    ensures x > 4 && q == CastAs(x)
  {
    hide Rewriting, Apply, FreshEdit;
    PairEdit(x);
  }

  lemma PairEdit(x: nat)
    ensures Rewriting(PAIR, 1, 3, 3, x) == FreshEdit(1, 3, x, UnaryInst(Cast, UINT32, 0))
  {
    hide Rewriting, AshrEdit, FoldEdit, FreshEdit;
    assert PAIR.insts[3] == BinaryInst(Ashr, UINT64, 2, 1) && PAIR.insts[2].inputs[0] == 0;
    RewritingIs(PAIR, 1, 3, 3, x);
    AshrEdits(PAIR, 1, 3, 3, x, 2, 1);
  }

  // What the walk over its block leaves.
  lemma PairWalked(q: Program)
    requires Walks(PAIR, 1, q)
    ensures exists x: nat :: x > 4 && q == CastAs(x)
  {
    PairMatches();
    hide Walks, Stuck, PairFirst, SameRuns;
    hide Rewriting, CastAs;
    WalksRewrites(PAIR, 1, 3, q);
    var k: nat :| FirstMatch(PAIR, 1, k) && RewritesTo(PAIR, 1, k, PAIR.body[1][k], q);
    OnlyMatch(k);
    hide FirstMatch;
    var x: nat :| x !in PAIR.insts && x + 1 !in PAIR.insts && IsApplied(PAIR, Rewriting(PAIR, 1, 3, 3, x), q);
    PairRewritten(x, q);
  }

  lemma WalksRewrites(p: Program, b: nat, k: nat, q: Program)
    requires Walks(p, b, q) && FirstMatch(p, b, k)
    ensures exists k: nat :: FirstMatch(p, b, k) && RewritesTo(p, b, k, p.body[b][k], q)
  {
    hide FirstMatch, RewritesTo;
  }

  lemma NothingToWalk(x: nat, q: Program)
    requires x > 4 && Walks(CastAs(x), 0, q)
    ensures q == CastAs(x)
  {
    CastBody(x);
    hide CastAs, RewritesTo, Stuck, PairFirst;
    assert forall k: nat :: !FirstMatch(CastAs(x), 0, k);
  }

  // What the walks over both blocks leave.
  lemma PassLeaves(progs: seq<Program>)
    requires WalksAlong(progs, [DominatorTree.Ref(1), DominatorTree.Ref(0)]) && |progs| == 3 && progs[0] == PAIR
    ensures exists x: nat :: x > 4 && progs[2] == CastAs(x) && !SameRuns(PAIR, CastAs(x))
  {
    hide Walks, CastAs, SameRuns, Strict;
    assert Walks(progs[0], 1, progs[1]) && Walks(progs[1], 0, progs[2]);
    PairWalked(progs[1]);
    var x: nat :| x > 4 && progs[1] == CastAs(x);
    NothingToWalk(x, progs[2]);
    RunsDiffer(x);
  }

  // The whole pass on the graph of PAIR leaves the program that returns another value.
  method RunPass() returns (ok: bool, graph: InstGraph)
    ensures ok && exists x: nat :: x > 4 && graph.Abs() == CastAs(x) && !SameRuns(PAIR, CastAs(x))
  {
    PairStrict();
    PairMatches();
    PairCalm();
    hide Strict, AritiesOk, Calm, Walks, AllFilled, CastAs, SameRuns, UnsignedPair, FirstMatch, CrashesAt, NoPairFirst;
    hide StopsAt, NoMatch, Stuck, NoPairLike, WalksAlong, AbsOf, LayoutOk, Consistent, PlacesOk, IdsOk, AllReachable;
    graph := BuildPair();
    var pass := new Peepholes.Pass(graph, [DominatorTree.Ref(1), DominatorTree.Ref(0)]);
    ghost var progs;
    ok, progs := pass.Run();
    PassLeaves(progs);
  }
}
