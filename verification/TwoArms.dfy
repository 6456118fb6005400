// Two loops for the linear order: in one the blocks follow each other, in the other they part into two arms.
module TwoArms {
  import opened Cfg
  import opened Ir
  import opened LinearOrdering
  import opened Marking
  import DominatorTree

  // Blocks 2 to 4 one behind the other, closed by the edge from 4 to 2.
  const LINE := Graph([[], [2], [3], [4], [2, 0]], [[4], [], [1, 4], [2], [3]])
  const LINE_LOOPS := Loops(
    [0, 0, 1, 1, 1], [DominatorTree.Null, DominatorTree.Ref(2)], [DominatorTree.Null, DominatorTree.Ref(0)], [[], [4]])
  const LINE_RANK: seq<nat> := [4, 0, 1, 2, 3]

  // Blocks 2 to 5 with the arms 3 and 4, closed by the edge from 5 to 2.
  const DIAMOND := Graph([[], [2], [3, 4], [5], [5], [2, 0]], [[5], [], [1, 5], [2], [2], [3, 4]])
  const DIAMOND_LOOPS := Loops(
    [0, 0, 1, 1, 1, 1], [DominatorTree.Null, DominatorTree.Ref(2)], [DominatorTree.Null, DominatorTree.Ref(0)],
      [[], [5]])
  const DIAMOND_RANK: seq<nat> := [4, 0, 1, 2, 2, 3]

  // ---------------------------------------------------------------- without cycles but for the back edge

  // Every edge but those from a loop to its own header goes up.
  ghost predicate Ranked(g: Graph, loops: Loops, rank: seq<nat>)
    requires g.Valid() && loops.Valid(g)
  {
    |rank| == g.Size() && forall q: nat, b: nat :: b < g.Size() && SidePred(g, loops, q, b) ==> rank[q] < rank[b]
  }

  lemma {:induction false} RankGrows(g: Graph, loops: Loops, rank: seq<nat>, p: seq<nat>, i: nat)
    requires g.Valid() && loops.Valid(g) && Ranked(g, loops, rank) && SideWalk(g, loops, p) && i < |p|
    ensures i > 0 ==> rank[p[0]] < rank[p[i]]
  {
    if i > 0 {
      RankGrows(g, loops, rank, p, i - 1);
      assert SideStep(g, loops, p, i);
    }
  }

  lemma RankedAcyclic(g: Graph, loops: Loops, rank: seq<nat>)
    requires g.Valid() && loops.Valid(g) && Ranked(g, loops, rank)
    ensures Acyclic(g, loops)
  {
    forall p | SideWalk(g, loops, p) && |p| > 1 ensures p[0] != p[|p| - 1] {
      RankGrows(g, loops, rank, p, |p| - 1);
    }
  }

  lemma ReachableNext(g: Graph, b: nat, c: nat)
    requires Reachable(g, b) && b < g.Size() && c < g.Size() && c in g.succs[b]
    ensures Reachable(g, c)
  {
    var p :| PathTo(g, p, ENTRY, b);
    PathExtend(g, p, ENTRY, b, c);
  }

  // ---------------------------------------------------------------- one behind the other

  lemma LineValid()
    ensures LINE.Valid() && LINE_LOOPS.Valid(LINE)
  {
  }

  lemma LineRanked()
    requires LINE.Valid() && LINE_LOOPS.Valid(LINE)
    ensures Ranked(LINE, LINE_LOOPS, LINE_RANK)
  {
    hide Graph.Valid, Loops.Valid;
  }

  lemma LineReachable()
    ensures LINE.Valid() && AllReachable(LINE)
  {
    LineValid();
    EntryReachable(LINE);
    hide Reachable, PathTo;
    assert Reachable(LINE, ENTRY) by { StartReachable(LINE); }
    ReachableNext(LINE, 1, 2);
    ReachableNext(LINE, 2, 3);
    ReachableNext(LINE, 3, 4);
    ReachableNext(LINE, 4, 0);
  }

  lemma StartReachable(g: Graph)
    requires g.Valid()
    ensures Reachable(g, ENTRY)
  {
    EntryReachable(g);
  }

  lemma LineEntered()
    requires LINE.Valid() && LINE_LOOPS.Valid(LINE)
    ensures HeadersEntered(LINE, LINE_LOOPS)
  {
    assert SidePred(LINE, LINE_LOOPS, 1, 2);
  }

  lemma LineOneWay()
    requires LINE.Valid() && LINE_LOOPS.Valid(LINE)
    ensures AllOneWay(LINE, LINE_LOOPS)
  {
    var c: seq<nat> := [2, 3, 4];
    LineFollows();
    hide Follows, Graph.Valid, Loops.Valid;
    assert c[0] == 2 && c[1] == 3 && c[2] == 4;
    assert OneWay(LINE, LINE_LOOPS, 1, c);
  }

  lemma LineFollows()
    requires LINE.Valid() && LINE_LOOPS.Valid(LINE)
    ensures Follows(LINE, LINE_LOOPS, [2, 3, 4], 1) && Follows(LINE, LINE_LOOPS, [2, 3, 4], 2)
  {
    hide Graph.Valid, Loops.Valid;
    var c: seq<nat> := [2, 3, 4];
    assert c[..1][0] == 2 && c[..2][1] == 3;
  }

  // There the walk places all blocks, and its assertion holds.
  method WalkLine() returns (complete: bool, held: bool)
    ensures complete && held
  {
    LineValid();
    LineReachable();
    LineEntered();
    LineOneWay();
    LineRanked();
    RankedAcyclic(LINE, LINE_LOOPS, LINE_RANK);
    hide AllReachable, HeadersEntered, Acyclic, AllOneWay, Ranked, HasArms, Stuck;
    complete, held := Walk(LINE, LINE_LOOPS);
  }

  // ---------------------------------------------------------------- two arms

  lemma DiamondValid()
    ensures DIAMOND.Valid() && DIAMOND_LOOPS.Valid(DIAMOND)
  {
  }

  lemma DiamondRanked()
    requires DIAMOND.Valid() && DIAMOND_LOOPS.Valid(DIAMOND)
    ensures Ranked(DIAMOND, DIAMOND_LOOPS, DIAMOND_RANK)
  {
    hide Graph.Valid, Loops.Valid;
  }

  lemma DiamondReachable()
    ensures DIAMOND.Valid() && AllReachable(DIAMOND)
  {
    DiamondValid();
    StartReachable(DIAMOND);
    hide Reachable, PathTo;
    ReachableNext(DIAMOND, 1, 2);
    ReachableNext(DIAMOND, 2, 3);
    ReachableNext(DIAMOND, 2, 4);
    ReachableNext(DIAMOND, 3, 5);
    ReachableNext(DIAMOND, 5, 0);
  }

  lemma DiamondEntered()
    requires DIAMOND.Valid() && DIAMOND_LOOPS.Valid(DIAMOND)
    ensures HeadersEntered(DIAMOND, DIAMOND_LOOPS)
  {
    assert SidePred(DIAMOND, DIAMOND_LOOPS, 1, 2);
  }

  // A path to a block with one predecessor only passes it.
  lemma OnlyPred(g: Graph, p: seq<nat>, a: nat, h: nat, b: nat)
    requires g.Valid() && b < g.Size() && g.preds[b] == [h] && PathTo(g, p, a, b) && a != b
    ensures h in p
  {
    assert Step(g, p, |p| - 1);
    assert p[|p| - 2] in g.preds[b];
  }

  lemma DiamondDominated(b: nat)
    requires DIAMOND.Valid() && b in {3, 4}
    ensures Dominates(DIAMOND, 2, b)
  {
    forall p | PathTo(DIAMOND, p, ENTRY, b) ensures 2 in p {
      OnlyPred(DIAMOND, p, ENTRY, 2, b);
    }
  }

  lemma DiamondBetween(a: nat, b: nat)
    requires DIAMOND.Valid() && a in {3, 4} && b in {3, 4} && a != b
    ensures Between(DIAMOND, 2, a, b)
  {
    forall p | PathTo(DIAMOND, p, a, b) ensures 2 in p {
      OnlyPred(DIAMOND, p, a, 2, b);
    }
  }

  lemma DiamondNeeded(a: nat)
    requires DIAMOND.Valid() && DIAMOND_LOOPS.Valid(DIAMOND) && a in {3, 4}
    ensures NeededFor(DIAMOND, DIAMOND_LOOPS, a, 5)
  {
    var p := [a, 5];
    assert SideStep(DIAMOND, DIAMOND_LOOPS, p, 1);
    assert SideWalk(DIAMOND, DIAMOND_LOOPS, p);
  }

  lemma DiamondArms()
    requires DIAMOND.Valid() && DIAMOND_LOOPS.Valid(DIAMOND)
    ensures HasArms(DIAMOND, DIAMOND_LOOPS)
  {
    DiamondDominated(3);
    DiamondDominated(4);
    DiamondBetween(3, 4);
    DiamondBetween(4, 3);
    DiamondNeeded(3);
    DiamondNeeded(4);
    hide Dominates, Between, NeededFor;
    assert Arms(DIAMOND, DIAMOND_LOOPS, 1, 2, 3, 4, 5);
  }

  // There the walk places all blocks as well, but its assertion fails.
  method WalkDiamond() returns (complete: bool, held: bool)
    ensures complete && !held
  {
    DiamondValid();
    DiamondReachable();
    DiamondEntered();
    DiamondArms();
    DiamondRanked();
    RankedAcyclic(DIAMOND, DIAMOND_LOOPS, DIAMOND_RANK);
    hide AllReachable, HeadersEntered, Acyclic, AllOneWay, Ranked, HasArms, Stuck;
    complete, held := Walk(DIAMOND, DIAMOND_LOOPS);
  }

  // The walk over a graph of empty blocks.
  method Walk(g: Graph, loops: Loops) returns (complete: bool, held: bool)
    requires g.Valid() && loops.Valid(g)
    ensures AllReachable(g) && HeadersEntered(g, loops) && Acyclic(g, loops) ==> complete
    ensures AllOneWay(g, loops) ==> held
    ensures complete && HasArms(g, loops) ==> !held
  {
    hide AllReachable, HeadersEntered, Acyclic, AllOneWay, HasArms, Stuck;
    var p := Program(g, seq(g.Size(), _ => []), seq(g.Size(), _ => []), map[]);
    var blocks := new BlockMarks(g.Size());
    var order := new LinearOrder(p, loops, blocks);
    complete := order.Build();
    held := order.backEdgesMarked;
  }
}
