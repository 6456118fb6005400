// Reverse postorder, and why every strict dominator precedes the blocks it dominates.
module ReversePostOrder {
  import opened Cfg
  import opened FiniteSets
  import opened Marking
  import opened DominatorTree
  import opened Postorder

  // The blocks placed at positions idx and above.
  ghost function Placed(rpo: seq<BlockRef>, idx: nat): set<nat> {
    set j | idx <= j < |rpo| && rpo[j].Ref? :: rpo[j].id
  }

  // The same in their order.
  ghost function Listing(rpo: seq<BlockRef>, idx: nat): seq<nat>
    requires idx <= |rpo|
  {
    seq(|rpo| - idx, j requires 0 <= j < |rpo| - idx => if rpo[idx + j].Ref? then rpo[idx + j].id else 0)
  }

  // Since the position was idx0, `more` has been placed in front of what was there, and marked.
  ghost predicate Since(rpo: seq<BlockRef>, idx: nat, more: seq<nat>, rpo0: seq<BlockRef>, idx0: nat,
                        marked: set<nat>, marked0: set<nat>)
  {
    && idx <= |rpo| && idx0 <= |rpo0| && Listing(rpo, idx) == more + Listing(rpo0, idx0)
    && marked == marked0 + Members(more)
  }

  lemma SinceNothing(rpo: seq<BlockRef>, idx: nat, marked: set<nat>)
    requires idx <= |rpo|
    ensures Since(rpo, idx, [], rpo, idx, marked, marked)
  {
    assert [] + Listing(rpo, idx) == Listing(rpo, idx);
  }

  lemma SinceThen(rpo0: seq<BlockRef>, idx0: nat, m0: set<nat>, s: seq<nat>, rpo1: seq<BlockRef>, idx1: nat,
                  m1: set<nat>, t: seq<nat>, rpo2: seq<BlockRef>, idx2: nat, m2: set<nat>)
    requires Since(rpo1, idx1, s, rpo0, idx0, m1, m0) && Since(rpo2, idx2, t, rpo1, idx1, m2, m1)
    ensures Since(rpo2, idx2, t + s, rpo0, idx0, m2, m0)
  {
    assert t + (s + Listing(rpo0, idx0)) == (t + s) + Listing(rpo0, idx0);
  }

  // A visit ends by placing its own block, which has been marked at its start.
  lemma SincePlaced(rpo0: seq<BlockRef>, idx0: nat, m0: set<nat>, s: seq<nat>, rpo: seq<BlockRef>, idx: nat,
                    m: set<nat>, bb: nat)
    requires Since(rpo, idx, s, rpo0, idx0, m, m0 + {bb}) && 0 < idx
    ensures Since(rpo[idx - 1 := Ref(bb)], idx - 1, [bb] + s, rpo0, idx0, m, m0)
  {
    var rpo' := rpo[idx - 1 := Ref(bb)];
    assert Listing(rpo', idx - 1) == [bb] + Listing(rpo, idx);
    assert [bb] + (s + Listing(rpo0, idx0)) == ([bb] + s) + Listing(rpo0, idx0);
  }

  ghost predicate PlacedBefore(rpo: seq<BlockRef>, idx: nat, d: nat, j: nat)
    requires j <= |rpo|
  {
    exists k :: idx <= k < j && rpo[k] == Ref(d)
  }

  // Positions idx and above hold different reachable blocks.
  ghost predicate Filled(g: Graph, rpo: seq<BlockRef>, idx: nat) {
    && |rpo| == g.Size() && idx <= |rpo|
    && (forall j :: idx <= j < |rpo| ==> rpo[j].Ref? && rpo[j].id < g.Size() && Reachable(g, rpo[j].id))
    && (forall j, k :: idx <= j < k < |rpo| ==> rpo[j] != rpo[k])
  }

  // The strict dominators of b are still being visited or are placed in front of position j.
  ghost predicate Preceded(g: Graph, rpo: seq<BlockRef>, idx: nat, stack: seq<nat>, j: nat, b: nat)
    requires j <= |rpo|
  {
    forall d: nat :: StrictlyDominates(g, d, b) ==> d in stack || PlacedBefore(rpo, idx, d, j)
  }

  ghost predicate Ordered(g: Graph, rpo: seq<BlockRef>, idx: nat, stack: seq<nat>) {
    && Filled(g, rpo, idx)
    && (forall j :: idx <= j < |rpo| ==> Preceded(g, rpo, idx, stack, j, rpo[j].id))
  }

  // All edges of the placed blocks lead to marked blocks.
  ghost predicate PlacedClosed(g: Graph, placed: set<nat>, marked: set<nat>) {
    forall b, s :: b in placed && b < g.Size() && s in g.succs[b] && s < g.Size() ==> s in marked
  }

  // The result: every block once, and every strict dominator of a block before the block.
  ghost predicate IsRpo(g: Graph, order: seq<BlockRef>) {
    && |order| == g.Size()
    && (forall j :: 0 <= j < |order| ==> order[j].Ref? && order[j].id < g.Size())
    && (forall b :: 0 <= b < g.Size() ==> Ref(b) in order)
    && (forall j, k :: 0 <= j < k < |order| ==> order[j] != order[k])
    && (forall j :: 0 <= j < |order| ==> Preceded(g, order, 0, [], j, order[j].id))
  }

  // Placing bb, once all its successors have been visited.
  lemma PlaceBlock(g: Graph, rpo: seq<BlockRef>, idx: nat, stack: seq<nat>, bb: nat)
    requires Ordered(g, rpo, idx, stack + [bb]) && bb < g.Size() && bb !in Placed(rpo, idx)
    requires PathTo(g, stack + [bb], ENTRY, bb)
    ensures 0 < idx <= |rpo| && Ordered(g, rpo[idx - 1 := Ref(bb)], idx - 1, stack)
    ensures Placed(rpo[idx - 1 := Ref(bb)], idx - 1) == Placed(rpo, idx) + {bb}
  {
    hide Preceded;
    RoomLeft(g, rpo, idx, bb);
    PlacedCons(rpo, idx, bb);
    assert Reachable(g, bb);
    var rpo' := rpo[idx - 1 := Ref(bb)];
    assert forall j :: idx <= j < |rpo| ==> rpo[j].id in Placed(rpo, idx);
    forall j | idx - 1 <= j < |rpo'| ensures Preceded(g, rpo', idx - 1, stack, j, rpo'[j].id) {
      if j == idx - 1 {
        PathPrecedes(g, rpo', idx - 1, stack, bb);
      } else {
        assert Preceded(g, rpo, idx, stack + [bb], j, rpo[j].id);
        PrecededPop(g, rpo, idx, stack, bb, j, rpo[j].id);
      }
    }
  }

  lemma RoomLeft(g: Graph, rpo: seq<BlockRef>, idx: nat, bb: nat)
    requires Filled(g, rpo, idx) && bb < g.Size() && bb !in Placed(rpo, idx)
    ensures 0 < idx <= |rpo|
  {
    PlacedSize(rpo, idx);
    SubsetSize(Placed(rpo, idx) + {bb}, UpTo(g.Size()));
  }

  lemma PlacedCons(rpo: seq<BlockRef>, idx: nat, bb: nat)
    requires 0 < idx <= |rpo|
    ensures Placed(rpo[idx - 1 := Ref(bb)], idx - 1) == Placed(rpo, idx) + {bb}
  {
    var rpo' := rpo[idx - 1 := Ref(bb)];
    assert rpo'[idx - 1].id == bb;
    assert forall j :: idx <= j < |rpo| ==> rpo'[j] == rpo[j];
    forall b | b in Placed(rpo, idx) ensures b in Placed(rpo', idx - 1) {
      var j :| idx <= j < |rpo| && rpo[j].Ref? && rpo[j].id == b;
      assert rpo'[j].id == b;
    }
  }

  // The strict dominators of bb lie on the path that is being visited.
  lemma PathPrecedes(g: Graph, rpo: seq<BlockRef>, idx: nat, stack: seq<nat>, bb: nat)
    requires PathTo(g, stack + [bb], ENTRY, bb) && idx <= |rpo|
    ensures Preceded(g, rpo, idx, stack, idx, bb)
  {
    forall d: nat | StrictlyDominates(g, d, bb) ensures d in stack {
      assert d in stack + [bb];
    }
  }

  lemma PrecededPop(g: Graph, rpo: seq<BlockRef>, idx: nat, stack: seq<nat>, bb: nat, j: nat, b: nat)
    requires 0 < idx <= j <= |rpo| && Preceded(g, rpo, idx, stack + [bb], j, b)
    ensures Preceded(g, rpo[idx - 1 := Ref(bb)], idx - 1, stack, j, b)
  {
    var rpo' := rpo[idx - 1 := Ref(bb)];
    forall d: nat | StrictlyDominates(g, d, b) && d !in stack ensures PlacedBefore(rpo', idx - 1, d, j) {
      assert d in stack + [bb] || PlacedBefore(rpo, idx, d, j);
      if d == bb {
        assert rpo'[idx - 1] == Ref(d);
      } else {
        var k :| idx <= k < j && rpo[k] == Ref(d);
        assert rpo'[k] == Ref(d);
      }
    }
  }

  lemma {:induction false} PlacedSize(rpo: seq<BlockRef>, idx: nat)
    requires idx <= |rpo| && (forall j :: idx <= j < |rpo| ==> rpo[j].Ref?)
    requires forall j, k :: idx <= j < k < |rpo| ==> rpo[j] != rpo[k]
    ensures |Placed(rpo, idx)| == |rpo| - idx
    decreases |rpo| - idx
  {
    if idx == |rpo| {
      assert Placed(rpo, idx) == {};
    } else {
      PlacedSize(rpo, idx + 1);
      assert Placed(rpo, idx) == {rpo[idx].id} + Placed(rpo, idx + 1);
    }
  }

  // A pushed block may only help the blocks already placed.
  lemma OrderedPush(g: Graph, rpo: seq<BlockRef>, idx: nat, stack: seq<nat>, bb: nat)
    requires Ordered(g, rpo, idx, stack)
    ensures Ordered(g, rpo, idx, stack + [bb])
  {
    assert forall j :: idx <= j < |rpo| && Preceded(g, rpo, idx, stack, j, rpo[j].id) ==>
        Preceded(g, rpo, idx, stack + [bb], j, rpo[j].id);
  }

  // Marking more blocks keeps the placed ones closed; a block may join them once its successors are marked.
  lemma ClosedGrows(g: Graph, placed: set<nat>, marked: set<nat>, marked': set<nat>)
    requires PlacedClosed(g, placed, marked) && marked <= marked'
    ensures PlacedClosed(g, placed, marked')
  {
  }

  lemma ClosedJoin(g: Graph, placed: set<nat>, marked: set<nat>, bb: nat)
    requires g.Valid() && PlacedClosed(g, placed, marked) && bb < g.Size()
    requires forall k :: 0 <= k < |g.succs[bb]| ==> g.succs[bb][k] in marked
    ensures PlacedClosed(g, placed + {bb}, marked)
  {
  }

  // While bb is visited: what was placed at the start still is, and the marked blocks are the placed ones, the active
  // ones and bb. Of the blocks active at the start no further one has been placed.
  ghost predicate Underway(placed0: set<nat>, active: set<nat>, bb: nat, placed: set<nat>, marked: set<nat>) {
    marked == placed + active + {bb} && placed0 <= placed && bb !in placed + active && placed !! (active - placed0)
  }

  lemma UnderwayStart(placed0: set<nat>, active: set<nat>, bb: nat)
    requires bb !in placed0 + active
    ensures Underway(placed0, active, bb, placed0, placed0 + active + {bb})
  {
  }

  lemma UnderwayStep(placed0: set<nat>, active: set<nat>, bb: nat, placed: set<nat>, marked: set<nat>,
                     placed': set<nat>, marked': set<nat>)
    requires Underway(placed0, active, bb, placed, marked) && placed <= placed' && marked' == placed' + (active + {bb})
    requires placed' !! (active + {bb} - placed)
    ensures Underway(placed0, active, bb, placed', marked') && marked <= marked'
  {
  }

  lemma UnderwayDone(placed0: set<nat>, active: set<nat>, bb: nat, placed: set<nat>, marked: set<nat>)
    requires Underway(placed0, active, bb, placed, marked)
    ensures marked == placed + {bb} + active && placed0 <= placed + {bb} && (placed + {bb}) !! (active - placed0)
    ensures marked == placed + (active + {bb}) && bb in marked && bb !in placed
  {
  }

  ghost predicate FirstIn(succs: seq<nat>, i: nat, marked: set<nat>) {
    forall k :: 0 <= k < i && k < |succs| ==> succs[k] in marked
  }

  lemma NoneIn(succs: seq<nat>, marked: set<nat>)
    ensures FirstIn(succs, 0, marked)
  {
  }

  lemma OneMoreIn(succs: seq<nat>, i: nat, marked: set<nat>, marked': set<nat>)
    requires FirstIn(succs, i, marked) && marked <= marked' && i < |succs| && succs[i] in marked'
    ensures FirstIn(succs, i + 1, marked')
  {
  }

  lemma MarkGrows(marks: seq<nat>, b: nat, m: nat)
    requires b < |marks|
    ensures MarkedSet(marks[b := m], m) == MarkedSet(marks, m) + {b}
  {
  }

  lemma MarkedIffIn(marks: seq<nat>, b: nat, m: nat)
    requires b < |marks|
    ensures b in MarkedSet(marks, m) <==> marks[b] == m
  {
  }

  lemma Positions(g: Graph, rpo: seq<BlockRef>, idx: nat, stack: seq<nat>)
    requires Ordered(g, rpo, idx, stack)
    ensures idx <= |rpo|
  {
  }

  lemma MarkedSince(rpo: seq<BlockRef>, idx: nat, more: seq<nat>, rpo0: seq<BlockRef>, idx0: nat,
                    marked: set<nat>, marked0: set<nat>)
    requires Since(rpo, idx, more, rpo0, idx0, marked, marked0)
    ensures marked == marked0 + Members(more)
  {
  }

  class RPO {
    const g: Graph
    const blocks: BlockMarks
    var rpo: seq<BlockRef>
    var mark: nat

    constructor (g: Graph, blocks: BlockMarks)
      requires g.Valid() && blocks.Valid() && |blocks.marks| == g.Size()
      modifies blocks
      ensures this.g == g && this.blocks == blocks && blocks.Valid() && |blocks.marks| == g.Size()
      ensures mark <= blocks.counter && MarkedSet(blocks.marks, mark) == {}
      ensures rpo == seq(g.Size(), _ => Null)
    {
      this.g, this.blocks := g, blocks;
      rpo := seq(g.Size(), _ => Null);
      new;
      mark := blocks.NewMarker();
    }

    ghost predicate Valid()
      reads this, blocks
    {
      g.Valid() && blocks.Valid() && |blocks.marks| == g.Size() && mark <= blocks.counter
    }

    ghost function Marked(): set<nat>
      reads this, blocks
    {
      MarkedSet(blocks.marks, mark)
    }

    // While bb is visited, behind its first i successors. The visit began with the marked blocks `before` and the
    // positions of rpo0 from idx0 on; `more` has been placed since.
    ghost predicate Visiting(bb: nat, i: nat, idx: nat, stack: seq<nat>, active: set<nat>, more: seq<nat>,
                             rpo0: seq<BlockRef>, idx0: nat, before: set<nat>)
      reads this, blocks
    {
      && Valid() && bb < g.Size() && InGraph(g, g.succs[bb])
      && Ordered(g, rpo, idx, stack + [bb]) && PlacedClosed(g, Placed(rpo, idx), Marked())
      && Underway(Placed(rpo0, idx0), active, bb, Placed(rpo, idx), Marked()) && FirstIn(g.succs[bb], i, Marked())
      && Since(rpo, idx, more, rpo0, idx0, Marked(), before + {bb}) && Tried(g, before + {bb}, g.succs[bb], i, more)
    }

    // Visits bb, reached along `stack`, and places it in front of everything placed before. The marked
    // blocks are the placed ones and the active ones, whose visits have not finished. What is placed, and in which
    // order, is what the walk on values says.
    method DFS(bb: nat, idx: nat, ghost stack: seq<nat>, ghost active: set<nat>) returns (next: nat)
      requires Valid() && bb < g.Size() && bb !in Marked() && PathTo(g, stack + [bb], ENTRY, bb)
      requires Ordered(g, rpo, idx, stack) && Marked() == Placed(rpo, idx) + active
      requires PlacedClosed(g, Placed(rpo, idx), Marked())
      modifies this`rpo, blocks`marks
      ensures Valid() && Ordered(g, rpo, next, stack) && Marked() == Placed(rpo, next) + active
      ensures old(Placed(rpo, idx)) <= Placed(rpo, next) && bb in Placed(rpo, next)
      ensures Placed(rpo, next) !! (active - old(Placed(rpo, idx)))
      ensures PlacedClosed(g, Placed(rpo, next), Marked())
      ensures Since(rpo, next, Visit(g, old(Marked()), bb), old(rpo), idx, Marked(), old(Marked()))
      decreases UpTo(g.Size()) - Marked(), 0
    {
      hide Ordered, PathTo, PlacedClosed, Placed, MarkedSet, Underway, FirstIn, Since, Tried, Visit, VisitAll, Members;
      ghost var before, rpo0 := Marked(), rpo;
      ghost var more: seq<nat> := [];
      MarkGrows(blocks.marks, bb, mark);
      assert bb in UpTo(g.Size()) - before;
      blocks.Mark(bb, mark);
      next := idx;
      OrderedPush(g, rpo, idx, stack, bb);
      ClosedGrows(g, Placed(rpo, idx), before, Marked());
      UnderwayStart(Placed(rpo, idx), active, bb);
      NoneIn(g.succs[bb], Marked());
      VisitIs(g, before, bb);
      Positions(g, rpo, idx, stack);
      SinceNothing(rpo, idx, before + {bb});
      NoneTried(g, before + {bb}, g.succs[bb]);
      for i := 0 to |g.succs[bb]|
        invariant Visiting(bb, i, next, stack, active, more, rpo0, idx, before) && before + {bb} <= Marked()
      {
        next, more := TrySucc(bb, i, next, stack, active, more, rpo0, idx, before);
      }
      UnderwayDone(Placed(rpo0, idx), active, bb, Placed(rpo, next), Marked());
      AllTried(g, before + {bb}, g.succs[bb], more);
      ghost var was, at := rpo, next;
      next := Place(bb, next, stack);
      SincePlaced(rpo0, idx, before, more, was, at, Marked(), bb);
    }

    // One step of the loop over the successors.
    method TrySucc(bb: nat, i: nat, idx: nat, ghost stack: seq<nat>, ghost active: set<nat>, ghost more: seq<nat>,
                   ghost rpo0: seq<BlockRef>, ghost idx0: nat, ghost before: set<nat>)
      returns (next: nat, ghost more': seq<nat>)
      requires Visiting(bb, i, idx, stack, active, more, rpo0, idx0, before) && i < |g.succs[bb]|
      requires PathTo(g, stack + [bb], ENTRY, bb)
      modifies this`rpo, blocks`marks
      ensures Visiting(bb, i + 1, next, stack, active, more', rpo0, idx0, before) && old(Marked()) <= Marked()
      decreases UpTo(g.Size()) - Marked(), 1
    {
      hide Ordered, PathTo, PlacedClosed, Placed, MarkedSet, Underway, FirstIn, Since, Tried, Visit, VisitAll, Members;
      var succ := g.succs[bb][i];
      ghost var marked, placed, rpo1 := Marked(), Placed(rpo0, idx0), rpo;
      next, more' := idx, more;
      MarkedIffIn(blocks.marks, succ, mark);
      MarkedSince(rpo, idx, more, rpo0, idx0, marked, before + {bb});
      if !blocks.IsMarked(succ, mark) {
        PathExtend(g, stack + [bb], ENTRY, bb, succ);
        ghost var was := Placed(rpo, idx);
        UnderwayDone(placed, active, bb, was, marked);
        OneVisited(g, before + {bb}, g.succs[bb], i, more);
        next := DFS(succ, next, stack + [bb], active + {bb});
        more' := Visit(g, marked, succ) + more;
        SinceThen(rpo0, idx0, before + {bb}, more, rpo1, idx, marked, Visit(g, marked, succ), rpo, next, Marked());
        UnderwayStep(placed, active, bb, was, marked, Placed(rpo, next), Marked());
      } else {
        OneSkipped(g, before + {bb}, g.succs[bb], i, more);
      }
      OneMoreIn(g.succs[bb], i, marked, Marked());
    }

    // The last step of a visit: bb is placed in front.
    method Place(bb: nat, idx: nat, ghost stack: seq<nat>) returns (next: nat)
      requires Valid() && bb < g.Size() && PathTo(g, stack + [bb], ENTRY, bb) && bb !in Placed(rpo, idx)
      requires Ordered(g, rpo, idx, stack + [bb]) && PlacedClosed(g, Placed(rpo, idx), Marked())
      requires FirstIn(g.succs[bb], |g.succs[bb]|, Marked())
      modifies this`rpo
      ensures 0 < idx <= |old(rpo)| && next == idx - 1 && rpo == old(rpo)[idx - 1 := Ref(bb)]
      ensures Valid() && Ordered(g, rpo, next, stack) && Placed(rpo, next) == old(Placed(rpo, idx)) + {bb}
      ensures PlacedClosed(g, Placed(rpo, next), Marked())
    {
      hide Ordered, PathTo, PlacedClosed, Placed, MarkedSet;
      PlaceBlock(g, rpo, idx, stack, bb);
      ClosedJoin(g, Placed(rpo, idx), Marked(), bb);
      next := idx - 1;
      rpo := rpo[next := Ref(bb)];
    }

    method Build() returns (ok: bool)
      requires Valid() && Marked() == {} && rpo == seq(g.Size(), _ => Null)
      modifies this`rpo, blocks`marks
      ensures ok <==> AllReachable(g)
      ensures ok ==> IsRpo(g, rpo) && Listing(rpo, 0) == Visit(g, {}, ENTRY) && AllSettled(g, [], Listing(rpo, 0))
    {
      hide Visit, VisitAll, AllSettled;
      var blocksCount := g.Size();
      EntryReachable(g);
      assert [] + [ENTRY] == [ENTRY];
      assert Placed(rpo, g.Size()) == {};
      var idx := DFS(ENTRY, blocksCount, [], {});
      ok := idx == 0;
      RpoComplete(g, rpo, idx);
      NothingBehind(rpo, idx, Visit(g, {}, ENTRY), old(rpo), blocksCount, Marked(), {});
      WalkSettled(g);
    }
  }

  lemma NothingBehind(rpo: seq<BlockRef>, idx: nat, more: seq<nat>, rpo0: seq<BlockRef>, idx0: nat,
                      marked: set<nat>, marked0: set<nat>)
    requires Since(rpo, idx, more, rpo0, idx0, marked, marked0) && idx0 == |rpo0|
    ensures Listing(rpo, idx) == more
  {
    assert more + [] == more;
  }

  // With nothing left on the stack, the placed blocks are the reachable ones.
  lemma RpoComplete(g: Graph, rpo: seq<BlockRef>, idx: nat)
    requires g.Valid() && Ordered(g, rpo, idx, []) && ENTRY in Placed(rpo, idx)
    requires PlacedClosed(g, Placed(rpo, idx), Placed(rpo, idx))
    ensures idx == 0 <==> AllReachable(g)
    ensures idx == 0 ==> IsRpo(g, rpo)
  {
    hide Preceded, Reachable;
    PlacedSize(rpo, idx);
    SubsetSize(Placed(rpo, idx), UpTo(g.Size()));
    if AllReachable(g) {
      forall b | b in UpTo(g.Size()) ensures b in Placed(rpo, idx) {
        ReachablePlaced(g, Placed(rpo, idx), b);
      }
      SubsetSize(UpTo(g.Size()), Placed(rpo, idx));
    }
    if idx == 0 {
      forall b | 0 <= b < g.Size() ensures Ref(b) in rpo && Reachable(g, b) {
        assert b in UpTo(g.Size());
        var j :| 0 <= j < |rpo| && rpo[j].Ref? && rpo[j].id == b;
        assert rpo[j] == Ref(b);
      }
    }
  }

  lemma ReachablePlaced(g: Graph, placed: set<nat>, b: nat)
    requires g.Valid() && ENTRY in placed && PlacedClosed(g, placed, placed) && Reachable(g, b)
    ensures b in placed
  {
    var p :| PathTo(g, p, ENTRY, b);
    ClosedPath(g, placed, {}, p, |p| - 1);
  }
}
