// The linear order of blocks and the life numbers of instructions.
module LinearOrdering {
  import opened Cfg
  import opened FiniteSets
  import opened Marking
  import DominatorTree
  import ReversePostOrder
  import Postorder
  import opened Ir

  // The loop of every block, and header, outer loop and sources of back edges of every loop; the root loop has none.
  datatype Loops = Loops(
    loopOf: seq<nat>,
    header: seq<DominatorTree.BlockRef>,
    outer: seq<DominatorTree.BlockRef>,
    backEdges: seq<seq<nat>>) {

    ghost predicate Valid(g: Graph) {
      && |loopOf| == g.Size() && |header| == |outer| == |backEdges|
      && (forall b :: 0 <= b < |loopOf| ==> loopOf[b] < |header|)
      && (forall l, i :: 0 <= l < |backEdges| && 0 <= i < |backEdges[l]| ==> backEdges[l][i] < g.Size())
    }

    // BasicBlock::IsHeader
    predicate IsHeader(b: nat)
      requires b < |loopOf| && loopOf[b] < |header|
    {
      header[loopOf[b]] == DominatorTree.Ref(b)
    }

    // A predecessor that has to be placed before b: for a header, one of another loop.
    predicate IsSide(q: nat, b: nat)
      requires b < |loopOf| && loopOf[b] < |header| && q < |loopOf|
    {
      !IsHeader(b) || loopOf[q] != loopOf[b]
    }

    // b belongs to the loop around loop l.
    predicate InOuter(l: nat, b: nat)
      requires l < |outer| && b < |loopOf|
    {
      outer[l] == DominatorTree.Ref(loopOf[b])
    }
  }

  // q is a side predecessor of b.
  ghost predicate SidePred(g: Graph, loops: Loops, q: nat, b: nat)
    requires g.Valid() && loops.Valid(g) && b < g.Size()
  {
    q in g.preds[b] && q < g.Size() && loops.IsSide(q, b)
  }

  ghost predicate SidePredsIn(g: Graph, loops: Loops, b: nat, m: set<nat>)
    requires g.Valid() && loops.Valid(g) && b < g.Size()
  {
    forall q :: SidePred(g, loops, q, b) ==> q in m
  }

  ghost predicate SomePredIn(g: Graph, b: nat, m: set<nat>)
    requires g.Valid() && b < g.Size()
  {
    b == ENTRY || exists q :: q in g.preds[b] && q in m
  }

  // b can be placed next.
  ghost predicate Enabled(g: Graph, loops: Loops, b: nat, m: set<nat>)
    requires g.Valid() && loops.Valid(g) && b < g.Size()
  {
    SomePredIn(g, b, m) && SidePredsIn(g, loops, b, m)
  }

  // Every block that can be placed next waits in w.
  ghost predicate Waiting(g: Graph, loops: Loops, m: set<nat>, w: set<nat>)
    requires g.Valid() && loops.Valid(g)
  {
    forall b: nat :: b < g.Size() && b !in m && Enabled(g, loops, b, m) ==> b in w
  }

  datatype Elem = Elem(block: nat, ln: nat)

  ghost function BlocksOf(order: seq<Elem>): set<nat> {
    set j | 0 <= j < |order| :: order[j].block
  }

  // Every block was enabled by those in front of it.
  ghost predicate Placed(g: Graph, loops: Loops, order: seq<Elem>)
    requires g.Valid() && loops.Valid(g)
  {
    && (forall j :: 0 <= j < |order| ==>
      order[j].block < g.Size() && Enabled(g, loops, order[j].block, BlocksOf(order[..j])))
    && (forall i, j :: 0 <= i < j < |order| ==> order[i].block != order[j].block)
  }

  lemma PlacedAppend(g: Graph, loops: Loops, order: seq<Elem>, e: Elem)
    requires g.Valid() && loops.Valid(g) && Placed(g, loops, order) && e.block < g.Size()
    requires Enabled(g, loops, e.block, BlocksOf(order)) && e.block !in BlocksOf(order)
    ensures Placed(g, loops, order + [e]) && BlocksOf(order + [e]) == BlocksOf(order) + {e.block}
  {
    hide Enabled;
    var o := order + [e];
    assert o[..|order|] == order;
    forall j | 0 <= j < |o| ensures o[j].block < g.Size() && Enabled(g, loops, o[j].block, BlocksOf(o[..j])) {
      if j < |order| {
        assert o[..j] == order[..j];
      }
    }
    forall b: nat ensures b in BlocksOf(o) <==> b in BlocksOf(order) + {e.block} {
      if b in BlocksOf(order) {
        var j :| 0 <= j < |order| && order[j].block == b;
        assert o[j].block == b;
      }
      if b == e.block {
        assert o[|order|].block == b;
      }
    }
  }

  // Placing a block enables some of its successors at most.
  lemma PlaceWaiting(g: Graph, loops: Loops, m: set<nat>, w: set<nat>, b: nat)
    requires g.Valid() && loops.Valid(g) && b < g.Size() && Waiting(g, loops, m, w + {b})
    ensures Waiting(g, loops, m + {b}, w + (set s | s in g.succs[b]))
  {
    forall c: nat | c < g.Size() && c !in m + {b} && Enabled(g, loops, c, m + {b})
      ensures c in w + (set s | s in g.succs[b])
    {
      if b in g.preds[c] {
        assert c in g.succs[b];
      } else {
        assert SomePredIn(g, c, m);
        assert SidePredsIn(g, loops, c, m) by {
          forall q | SidePred(g, loops, q, c) ensures q in m {
            assert q in m + {b};
          }
        }
      }
    }
  }

  // ---------------------------------------------------------------- when the order is complete

  // A set of blocks none of which can be placed before another one of them.
  ghost predicate Stuck(g: Graph, loops: Loops, u: set<nat>)
    requires g.Valid() && loops.Valid(g)
  {
    && u != {} && ENTRY !in u
    && (forall b :: b in u ==> b < g.Size() && StuckBlock(g, loops, b, u))
  }

  ghost predicate StuckBlock(g: Graph, loops: Loops, b: nat, u: set<nat>)
    requires g.Valid() && loops.Valid(g) && b < g.Size()
  {
    (forall q :: q in g.preds[b] ==> q in u) || exists q :: SidePred(g, loops, q, b) && q in u
  }

  lemma {:induction false} StuckNeverPlaced(g: Graph, loops: Loops, order: seq<Elem>, u: set<nat>, j: nat)
    requires g.Valid() && loops.Valid(g) && Placed(g, loops, order) && Stuck(g, loops, u) && j <= |order|
    ensures BlocksOf(order[..j]) !! u
  {
    if j > 0 {
      StuckNeverPlaced(g, loops, order, u, j - 1);
      var b := order[j - 1].block;
      var before := BlocksOf(order[..j - 1]);
      assert Enabled(g, loops, b, before);
      forall c | c in BlocksOf(order[..j]) ensures c in before || c == b {
        var i :| 0 <= i < j && order[..j][i].block == c;
        if i < j - 1 {
          assert order[..j - 1][i].block == c;
        }
      }
    }
  }

  // The walk places all blocks exactly when no set of blocks is stuck.
  lemma CompleteIff(g: Graph, loops: Loops, order: seq<Elem>)
    requires g.Valid() && loops.Valid(g) && Placed(g, loops, order) && Waiting(g, loops, BlocksOf(order), {})
    requires ENTRY in BlocksOf(order)
    ensures (forall b: nat :: b < g.Size() ==> b in BlocksOf(order)) <==> !exists u :: Stuck(g, loops, u)
  {
    var m := BlocksOf(order);
    if u :| Stuck(g, loops, u) {
      StuckNeverPlaced(g, loops, order, u, |order|);
      assert order[..|order|] == order;
      var b :| b in u;
      assert b !in m;
    }
    if b: nat :| b < g.Size() && b !in m {
      LeftOverStuck(g, loops, order);
    }
  }

  lemma LeftOverStuck(g: Graph, loops: Loops, order: seq<Elem>)
    requires g.Valid() && loops.Valid(g) && Placed(g, loops, order) && Waiting(g, loops, BlocksOf(order), {})
    requires ENTRY in BlocksOf(order) && exists b: nat :: b < g.Size() && b !in BlocksOf(order)
    ensures exists u :: Stuck(g, loops, u)
  {
    var m := BlocksOf(order);
    var u := UpTo(g.Size()) - m;
    var b: nat :| b < g.Size() && b !in m;
    assert b in u;
    forall c | c in u ensures c < g.Size() && StuckBlock(g, loops, c, u) {
      assert !Enabled(g, loops, c, m);
      if SomePredIn(g, c, m) {
        var q :| SidePred(g, loops, q, c) && q !in m;
        assert q in u;
      } else {
        forall q | q in g.preds[c] ensures q in u {
          assert q < g.Size();
        }
      }
    }
    assert Stuck(g, loops, u);
  }

  // ---------------------------------------------------------------- graphs on which it is

  ghost predicate SideStep(g: Graph, loops: Loops, p: seq<nat>, i: nat)
    requires g.Valid() && loops.Valid(g) && 0 < i < |p| && p[i] < g.Size()
  {
    SidePred(g, loops, p[i - 1], p[i])
  }

  ghost predicate SideWalk(g: Graph, loops: Loops, p: seq<nat>)
    requires g.Valid() && loops.Valid(g)
  {
    && |p| > 0 && (forall i :: 0 <= i < |p| ==> p[i] < g.Size())
    && (forall i: nat :: 0 < i < |p| ==> SideStep(g, loops, p, i))
  }

  // Without the edges from a loop to its own header the graph has no cycle.
  ghost predicate Acyclic(g: Graph, loops: Loops)
    requires g.Valid() && loops.Valid(g)
  {
    forall p :: SideWalk(g, loops, p) && |p| > 1 ==> p[0] != p[|p| - 1]
  }

  ghost predicate SidePredWithin(g: Graph, loops: Loops, b: nat, u: set<nat>)
    requires g.Valid() && loops.Valid(g) && b < g.Size()
  {
    exists q: nat :: SidePred(g, loops, q, b) && q in u
  }

  // Every block but the entry has a predecessor among the remaining edges.
  ghost predicate Entered(g: Graph, loops: Loops)
    requires g.Valid() && loops.Valid(g)
  {
    forall b: nat :: b < g.Size() && b != ENTRY ==> SidePredWithin(g, loops, b, UpTo(g.Size()))
  }

  lemma {:induction false} WalkBack(g: Graph, loops: Loops, u: set<nat>, n: nat) returns (p: seq<nat>)
    requires g.Valid() && loops.Valid(g) && u != {}
    requires forall b :: b in u ==> b < g.Size() && SidePredWithin(g, loops, b, u)
    ensures |p| == n + 1 && SideWalk(g, loops, p) && forall i :: 0 <= i < |p| ==> p[i] in u
  {
    hide SidePred;
    if n == 0 {
      var b :| b in u;
      p := [b];
    } else {
      var r := WalkBack(g, loops, u, n - 1);
      assert r[0] in u;
      var q: nat :| SidePred(g, loops, q, r[0]) && q in u;
      p := [q] + r;
      forall i: nat | 0 < i < |p| ensures SideStep(g, loops, p, i) {
        if i > 1 {
          assert SideStep(g, loops, r, i - 1);
        }
      }
    }
  }

  lemma SideSlice(g: Graph, loops: Loops, p: seq<nat>, i: nat, j: nat)
    requires g.Valid() && loops.Valid(g) && SideWalk(g, loops, p) && i < j < |p|
    ensures SideWalk(g, loops, p[i..j + 1])
  {
    var q := p[i..j + 1];
    forall k: nat | 0 < k < |q| ensures SideStep(g, loops, q, k) {
      assert SideStep(g, loops, p, i + k);
    }
  }

  lemma StuckHasSidePred(g: Graph, loops: Loops, u: set<nat>, b: nat)
    requires g.Valid() && loops.Valid(g) && Entered(g, loops) && Stuck(g, loops, u) && b in u
    ensures b < g.Size() && SidePredWithin(g, loops, b, u)
  {
    assert StuckBlock(g, loops, b, u);
    assert SidePredWithin(g, loops, b, UpTo(g.Size()));
  }

  lemma NothingStuck(g: Graph, loops: Loops)
    requires g.Valid() && loops.Valid(g) && Acyclic(g, loops) && Entered(g, loops)
    ensures !exists u :: Stuck(g, loops, u)
  {
    hide SidePredWithin, Entered, SideWalk, StuckBlock;
    forall u ensures !Stuck(g, loops, u) {
      if Stuck(g, loops, u) {
        forall b | b in u ensures b < g.Size() && SidePredWithin(g, loops, b, u) {
          StuckHasSidePred(g, loops, u, b);
        }
        var p := WalkBack(g, loops, u, |u|);
        var i, j := Pigeonhole(p, u);
        SideSlice(g, loops, p, i, j);
      }
    }
  }

  // Every header but the entry has a predecessor of another loop.
  ghost predicate HeadersEntered(g: Graph, loops: Loops)
    requires g.Valid() && loops.Valid(g)
  {
    forall b: nat :: b < g.Size() && b != ENTRY && loops.IsHeader(b) ==> SidePredWithin(g, loops, b, UpTo(g.Size()))
  }

  // The last edge of a path to b comes from a predecessor of b, by a path that does not visit b if this one does so
  // only at its end.
  lemma LastEdge(g: Graph, p: seq<nat>, b: nat) returns (q: nat)
    requires g.Valid() && PathTo(g, p, ENTRY, b) && b != ENTRY && b !in p[..|p| - 1]
    ensures q < g.Size() && q in g.preds[b] && PathTo(g, p[..|p| - 1], ENTRY, q)
  {
    q := p[|p| - 2];
    assert Step(g, p, |p| - 1);
    PathSlice(g, p, 0, |p| - 1);
    assert p[0..|p| - 1] == p[..|p| - 1];
  }

  lemma FirstPath(g: Graph, b: nat) returns (p: seq<nat>)
    requires Reachable(g, b)
    ensures PathTo(g, p, ENTRY, b) && b !in p[..|p| - 1]
  {
    var r :| PathTo(g, r, ENTRY, b);
    var i := FirstVisit(g, r, b);
    PathSlice(g, r, 0, i + 1);
    p := r[0..i + 1];
    assert p[..|p| - 1] == r[..i];
  }

  lemma AllEntered(g: Graph, loops: Loops)
    requires g.Valid() && loops.Valid(g) && AllReachable(g) && HeadersEntered(g, loops)
    ensures Entered(g, loops)
  {
    forall b: nat | b < g.Size() && b != ENTRY ensures SidePredWithin(g, loops, b, UpTo(g.Size())) {
      if !loops.IsHeader(b) {
        assert Reachable(g, b);
        var p := FirstPath(g, b);
        var q := LastEdge(g, p, b);
        assert SidePred(g, loops, q, b);
      }
    }
  }

  // The header of a reducible loop dominates all its blocks.
  ghost predicate Reducible(g: Graph, loops: Loops)
    requires loops.Valid(g)
  {
    forall h: nat, b: nat :: h < g.Size() && b < g.Size() && loops.IsHeader(h) && loops.loopOf[b] == loops.loopOf[h] ==>
      Dominates(g, h, b)
  }

  // In reducible loops the headers are entered from outside.
  lemma ReducibleEntered(g: Graph, loops: Loops)
    requires g.Valid() && loops.Valid(g) && AllReachable(g) && Reducible(g, loops)
    ensures HeadersEntered(g, loops)
  {
    hide PathTo;
    forall b: nat | b < g.Size() && b != ENTRY && loops.IsHeader(b)
      ensures SidePredWithin(g, loops, b, UpTo(g.Size()))
    {
      assert Reachable(g, b);
      var p := FirstPath(g, b);
      var q := LastEdge(g, p, b);
      assert SidePred(g, loops, q, b);
    }
  }

  // ---------------------------------------------------------------- the assertions of the walk

  // A placed block is reached through placed blocks only.
  lemma {:induction false} PlacedPath(g: Graph, loops: Loops, order: seq<Elem>, j: nat) returns (p: seq<nat>)
    requires g.Valid() && loops.Valid(g) && Placed(g, loops, order) && j < |order|
    ensures PathTo(g, p, ENTRY, order[j].block) && forall c :: c in p ==> c in BlocksOf(order)
    decreases j
  {
    var b := order[j].block;
    assert SomePredIn(g, b, BlocksOf(order[..j]));
    if b == ENTRY {
      EntryReachable(g);
      p := [ENTRY];
    } else {
      var q :| q in g.preds[b] && q in BlocksOf(order[..j]);
      var i :| 0 <= i < j && order[i].block == q;
      var r := PlacedPath(g, loops, order, i);
      PathExtend(g, r, ENTRY, q, b);
      p := r + [b];
    }
  }

  // So the dominators of a placed block are placed, the header of its loop among them when the loop is reducible.
  lemma DominatorsPlaced(g: Graph, loops: Loops, order: seq<Elem>, h: nat, b: nat)
    requires g.Valid() && loops.Valid(g) && Placed(g, loops, order) && b in BlocksOf(order) && Dominates(g, h, b)
    ensures h in BlocksOf(order)
  {
    var j :| 0 <= j < |order| && order[j].block == b;
    var p := PlacedPath(g, loops, order, j);
    assert h in p;
  }

  lemma HeaderPlaced(g: Graph, loops: Loops, order: seq<Elem>, b: nat)
    requires g.Valid() && loops.Valid(g) && Placed(g, loops, order) && b < g.Size() && b in BlocksOf(order)
    ensures HeaderIn(g, loops, b, BlocksOf(order))
  {
    hide Placed, Dominates;
    forall h: nat | loops.header[loops.loopOf[b]] == DominatorTree.Ref(h) && Dominates(g, h, b)
      ensures h in BlocksOf(order)
    {
      DominatorsPlaced(g, loops, order, h, b);
    }
  }

  // The header of b's loop, if it dominates b, is in m.
  ghost predicate HeaderIn(g: Graph, loops: Loops, b: nat, m: set<nat>)
    requires loops.Valid(g) && b < g.Size()
  {
    forall h: nat :: loops.header[loops.loopOf[b]] == DominatorTree.Ref(h) && Dominates(g, h, b) ==> h in m
  }

  lemma SidePredsPlaced(g: Graph, loops: Loops, order: seq<Elem>, q: nat, b: nat)
    requires g.Valid() && loops.Valid(g) && Placed(g, loops, order) && b in BlocksOf(order)
    requires b < g.Size() && SidePred(g, loops, q, b)
    ensures q in BlocksOf(order)
  {
    var j :| 0 <= j < |order| && order[j].block == b;
    assert Enabled(g, loops, b, BlocksOf(order[..j]));
    var i :| 0 <= i < |order[..j]| && order[..j][i].block == q;
    assert order[i].block == q;
  }

  ghost predicate BackEdgesIn(loops: Loops, l: nat, m: set<nat>)
    requires l < |loops.backEdges|
  {
    forall q :: q in loops.backEdges[l] ==> q in m
  }

  // ---------------------------------------------------------------- when all back edges are marked in time

  // The k-th block of the list can be placed as soon as those in front of it are, the last of which leads to it.
  ghost predicate Follows(g: Graph, loops: Loops, c: seq<nat>, k: nat)
    requires g.Valid() && loops.Valid(g) && 0 < k < |c| && c[k] < g.Size()
  {
    SidePred(g, loops, c[k - 1], c[k]) && forall q :: SidePred(g, loops, q, c[k]) ==> q in c[..k]
  }

  // The blocks of loop l, back edges and inner loops included, have only one order.
  ghost predicate OneWay(g: Graph, loops: Loops, l: nat, c: seq<nat>)
    requires g.Valid() && loops.Valid(g)
  {
    && l < |loops.header| && (forall k :: 0 <= k < |c| ==> c[k] < g.Size() && !loops.InOuter(l, c[k]))
    && (forall j, k :: 0 <= j < k < |c| ==> c[j] != c[k]) && (forall k: nat :: 0 < k < |c| ==> Follows(g, loops, c, k))
    && (forall b: nat :: b < g.Size() && loops.loopOf[b] == l ==> b in c) && BackEdgesIn(loops, l, Members(c))
  }

  ghost predicate AllOneWay(g: Graph, loops: Loops)
    requires g.Valid() && loops.Valid(g)
  {
    forall l: nat :: l < |loops.header| ==> loops.backEdges[l] == [] || exists c :: OneWay(g, loops, l, c)
  }

  // Once a block of the list has been placed, all have.
  ghost predicate ChainDone(c: seq<nat>, m0: set<nat>, m: set<nat>) {
    forall x :: x in c && x in m && x !in m0 ==> Members(c) <= m
  }

  ghost predicate ChainsDone(g: Graph, loops: Loops, m0: set<nat>, m: set<nat>)
    requires g.Valid() && loops.Valid(g)
  {
    forall l: nat, c :: OneWay(g, loops, l, c) ==> ChainDone(c, m0, m)
  }

  // Of the first i successors of bb, in the one round or the other, those that could be placed have been.
  ghost predicate Tried(g: Graph, loops: Loops, bb: nat, second: bool, i: nat, m0: set<nat>, m: set<nat>)
    requires g.Valid() && loops.Valid(g) && bb < g.Size()
  {
    forall j :: 0 <= j < i && j < |g.succs[bb]| ==> TriedOne(g, loops, bb, second, g.succs[bb][j], m0, m)
  }

  ghost predicate TriedOne(g: Graph, loops: Loops, bb: nat, second: bool, s: nat, m0: set<nat>, m: set<nat>)
    requires g.Valid() && loops.Valid(g) && bb < g.Size() && s < g.Size()
  {
    loops.InOuter(loops.loopOf[bb], s) == second && Enabled(g, loops, s, m0) ==> s in m
  }

  lemma TriedMore(g: Graph, loops: Loops, bb: nat, second: bool, i: nat, m0: set<nat>, m: set<nat>, m': set<nat>)
    requires g.Valid() && loops.Valid(g) && bb < g.Size() && Tried(g, loops, bb, second, i, m0, m) && m <= m'
    requires i < |g.succs[bb]| && TriedOne(g, loops, bb, second, g.succs[bb][i], m0, m')
    ensures Tried(g, loops, bb, second, i + 1, m0, m')
  {
    hide Enabled;
  }

  lemma TriedStays(g: Graph, loops: Loops, bb: nat, second: bool, i: nat, m0: set<nat>, m1: set<nat>, m: set<nat>,
                   m': set<nat>)
    requires g.Valid() && loops.Valid(g) && bb < g.Size() && Tried(g, loops, bb, second, i, m1, m) && m0 <= m1
    requires m <= m'
    ensures Tried(g, loops, bb, second, i, m0, m')
  {
    forall j | 0 <= j < i && j < |g.succs[bb]| ensures TriedOne(g, loops, bb, second, g.succs[bb][j], m0, m') {
      assert TriedOne(g, loops, bb, second, g.succs[bb][j], m1, m);
    }
  }

  lemma ChainsCompose(g: Graph, loops: Loops, m0: set<nat>, m1: set<nat>, m2: set<nat>)
    requires g.Valid() && loops.Valid(g) && m0 <= m1 <= m2
    requires ChainsDone(g, loops, m0, m1) && ChainsDone(g, loops, m1, m2)
    ensures ChainsDone(g, loops, m0, m2)
  {
    hide OneWay;
  }

  lemma {:induction false} ChainPrefix(g: Graph, loops: Loops, order: seq<Elem>, l: nat, c: seq<nat>, k: nat)
    requires g.Valid() && loops.Valid(g) && Placed(g, loops, order) && OneWay(g, loops, l, c)
    requires k < |c| && c[k] in BlocksOf(order)
    ensures forall j :: 0 <= j <= k ==> c[j] in BlocksOf(order)
  {
    hide Placed, BlocksOf;
    if k > 0 {
      assert Follows(g, loops, c, k);
      SidePredsPlaced(g, loops, order, c[k - 1], c[k]);
      ChainPrefix(g, loops, order, l, c, k - 1);
    }
  }

  // Behind the k-th block of the list, which has just been placed, the next one can be.
  lemma ChainNext(g: Graph, loops: Loops, order: seq<Elem>, order': seq<Elem>, l: nat, c: seq<nat>, k: nat)
    requires g.Valid() && loops.Valid(g) && Placed(g, loops, order) && Placed(g, loops, order')
    requires OneWay(g, loops, l, c)
    requires k + 1 < |c| && c[k] !in BlocksOf(order) && BlocksOf(order') == BlocksOf(order) + {c[k]}
    ensures c[k] < g.Size() && c[k + 1] < g.Size() && c[k + 1] in g.succs[c[k]] && c[k + 1] !in BlocksOf(order')
    ensures Enabled(g, loops, c[k + 1], BlocksOf(order')) && !loops.InOuter(l, c[k + 1])
  {
    hide Placed, BlocksOf;
    assert Follows(g, loops, c, k + 1);
    ChainPrefix(g, loops, order', l, c, k);
    if c[k + 1] in BlocksOf(order) {
      SidePredsPlaced(g, loops, order, c[k], c[k + 1]);
    }
  }

  // When a visit has tried the successors of its block, the lists are done.
  lemma ChainsVisit(g: Graph, loops: Loops, order: seq<Elem>, order': seq<Elem>, bb: nat, m: set<nat>)
    requires g.Valid() && loops.Valid(g) && Placed(g, loops, order) && Placed(g, loops, order') && bb < g.Size()
    requires bb !in BlocksOf(order) && BlocksOf(order') == BlocksOf(order) + {bb} && BlocksOf(order') <= m
    requires ChainsDone(g, loops, BlocksOf(order'), m)
    requires Tried(g, loops, bb, false, |g.succs[bb]|, BlocksOf(order'), m)
    requires Tried(g, loops, bb, true, |g.succs[bb]|, BlocksOf(order'), m)
    ensures ChainsDone(g, loops, BlocksOf(order), m)
  {
    hide Placed, BlocksOf, OneWay, Enabled;
    forall l: nat, c | OneWay(g, loops, l, c) ensures ChainDone(c, BlocksOf(order), m) {
      assert ChainDone(c, BlocksOf(order'), m);
      if bb in c {
        var k :| 0 <= k < |c| && c[k] == bb;
        ChainTried(g, loops, order, order', l, c, k, m);
      }
    }
  }

  lemma ChainTried(g: Graph, loops: Loops, order: seq<Elem>, order': seq<Elem>, l: nat, c: seq<nat>, k: nat,
                   m: set<nat>)
    requires g.Valid() && loops.Valid(g) && Placed(g, loops, order) && Placed(g, loops, order')
    requires OneWay(g, loops, l, c)
    requires k < |c| && c[k] < g.Size() && c[k] !in BlocksOf(order) && BlocksOf(order') == BlocksOf(order) + {c[k]}
    requires BlocksOf(order') <= m && ChainDone(c, BlocksOf(order'), m)
    requires Tried(g, loops, c[k], false, |g.succs[c[k]]|, BlocksOf(order'), m)
    requires loops.loopOf[c[k]] == l || Tried(g, loops, c[k], true, |g.succs[c[k]]|, BlocksOf(order'), m)
    ensures Members(c) <= m
  {
    hide Placed, BlocksOf, Enabled;
    if k + 1 < |c| {
      ChainNext(g, loops, order, order', l, c, k);
    } else {
      ChainPrefix(g, loops, order', l, c, k);
      forall x | x in c ensures x in m {
        var j :| 0 <= j < |c| && c[j] == x;
      }
    }
  }

  // When it has tried those that do not belong to the loop around, all back edges of its loop are marked.
  lemma BackEdgesDone(g: Graph, loops: Loops, order: seq<Elem>, order': seq<Elem>, bb: nat, m: set<nat>)
    requires g.Valid() && loops.Valid(g) && Placed(g, loops, order) && Placed(g, loops, order') && bb < g.Size()
    requires bb !in BlocksOf(order) && BlocksOf(order') == BlocksOf(order) + {bb} && BlocksOf(order') <= m
    requires ChainsDone(g, loops, BlocksOf(order'), m) && AllOneWay(g, loops)
    requires Tried(g, loops, bb, false, |g.succs[bb]|, BlocksOf(order'), m)
    ensures BackEdgesIn(loops, loops.loopOf[bb], m)
  {
    hide Placed, BlocksOf, Enabled;
    var l := loops.loopOf[bb];
    if loops.backEdges[l] != [] {
      var c :| OneWay(g, loops, l, c);
      assert ChainDone(c, BlocksOf(order'), m);
      var k :| 0 <= k < |c| && c[k] == bb;
      ChainTried(g, loops, order, order', l, c, k, m);
    }
  }

  // ---------------------------------------------------------------- when they are not

  // What a visit of bb places, it reaches through blocks that it places.
  ghost predicate FreshPath(g: Graph, p: seq<nat>, bb: nat, x: nat, m0: set<nat>, m: set<nat>) {
    PathTo(g, p, bb, x) && forall i :: 0 < i < |p| ==> p[i] in m && p[i] !in m0
  }

  ghost predicate Explored(g: Graph, bb: nat, m0: set<nat>, m: set<nat>) {
    forall x :: x in m && x !in m0 ==> exists p :: FreshPath(g, p, bb, x, m0, m)
  }

  lemma ExploredCompose(g: Graph, bb: nat, m0: set<nat>, m1: set<nat>, m2: set<nat>)
    requires m0 <= m1 <= m2 && Explored(g, bb, m0, m1) && Explored(g, bb, m1, m2)
    ensures Explored(g, bb, m0, m2)
  {
    hide PathTo;
    forall x | x in m2 && x !in m0 ensures exists p :: FreshPath(g, p, bb, x, m0, m2) {
      if x in m1 {
        var p :| FreshPath(g, p, bb, x, m0, m1);
        assert FreshPath(g, p, bb, x, m0, m2);
      } else {
        var p :| FreshPath(g, p, bb, x, m1, m2);
        assert FreshPath(g, p, bb, x, m0, m2);
      }
    }
  }

  lemma ExploredSelf(g: Graph, bb: nat, m0: set<nat>, m: set<nat>)
    requires bb < g.Size() && Explored(g, bb, m0 + {bb}, m)
    ensures Explored(g, bb, m0, m)
  {
    forall x | x in m && x !in m0 ensures exists p :: FreshPath(g, p, bb, x, m0, m) {
      if x == bb {
        assert FreshPath(g, [bb], bb, x, m0, m);
      } else {
        var p :| FreshPath(g, p, bb, x, m0 + {bb}, m);
        assert FreshPath(g, p, bb, x, m0, m);
      }
    }
  }

  lemma ExploredSucc(g: Graph, bb: nat, s: nat, m0: set<nat>, m: set<nat>)
    requires g.Valid() && bb < g.Size() && s < g.Size() && s in g.succs[bb] && Explored(g, s, m0, m)
    requires s !in m0 && (s in m || m == m0)
    ensures Explored(g, bb, m0, m)
  {
    forall x | x in m && x !in m0 ensures exists p :: FreshPath(g, p, bb, x, m0, m) {
      var p :| FreshPath(g, p, s, x, m0, m);
      var q := [bb] + p;
      assert Step(g, [bb, s], 1);
      PathJoin(g, [bb, s], p, bb, s, x);
      assert q == [bb, s] + p[1..];
      assert FreshPath(g, q, bb, x, m0, m);
    }
  }

  // Every path from a to b passes h.
  ghost predicate Between(g: Graph, h: nat, a: nat, b: nat) {
    forall p :: PathTo(g, p, a, b) ==> h in p
  }

  // x has to be placed before q.
  ghost predicate NeededFor(g: Graph, loops: Loops, x: nat, q: nat)
    requires g.Valid() && loops.Valid(g)
  {
    exists p :: SideWalk(g, loops, p) && p[0] == x && p[|p| - 1] == q
  }

  // Two blocks of the loop l headed by h, neither of which leads to the other but through h, and both of which have to
  // be placed before the source q of a back edge.
  ghost predicate Arms(g: Graph, loops: Loops, l: nat, h: nat, a: nat, b: nat, q: nat)
    requires g.Valid() && loops.Valid(g)
  {
    && l < |loops.header| && loops.header[l] == DominatorTree.Ref(h) && a < g.Size() && b < g.Size()
    && loops.loopOf[a] == loops.loopOf[b] == l && a != b && a != h && b != h && Dominates(g, h, a) && Dominates(g, h, b)
    && Between(g, h, a, b) && Between(g, h, b, a)
    && q in loops.backEdges[l] && NeededFor(g, loops, a, q) && NeededFor(g, loops, b, q)
  }

  // Neither arm is placed unless one was before.
  ghost predicate ArmsApart(g: Graph, loops: Loops, m0: set<nat>, m: set<nat>)
    requires g.Valid() && loops.Valid(g)
  {
    forall l: nat, h: nat, a: nat, b: nat, q: nat :: Arms(g, loops, l, h, a, b, q) && a !in m0 && b !in m0 ==>
      a !in m && b !in m
  }

  lemma ArmsCompose(g: Graph, loops: Loops, m0: set<nat>, m1: set<nat>, m2: set<nat>)
    requires g.Valid() && loops.Valid(g) && ArmsApart(g, loops, m0, m1) && ArmsApart(g, loops, m1, m2)
    ensures ArmsApart(g, loops, m0, m2)
  {
    hide Arms;
  }

  lemma {:induction false} WalkPlaced(g: Graph, loops: Loops, order: seq<Elem>, p: seq<nat>, i: nat)
    requires g.Valid() && loops.Valid(g) && Placed(g, loops, order) && SideWalk(g, loops, p)
    requires i < |p| && p[i] in BlocksOf(order)
    ensures p[0] in BlocksOf(order)
  {
    hide Placed, BlocksOf;
    if i > 0 {
      assert SideStep(g, loops, p, i);
      SidePredsPlaced(g, loops, order, p[i - 1], p[i]);
      WalkPlaced(g, loops, order, p, i - 1);
    }
  }

  // If the back edges are marked behind the first round over the successors of one arm, the other was placed before it.
  lemma OtherArm(g: Graph, loops: Loops, order1: seq<Elem>, order2: seq<Elem>, l: nat, h: nat, a: nat, b: nat, q: nat)
    requires g.Valid() && loops.Valid(g) && Placed(g, loops, order1) && Placed(g, loops, order2)
    requires Arms(g, loops, l, h, a, b, q) && a in BlocksOf(order1)
    requires Explored(g, a, BlocksOf(order1), BlocksOf(order2)) && BackEdgesIn(loops, l, BlocksOf(order2))
    ensures b in BlocksOf(order1)
  {
    hide Placed, BlocksOf, PathTo, SideWalk, Dominates;
    DominatorsPlaced(g, loops, order1, h, a);
    NeededPlaced(g, loops, order2, b, q);
    if b !in BlocksOf(order1) {
      var p :| FreshPath(g, p, a, b, BlocksOf(order1), BlocksOf(order2));
      FreshBehind(g, p, a, b, BlocksOf(order1), BlocksOf(order2), h);
    }
  }

  lemma NeededPlaced(g: Graph, loops: Loops, order: seq<Elem>, x: nat, q: nat)
    requires g.Valid() && loops.Valid(g) && Placed(g, loops, order) && NeededFor(g, loops, x, q) && q in BlocksOf(order)
    ensures x in BlocksOf(order)
  {
    hide Placed, BlocksOf;
    var w :| SideWalk(g, loops, w) && w[0] == x && w[|w| - 1] == q;
    WalkPlaced(g, loops, order, w, |w| - 1);
  }

  lemma FreshBehind(g: Graph, p: seq<nat>, a: nat, b: nat, m0: set<nat>, m: set<nat>, h: nat)
    requires FreshPath(g, p, a, b, m0, m) && h != a
    ensures h in p ==> h !in m0
  {
  }

  lemma ArmsSwap(g: Graph, loops: Loops, l: nat, h: nat, a: nat, b: nat, q: nat)
    requires g.Valid() && loops.Valid(g) && Arms(g, loops, l, h, a, b, q)
    ensures Arms(g, loops, l, h, b, a, q)
  {
  }

  lemma ArmsVisit(g: Graph, loops: Loops, m0: set<nat>, order1: seq<Elem>, order2: seq<Elem>, bb: nat, m: set<nat>)
    requires g.Valid() && loops.Valid(g) && Placed(g, loops, order1) && Placed(g, loops, order2) && bb < g.Size()
    requires BlocksOf(order1) == m0 + {bb} && Explored(g, bb, BlocksOf(order1), BlocksOf(order2))
    requires BackEdgesIn(loops, loops.loopOf[bb], BlocksOf(order2)) && ArmsApart(g, loops, BlocksOf(order1), m)
    ensures ArmsApart(g, loops, m0, m)
  {
    hide Placed, BlocksOf, Explored, Dominates, Between, NeededFor, BackEdgesIn;
    forall l: nat, h: nat, a: nat, b: nat, q: nat | Arms(g, loops, l, h, a, b, q) && a !in m0 && b !in m0
      ensures a !in m && b !in m
    {
      if a == bb {
        OtherArm(g, loops, order1, order2, l, h, a, b, q);
      } else if b == bb {
        ArmsSwap(g, loops, l, h, a, b, q);
        OtherArm(g, loops, order1, order2, l, h, b, a, q);
      }
    }
  }

  ghost predicate HasArms(g: Graph, loops: Loops)
    requires g.Valid() && loops.Valid(g)
  {
    exists l: nat, h: nat, a: nat, b: nat, q: nat :: Arms(g, loops, l, h, a, b, q)
  }

  // A walk that has placed everything has placed an arm first.
  lemma ArmsPlaced(g: Graph, loops: Loops, m: set<nat>)
    requires g.Valid() && loops.Valid(g) && ArmsApart(g, loops, {}, m) && forall b: nat :: b < g.Size() ==> b in m
    ensures !HasArms(g, loops)
  {
    hide Dominates, Between, NeededFor;
    forall l: nat, h: nat, a: nat, b: nat, q: nat ensures !Arms(g, loops, l, h, a, b, q) {
    }
  }

  // ---------------------------------------------------------------- exits stand behind their loops

  // m is the loop around l.
  ghost predicate Around(loops: Loops, l: nat, m: nat) {
    l < |loops.outer| && loops.outer[l] == DominatorTree.Ref(m)
  }

  ghost predicate IsNest(loops: Loops, c: seq<nat>) {
    |c| > 0 && forall i :: 0 < i < |c| ==> Around(loops, c[i - 1], c[i])
  }

  // Loop l is m, or lies in it.
  ghost predicate Inside(loops: Loops, l: nat, m: nat) {
    exists c :: IsNest(loops, c) && c[0] == l && c[|c| - 1] == m
  }

  lemma InsideItself(loops: Loops, l: nat)
    ensures Inside(loops, l, l)
  {
    assert IsNest(loops, [l]);
  }

  lemma InsideThrough(loops: Loops, l: nat, m: nat, n: nat)
    requires Inside(loops, l, m) && Inside(loops, m, n)
    ensures Inside(loops, l, n)
  {
    var c :| IsNest(loops, c) && c[0] == l && c[|c| - 1] == m;
    var d :| IsNest(loops, d) && d[0] == m && d[|d| - 1] == n;
    var e := c + d[1..];
    forall i | 0 < i < |e| ensures Around(loops, e[i - 1], e[i]) {
      assert i < |c| ==> Around(loops, c[i - 1], c[i]);
      assert i >= |c| ==> Around(loops, d[i - |c|], d[i - |c| + 1]);
    }
    assert e[|e| - 1] == n;
  }

  lemma InsideAround(loops: Loops, l: nat, m: nat, o: nat)
    requires Inside(loops, l, m) && l != m && Around(loops, l, o)
    ensures Inside(loops, o, m)
  {
    var c :| IsNest(loops, c) && c[0] == l && c[|c| - 1] == m;
    var d := c[1..];
    assert Around(loops, c[0], c[1]);
    forall i | 0 < i < |d| ensures Around(loops, d[i - 1], d[i]) {
      assert Around(loops, c[i], c[i + 1]);
    }
  }

  // No loop lies in itself, and an edge leaves one loop at most: it stays in its loop and those inside, or leads to the
  // loop around.
  ghost predicate Nests(g: Graph, loops: Loops)
    requires g.Valid() && loops.Valid(g)
  {
    && (forall l: nat, m: nat :: Around(loops, l, m) ==> !Inside(loops, m, l))
    && (forall b: nat, s: nat :: b < g.Size() && s < g.Size() && s in g.succs[b] ==>
          Inside(loops, loops.loopOf[s], loops.loopOf[b]) || Around(loops, loops.loopOf[b], loops.loopOf[s]))
  }

  // An exit of a loop stands behind the sources of all its back edges.
  ghost predicate ExitsBehind(g: Graph, loops: Loops, order: seq<Elem>)
    requires g.Valid() && loops.Valid(g)
  {
    forall b: nat, j: nat :: b < g.Size() && j < |order| && order[j].block < g.Size() &&
                             order[j].block in g.succs[b] && loops.InOuter(loops.loopOf[b], order[j].block) ==>
      BackEdgesIn(loops, loops.loopOf[b], BlocksOf(order[..j]))
  }

  // Of the loops that have been entered, those that do not hold bb have their back edges marked.
  ghost predicate LoopsDone(g: Graph, loops: Loops, m: set<nat>, bb: nat)
    requires g.Valid() && loops.Valid(g) && bb < g.Size()
  {
    forall b: nat :: b < g.Size() && b in m ==>
      BackEdgesIn(loops, loops.loopOf[b], m) || Inside(loops, loops.loopOf[bb], loops.loopOf[b])
  }

  // The loops of the blocks placed since m0 have their back edges marked.
  ghost predicate NewDone(g: Graph, loops: Loops, m0: set<nat>, m: set<nat>)
    requires g.Valid() && loops.Valid(g)
  {
    forall b: nat :: b < g.Size() && b in m && b !in m0 ==> BackEdgesIn(loops, loops.loopOf[b], m)
  }

  lemma ExitPlaced(g: Graph, loops: Loops, order: seq<Elem>, e: Elem)
    requires g.Valid() && loops.Valid(g) && Nests(g, loops) && ExitsBehind(g, loops, order) && e.block < g.Size()
    requires LoopsDone(g, loops, BlocksOf(order), e.block) && SidePredsIn(g, loops, e.block, BlocksOf(order))
    ensures ExitsBehind(g, loops, order + [e])
  {
    var o := order + [e];
    hide Inside, BackEdgesIn, BlocksOf;
    forall b: nat, j: nat | b < g.Size() && j < |o| && o[j].block < g.Size() && o[j].block in g.succs[b] &&
                            loops.InOuter(loops.loopOf[b], o[j].block)
      ensures BackEdgesIn(loops, loops.loopOf[b], BlocksOf(o[..j]))
    {
      if j < |order| {
        assert o[..j] == order[..j];
      } else {
        assert o[..j] == order;
        assert Around(loops, loops.loopOf[b], loops.loopOf[e.block]);
        InsideItself(loops, loops.loopOf[b]);
        assert SidePred(g, loops, b, e.block);
      }
    }
  }

  lemma EntryDone(g: Graph, loops: Loops, m: set<nat>, bb: nat)
    requires g.Valid() && loops.Valid(g) && bb < g.Size() && LoopsDone(g, loops, m, bb)
    ensures LoopsDone(g, loops, m + {bb}, bb)
  {
    hide Inside;
    InsideItself(loops, loops.loopOf[bb]);
  }

  // A successor may be tried: one that does not belong to the loop around, or any, once the back edges are marked.
  lemma SuccDone(g: Graph, loops: Loops, m: set<nat>, bb: nat, s: nat)
    requires g.Valid() && loops.Valid(g) && Nests(g, loops) && bb < g.Size() && s < g.Size() && s in g.succs[bb]
    requires LoopsDone(g, loops, m, bb)
    requires loops.InOuter(loops.loopOf[bb], s) ==> BackEdgesIn(loops, loops.loopOf[bb], m)
    ensures LoopsDone(g, loops, m, s)
  {
    hide Inside, BackEdgesIn;
    var l, n := loops.loopOf[bb], loops.loopOf[s];
    forall b: nat | b < g.Size() && b in m
      ensures BackEdgesIn(loops, loops.loopOf[b], m) || Inside(loops, n, loops.loopOf[b])
    {
      if !BackEdgesIn(loops, loops.loopOf[b], m) {
        if Around(loops, l, n) {
          InsideAround(loops, l, loops.loopOf[b], n);
        } else {
          InsideThrough(loops, n, l, loops.loopOf[b]);
        }
      }
    }
  }

  lemma StillDone(g: Graph, loops: Loops, m: set<nat>, m': set<nat>, bb: nat)
    requires g.Valid() && loops.Valid(g) && bb < g.Size() && m <= m'
    requires LoopsDone(g, loops, m, bb) && NewDone(g, loops, m, m')
    ensures LoopsDone(g, loops, m', bb)
  {
    hide Inside;
  }

  lemma NewDoneCompose(g: Graph, loops: Loops, m0: set<nat>, m1: set<nat>, m2: set<nat>)
    requires g.Valid() && loops.Valid(g) && m0 <= m1 <= m2 && NewDone(g, loops, m0, m1) && NewDone(g, loops, m1, m2)
    ensures NewDone(g, loops, m0, m2)
  {
  }

  // What the walk keeps as long as the assertion holds: on the way to bb,
  ghost predicate ExitsOk(g: Graph, loops: Loops, order: seq<Elem>, held: bool, bb: nat)
    requires g.Valid() && loops.Valid(g) && bb < g.Size()
  {
    held && Nests(g, loops) ==> LoopsDone(g, loops, BlocksOf(order), bb) && ExitsBehind(g, loops, order)
  }

  // and behind a visit.
  ghost predicate ExitsLeft(g: Graph, loops: Loops, m0: set<nat>, order: seq<Elem>, held: bool)
    requires g.Valid() && loops.Valid(g)
  {
    held && Nests(g, loops) ==> NewDone(g, loops, m0, BlocksOf(order)) && ExitsBehind(g, loops, order)
  }

  lemma ExitsStart(g: Graph, loops: Loops, held: bool, bb: nat)
    requires g.Valid() && loops.Valid(g) && bb < g.Size()
    ensures ExitsOk(g, loops, [], held, bb)
  {
  }

  lemma ExitsNothing(g: Graph, loops: Loops, order: seq<Elem>, held: bool, bb: nat)
    requires g.Valid() && loops.Valid(g) && bb < g.Size() && ExitsOk(g, loops, order, held, bb)
    ensures ExitsLeft(g, loops, BlocksOf(order), order, held)
  {
    hide ExitsBehind, LoopsDone, BackEdgesIn, Nests;
  }

  lemma ExitsPlace(g: Graph, loops: Loops, order: seq<Elem>, e: Elem, held: bool)
    requires g.Valid() && loops.Valid(g) && e.block < g.Size() && ExitsOk(g, loops, order, held, e.block)
    requires SidePredsIn(g, loops, e.block, BlocksOf(order)) && BlocksOf(order + [e]) == BlocksOf(order) + {e.block}
    ensures ExitsOk(g, loops, order + [e], held, e.block)
  {
    hide ExitsBehind, LoopsDone, BackEdgesIn, Nests, SidePredsIn, BlocksOf;
    if held && Nests(g, loops) {
      ExitPlaced(g, loops, order, e);
      EntryDone(g, loops, BlocksOf(order), e.block);
    }
  }

  lemma ExitsTry(g: Graph, loops: Loops, order: seq<Elem>, held: bool, bb: nat, s: nat)
    requires g.Valid() && loops.Valid(g) && bb < g.Size() && s < g.Size() && s in g.succs[bb]
    requires ExitsOk(g, loops, order, held, bb)
    requires held && loops.InOuter(loops.loopOf[bb], s) ==> BackEdgesIn(loops, loops.loopOf[bb], BlocksOf(order))
    ensures ExitsOk(g, loops, order, held, s)
  {
    hide ExitsBehind, LoopsDone, BackEdgesIn, Nests, BlocksOf;
    if held && Nests(g, loops) {
      SuccDone(g, loops, BlocksOf(order), bb, s);
    }
  }

  // Behind the visit of a successor of bb.
  lemma ExitsBack(g: Graph, loops: Loops, order: seq<Elem>, held: bool, bb: nat, order': seq<Elem>, held': bool)
    requires g.Valid() && loops.Valid(g) && bb < g.Size() && (held' ==> held) && BlocksOf(order) <= BlocksOf(order')
    requires ExitsOk(g, loops, order, held, bb) && ExitsLeft(g, loops, BlocksOf(order), order', held')
    ensures ExitsOk(g, loops, order', held', bb)
  {
    hide ExitsBehind, LoopsDone, NewDone, BackEdgesIn, Nests, BlocksOf;
    if held' && Nests(g, loops) {
      StillDone(g, loops, BlocksOf(order), BlocksOf(order'), bb);
    }
  }

  lemma ExitsCompose(g: Graph, loops: Loops, m0: set<nat>, order1: seq<Elem>, held: bool, order2: seq<Elem>,
                     held': bool)
    requires g.Valid() && loops.Valid(g) && (held' ==> held) && m0 <= BlocksOf(order1) <= BlocksOf(order2)
    requires ExitsLeft(g, loops, m0, order1, held) && ExitsLeft(g, loops, BlocksOf(order1), order2, held')
    ensures ExitsLeft(g, loops, m0, order2, held')
  {
    hide ExitsBehind, NewDone, BackEdgesIn, Nests, BlocksOf;
    if held' && Nests(g, loops) {
      NewDoneCompose(g, loops, m0, BlocksOf(order1), BlocksOf(order2));
    }
  }

  lemma ExitsHeld(g: Graph, loops: Loops, order: seq<Elem>, held: bool, held': bool, bb: nat)
    requires g.Valid() && loops.Valid(g) && bb < g.Size() && (held' ==> held) && ExitsOk(g, loops, order, held, bb)
    ensures ExitsOk(g, loops, order, held', bb)
  {
    hide ExitsBehind, LoopsDone, BackEdgesIn, Nests, BlocksOf;
  }

  // A whole visit of bb, between whose rounds the assertion is checked at order2.
  lemma ExitsVisit(g: Graph, loops: Loops, m0: set<nat>, bb: nat, order1: seq<Elem>, order2: seq<Elem>, held2: bool,
                   order: seq<Elem>, held: bool)
    requires g.Valid() && loops.Valid(g) && bb < g.Size() && BlocksOf(order1) == m0 + {bb}
    requires BlocksOf(order1) <= BlocksOf(order2) <= BlocksOf(order) && (held ==> held2)
    requires ExitsLeft(g, loops, BlocksOf(order1), order2, held2) && ExitsLeft(g, loops, BlocksOf(order2), order, held)
    requires held ==> BackEdgesIn(loops, loops.loopOf[bb], BlocksOf(order2))
    ensures ExitsLeft(g, loops, m0, order, held)
  {
    hide ExitsBehind, Nests, BlocksOf;
  }

  // ---------------------------------------------------------------- the walk on values

  ghost function Sequence(order: seq<Elem>): seq<nat> {
    seq(|order|, j requires 0 <= j < |order| => order[j].block)
  }

  // The blocks placed once bb has been tried behind those of `done`: if its side predecessors are among them, bb, what
  // its successors outside the loop around lead to, and then what the other ones lead to.
  ghost function Walk(g: Graph, loops: Loops, done: seq<nat>, bb: nat): (r: seq<nat>)
    requires g.Valid() && loops.Valid(g) && bb < g.Size() && bb !in done
    ensures done <= r
    decreases Postorder.Left(g, Members(done)), 0, 0
  {
    if !SidePredsIn(g, loops, bb, Members(done)) then done
    else
      var d := done + [bb];
      LeftBehind(g, done, d, bb);
      var inner := WalkAll(g, loops, d, loops.loopOf[bb], g.succs[bb], false);
      LeftBehind(g, done, inner, bb);
      WalkAll(g, loops, inner, loops.loopOf[bb], g.succs[bb], true)
  }

  // The same for those successors of a block of loop l that belong to the loop around, or those that do not.
  ghost function WalkAll(g: Graph, loops: Loops, done: seq<nat>, l: nat, succs: seq<nat>, outer: bool): (r: seq<nat>)
    requires g.Valid() && loops.Valid(g) && l < |loops.header| && Postorder.InGraph(g, succs)
    ensures done <= r
    decreases Postorder.Left(g, Members(done)), 1, |succs|
  {
    if succs == [] then done
    else
      var d := WalkOne(g, loops, done, l, succs[0], outer);
      MoreBehind(g, done, d);
      WalkAll(g, loops, d, l, succs[1..], outer)
  }

  ghost function WalkOne(g: Graph, loops: Loops, done: seq<nat>, l: nat, s: nat, outer: bool): (r: seq<nat>)
    requires g.Valid() && loops.Valid(g) && l < |loops.header| && s < g.Size()
    ensures done <= r
    decreases Postorder.Left(g, Members(done)), 1, 0
  {
    if loops.InOuter(l, s) == outer && s !in done then Walk(g, loops, done, s) else done
  }

  lemma PrefixMembers(s: seq<nat>, t: seq<nat>)
    requires s <= t
    ensures Members(s) <= Members(t)
  {
    forall i | 0 <= i < |s| ensures s[i] in t {
      assert t[i] == s[i];
    }
  }

  lemma LeftBehind(g: Graph, done: seq<nat>, d: seq<nat>, bb: nat)
    requires bb < g.Size() && bb !in done && done + [bb] <= d
    ensures Postorder.Left(g, Members(d)) < Postorder.Left(g, Members(done))
  {
    Postorder.MarkedLeft(g, Members(done), bb);
    assert bb in Members(d) by {
      assert d[|done|] == bb;
    }
    Postorder.FewerLeft(g, Members(done) + {bb}, Members(d));
    PrefixMembers(done, d);
    assert Members(done) + {bb} + Members(d) == Members(d);
  }

  lemma MoreBehind(g: Graph, done: seq<nat>, d: seq<nat>)
    requires done <= d
    ensures Postorder.Left(g, Members(d)) <= Postorder.Left(g, Members(done))
  {
    Postorder.FewerLeft(g, Members(done), Members(d));
    PrefixMembers(done, d);
    assert Members(done) + Members(d) == Members(d);
  }

  lemma WalkIs(g: Graph, loops: Loops, done: seq<nat>, bb: nat)
    requires g.Valid() && loops.Valid(g) && bb < g.Size() && bb !in done
    ensures !SidePredsIn(g, loops, bb, Members(done)) ==> Walk(g, loops, done, bb) == done
    ensures Postorder.InGraph(g, g.succs[bb])
    ensures SidePredsIn(g, loops, bb, Members(done)) ==>
              var l := loops.loopOf[bb];
              Walk(g, loops, done, bb) ==
              WalkAll(g, loops, WalkAll(g, loops, done + [bb], l, g.succs[bb], false), l, g.succs[bb], true)
  {
  }

  // The first i successors have been tried.
  ghost predicate WalkedTo(g: Graph, loops: Loops, done: seq<nat>, l: nat, succs: seq<nat>, outer: bool, i: nat,
                           d: seq<nat>)
    requires g.Valid() && loops.Valid(g) && l < |loops.header| && Postorder.InGraph(g, succs)
  {
    i <= |succs| && WalkAll(g, loops, done, l, succs, outer) == WalkAll(g, loops, d, l, succs[i..], outer)
  }

  lemma WalkStart(g: Graph, loops: Loops, done: seq<nat>, l: nat, succs: seq<nat>, outer: bool)
    requires g.Valid() && loops.Valid(g) && l < |loops.header| && Postorder.InGraph(g, succs)
    ensures WalkedTo(g, loops, done, l, succs, outer, 0, done)
  {
    assert succs[0..] == succs;
  }

  lemma WalkMore(g: Graph, loops: Loops, done: seq<nat>, l: nat, succs: seq<nat>, outer: bool, i: nat, d: seq<nat>)
    requires g.Valid() && loops.Valid(g) && l < |loops.header| && Postorder.InGraph(g, succs)
    requires WalkedTo(g, loops, done, l, succs, outer, i, d) && i < |succs|
    ensures WalkedTo(g, loops, done, l, succs, outer, i + 1, WalkOne(g, loops, d, l, succs[i], outer))
  {
    hide Walk;
    assert succs[i..][0] == succs[i] && succs[i..][1..] == succs[i + 1..];
  }

  lemma WalkEnd(g: Graph, loops: Loops, done: seq<nat>, l: nat, succs: seq<nat>, outer: bool, d: seq<nat>)
    requires g.Valid() && loops.Valid(g) && l < |loops.header| && Postorder.InGraph(g, succs)
    requires WalkedTo(g, loops, done, l, succs, outer, |succs|, d)
    ensures WalkAll(g, loops, done, l, succs, outer) == d
  {
    hide Walk;
  }

  lemma NotWalked(g: Graph, loops: Loops, done: seq<nat>, l: nat, s: nat, outer: bool)
    requires g.Valid() && loops.Valid(g) && l < |loops.header| && s < g.Size()
    ensures loops.InOuter(l, s) != outer || s in done ==> WalkOne(g, loops, done, l, s, outer) == done
    ensures loops.InOuter(l, s) == outer && s !in done ==>
              WalkOne(g, loops, done, l, s, outer) == Walk(g, loops, done, s)
  {
  }

  lemma SequenceAppend(order: seq<Elem>, e: Elem)
    ensures Sequence(order + [e]) == Sequence(order) + [e.block]
  {
  }

  lemma SequenceBlocks(order: seq<Elem>)
    ensures Members(Sequence(order)) == BlocksOf(order)
  {
    forall b: nat ensures b in Sequence(order) <==> b in BlocksOf(order) {
      if b in Sequence(order) {
        var j :| 0 <= j < |order| && Sequence(order)[j] == b;
        assert order[j].block == b;
      }
      if b in BlocksOf(order) {
        var j :| 0 <= j < |order| && order[j].block == b;
        assert Sequence(order)[j] == b;
      }
    }
  }

  // ---------------------------------------------------------------- life numbers

  // The life number of the j-th block: two for each phi list and each instruction in front of it.
  ghost function Start(p: Program, order: seq<Elem>, j: nat): nat
    requires Ir.Sized(p) && j <= |order| && forall i :: 0 <= i < |order| ==> order[i].block < p.g.Size()
  {
    if j == 0 then 0 else Start(p, order, j - 1) + 2 + 2 * |p.body[order[j - 1].block]|
  }

  ghost predicate InRange(p: Program, order: seq<Elem>) {
    Ir.Sized(p) && forall i :: 0 <= i < |order| ==> order[i].block < p.g.Size()
  }

  // The phis of a block have its number, and its instructions the even numbers after it.
  ghost predicate BlockNumbered(p: Program, b: nat, ln: nat, lns: map<nat, nat>)
    requires Ir.Sized(p) && b < p.g.Size()
  {
    && (forall x :: x in p.phis[b] ==> x in lns && lns[x] == ln)
    && (forall k :: 0 <= k < |p.body[b]| ==> p.body[b][k] in lns && lns[p.body[b][k]] == ln + 2 + 2 * k)
  }

  ghost predicate Numbered(p: Program, order: seq<Elem>, lns: map<nat, nat>, life: nat)
    requires InRange(p, order)
  {
    && life == Start(p, order, |order|)
    && (forall j :: 0 <= j < |order| ==> order[j].ln == Start(p, order, j))
    && (forall j :: 0 <= j < |order| ==> BlockNumbered(p, order[j].block, order[j].ln, lns))
  }

  lemma {:induction false} StartPrefix(p: Program, order: seq<Elem>, e: Elem, j: nat)
    requires InRange(p, order + [e]) && InRange(p, order) && j <= |order|
    ensures Start(p, order + [e], j) == Start(p, order, j)
  {
    if j > 0 {
      StartPrefix(p, order, e, j - 1);
      assert (order + [e])[j - 1] == order[j - 1];
    }
  }

  lemma StartLast(p: Program, order: seq<Elem>, e: Elem)
    requires InRange(p, order) && e.block < p.g.Size()
    ensures InRange(p, order + [e])
    ensures Start(p, order + [e], |order| + 1) == Start(p, order, |order|) + 2 + 2 * |p.body[e.block]|
  {
    StartPrefix(p, order, e, |order|);
  }

  // Numbering one more block leaves the numbers of the others alone.
  lemma NumberedAppend(p: Program, order: seq<Elem>, lns: map<nat, nat>, life: nat, b: nat, lns': map<nat, nat>)
    requires Unique(p) && InRange(p, order) && Numbered(p, order, lns, life) && b < p.g.Size()
    requires forall j :: 0 <= j < |order| ==> order[j].block != b
    requires BlockNumbered(p, b, life, lns')
    requires forall x :: x in lns && !InBlock(p, x, b) ==> x in lns' && lns'[x] == lns[x]
    ensures InRange(p, order + [Elem(b, life)])
    ensures Numbered(p, order + [Elem(b, life)], lns', life + 2 + 2 * |p.body[b]|)
  {
    hide BlockNumbered, Start, Unique, Ir.Sized;
    StartLast(p, order, Elem(b, life));
    AppendStarts(p, order, lns, life, b);
    AppendBlocks(p, order, lns, life, b, lns');
  }

  lemma AppendStarts(p: Program, order: seq<Elem>, lns: map<nat, nat>, life: nat, b: nat)
    requires InRange(p, order) && Numbered(p, order, lns, life) && b < p.g.Size() && InRange(p, order + [Elem(b, life)])
    ensures forall j :: 0 <= j < |order + [Elem(b, life)]| ==>
              (order + [Elem(b, life)])[j].ln == Start(p, order + [Elem(b, life)], j)
  {
    hide BlockNumbered, Start, Ir.Sized;
    var o := order + [Elem(b, life)];
    forall j | 0 <= j < |o| ensures o[j].ln == Start(p, o, j) {
      StartPrefix(p, order, Elem(b, life), j);
    }
  }

  lemma AppendBlocks(p: Program, order: seq<Elem>, lns: map<nat, nat>, life: nat, b: nat, lns': map<nat, nat>)
    requires Unique(p) && InRange(p, order) && Numbered(p, order, lns, life) && b < p.g.Size()
    requires InRange(p, order + [Elem(b, life)])
    requires forall j :: 0 <= j < |order| ==> order[j].block != b
    requires BlockNumbered(p, b, life, lns')
    requires forall x :: x in lns && !InBlock(p, x, b) ==> x in lns' && lns'[x] == lns[x]
    ensures forall j :: 0 <= j < |order + [Elem(b, life)]| ==>
              BlockNumbered(p, (order + [Elem(b, life)])[j].block, (order + [Elem(b, life)])[j].ln, lns')
  {
    hide BlockNumbered, Start, Unique, Ir.Sized, InBlock;
    var o := order + [Elem(b, life)];
    forall j | 0 <= j < |o| ensures BlockNumbered(p, o[j].block, o[j].ln, lns') {
      if j < |order| {
        OtherBlockNumbered(p, order[j].block, order[j].ln, lns, b, lns');
      }
    }
  }

  lemma OtherBlockNumbered(p: Program, c: nat, ln: nat, lns: map<nat, nat>, b: nat, lns': map<nat, nat>)
    requires Unique(p) && Ir.Sized(p) && c < p.g.Size() && b < p.g.Size() && b != c && BlockNumbered(p, c, ln, lns)
    requires forall x :: x in lns && !InBlock(p, x, b) ==> x in lns' && lns'[x] == lns[x]
    ensures BlockNumbered(p, c, ln, lns')
  {
    forall x | InBlock(p, x, c) ensures !InBlock(p, x, b) {
    }
    forall k | 0 <= k < |p.body[c]| ensures InBlock(p, p.body[c][k], c) {
    }
  }

  lemma {:induction false} StartGrows(p: Program, order: seq<Elem>, i: nat, j: nat)
    requires InRange(p, order) && i < j <= |order|
    ensures Start(p, order, i) + 2 + 2 * |p.body[order[i].block]| <= Start(p, order, j)
    ensures Start(p, order, i) % 2 == 0 && Start(p, order, j) % 2 == 0
  {
    StartEven(p, order, i);
    StartEven(p, order, j);
    if i + 1 < j {
      StartGrows(p, order, i, j - 1);
    }
  }

  lemma {:induction false} StartEven(p: Program, order: seq<Elem>, j: nat)
    requires InRange(p, order) && j <= |order|
    ensures Start(p, order, j) % 2 == 0
  {
    if j > 0 {
      StartEven(p, order, j - 1);
    }
  }

  // Instructions have strictly increasing even numbers, each between the number of its block and that of the
  // next block.
  lemma LifeNumbersIncrease(p: Program, order: seq<Elem>, lns: map<nat, nat>, life: nat, i: nat, k: nat, j: nat, m: nat)
    requires InRange(p, order) && Numbered(p, order, lns, life) && i < |order| && j < |order|
    requires k < |p.body[order[i].block]| && m < |p.body[order[j].block]| && (i < j || (i == j && k < m))
    ensures var x, y := p.body[order[i].block][k], p.body[order[j].block][m];
            && x in lns && y in lns && lns[x] < lns[y] && lns[x] % 2 == 0
            && order[i].ln < lns[x] && lns[x] < (if i + 1 < |order| then order[i + 1].ln else life)
  {
    hide Start;
    assert BlockNumbered(p, order[i].block, order[i].ln, lns) && BlockNumbered(p, order[j].block, order[j].ln, lns);
    StartGrows(p, order, i, i + 1);
    if i < j {
      StartGrows(p, order, i, j);
    }
  }

  // ---------------------------------------------------------------- the walk

  lemma AllSidePreds(g: Graph, loops: Loops, m: set<nat>, b: nat)
    requires g.Valid() && loops.Valid(g) && b < g.Size()
    requires forall i :: 0 <= i < |g.preds[b]| ==> loops.IsSide(g.preds[b][i], b) ==> g.preds[b][i] in m
    ensures SidePredsIn(g, loops, b, m)
  {
    forall q | SidePred(g, loops, q, b) ensures q in m {
      var i :| 0 <= i < |g.preds[b]| && g.preds[b][i] == q;
    }
  }

  lemma SidePredMissing(g: Graph, loops: Loops, m: set<nat>, b: nat, q: nat)
    requires g.Valid() && loops.Valid(g) && b < g.Size() && SidePred(g, loops, q, b) && q !in m
    ensures !SidePredsIn(g, loops, b, m)
  {
  }

  // A block that is marked, or was refused, need not wait.
  lemma NotWaiting(g: Graph, loops: Loops, m: set<nat>, w: set<nat>, b: nat)
    requires g.Valid() && loops.Valid(g) && b < g.Size() && Waiting(g, loops, m, w + {b})
    requires b in m || !SidePredsIn(g, loops, b, m)
    ensures Waiting(g, loops, m, w)
  {
  }

  lemma MoreWaiting(g: Graph, loops: Loops, m: set<nat>, w: set<nat>, w': set<nat>)
    requires g.Valid() && loops.Valid(g) && Waiting(g, loops, m, w) && w <= w'
    ensures Waiting(g, loops, m, w')
  {
  }

  // The successors still to be tried: those from the i-th on in the first round, and all of the second round.
  ghost function Later(loops: Loops, l: nat, succs: seq<nat>, i: nat, second: bool): set<nat>
    requires l < |loops.outer| && forall j :: 0 <= j < |succs| ==> succs[j] < |loops.loopOf|
  {
    set j: nat | j < |succs| && (if loops.InOuter(l, succs[j]) then !second || i <= j else !second && i <= j) ::
      succs[j]
  }

  lemma LaterStep(loops: Loops, l: nat, succs: seq<nat>, i: nat, second: bool)
    requires l < |loops.outer| && (forall j :: 0 <= j < |succs| ==> succs[j] < |loops.loopOf|) && i < |succs|
    ensures loops.InOuter(l, succs[i]) == second ==>
              Later(loops, l, succs, i, second) == Later(loops, l, succs, i + 1, second) + {succs[i]}
    ensures loops.InOuter(l, succs[i]) != second ==>
              Later(loops, l, succs, i, second) == Later(loops, l, succs, i + 1, second)
  {
  }

  lemma LaterEnds(loops: Loops, l: nat, succs: seq<nat>)
    requires l < |loops.outer| && forall j :: 0 <= j < |succs| ==> succs[j] < |loops.loopOf|
    ensures (set s | s in succs) <= Later(loops, l, succs, 0, false)
    ensures Later(loops, l, succs, |succs|, false) == Later(loops, l, succs, 0, true)
    ensures Later(loops, l, succs, |succs|, true) == {}
  {
  }

  lemma NotPlaced(order: seq<Elem>, b: nat)
    requires b !in BlocksOf(order)
    ensures forall j :: 0 <= j < |order| ==> order[j].block != b
  {
    forall j | 0 <= j < |order| ensures order[j].block != b {
      assert order[j].block in BlocksOf(order);
    }
  }

  // In front of the walk only the entry can be placed.
  lemma NothingWaits(g: Graph, loops: Loops)
    requires g.Valid() && loops.Valid(g)
    ensures BlocksOf([]) == {} && Waiting(g, loops, {}, {} + {ENTRY}) && Enabled(g, loops, ENTRY, {})
  {
  }

  lemma {:induction false} BlocksSize(order: seq<Elem>)
    requires forall i, j :: 0 <= i < j < |order| ==> order[i].block != order[j].block
    ensures |BlocksOf(order)| == |order|
  {
    if order != [] {
      var o, e := order[..|order| - 1], order[|order| - 1];
      BlocksSize(o);
      forall b: nat ensures b in BlocksOf(order) <==> b in BlocksOf(o) + {e.block} {
        if b in BlocksOf(order) {
          var j :| 0 <= j < |order| && order[j].block == b;
          assert j < |o| ==> o[j].block == b;
        }
        if b in BlocksOf(o) {
          var j :| 0 <= j < |o| && o[j].block == b;
          assert order[j].block == b;
        }
      }
      assert BlocksOf(order) == BlocksOf(o) + {e.block};
    }
  }

  // Counting the blocks placed tells whether all are.
  lemma CountedIff(g: Graph, loops: Loops, order: seq<Elem>)
    requires g.Valid() && loops.Valid(g) && Placed(g, loops, order)
    ensures |order| == g.Size() <==> forall b: nat :: b < g.Size() ==> b in BlocksOf(order)
  {
    BlocksSize(order);
    assert BlocksOf(order) <= UpTo(g.Size());
    SubsetSize(BlocksOf(order), UpTo(g.Size()));
    if forall b: nat :: b < g.Size() ==> b in BlocksOf(order) {
      assert UpTo(g.Size()) <= BlocksOf(order);
      assert UpTo(g.Size()) == BlocksOf(order);
    }
  }

  lemma NothingWalked(g: Graph, loops: Loops, bb: nat, m: set<nat>)
    requires g.Valid() && loops.Valid(g)
    ensures Explored(g, bb, m, m) && ChainsDone(g, loops, m, m) && ArmsApart(g, loops, m, m)
  {
  }

  lemma NothingTried(g: Graph, loops: Loops, bb: nat, second: bool, m: set<nat>)
    requires g.Valid() && loops.Valid(g) && bb < g.Size()
    ensures Tried(g, loops, bb, second, 0, m, m)
  {
  }

  // What can be placed next can be placed later.
  lemma EnabledStill(g: Graph, loops: Loops, b: nat, m: set<nat>, m': set<nat>)
    requires g.Valid() && loops.Valid(g) && b < g.Size() && m <= m'
    ensures Enabled(g, loops, b, m) ==> Enabled(g, loops, b, m')
  {
  }

  lemma WalkedOn(g: Graph, loops: Loops, bb: nat, m0: set<nat>, m1: set<nat>, m2: set<nat>, held: bool, held': bool)
    requires g.Valid() && loops.Valid(g) && m0 <= m1 <= m2 && Explored(g, bb, m0, m1) && Explored(g, bb, m1, m2)
    requires ChainsDone(g, loops, m0, m1) && ChainsDone(g, loops, m1, m2)
    requires (held ==> ArmsApart(g, loops, m0, m1)) && (held' ==> held && ArmsApart(g, loops, m1, m2))
    ensures Explored(g, bb, m0, m2) && ChainsDone(g, loops, m0, m2) && (held' ==> ArmsApart(g, loops, m0, m2))
  {
    hide Explored, ChainsDone, ArmsApart;
    ExploredCompose(g, bb, m0, m1, m2);
    ChainsCompose(g, loops, m0, m1, m2);
    if held' {
      ArmsCompose(g, loops, m0, m1, m2);
    }
  }

  // A whole visit: the block itself, and both rounds over its successors.
  lemma VisitWalked(g: Graph, loops: Loops, order0: seq<Elem>, order1: seq<Elem>, order2: seq<Elem>, m: set<nat>,
                    bb: nat, held: bool)
    requires g.Valid() && loops.Valid(g) && bb < g.Size() && Placed(g, loops, order0) && Placed(g, loops, order1)
    requires Placed(g, loops, order2) && bb !in BlocksOf(order0) && BlocksOf(order1) == BlocksOf(order0) + {bb}
    requires BlocksOf(order1) <= BlocksOf(order2) <= m
    requires Explored(g, bb, BlocksOf(order1), BlocksOf(order2)) && Explored(g, bb, BlocksOf(order2), m)
    requires ChainsDone(g, loops, BlocksOf(order1), BlocksOf(order2)) && ChainsDone(g, loops, BlocksOf(order2), m)
    requires Tried(g, loops, bb, false, |g.succs[bb]|, BlocksOf(order1), BlocksOf(order2))
    requires Tried(g, loops, bb, true, |g.succs[bb]|, BlocksOf(order2), m)
    requires held ==>
              ArmsApart(g, loops, BlocksOf(order1), BlocksOf(order2)) &&
              ArmsApart(g, loops, BlocksOf(order2), m)
    requires held ==> BackEdgesIn(loops, loops.loopOf[bb], BlocksOf(order2))
    ensures Explored(g, bb, BlocksOf(order0), m) && ChainsDone(g, loops, BlocksOf(order0), m)
    ensures held ==> ArmsApart(g, loops, BlocksOf(order0), m)
  {
    hide Explored, ChainsDone, ArmsApart, Tried, BackEdgesIn, Placed, BlocksOf;
    var m0, m1, m2 := BlocksOf(order0), BlocksOf(order1), BlocksOf(order2);
    ExploredCompose(g, bb, m1, m2, m);
    ExploredSelf(g, bb, m0, m);
    ChainsCompose(g, loops, m1, m2, m);
    TriedStays(g, loops, bb, false, |g.succs[bb]|, m1, m1, m2, m);
    TriedStays(g, loops, bb, true, |g.succs[bb]|, m1, m2, m, m);
    ChainsVisit(g, loops, order0, order1, bb, m);
    if held {
      ArmsCompose(g, loops, m1, m2, m);
      ArmsVisit(g, loops, m0, order1, order2, bb, m);
    }
  }

  class LinearOrder {
    const p: Program
    const loops: Loops
    const blocks: BlockMarks
    var mark: nat
    var order: seq<Elem>
    var lifeNumber: nat
    var lns: map<nat, nat>
    var backEdgesMarked: bool  // whether the assertion between the rounds over the successors has held so far

    constructor (p: Program, loops: Loops, blocks: BlockMarks)
      requires Ir.Sized(p) && blocks.Valid() && |blocks.marks| == p.g.Size()
      modifies blocks
      ensures this.p == p && this.loops == loops && this.blocks == blocks
      ensures blocks.Valid() && |blocks.marks| == p.g.Size() && mark <= blocks.counter
      ensures DominatorTree.MarkedSet(blocks.marks, mark) == {} && order == [] && lifeNumber == 0 && backEdgesMarked
    {
      this.p, this.loops, this.blocks := p, loops, blocks;
      order, lifeNumber, lns, backEdgesMarked := [], 0, map[], true;
      new;
      mark := blocks.NewMarker();
    }

    ghost predicate Valid()
      reads this, blocks
    {
      && Ir.Sized(p) && Unique(p) && loops.Valid(p.g) && blocks.Valid() && |blocks.marks| == p.g.Size()
      && mark <= blocks.counter && InRange(p, order) && Numbered(p, order, lns, lifeNumber)
      && Placed(p.g, loops, order) && BlocksOf(order) == DominatorTree.MarkedSet(blocks.marks, mark)
    }

    // LinearOrder::AllSidePredsMarked
    method AllSidePredsMarked(bb: nat) returns (all: bool)
      requires Valid() && bb < p.g.Size()
      ensures all <==> SidePredsIn(p.g, loops, bb, BlocksOf(order))
    {
      hide Numbered, Placed, Unique, SidePredsIn, DominatorTree.MarkedSet, BlocksOf;
      var preds := p.g.preds[bb];
      ghost var m := BlocksOf(order);
      for i := 0 to |preds|
        invariant forall k :: 0 <= k < i ==> loops.IsSide(preds[k], bb) ==> preds[k] in m
      {
        ReversePostOrder.MarkedIffIn(blocks.marks, preds[i], mark);
        if loops.IsSide(preds[i], bb) && !blocks.IsMarked(preds[i], mark) {
          SidePredMissing(p.g, loops, m, bb, preds[i]);
          return false;
        }
      }
      AllSidePreds(p.g, loops, m, bb);
      all := true;
    }

    // LinearOrder::AssignLifeNumbers
    method AssignLifeNumbers(bb: nat)
      requires Ir.Sized(p) && Unique(p) && InRange(p, order) && Numbered(p, order, lns, lifeNumber) && bb < p.g.Size()
      requires forall j :: 0 <= j < |order| ==> order[j].block != bb
      modifies this`order, this`lifeNumber, this`lns
      ensures order == old(order) + [Elem(bb, old(lifeNumber))]
      ensures InRange(p, order) && Numbered(p, order, lns, lifeNumber)
    {
      hide Numbered, InRange;
      ghost var ln := lifeNumber;
      order := order + [Elem(bb, lifeNumber)];
      for i := 0 to |p.phis[bb]|
        invariant forall x :: x in p.phis[bb][..i] ==> x in lns && lns[x] == ln
        invariant forall x :: x in old(lns) && x !in p.phis[bb] ==> x in lns && lns[x] == old(lns)[x]
        modifies this`lns
      {
        lns := lns[p.phis[bb][i] := lifeNumber];
      }
      lifeNumber := lifeNumber + 2;
      for i := 0 to |p.body[bb]|
        invariant lifeNumber == ln + 2 + 2 * i
        invariant forall k :: 0 <= k < i ==> p.body[bb][k] in lns && lns[p.body[bb][k]] == ln + 2 + 2 * k
        invariant forall x :: x in p.phis[bb] ==> x in lns && lns[x] == ln
        invariant forall x :: x in old(lns) && !InBlock(p, x, bb) ==> x in lns && lns[x] == old(lns)[x]
        modifies this`lns, this`lifeNumber
      {
        lns := lns[p.body[bb][i] := lifeNumber];
        lifeNumber := lifeNumber + 2;
      }
      NumberedAppend(p, old(order), old(lns), ln, bb, lns);
    }

    method Visit(bb: nat)
      requires Valid() && bb < p.g.Size() && bb !in BlocksOf(order) && Enabled(p.g, loops, bb, BlocksOf(order))
      modifies this`order, this`lifeNumber, this`lns, blocks`marks
      ensures Valid() && BlocksOf(order) == old(BlocksOf(order)) + {bb}
      ensures order == old(order) + [Elem(bb, old(lifeNumber))]
    {
      hide Numbered, Placed, Unique, Enabled, DominatorTree.MarkedSet, BlocksOf;
      ReversePostOrder.MarkGrows(blocks.marks, bb, mark);
      NotPlaced(order, bb);
      blocks.Mark(bb, mark);
      PlacedAppend(p.g, loops, order, Elem(bb, lifeNumber));
      AssignLifeNumbers(bb);
    }

    // LinearOrder::AllBackEdgesMarked
    method AllBackEdgesMarked(l: nat) returns (all: bool)
      requires Valid() && l < |loops.backEdges|
      ensures all <==> BackEdgesIn(loops, l, BlocksOf(order))
    {
      hide Numbered, Placed, Unique, DominatorTree.MarkedSet, BlocksOf;
      var edges := loops.backEdges[l];
      for i := 0 to |edges|
        invariant forall k :: 0 <= k < i ==> edges[k] in BlocksOf(order)
      {
        ReversePostOrder.MarkedIffIn(blocks.marks, edges[i], mark);
        if !blocks.IsMarked(edges[i], mark) {
          assert edges[i] in edges;
          return false;
        }
      }
      all := true;
    }

    // What a visit does to the marked blocks m0: those it places, it reaches from bb, and lists of blocks with only one
    // order are placed as a whole. The arms of a loop are left out, as long as the assertion holds.
    ghost predicate Walked(bb: nat, m0: set<nat>, held: bool)
      reads this, blocks
      requires p.g.Valid() && loops.Valid(p.g)
    {
      && m0 <= BlocksOf(order) && Explored(p.g, bb, m0, BlocksOf(order)) && ChainsDone(p.g, loops, m0, BlocksOf(order))
      && (backEdgesMarked ==> held && ArmsApart(p.g, loops, m0, BlocksOf(order)))
      && (held && AllOneWay(p.g, loops) ==> backEdgesMarked)
    }

    // LinearOrder::DFS. The blocks of w are tried later by the visits that are under way. The blocks are placed in the
    // order of the walk on values. As long as the assertion holds, exits of loops stand behind their back edges.
    method DFS(bb: nat, ghost w: set<nat>)
      requires Valid() && bb < p.g.Size() && bb !in BlocksOf(order) && SomePredIn(p.g, bb, BlocksOf(order))
      requires Waiting(p.g, loops, BlocksOf(order), w + {bb}) && ExitsOk(p.g, loops, order, backEdgesMarked, bb)
      requires bb !in Sequence(order)
      modifies this`order, this`lifeNumber, this`lns, this`backEdgesMarked, blocks`marks
      ensures Valid() && Walked(bb, old(BlocksOf(order)), old(backEdgesMarked))
      ensures Waiting(p.g, loops, BlocksOf(order), w)
      ensures old(Enabled(p.g, loops, bb, BlocksOf(order))) ==> bb in BlocksOf(order)
      ensures bb in BlocksOf(order) || BlocksOf(order) == old(BlocksOf(order))
      ensures ExitsLeft(p.g, loops, old(BlocksOf(order)), order, backEdgesMarked)
      ensures Sequence(order) == Walk(p.g, loops, old(Sequence(order)), bb)
      decreases UpTo(p.g.Size()) - BlocksOf(order), 0
    {
      hide Numbered, Placed, Unique, SidePredsIn, SomePredIn, DominatorTree.MarkedSet, BlocksOf, Waiting, Later;
      hide HeaderIn, ExitsOk, ExitsLeft, Walk, WalkAll, Sequence, Members;
      hide Explored, ChainsDone, ArmsApart, AllOneWay, Tried, BackEdgesIn;
      ghost var order0, m0 := order, BlocksOf(order);
      WalkIs(p.g, loops, Sequence(order), bb);
      SequenceBlocks(order);
      var all := AllSidePredsMarked(bb);
      if !all {
        NotWaiting(p.g, loops, m0, w, bb);
        NothingWalked(p.g, loops, bb, m0);
        ExitsNothing(p.g, loops, order, backEdgesMarked, bb);
        return;
      }
      SequenceAppend(order, Elem(bb, lifeNumber));
      Visit(bb);
      ExitsPlace(p.g, loops, order0, order[|order0|], backEdgesMarked);
      HeaderPlaced(p.g, loops, order, bb);
      assert HeaderIn(p.g, loops, bb, BlocksOf(order));
      ghost var order1 := order;
      var succs, l := p.g.succs[bb], loops.loopOf[bb];
      PlaceWaiting(p.g, loops, m0, w, bb);
      assert (set s | s in p.g.succs[bb]) == (set s | s in succs);
      LaterEnds(loops, l, succs);
      MoreWaiting(p.g, loops, BlocksOf(order), w + (set s | s in succs), w + Later(loops, l, succs, 0, false));
      TryAll(bb, false, w);
      ghost var order2 := order;
      ghost var held2 := backEdgesMarked;
      CheckBackEdges(bb, order0, order1);
      ExitsHeld(p.g, loops, order, held2, backEdgesMarked, bb);
      TryAll(bb, true, w);
      ExitsVisit(p.g, loops, m0, bb, order1, order2, held2, order, backEdgesMarked);
      VisitWalked(p.g, loops, order0, order1, order2, BlocksOf(order), bb, backEdgesMarked);
      assert w + {} == w;
    }

    // The assertion between the two rounds.
    method CheckBackEdges(bb: nat, ghost order0: seq<Elem>, ghost order1: seq<Elem>)
      requires Valid() && bb < p.g.Size() && Placed(p.g, loops, order0) && Placed(p.g, loops, order1)
      requires bb !in BlocksOf(order0) && BlocksOf(order1) == BlocksOf(order0) + {bb}
      requires BlocksOf(order1) <= BlocksOf(order)
      requires ChainsDone(p.g, loops, BlocksOf(order1), BlocksOf(order))
      requires Tried(p.g, loops, bb, false, |p.g.succs[bb]|, BlocksOf(order1), BlocksOf(order))
      modifies this`backEdgesMarked
      ensures Valid()
      ensures backEdgesMarked <==> old(backEdgesMarked) && BackEdgesIn(loops, loops.loopOf[bb], BlocksOf(order))
      ensures old(backEdgesMarked) && AllOneWay(p.g, loops) ==> backEdgesMarked
    {
      hide Numbered, Placed, Unique, DominatorTree.MarkedSet, BlocksOf, ChainsDone, AllOneWay, Tried, BackEdgesIn;
      var marked := AllBackEdgesMarked(loops.loopOf[bb]);
      if !marked {
        backEdgesMarked := false;
      }
      if AllOneWay(p.g, loops) {
        BackEdgesDone(p.g, loops, order0, order1, bb, BlocksOf(order));
      }
    }

    // The two loops over the successors: first those that do not belong to the loop around, then those that do.
    method TryAll(bb: nat, second: bool, ghost w: set<nat>)
      requires Valid() && bb < p.g.Size() && bb in BlocksOf(order)
      requires Waiting(p.g, loops, BlocksOf(order), w + Later(loops, loops.loopOf[bb], p.g.succs[bb], 0, second))
      requires ExitsOk(p.g, loops, order, backEdgesMarked, bb) && Postorder.InGraph(p.g, p.g.succs[bb])
      requires second && backEdgesMarked ==> BackEdgesIn(loops, loops.loopOf[bb], BlocksOf(order))
      modifies this`order, this`lifeNumber, this`lns, this`backEdgesMarked, blocks`marks
      ensures Valid() && Walked(bb, old(BlocksOf(order)), old(backEdgesMarked))
      ensures Waiting(p.g, loops, BlocksOf(order),
                w + Later(loops, loops.loopOf[bb], p.g.succs[bb], |p.g.succs[bb]|, second))
      ensures Tried(p.g, loops, bb, second, |p.g.succs[bb]|, old(BlocksOf(order)), BlocksOf(order))
      ensures ExitsOk(p.g, loops, order, backEdgesMarked, bb)
      ensures ExitsLeft(p.g, loops, old(BlocksOf(order)), order, backEdgesMarked)
      ensures Sequence(order) == WalkAll(p.g, loops, old(Sequence(order)), loops.loopOf[bb], p.g.succs[bb], second)
      decreases UpTo(p.g.Size()) - BlocksOf(order), 2
    {
      hide Numbered, Placed, Unique, SidePredsIn, SomePredIn, DominatorTree.MarkedSet, BlocksOf, Waiting, Later;
      hide Explored, ChainsDone, ArmsApart, AllOneWay, Tried, Enabled, ExitsOk, ExitsLeft, WalkAll, WalkOne, WalkedTo;
      hide Sequence;
      var succs, l := p.g.succs[bb], loops.loopOf[bb];
      ghost var m0, done := BlocksOf(order), Sequence(order);
      ExitsNothing(p.g, loops, order, backEdgesMarked, bb);
      WalkStart(p.g, loops, done, l, succs, second);
      NothingWalked(p.g, loops, bb, m0);
      NothingTried(p.g, loops, bb, second, m0);
      for i := 0 to |succs|
        invariant Valid() && Walked(bb, m0, old(backEdgesMarked))
        invariant Waiting(p.g, loops, BlocksOf(order), w + Later(loops, l, succs, i, second))
        invariant Tried(p.g, loops, bb, second, i, m0, BlocksOf(order))
        invariant ExitsOk(p.g, loops, order, backEdgesMarked, bb) && ExitsLeft(p.g, loops, m0, order, backEdgesMarked)
        invariant second && backEdgesMarked ==> BackEdgesIn(loops, l, BlocksOf(order))
        invariant WalkedTo(p.g, loops, done, l, succs, second, i, Sequence(order))
      {
        LaterStep(loops, l, succs, i, second);
        ghost var m1, held := BlocksOf(order), backEdgesMarked;
        ghost var order1 := order;
        WalkMore(p.g, loops, done, l, succs, second, i, Sequence(order));
        NotWalked(p.g, loops, Sequence(order), l, succs[i], second);
        if loops.InOuter(l, succs[i]) == second {
          ghost var later := w + Later(loops, l, succs, i + 1, second);
          assert later + {succs[i]} == w + Later(loops, l, succs, i, second);
          TrySucc(bb, i, later);
          ExitsBack(p.g, loops, order1, held, bb, order, backEdgesMarked);
          ExitsCompose(p.g, loops, m0, order1, held, order, backEdgesMarked);
          WalkedOn(p.g, loops, bb, m0, m1, BlocksOf(order), held, backEdgesMarked);
          EnabledStill(p.g, loops, succs[i], m0, m1);
        }
        TriedMore(p.g, loops, bb, second, i, m0, m1, BlocksOf(order));
      }
      WalkEnd(p.g, loops, done, l, succs, second, Sequence(order));
    }

    // One step of the two loops over the successors.
    method TrySucc(bb: nat, i: nat, ghost w: set<nat>)
      requires Valid() && bb < p.g.Size() && i < |p.g.succs[bb]| && bb in BlocksOf(order)
      requires Waiting(p.g, loops, BlocksOf(order), w + {p.g.succs[bb][i]})
      requires ExitsOk(p.g, loops, order, backEdgesMarked, bb)
      requires backEdgesMarked && loops.InOuter(loops.loopOf[bb], p.g.succs[bb][i]) ==>
                 BackEdgesIn(loops, loops.loopOf[bb], BlocksOf(order))
      modifies this`order, this`lifeNumber, this`lns, this`backEdgesMarked, blocks`marks
      ensures Valid() && Walked(bb, old(BlocksOf(order)), old(backEdgesMarked))
      ensures Waiting(p.g, loops, BlocksOf(order), w)
      ensures old(Enabled(p.g, loops, p.g.succs[bb][i], BlocksOf(order))) ==> p.g.succs[bb][i] in BlocksOf(order)
      ensures ExitsLeft(p.g, loops, old(BlocksOf(order)), order, backEdgesMarked)
      ensures Sequence(order) ==
                if p.g.succs[bb][i] in old(Sequence(order)) then old(Sequence(order))
                else Walk(p.g, loops, old(Sequence(order)), p.g.succs[bb][i])
      decreases UpTo(p.g.Size()) - BlocksOf(order), 1
    {
      hide Numbered, Placed, Unique, SidePredsIn, DominatorTree.MarkedSet, BlocksOf, Waiting;
      hide Explored, ChainsDone, ArmsApart, AllOneWay, Enabled, ExitsOk, ExitsLeft, Walk, Sequence;
      var succ := p.g.succs[bb][i];
      SequenceBlocks(order);
      ReversePostOrder.MarkedIffIn(blocks.marks, succ, mark);
      ghost var m0 := BlocksOf(order);
      if !blocks.IsMarked(succ, mark) {
        assert bb in p.g.preds[succ];
        ExitsTry(p.g, loops, order, backEdgesMarked, bb, succ);
        DFS(succ, w);
        ExploredSucc(p.g, bb, succ, m0, BlocksOf(order));
      } else {
        NotWaiting(p.g, loops, BlocksOf(order), w, succ);
        NothingWalked(p.g, loops, bb, m0);
        ExitsNothing(p.g, loops, order, backEdgesMarked, bb);
      }
    }

    // The constructor of the source: the walk from the entry. `complete` is its final assertion.
    method Build() returns (complete: bool)
      requires Valid() && order == [] && backEdgesMarked
      modifies this`order, this`lifeNumber, this`lns, this`backEdgesMarked, blocks`marks
      ensures Valid()
      ensures complete <==> forall b: nat :: b < p.g.Size() ==> b in BlocksOf(order)
      ensures complete <==> !exists u :: Stuck(p.g, loops, u)
      ensures AllReachable(p.g) && HeadersEntered(p.g, loops) && Acyclic(p.g, loops) ==> complete
      ensures AllOneWay(p.g, loops) ==> backEdgesMarked
      ensures complete && HasArms(p.g, loops) ==> !backEdgesMarked
      ensures backEdgesMarked && Nests(p.g, loops) ==> ExitsBehind(p.g, loops, order)
      ensures Sequence(order) == Walk(p.g, loops, [], ENTRY)
    {
      hide Numbered, Unique, DominatorTree.MarkedSet, Acyclic, Entered, HeadersEntered, AllReachable;
      hide Explored, ChainsDone, ArmsApart, AllOneWay, HasArms, BlocksOf, ExitsBehind, Walk, NewDone, Nests;
      NothingWaits(p.g, loops);
      ExitsStart(p.g, loops, backEdgesMarked, ENTRY);
      DFS(ENTRY, {});
      complete := |order| == p.g.Size();
      CountedIff(p.g, loops, order);
      CompleteIff(p.g, loops, order);
      if AllReachable(p.g) && HeadersEntered(p.g, loops) && Acyclic(p.g, loops) {
        AllEntered(p.g, loops);
        NothingStuck(p.g, loops);
      }
      if complete && backEdgesMarked {
        ArmsPlaced(p.g, loops, BlocksOf(order));
      }
    }
  }
}
