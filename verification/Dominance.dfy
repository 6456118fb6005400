// Dominance queries over the immediate-dominator links, and the block-exclusion check of those links.
module Dominance {
  import opened Cfg
  import opened FiniteSets
  import opened DominatorTree

  // The links form a tree with the entry at its root: `rank` drops along every link.
  ghost predicate Linked(g: Graph, idoms: seq<BlockRef>, rank: seq<nat>) {
    && g.Valid() && |idoms| == |rank| == g.Size()
    && idoms[ENTRY] == Null
    && (forall b :: 0 <= b < g.Size() && b != ENTRY ==>
          idoms[b].Ref? && idoms[b].id < g.Size() && rank[idoms[b].id] < rank[b])
  }

  // dom is b or one of the blocks the links lead to from b.
  ghost predicate OnChain(g: Graph, idoms: seq<BlockRef>, rank: seq<nat>, dom: nat, b: nat)
    requires Linked(g, idoms, rank) && b < g.Size()
    decreases rank[b]
  {
    dom == b || (b != ENTRY && OnChain(g, idoms, rank, dom, idoms[b].id))
  }

  // The links are the immediate dominators.
  ghost predicate DomTreeOf(g: Graph, idoms: seq<BlockRef>) {
    && g.Valid() && AllReachable(g) && |idoms| == g.Size()
    && idoms[ENTRY] == Null
    && (forall b :: 0 <= b < g.Size() && b != ENTRY ==> idoms[b].Ref? && IsIdom(g, idoms[b].id, b))
  }

  ghost function Dominators(g: Graph, b: nat): set<nat> {
    set d | d in UpTo(g.Size()) && Dominates(g, d, b)
  }

  ghost function Depths(g: Graph): (r: seq<nat>)
    ensures |r| == g.Size()
  {
    seq(g.Size(), b requires 0 <= b < g.Size() => |Dominators(g, b)|)
  }

  lemma IdomHasFewerDominators(g: Graph, d: nat, b: nat)
    requires AllReachable(g) && b < g.Size() && IsIdom(g, d, b)
    ensures |Dominators(g, d)| < |Dominators(g, b)|
  {
    forall x | x in Dominators(g, d) ensures x in Dominators(g, b) {
      DominatesTransitive(g, x, d, b);
    }
    if Dominates(g, b, d) {
      DominatesAntisymmetric(g, d, b);
    }
    assert b in Dominators(g, b) && b !in Dominators(g, d);
    SubsetSize(Dominators(g, d), Dominators(g, b));
  }

  // Immediate dominators form a tree, ranked by their number of dominators.
  lemma DomTreeLinked(g: Graph, idoms: seq<BlockRef>)
    requires DomTreeOf(g, idoms)
    ensures Linked(g, idoms, Depths(g))
  {
    hide IsIdom;
    forall b | 0 <= b < g.Size() && b != ENTRY
      ensures idoms[b].id < g.Size() && |Dominators(g, idoms[b].id)| < |Dominators(g, b)|
    {
      assert IsIdom(g, idoms[b].id, b);
      IdomInRange(g, idoms[b].id, b);
      IdomHasFewerDominators(g, idoms[b].id, b);
    }
  }

  lemma IdomInRange(g: Graph, d: nat, b: nat)
    requires IsIdom(g, d, b)
    ensures d < g.Size()
  {
  }

  // Strict dominance is dominance of the immediate dominator.
  lemma StrictViaIdom(g: Graph, x: nat, d: nat, b: nat)
    requires IsIdom(g, d, b)
    ensures StrictlyDominates(g, x, b) <==> x != b && Dominates(g, x, d)
  {
    if Dominates(g, x, d) {
      DominatesTransitive(g, x, d, b);
    }
  }

  // Following the links from b passes exactly the dominators of b.
  lemma {:induction false} ChainIsDominance(g: Graph, idoms: seq<BlockRef>, dom: nat, b: nat)
    requires DomTreeOf(g, idoms) && Linked(g, idoms, Depths(g)) && b < g.Size()
    ensures OnChain(g, idoms, Depths(g), dom, b) <==> Dominates(g, dom, b)
    decreases Depths(g)[b]
  {
    if b == ENTRY {
      OnlyEntryDominatesEntry(g, dom);
    } else {
      ChainIsDominance(g, idoms, dom, idoms[b].id);
      StrictViaIdom(g, dom, idoms[b].id, b);
      assert Dominates(g, b, b);
    }
  }

  // Graph::IsDominator
  method IsDominator(g: Graph, idoms: seq<BlockRef>, ghost rank: seq<nat>, dom: nat, block: nat) returns (r: bool)
    requires Linked(g, idoms, rank) && block < g.Size()
    ensures r <==> OnChain(g, idoms, rank, dom, block)
  {
    if dom == block {
      return true;
    }
    var b: nat := block;
    var idom := idoms[b];
    while b != ENTRY
      invariant b < g.Size() && idom == idoms[b] && dom != b
      invariant OnChain(g, idoms, rank, dom, block) <==> OnChain(g, idoms, rank, dom, b)
      decreases rank[b]
    {
      if idom == Ref(dom) {
        return true;
      }
      b := idom.id;
      idom := idoms[idom.id];
    }
    return false;
  }

  // BasicBlock::Dominates
  method BlockDominates(g: Graph, idoms: seq<BlockRef>, ghost rank: seq<nat>, this': nat, other: nat) returns (r: bool)
    requires Linked(g, idoms, rank) && this' != other && other < g.Size()
    ensures r <==> OnChain(g, idoms, rank, this', other)
  {
    var o := Ref(other);
    while o != Null
      invariant o.Ref? ==> o.id < g.Size() && o.id != this'
      invariant OnChain(g, idoms, rank, this', other) <==> o.Ref? && OnChain(g, idoms, rank, this', o.id)
      decreases if o.Ref? then 1 + rank[o.id] else 0
    {
      var idom := idoms[o.id];
      if Ref(this') == idom {
        return true;
      }
      o := idom;
    }
    return false;
  }

  // With the links of the dominator tree both queries answer path dominance.
  method DominanceQueries(g: Graph, idoms: seq<BlockRef>, a: nat, b: nat) returns (q: bool, r: bool)
    requires DomTreeOf(g, idoms) && a != b && b < g.Size()
    ensures q == r == Dominates(g, a, b)
  {
    DomTreeLinked(g, idoms);
    ChainIsDominance(g, idoms, a, b);
    q := IsDominator(g, idoms, Depths(g), a, b);
    r := BlockDominates(g, idoms, Depths(g), a, b);
  }

  // Every dominator of a block is on the block's chain.
  ghost predicate ChainsCoverDominance(g: Graph, idoms: seq<BlockRef>, rank: seq<nat>)
    requires Linked(g, idoms, rank)
  {
    forall x, b :: 0 <= x < g.Size() && 0 <= b < g.Size() && Dominates(g, x, b) ==> OnChain(g, idoms, rank, x, b)
  }

  // ---------------------------------------------------------------- DomTreeCheck

  // A path from the entry that does not step onto the ignored block.
  ghost predicate Avoids(g: Graph, p: seq<nat>, b: nat, ignored: BlockRef) {
    PathTo(g, p, ENTRY, b) && forall i :: 0 < i < |p| ==> Ref(p[i]) != ignored
  }

  ghost predicate ReachedWithout(g: Graph, b: nat, ignored: BlockRef) {
    exists p :: Avoids(g, p, b, ignored)
  }

  // Every successor of b is collected or ignored.
  ghost predicate Swept(g: Graph, reached: seq<BlockRef>, b: nat, ignored: BlockRef)
    requires b < g.Size() == |reached|
  {
    forall s :: s in g.succs[b] && s < g.Size() && Ref(s) != ignored ==> reached[s] == Ref(s)
  }

  ghost predicate WellCollected(g: Graph, reached: seq<BlockRef>) {
    |reached| == g.Size() && forall b :: 0 <= b < g.Size() ==> reached[b] == Null || reached[b] == Ref(b)
  }

  // The effect of CollectBlocks on the collected blocks.
  ghost predicate Collected(g: Graph, before: seq<BlockRef>, after: seq<BlockRef>, ignored: BlockRef)
  {
    && WellCollected(g, before) && WellCollected(g, after)
    && (forall b :: 0 <= b < g.Size() && before[b] != Null ==> after[b] != Null)
    && (forall b :: 0 <= b < g.Size() && after[b] != before[b] ==>
      ReachedWithout(g, b, ignored) && Swept(g, after, b, ignored))
  }

  ghost function Missing(reached: seq<BlockRef>): set<nat> {
    set b | 0 <= b < |reached| && reached[b] == Null
  }

  lemma ReachedStep(g: Graph, a: nat, b: nat, ignored: BlockRef)
    requires g.Valid() && ReachedWithout(g, a, ignored) && a < g.Size() && b in g.succs[a] && b < g.Size()
    requires Ref(b) != ignored
    ensures ReachedWithout(g, b, ignored)
  {
    var p :| Avoids(g, p, a, ignored);
    PathExtend(g, p, ENTRY, a, b);
    assert Avoids(g, p + [b], b, ignored);
  }

  // What CollectBlocks misses is exactly what the ignored block dominates.
  lemma MissedIsDominated(g: Graph, x: nat, b: nat)
    requires g.Valid() && b < g.Size() && x != ENTRY
    ensures !ReachedWithout(g, b, Ref(x)) <==> Dominates(g, x, b)
  {
    if !Dominates(g, x, b) {
      var p :| PathTo(g, p, ENTRY, b) && x !in p;
      assert Avoids(g, p, b, Ref(x));
    }
    if ReachedWithout(g, b, Ref(x)) {
      var p :| Avoids(g, p, b, Ref(x));
      assert x !in p;
    }
  }

  lemma NothingMissedWithoutEntry(g: Graph, b: nat)
    requires g.Valid() && Reachable(g, b) && b < g.Size()
    ensures ReachedWithout(g, b, Ref(ENTRY)) && ReachedWithout(g, b, Null)
  {
    var p :| PathTo(g, p, ENTRY, b);
    forall i | 0 < i < |p| ensures p[i] != ENTRY {
      assert Step(g, p, i);
      assert p[i - 1] in g.preds[p[i]];
    }
    assert Avoids(g, p, b, Ref(ENTRY)) && Avoids(g, p, b, Null);
  }

  class DomTreeCheck {
    const g: Graph
    var allBlocks: seq<BlockRef>
    var reachedBlocks: seq<BlockRef>
    var ignoredBlock: BlockRef

    constructor (g: Graph)
      ensures this.g == g && reachedBlocks == seq(g.Size(), _ => Null) && ignoredBlock == Null
    {
      this.g := g;
      reachedBlocks := seq(g.Size(), _ => Null);
      allBlocks := seq(g.Size(), _ => Null);
      ignoredBlock := Null;
    }

    method CollectBlocks(bb: nat)
      requires g.Valid() && WellCollected(g, reachedBlocks) && bb < g.Size() && reachedBlocks[bb] == Null
      requires ReachedWithout(g, bb, ignoredBlock)
      modifies this`reachedBlocks
      ensures Collected(g, old(reachedBlocks), reachedBlocks, ignoredBlock) && reachedBlocks[bb] == Ref(bb)
      decreases Missing(reachedBlocks)
    {
      hide ReachedWithout;
      ghost var before := reachedBlocks;
      reachedBlocks := reachedBlocks[bb := Ref(bb)];
      for i := 0 to |g.succs[bb]|
        invariant WellCollected(g, reachedBlocks) && reachedBlocks[bb] == Ref(bb)
        invariant forall b :: 0 <= b < g.Size() && before[b] != Null ==> reachedBlocks[b] != Null
        invariant forall b :: 0 <= b < g.Size() && reachedBlocks[b] != before[b] && b != bb ==>
          ReachedWithout(g, b, ignoredBlock) && Swept(g, reachedBlocks, b, ignoredBlock)
        invariant forall k :: 0 <= k < i && Ref(g.succs[bb][k]) != ignoredBlock ==>
          reachedBlocks[g.succs[bb][k]] != Null
      {
        var succ := g.succs[bb][i];
        if reachedBlocks[succ] == Null && Ref(succ) != ignoredBlock {
          ReachedStep(g, bb, succ, ignoredBlock);
          assert bb in Missing(before) && Missing(reachedBlocks) <= Missing(before) - {bb};
          ghost var between := reachedBlocks;
          CollectBlocks(succ);
          SweptStays(g, between, reachedBlocks, ignoredBlock);
        }
      }
    }

    // Collects what can be reached from the entry without the ignored block.
    method CollectFromEntry()
      requires g.Valid() && reachedBlocks == seq(g.Size(), _ => Null)
      modifies this`reachedBlocks
      ensures |reachedBlocks| == g.Size()
      ensures forall b :: 0 <= b < g.Size() ==>
        reachedBlocks[b] == if ReachedWithout(g, b, ignoredBlock) then Ref(b) else Null
    {
      ghost var before := reachedBlocks;
      EntryReachable(g);
      assert Avoids(g, [ENTRY], ENTRY, ignoredBlock);
      CollectBlocks(ENTRY);
      CollectedExactly(g, before, reachedBlocks, ignoredBlock);
    }

    // Excludes every block in turn and asks whether it dominates each block that is no longer reached.
    // The check passes exactly when no dominance is missing from the links.
    method Check(idoms: seq<BlockRef>, ghost rank: seq<nat>) returns (ok: bool)
      requires Linked(g, idoms, rank) && reachedBlocks == seq(g.Size(), _ => Null) && ignoredBlock == Null
      modifies this
      ensures ok <==> AllReachable(g) && ChainsCoverDominance(g, idoms, rank)
    {
      hide Dominates, Reachable, ReachedWithout, OnChain;
      CollectFromEntry();
      allBlocks := reachedBlocks;
      reachedBlocks := seq(g.Size(), _ => Null);
      for i := 0 to |allBlocks|
        invariant |allBlocks| == g.Size() && reachedBlocks == seq(g.Size(), _ => Null)
        invariant forall b :: 0 <= b < g.Size() ==> allBlocks[b] == if ReachedWithout(g, b, Null) then Ref(b) else Null
        invariant forall x :: 0 <= x < i ==> Reachable(g, x)
        invariant forall x, b :: 0 <= x < i && 0 <= b < g.Size() && Dominates(g, x, b) ==> OnChain(g, idoms, rank, x, b)
      {
        ReachedIsReachable(g, i);
        if allBlocks[i] == Null {
          return false;
        }
        ignoredBlock := allBlocks[i];
        CollectFromEntry();
        for j := 0 to |reachedBlocks|
          modifies {}
          invariant forall b :: 0 <= b < j && Dominates(g, i, b) ==> OnChain(g, idoms, rank, i, b)
        {
          MissedOrOnChain(g, idoms, rank, i, j);
          if reachedBlocks[j] == Null {
            var dominates := IsDominator(g, idoms, rank, i, j);
            if !dominates {
              return false;
            }
          }
        }
        reachedBlocks := seq(g.Size(), _ => Null);
      }
      return true;
    }
  }

  lemma SweptStays(g: Graph, a: seq<BlockRef>, b: seq<BlockRef>, ignored: BlockRef)
    requires WellCollected(g, a) && WellCollected(g, b)
    requires forall x :: 0 <= x < g.Size() && a[x] != Null ==> b[x] != Null
    ensures forall x :: 0 <= x < g.Size() && Swept(g, a, x, ignored) ==> Swept(g, b, x, ignored)
  {
  }

  lemma CollectedExactly(g: Graph, before: seq<BlockRef>, reached: seq<BlockRef>, ignored: BlockRef)
    requires g.Valid() && before == seq(g.Size(), _ => Null) && Collected(g, before, reached, ignored)
    requires reached[ENTRY] == Ref(ENTRY)
    ensures forall b :: 0 <= b < g.Size() ==> reached[b] == if ReachedWithout(g, b, ignored) then Ref(b) else Null
  {
    forall b | 0 <= b < g.Size() && ReachedWithout(g, b, ignored) ensures reached[b] == Ref(b) {
      var p :| Avoids(g, p, b, ignored);
      var out: set<nat> := if ignored.Ref? then {ignored.id} else {};
      ClosedPath(g, (set a | 0 <= a < g.Size() && reached[a] != Null), out, p, |p| - 1);
    }
  }

  lemma ReachedIsReachable(g: Graph, b: nat)
    requires g.Valid() && b < g.Size()
    ensures ReachedWithout(g, b, Null) <==> Reachable(g, b)
  {
    if ReachedWithout(g, b, Null) {
      var p :| Avoids(g, p, b, Null);
    } else if Reachable(g, b) {
      NothingMissedWithoutEntry(g, b);
    }
  }

  // The entry is on every chain, and any other block is missed exactly by what it dominates.
  lemma MissedOrOnChain(g: Graph, idoms: seq<BlockRef>, rank: seq<nat>, x: nat, b: nat)
    requires Linked(g, idoms, rank) && x < g.Size() && b < g.Size()
    ensures ReachedWithout(g, b, Ref(x)) && Dominates(g, x, b) ==> OnChain(g, idoms, rank, x, b)
    ensures !ReachedWithout(g, b, Ref(x)) && Reachable(g, b) ==> Dominates(g, x, b)
  {
    if x == ENTRY {
      EntryOnChain(g, idoms, rank, b);
      EntryDominates(g, b);
    } else {
      MissedIsDominated(g, x, b);
    }
  }

  lemma {:induction false} EntryOnChain(g: Graph, idoms: seq<BlockRef>, rank: seq<nat>, b: nat)
    requires Linked(g, idoms, rank) && b < g.Size()
    ensures OnChain(g, idoms, rank, ENTRY, b)
    decreases rank[b]
  {
    if b != ENTRY {
      EntryOnChain(g, idoms, rank, idoms[b].id);
    }
  }

  // The check cannot fail on the dominator tree.
  lemma CheckPassesOnDomTree(g: Graph, idoms: seq<BlockRef>)
    requires DomTreeOf(g, idoms)
    ensures Linked(g, idoms, Depths(g)) && AllReachable(g)
    ensures ChainsCoverDominance(g, idoms, Depths(g))
  {
    DomTreeLinked(g, idoms);
    forall x, b | 0 <= x < g.Size() && 0 <= b < g.Size() && Dominates(g, x, b)
      ensures OnChain(g, idoms, Depths(g), x, b)
    {
      ChainIsDominance(g, idoms, x, b);
    }
  }

  // It is one-sided: on a diamond it also passes for links that claim one arm dominates the join.
  const DIAMOND := Graph([[], [2, 3], [0], [0]], [[2, 3], [], [1], [1]])
  const WRONG_TREE: seq<BlockRef> := [Ref(2), Null, Ref(1), Ref(1)]
  const WRONG_RANK: seq<nat> := [2, 0, 1, 1]

  lemma CheckAcceptsWrongTree()
    ensures Linked(DIAMOND, WRONG_TREE, WRONG_RANK) && AllReachable(DIAMOND)
    ensures ChainsCoverDominance(DIAMOND, WRONG_TREE, WRONG_RANK)
    ensures WRONG_TREE[END] == Ref(2) && !Dominates(DIAMOND, 2, END)
  {
    DiamondLinked();
    DiamondPaths(DIAMOND);
    hide IsPath, OnChain, Linked;
    forall x, b | 0 <= x < DIAMOND.Size() && 0 <= b < DIAMOND.Size() && Dominates(DIAMOND, x, b)
      ensures OnChain(DIAMOND, WRONG_TREE, WRONG_RANK, x, b)
    {
      DiamondChain(x, b);
    }
  }

  lemma DiamondLinked()
    ensures DIAMOND.Valid() && Linked(DIAMOND, WRONG_TREE, WRONG_RANK)
  {
  }

  // On the diamond a block dominates itself, and the entry dominates all.
  lemma DiamondChain(x: nat, b: nat)
    requires x < DIAMOND.Size() && b < DIAMOND.Size() && Dominates(DIAMOND, x, b)
    ensures Linked(DIAMOND, WRONG_TREE, WRONG_RANK) && OnChain(DIAMOND, WRONG_TREE, WRONG_RANK, x, b)
  {
    DiamondLinked();
    DiamondPaths(DIAMOND);
    EntryOnChain(DIAMOND, WRONG_TREE, WRONG_RANK, b);
    hide IsPath, Linked;
    assert x == ENTRY || x == b;
  }

  lemma DiamondPaths(g: Graph)
    requires g.succs == [[], [2, 3], [0], [0]]
    ensures PathTo(g, [1], ENTRY, 1) && PathTo(g, [1, 2], ENTRY, 2) && PathTo(g, [1, 3], ENTRY, 3)
    ensures PathTo(g, [1, 3, 0], ENTRY, 0) && PathTo(g, [1, 2, 0], ENTRY, 0)
  {
    assert Step(g, [1, 2], 1) && Step(g, [1, 3], 1) && Step(g, [1, 3, 0], 1) && Step(g, [1, 3, 0], 2);
    assert Step(g, [1, 2, 0], 1) && Step(g, [1, 2, 0], 2);
  }
}
