// Control-flow graphs, paths and path dominance.
module Cfg {

  const ENTRY: nat := 1  // BasicBlock::ENTRY_BLOCK_IDX
  const END: nat := 0    // BasicBlock::END_BLOCK_IDX

  // Blocks are named by their ids 0 .. Size()-1; every block keeps both edge lists, as in the source.
  datatype Graph = Graph(succs: seq<seq<nat>>, preds: seq<seq<nat>>) {

    function Size(): nat {
      |succs|
    }

    // Both edge lists describe the same edges, and nothing jumps to the entry block.
    ghost predicate Valid() {
      && |preds| == |succs|
      && ENTRY < |succs|
      && (forall b, i :: 0 <= b < |succs| && 0 <= i < |succs[b]| ==> succs[b][i] < |succs|)
      && (forall b, i :: 0 <= b < |succs| && 0 <= i < |preds[b]| ==> preds[b][i] < |succs|)
      && (forall b, c :: 0 <= b < |succs| && 0 <= c < |succs| ==> (c in succs[b] <==> b in preds[c]))
      && preds[ENTRY] == []
    }

    ghost predicate NoSelfEdge() {
      forall b :: 0 <= b < |succs| ==> b !in succs[b]
    }
  }

  ghost predicate IsPath(g: Graph, p: seq<nat>) {
    && |p| > 0
    && (forall i :: 0 <= i < |p| ==> p[i] < g.Size())
    && (forall i :: 0 < i < |p| ==> Step(g, p, i))
  }

  // The i-th block of p is a successor of the one before it.
  ghost predicate Step(g: Graph, p: seq<nat>, i: nat)
    requires 0 < i < |p| && p[i - 1] < g.Size()
  {
    p[i] in g.succs[p[i - 1]]
  }

  ghost predicate PathTo(g: Graph, p: seq<nat>, a: nat, b: nat) {
    IsPath(g, p) && p[0] == a && p[|p| - 1] == b
  }

  ghost predicate Reachable(g: Graph, b: nat) {
    exists p :: PathTo(g, p, ENTRY, b)
  }

  ghost predicate AllReachable(g: Graph) {
    forall b :: 0 <= b < g.Size() ==> Reachable(g, b)
  }

  // d dominates b: every path from the entry to b goes through d.
  ghost predicate Dominates(g: Graph, d: nat, b: nat) {
    forall p :: PathTo(g, p, ENTRY, b) ==> d in p
  }

  ghost predicate StrictlyDominates(g: Graph, d: nat, b: nat) {
    d != b && Dominates(g, d, b)
  }

  // The immediate dominator: the strict dominator that every other strict dominator dominates.
  ghost predicate IsIdom(g: Graph, d: nat, b: nat) {
    && d < g.Size()
    && StrictlyDominates(g, d, b)
    && (forall x :: StrictlyDominates(g, x, b) ==> Dominates(g, x, d))
  }

  lemma PathSlice(g: Graph, p: seq<nat>, lo: nat, hi: nat)
    requires IsPath(g, p) && lo < hi <= |p|
    ensures PathTo(g, p[lo..hi], p[lo], p[hi - 1])
  {
    var q := p[lo..hi];
    forall i | 0 < i < |q| ensures Step(g, q, i) {
      assert Step(g, p, lo + i);
    }
  }

  // Two paths that share an end block join into one.
  lemma PathJoin(g: Graph, p: seq<nat>, q: seq<nat>, a: nat, b: nat, c: nat)
    requires PathTo(g, p, a, b) && PathTo(g, q, b, c)
    ensures PathTo(g, p + q[1..], a, c)
  {
    var r := p + q[1..];
    forall i | 0 < i < |r| ensures Step(g, r, i) {
      if i < |p| {
        assert Step(g, p, i);
      } else {
        assert Step(g, q, i - |p| + 1);
      }
    }
  }

  lemma PathExtend(g: Graph, p: seq<nat>, a: nat, b: nat, c: nat)
    requires PathTo(g, p, a, b) && c in g.succs[b] && c < g.Size()
    ensures PathTo(g, p + [c], a, c)
  {
    var r := p + [c];
    forall i | 0 < i < |r| ensures Step(g, r, i) {
      if i < |p| {
        assert Step(g, p, i);
      }
    }
  }

  // The edges from blocks of m lead into m, apart from those into blocks of `out`.
  ghost predicate Closed(g: Graph, m: set<nat>, out: set<nat>) {
    forall b, s :: b in m && b < g.Size() && s in g.succs[b] && s < g.Size() && s !in out ==> s in m
  }

  // A path from a block of m that does not step into `out` stays in m.
  lemma {:induction false} ClosedPath(g: Graph, m: set<nat>, out: set<nat>, p: seq<nat>, i: nat)
    requires IsPath(g, p) && p[0] in m && Closed(g, m, out) && i < |p| && forall k :: 0 < k < |p| ==> p[k] !in out
    ensures p[i] in m
  {
    if i > 0 {
      ClosedPath(g, m, out, p, i - 1);
      assert Step(g, p, i);
    }
  }

  // A dominator of a reachable block is a block, and lies on some path.
  lemma DominatorInRange(g: Graph, d: nat, b: nat)
    requires Reachable(g, b) && Dominates(g, d, b)
    ensures d < g.Size()
  {
    var p :| PathTo(g, p, ENTRY, b);
  }

  lemma DominatesTransitive(g: Graph, a: nat, b: nat, c: nat)
    requires Dominates(g, a, b) && Dominates(g, b, c)
    ensures Dominates(g, a, c)
  {
    forall p | PathTo(g, p, ENTRY, c) ensures a in p {
      var i :| 0 <= i < |p| && p[i] == b;
      PathSlice(g, p, 0, i + 1);
    }
  }

  // The first visit to a block on a path.
  lemma FirstVisit(g: Graph, p: seq<nat>, b: nat) returns (i: nat)
    requires IsPath(g, p) && b in p
    ensures i < |p| && p[i] == b && b !in p[..i]
  {
    var j :| 0 <= j < |p| && p[j] == b;
    i := j;
    while exists k :: 0 <= k < i && p[k] == b
      invariant i < |p| && p[i] == b
      decreases i
    {
      var k :| 0 <= k < i && p[k] == b;
      i := k;
    }
  }

  lemma DominatesAntisymmetric(g: Graph, a: nat, b: nat)
    requires Reachable(g, b) && Dominates(g, a, b) && Dominates(g, b, a)
    ensures a == b
  {
    var p :| PathTo(g, p, ENTRY, b);
    var i := FirstVisit(g, p, b);
    PathSlice(g, p, 0, i + 1);
    var j :| 0 <= j < |p[..i + 1]| && p[..i + 1][j] == a;
    PathSlice(g, p, 0, j + 1);
    var k :| 0 <= k < |p[..j + 1]| && p[..j + 1][k] == b;
    assert k <= j <= i && p[k] == b;
  }

  // A strict dominator of a block also dominates all of the block's reachable predecessors.
  lemma DominatesPredecessor(g: Graph, d: nat, u: nat, b: nat)
    requires g.Valid() && StrictlyDominates(g, d, b) && u < g.Size() && b in g.succs[u]
    ensures Dominates(g, d, u)
  {
    forall p | PathTo(g, p, ENTRY, u) ensures d in p {
      PathExtend(g, p, ENTRY, u, b);
      assert d in p + [b];
    }
  }

  lemma EntryDominates(g: Graph, b: nat)
    ensures Dominates(g, ENTRY, b)
  {
  }

  lemma EntryReachable(g: Graph)
    requires g.Valid()
    ensures PathTo(g, [ENTRY], ENTRY, ENTRY)
  {
  }

  lemma OnlyEntryDominatesEntry(g: Graph, x: nat)
    requires g.Valid()
    ensures Dominates(g, x, ENTRY) <==> x == ENTRY
  {
    EntryReachable(g);
  }
}
