// The dominator tree: preorder numbering, semidominators by marked backward search, and immediate
// dominators from the spanning tree.
module DominatorTree {
  import opened Cfg
  import opened FiniteSets
  import opened DomTheory
  import opened Marking

  // A block pointer that may be null.
  datatype BlockRef = Null | Ref(id: nat)

  // ---------------------------------------------------------------- preorder numbering

  // What the numbering has written so far: a block numbered 0 has not been visited.
  datatype Walk = Walk(t: Tree, sorted: seq<BlockRef>)

  ghost function Numbered(num: seq<nat>): set<nat> {
    set b | 0 <= b < |num| && num[b] != 0
  }

  ghost predicate Sized(g: Graph, w: Walk) {
    |w.t.num| == |w.t.last| == |w.t.parent| == |w.sorted| == g.Size()
  }

  // The numbers handed out are 1 .. idx, one for every visited block, and `sorted` lists the visited
  // blocks by descending number.
  ghost predicate Counted(g: Graph, w: Walk, idx: nat) {
    && Sized(g, w)
    && |Numbered(w.t.num)| == idx <= g.Size()
    && (forall b :: 0 <= b < g.Size() ==> w.t.num[b] <= idx)
    && (forall b, c :: 0 <= b < g.Size() && 0 <= c < g.Size() && w.t.num[b] == w.t.num[c] != 0 ==> b == c)
    && (forall j :: g.Size() - idx <= j < g.Size() ==>
          w.sorted[j].Ref? && w.sorted[j].id < g.Size() && w.t.num[w.sorted[j].id] == g.Size() - j)
  }

  ghost predicate InRange(t: Tree, b: nat, lo: nat, hi: nat)
    requires b < |t.num|
  {
    lo < t.num[b] <= hi
  }

  // All edges of u have been followed: they lead to visited blocks, and the later ones are below u.
  ghost predicate Explored(g: Graph, t: Tree, u: nat)
    requires u < g.Size() == |t.num| == |t.last|
  {
    forall v :: v in g.succs[u] && v < g.Size() ==> t.num[v] != 0 && (t.num[u] < t.num[v] ==> t.num[v] <= t.last[u])
  }

  // Every block numbered lo+1 .. hi is finished: its subtree ends at or before hi.
  ghost predicate Finished(g: Graph, t: Tree, lo: nat, hi: nat)
    requires |t.num| == |t.last| == g.Size()
  {
    && (forall b {:trigger t.last[b]} :: 0 <= b < g.Size() && InRange(t, b, lo, hi) ==> t.num[b] <= t.last[b] <= hi)
    && (forall b {:trigger Explored(g, t, b)} :: 0 <= b < g.Size() && InRange(t, b, lo, hi) ==> Explored(g, t, b))
  }

  // The parent of a block numbered lo+1 .. hi is r or another such block.
  ghost predicate Rooted(g: Graph, t: Tree, lo: nat, hi: nat, r: nat)
    requires |t.num| == |t.parent| == g.Size()
  {
    forall b {:trigger t.parent[b]} :: 0 <= b < g.Size() && InRange(t, b, lo, hi) ==>
      && t.parent[b] < g.Size()
      && b in g.succs[t.parent[b]]
      && t.num[t.parent[b]] < t.num[b]
      && (t.parent[b] == r || InRange(t, t.parent[b], lo, hi))
  }

  // Subtrees are nested or disjoint, and the parent is the closest proper ancestor.
  ghost predicate Nested(g: Graph, t: Tree, lo: nat, hi: nat)
    requires |t.num| == |t.last| == |t.parent| == g.Size()
    requires forall b {:trigger t.parent[b]} :: 0 <= b < g.Size() && InRange(t, b, lo, hi) ==> t.parent[b] < g.Size()
  {
    && (forall a, b {:trigger Anc(t, a, b)} ::
          0 <= a < g.Size() && 0 <= b < g.Size() && InRange(t, a, lo, hi) && InRange(t, b, lo, hi) && Anc(t, a, b) ==>
            t.last[b] <= t.last[a])
    && (forall a, b {:trigger Anc(t, a, b), t.parent[b]} ::
          0 <= a < g.Size() && 0 <= b < g.Size() && InRange(t, a, lo, hi) && InRange(t, b, lo, hi) ==>
            Anc(t, a, b) && a != b ==> Anc(t, a, t.parent[b]))
  }

  // The blocks numbered lo+1 .. hi form finished subtrees hanging off r.
  ghost predicate Forest(g: Graph, t: Tree, lo: nat, hi: nat, r: nat)
    requires |t.num| == |t.last| == |t.parent| == g.Size()
  {
    && r < g.Size() && t.num[r] <= lo
    && Finished(g, t, lo, hi)
    && Rooted(g, t, lo, hi, r)
    && Nested(g, t, lo, hi)
  }

  // From w to v nothing changes for visited blocks, and new numbers lie above idx.
  ghost predicate Kept(g: Graph, w: Walk, v: Walk, idx: nat)
    requires Sized(g, w) && Sized(g, v)
  {
    && (forall b :: 0 <= b < g.Size() && w.t.num[b] != 0 ==>
          v.t.num[b] == w.t.num[b] && v.t.last[b] == w.t.last[b] && v.t.parent[b] == w.t.parent[b])
    && (forall b :: 0 <= b < g.Size() && w.t.num[b] == 0 ==> v.t.num[b] == 0 || v.t.num[b] > idx)
  }

  // The effect of DFS(bb), started with counter idx and finished with counter next, on the numbers.
  ghost predicate DfsDone(g: Graph, w: Walk, v: Walk, bb: nat, idx: nat, next: nat) {
    && bb < g.Size()
    && Sized(g, w) && Sized(g, v) && Counted(g, v, next)
    && w.t.num[bb] == 0 && v.t.num[bb] == idx + 1 && v.t.last[bb] == next
    && v.t.parent[bb] == w.t.parent[bb]
    && idx < next
    && Kept(g, w, v, idx)
  }

  // The effect on the spanning tree: a finished subtree below bb.
  ghost predicate SubtreeDone(g: Graph, t: Tree, bb: nat, idx: nat, next: nat)
    requires |t.num| == |t.last| == |t.parent| == g.Size()
  {
    bb < g.Size() && Explored(g, t, bb) && Forest(g, t, idx + 1, next, bb)
  }

  // The numbers after the first i successors of bb.
  ghost predicate DfsLoop(g: Graph, w: Walk, v: Walk, bb: nat, idx: nat, cur: nat, i: nat) {
    && bb < g.Size() && i <= |g.succs[bb]|
    && Sized(g, w) && Sized(g, v) && Counted(g, v, cur)
    && w.t.num[bb] == 0 && v.t.num[bb] == idx + 1
    && v.t.parent[bb] == w.t.parent[bb]
    && idx < cur
    && Kept(g, w, v, idx)
    && (forall k :: 0 <= k < i ==> g.succs[bb][k] < g.Size() && v.t.num[g.succs[bb][k]] != 0)
  }

  lemma CountBound(g: Graph, w: Walk, idx: nat)
    requires Counted(g, w, idx)
    ensures Sized(g, w) && idx <= g.Size()
    ensures idx == g.Size() <==> forall b :: 0 <= b < g.Size() ==> w.t.num[b] != 0
  {
    SubsetSize(Numbered(w.t.num), UpTo(g.Size()));
    if idx == g.Size() {
      assert Numbered(w.t.num) == UpTo(g.Size());
      forall b | 0 <= b < g.Size() ensures w.t.num[b] != 0 {
        assert b in Numbered(w.t.num);
      }
    }
    if forall b :: 0 <= b < g.Size() ==> w.t.num[b] != 0 {
      assert Numbered(w.t.num) == UpTo(g.Size());
    }
  }

  lemma DfsEnter(g: Graph, w: Walk, v: Walk, bb: nat, idx: nat)
    requires Counted(g, w, idx) && bb < g.Size() && w.t.num[bb] == 0 && idx < g.Size()
    requires v == Walk(w.t.(num := w.t.num[bb := idx + 1]), w.sorted[g.Size() - (idx + 1) := Ref(bb)])
    ensures DfsLoop(g, w, v, bb, idx, idx + 1, 0) && Forest(g, v.t, idx + 1, idx + 1, bb)
  {
    hide Counted;
    EnterCounted(g, w, v, bb, idx);
  }

  lemma EnterCounted(g: Graph, w: Walk, v: Walk, bb: nat, idx: nat)
    requires Counted(g, w, idx) && bb < g.Size() && w.t.num[bb] == 0 && idx < g.Size()
    requires v == Walk(w.t.(num := w.t.num[bb := idx + 1]), w.sorted[g.Size() - (idx + 1) := Ref(bb)])
    ensures Sized(g, w) && Counted(g, v, idx + 1)
  {
    NumberedGrows(w.t.num, bb, idx + 1);
  }

  lemma NumberedGrows(num: seq<nat>, b: nat, k: nat)
    requires b < |num| && num[b] == 0 && k != 0
    ensures |Numbered(num[b := k])| == |Numbered(num)| + 1
  {
    assert Numbered(num[b := k]) == Numbered(num) + {b};
  }

  // Setting the parent of an unvisited block does not touch the numbers.
  lemma DfsLink(g: Graph, v: Walk, u: Walk, cur: nat, s: nat, bb: nat)
    requires Counted(g, v, cur) && s < g.Size()
    requires u == v.(t := v.t.(parent := v.t.parent[s := bb]))
    ensures Counted(g, u, cur)
  {
  }

  // A recursive call on the next successor s keeps what was there and numbers s.
  lemma DfsRecurse(g: Graph, w: Walk, v: Walk, u: Walk, v': Walk, bb: nat, idx: nat, cur: nat, next: nat, i: nat,
                   s: nat)
    requires DfsLoop(g, w, v, bb, idx, cur, i) && i < |g.succs[bb]| && s == g.succs[bb][i]
    requires s < g.Size() && v.t.num[s] == 0
    requires u == v.(t := v.t.(parent := v.t.parent[s := bb])) && DfsDone(g, u, v', s, cur, next)
    ensures DfsLoop(g, w, v', bb, idx, next, i + 1)
  {
  }

  // It extends the forest below bb.
  lemma DfsRecurseForest(g: Graph, v: Walk, u: Walk, v': Walk, lo: nat, cur: nat, next: nat, bb: nat, s: nat)
    requires g.Valid() && Sized(g, v) && bb < g.Size() && s < g.Size() && s in g.succs[bb]
    requires Forest(g, v.t, lo, cur, bb) && v.t.num[bb] != 0 && v.t.num[s] == 0 && lo <= cur
    requires u == v.(t := v.t.(parent := v.t.parent[s := bb])) && DfsDone(g, u, v', s, cur, next)
    requires SubtreeDone(g, v'.t, s, cur, next)
    ensures Forest(g, v'.t, lo, next, bb)
  {
    ForestKept(g, v, v', lo, cur, bb);
    ForestAppend(g, v'.t, lo, cur, next, bb, s);
  }

  // Finished subtrees are not touched by numbering further blocks.
  lemma ForestKept(g: Graph, v: Walk, v': Walk, lo: nat, cur: nat, bb: nat)
    requires g.Valid() && Sized(g, v) && Sized(g, v') && Forest(g, v.t, lo, cur, bb) && v.t.num[bb] != 0
    requires forall b :: 0 <= b < g.Size() && v.t.num[b] != 0 ==> v'.t.num[b] == v.t.num[b]
    requires forall b :: 0 <= b < g.Size() && InRange(v.t, b, lo, cur) ==>
               v'.t.last[b] == v.t.last[b] && v'.t.parent[b] == v.t.parent[b]
    requires forall b :: 0 <= b < g.Size() && v.t.num[b] == 0 ==> v'.t.num[b] == 0 || v'.t.num[b] > cur
    ensures Forest(g, v'.t, lo, cur, bb)
  {
    hide Finished, Nested;
    RootedKept(g, v, v', lo, cur, bb);
    FinishedKept(g, v, v', lo, cur, bb);
    NestedKept(g, v, v', lo, cur, bb);
  }

  lemma RootedKept(g: Graph, v: Walk, v': Walk, lo: nat, cur: nat, bb: nat)
    requires g.Valid() && Sized(g, v) && Sized(g, v') && Forest(g, v.t, lo, cur, bb) && v.t.num[bb] != 0
    requires forall b :: 0 <= b < g.Size() && v.t.num[b] != 0 ==> v'.t.num[b] == v.t.num[b]
    requires forall b :: 0 <= b < g.Size() && InRange(v.t, b, lo, cur) ==>
               v'.t.last[b] == v.t.last[b] && v'.t.parent[b] == v.t.parent[b]
    requires forall b :: 0 <= b < g.Size() && v.t.num[b] == 0 ==> v'.t.num[b] == 0 || v'.t.num[b] > cur
    ensures Rooted(g, v'.t, lo, cur, bb)
  {
    hide Finished, Nested;
  }

  lemma FinishedKept(g: Graph, v: Walk, v': Walk, lo: nat, cur: nat, bb: nat)
    requires g.Valid() && Sized(g, v) && Sized(g, v') && Forest(g, v.t, lo, cur, bb) && v.t.num[bb] != 0
    requires forall b :: 0 <= b < g.Size() && v.t.num[b] != 0 ==> v'.t.num[b] == v.t.num[b]
    requires forall b :: 0 <= b < g.Size() && InRange(v.t, b, lo, cur) ==>
               v'.t.last[b] == v.t.last[b] && v'.t.parent[b] == v.t.parent[b]
    requires forall b :: 0 <= b < g.Size() && v.t.num[b] == 0 ==> v'.t.num[b] == 0 || v'.t.num[b] > cur
    ensures Finished(g, v'.t, lo, cur)
  {
    hide Rooted, Nested;
    forall b | 0 <= b < g.Size() && InRange(v'.t, b, lo, cur) ensures Explored(g, v'.t, b) {
      assert Explored(g, v.t, b);
    }
  }

  lemma NestedKept(g: Graph, v: Walk, v': Walk, lo: nat, cur: nat, bb: nat)
    requires g.Valid() && Sized(g, v) && Sized(g, v') && Forest(g, v.t, lo, cur, bb) && v.t.num[bb] != 0
    requires forall b :: 0 <= b < g.Size() && v.t.num[b] != 0 ==> v'.t.num[b] == v.t.num[b]
    requires forall b :: 0 <= b < g.Size() && InRange(v.t, b, lo, cur) ==>
               v'.t.last[b] == v.t.last[b] && v'.t.parent[b] == v.t.parent[b]
    requires forall b :: 0 <= b < g.Size() && v.t.num[b] == 0 ==> v'.t.num[b] == 0 || v'.t.num[b] > cur
    requires Rooted(g, v'.t, lo, cur, bb)
    ensures Nested(g, v'.t, lo, cur)
  {
    hide Finished;
    assert forall a, b {:trigger Anc(v'.t, a, b)} ::
        0 <= a < g.Size() && 0 <= b < g.Size() && InRange(v.t, a, lo, cur) && InRange(v.t, b, lo, cur) ==>
          Anc(v'.t, a, b) == Anc(v.t, a, b);
  }

  // A finished subtree s numbered cur+1 .. next joins the forest lo+1 .. cur below the same block.
  lemma ForestAppend(g: Graph, t: Tree, lo: nat, cur: nat, next: nat, bb: nat, s: nat)
    requires |t.num| == |t.last| == |t.parent| == g.Size()
    requires lo <= cur < next && s < g.Size() && Forest(g, t, lo, cur, bb) && Forest(g, t, cur + 1, next, s)
    requires t.num[s] == cur + 1 && t.last[s] == next && t.parent[s] == bb && s in g.succs[bb] && Explored(g, t, s)
    requires forall b :: 0 <= b < g.Size() && t.num[b] == t.num[s] ==> b == s
    ensures Forest(g, t, lo, next, bb)
  {
    assert forall b :: 0 <= b < g.Size() && InRange(t, b, lo, next) ==>
        InRange(t, b, lo, cur) || b == s || InRange(t, b, cur + 1, next);
    assert Finished(g, t, lo, next);
    assert Rooted(g, t, lo, next, bb);
    forall a, b | 0 <= a < g.Size() && 0 <= b < g.Size() && InRange(t, a, lo, next) && InRange(t, b, lo, next)
      && Anc(t, a, b)
      ensures t.last[b] <= t.last[a]
      ensures a != b ==> Anc(t, a, t.parent[b])
    {
      if InRange(t, a, lo, cur) {
        assert t.last[a] <= cur;
      }
    }
  }

  lemma DfsSkip(g: Graph, w: Walk, v: Walk, bb: nat, idx: nat, cur: nat, i: nat)
    requires DfsLoop(g, w, v, bb, idx, cur, i) && i < |g.succs[bb]|
    requires g.succs[bb][i] < g.Size() && v.t.num[g.succs[bb][i]] != 0
    ensures DfsLoop(g, w, v, bb, idx, cur, i + 1)
  {
  }

  lemma DfsExit(g: Graph, w: Walk, v: Walk, v': Walk, bb: nat, idx: nat, next: nat)
    requires g.Valid() && bb < g.Size() && DfsLoop(g, w, v, bb, idx, next, |g.succs[bb]|)
    requires Forest(g, v.t, idx + 1, next, bb)
    requires v' == v.(t := v.t.(last := v.t.last[bb := next]))
    ensures DfsDone(g, w, v', bb, idx, next) && SubtreeDone(g, v'.t, bb, idx, next)
  {
    ForestKept(g, v, v', idx + 1, next, bb);
  }

  // ---------------------------------------------------------------- backward search

  // A path from x to y through blocks numbered k or more.
  ghost predicate HighPath(g: Graph, num: seq<nat>, k: nat, x: nat, y: nat)
    requires |num| == g.Size()
  {
    exists p :: PathTo(g, p, x, y) && (forall i :: 0 <= i < |p| ==> num[p[i]] >= k)
  }

  // A predecessor numbered below k of some block of s.
  ghost predicate LowPred(g: Graph, num: seq<nat>, k: nat, s: set<nat>, p: nat)
    requires g.Valid() && |num| == g.Size()
  {
    p < g.Size() && num[p] < k && exists x: nat :: x in s && x < g.Size() && p in g.preds[x]
  }

  // r is the lowest-numbered member of the set described by LowPred, or null if there is none.
  ghost predicate LowestPred(g: Graph, num: seq<nat>, k: nat, s: set<nat>, r: BlockRef)
    requires g.Valid() && |num| == g.Size()
  {
    && (r.Null? ==> forall p: nat :: !LowPred(g, num, k, s, p))
    && (r.Ref? ==> LowPred(g, num, k, s, r.id) && forall p: nat :: LowPred(g, num, k, s, p) ==> num[r.id] <= num[p])
  }

  // The predecessors of x numbered k or more are in s.
  ghost predicate BackClosed(g: Graph, num: seq<nat>, k: nat, x: nat, s: set<nat>)
    requires g.Valid() && |num| == g.Size() && x < g.Size()
  {
    forall p: nat :: p in g.preds[x] && num[p] >= k ==> p in s
  }

  // The effect of FindPredWithLessThan(k, bb) on the marked blocks s, which become s'.
  ghost predicate BackDone(g: Graph, num: seq<nat>, k: nat, bb: nat, s: set<nat>, s': set<nat>, r: BlockRef)
    requires g.Valid() && |num| == g.Size()
  {
    && s <= s' && bb in s' && bb !in s
    && (forall x: nat :: x in s' - s ==> x < g.Size() && HighPath(g, num, k, x, bb) && BackClosed(g, num, k, x, s'))
    && LowestPred(g, num, k, s' - s, r)
  }

  // The same after the first i predecessors of bb.
  ghost predicate BackLoop(g: Graph, num: seq<nat>, k: nat, bb: nat, s: set<nat>, s': set<nat>, r: BlockRef, i: nat)
    requires g.Valid() && |num| == g.Size()
  {
    && bb < g.Size() && i <= |g.preds[bb]| && num[bb] >= k
    && s <= s' && bb in s' && bb !in s
    && (forall x: nat :: x in s' - s ==> x < g.Size() && HighPath(g, num, k, x, bb))
    && (forall x: nat :: x in s' - s - {bb} ==> BackClosed(g, num, k, x, s'))
    && (forall j :: 0 <= j < i && num[g.preds[bb][j]] >= k ==> g.preds[bb][j] in s')
    && (r.Null? ==> forall p: nat :: !LowPred(g, num, k, s' - s - {bb}, p))
    && (r.Null? ==> forall j :: 0 <= j < i ==> num[g.preds[bb][j]] >= k)
    && (r.Ref? ==> LowPred(g, num, k, s' - s, r.id))
    && (r.Ref? ==> forall p: nat :: LowPred(g, num, k, s' - s - {bb}, p) ==> num[r.id] <= num[p])
    && (r.Ref? ==> forall j :: 0 <= j < i && num[g.preds[bb][j]] < k ==> num[r.id] <= num[g.preds[bb][j]])
  }

  // The lower-numbered of two candidates, where null is no candidate.
  function Lower(num: seq<nat>, a: BlockRef, b: BlockRef): (r: BlockRef)
    requires (a.Ref? ==> a.id < |num|) && (b.Ref? ==> b.id < |num|)
    ensures r.Null? <==> a.Null? && b.Null?
    ensures r.Ref? ==> r == a || r == b
    ensures r.Ref? && a.Ref? ==> num[r.id] <= num[a.id]
    ensures r.Ref? && b.Ref? ==> num[r.id] <= num[b.id]
  {
    if a.Null? then b else if b.Null? then a else if num[b.id] < num[a.id] then b else a
  }

  lemma HighPathSelf(g: Graph, num: seq<nat>, k: nat, x: nat)
    requires g.Valid() && |num| == g.Size() && x < g.Size() && num[x] >= k
    ensures HighPath(g, num, k, x, x)
  {
    assert PathTo(g, [x], x, x);
  }

  lemma HighPathExtend(g: Graph, num: seq<nat>, k: nat, x: nat, y: nat, z: nat)
    requires g.Valid() && |num| == g.Size() && z < g.Size() && num[z] >= k
    requires HighPath(g, num, k, x, y) && y < g.Size() && z in g.succs[y]
    ensures HighPath(g, num, k, x, z)
  {
    var p :| PathTo(g, p, x, y) && (forall i :: 0 <= i < |p| ==> num[p[i]] >= k);
    PathExtend(g, p, x, y, z);
  }

  lemma BackEnter(g: Graph, num: seq<nat>, k: nat, bb: nat, s: set<nat>)
    requires g.Valid() && |num| == g.Size() && bb < g.Size() && num[bb] >= k && bb !in s
    ensures BackLoop(g, num, k, bb, s, s + {bb}, Null, 0)
  {
    HighPathSelf(g, num, k, bb);
  }

  // The next predecessor is numbered below k: it is a candidate itself.
  lemma BackLow(g: Graph, num: seq<nat>, k: nat, bb: nat, s: set<nat>, s': set<nat>, r: BlockRef, i: nat, p: nat)
    requires g.Valid() && |num| == g.Size()
    requires BackLoop(g, num, k, bb, s, s', r, i) && i < |g.preds[bb]| && p == g.preds[bb][i] && num[p] < k
    ensures BackLoop(g, num, k, bb, s, s', Lower(num, r, Ref(p)), i + 1)
  {
    assert bb in s' - s;
    assert LowPred(g, num, k, s' - s, p);
  }

  // The next predecessor is marked already.
  lemma BackSkip(g: Graph, num: seq<nat>, k: nat, bb: nat, s: set<nat>, s': set<nat>, r: BlockRef, i: nat, p: nat)
    requires g.Valid() && |num| == g.Size()
    requires BackLoop(g, num, k, bb, s, s', r, i) && i < |g.preds[bb]| && p == g.preds[bb][i] && num[p] >= k && p in s'
    ensures BackLoop(g, num, k, bb, s, s', r, i + 1)
  {
  }

  // The next predecessor has been searched recursively.
  lemma BackRecurse(g: Graph, num: seq<nat>, k: nat, bb: nat, s: set<nat>, s': set<nat>, s'': set<nat>,
                    r: BlockRef, q: BlockRef, i: nat, p: nat)
    requires g.Valid() && |num| == g.Size()
    requires BackLoop(g, num, k, bb, s, s', r, i) && i < |g.preds[bb]| && p == g.preds[bb][i] && num[p] >= k
    requires BackDone(g, num, k, p, s', s'', q)
    ensures BackLoop(g, num, k, bb, s, s'', Lower(num, r, q), i + 1) && s' <= s''
  {
    forall x: nat | x in s'' - s ensures x < g.Size() && HighPath(g, num, k, x, bb) {
      if x in s' {
        assert x in s' - s;
      } else {
        HighPathExtend(g, num, k, x, p, bb);
      }
    }
    forall x: nat | x in s'' - s - {bb} ensures BackClosed(g, num, k, x, s'') {
      assert x !in s' ==> BackClosed(g, num, k, x, s'');
      assert x in s' ==> BackClosed(g, num, k, x, s');
    }
    LowPredSplit(g, num, k, s' - s - {bb}, s'' - s', s'' - s - {bb});
    assert q.Ref? ==> LowPred(g, num, k, s'' - s, q.id);
    assert r.Ref? ==> LowPred(g, num, k, s'' - s, r.id);
  }

  lemma LowPredSplit(g: Graph, num: seq<nat>, k: nat, a: set<nat>, b: set<nat>, c: set<nat>)
    requires g.Valid() && |num| == g.Size() && c <= a + b
    ensures forall p: nat :: LowPred(g, num, k, c, p) ==> LowPred(g, num, k, a, p) || LowPred(g, num, k, b, p)
  {
  }

  lemma BackExit(g: Graph, num: seq<nat>, k: nat, bb: nat, s: set<nat>, s': set<nat>, r: BlockRef)
    requires g.Valid() && |num| == g.Size() && bb < g.Size()
    requires BackLoop(g, num, k, bb, s, s', r, |g.preds[bb]|)
    ensures BackDone(g, num, k, bb, s, s', r)
  {
    LowPredSplit(g, num, k, s' - s - {bb}, {bb}, s' - s);
  }

  // s starts a semidominator path to bb.
  ghost predicate Starts(g: Graph, t: Tree, s: nat, bb: nat)
    requires TreeShape(g, t) && bb < g.Size()
  {
    s < g.Size() && t.num[s] < t.num[bb] && exists p :: SemiPath(g, t, p, bb) && p[0] == s
  }

  // s starts a semidominator path whose last step leaves pred.
  ghost predicate StartsVia(g: Graph, t: Tree, s: nat, bb: nat, pred: nat)
    requires TreeShape(g, t) && bb < g.Size()
  {
    s < g.Size() && t.num[s] < t.num[bb] && exists p :: SemiPath(g, t, p, bb) && p[0] == s && p[|p| - 2] == pred
  }

  // r is a start and no start of a path through pred is lower.
  ghost predicate LowestVia(g: Graph, t: Tree, bb: nat, r: BlockRef, pred: nat)
    requires TreeShape(g, t) && bb < g.Size() && (r.Ref? ==> r.id < g.Size())
  {
    forall s: nat :: StartsVia(g, t, s, bb, pred) ==> r.Ref? && t.num[r.id] <= t.num[s]
  }

  // What FindSemiDom has established for the first i predecessors.
  ghost predicate SemiLoop(g: Graph, t: Tree, bb: nat, r: BlockRef, i: nat)
    requires g.Valid() && TreeShape(g, t) && bb < g.Size()
  {
    && i <= |g.preds[bb]|
    && (r.Ref? ==> r.id < g.Size() && Starts(g, t, r.id, bb))
    && (forall j :: 0 <= j < i ==> LowestVia(g, t, bb, r, g.preds[bb][j]))
  }

  // A path from a lower-numbered block through blocks numbered num(bb) or more contains one whose
  // interior is numbered strictly above bb.
  lemma TrimToSemiPath(g: Graph, t: Tree, q: seq<nat>, bb: nat) returns (p: seq<nat>)
    requires g.Valid() && TreeShape(g, t) && bb < g.Size()
    requires IsPath(g, q) && q[|q| - 1] == bb && t.num[q[0]] < t.num[bb]
    requires forall i :: 0 < i < |q| ==> t.num[q[i]] >= t.num[bb]
    ensures SemiPath(g, t, p, bb) && p[0] == q[0]
  {
    var i := FirstVisit(g, q, bb);
    PathSlice(g, q, 0, i + 1);
    p := q[..i + 1];
    forall k | 0 < k < |p| - 1 ensures t.num[p[k]] > t.num[bb] {
      assert p[k] == q[..i][k];
    }
  }

  // A low predecessor of a block that reaches bb through high blocks starts a semidominator path.
  lemma LowPredStartsSemiPath(g: Graph, t: Tree, bb: nat, pred: nat, x: nat, r: nat)
    requires g.Valid() && TreeShape(g, t) && bb < g.Size() && pred < g.Size() && x < g.Size() && r < g.Size()
    requires bb in g.succs[pred] && HighPath(g, t.num, t.num[bb], x, pred) && r in g.preds[x] && t.num[r] < t.num[bb]
    ensures Starts(g, t, r, bb)
  {
    var h :| PathTo(g, h, x, pred) && (forall i :: 0 <= i < |h| ==> t.num[h[i]] >= t.num[bb]);
    assert Step(g, [r, x], 1);
    PathJoin(g, [r, x], h, r, x, pred);
    var q := [r, x] + h[1..];
    assert forall i :: 0 < i < |q| ==> t.num[q[i]] >= t.num[bb];
    PathExtend(g, q, r, pred, bb);
    var p := TrimToSemiPath(g, t, q + [bb], bb);
  }

  // Every semidominator path through pred stays inside the marked set, so its start was seen.
  lemma {:induction false} SemiPathStaysMarked(g: Graph, t: Tree, bb: nat, s: set<nat>, p: seq<nat>, i: nat)
    requires g.Valid() && TreeShape(g, t) && bb < g.Size()
    requires SemiPath(g, t, p, bb) && 1 <= i <= |p| - 2 && p[|p| - 2] in s
    requires forall x: nat :: x in s ==> x < g.Size() && BackClosed(g, t.num, t.num[bb], x, s)
    ensures p[i] in s
    decreases |p| - i
  {
    if i < |p| - 2 {
      SemiPathStaysMarked(g, t, bb, s, p, i + 1);
      assert Step(g, p, i + 1);
    }
  }

  // The backward search from a higher-numbered predecessor finds the lowest start through it.
  lemma SemiSearch(g: Graph, t: Tree, bb: nat, pred: nat, s: set<nat>, q: BlockRef)
    requires g.Valid() && TreeShape(g, t) && bb < g.Size() && pred < g.Size() && pred in g.preds[bb]
    requires t.num[pred] > t.num[bb] && BackDone(g, t.num, t.num[bb], pred, {}, s, q)
    ensures q.Ref? ==> Starts(g, t, q.id, bb)
    ensures LowestVia(g, t, bb, q, pred)
  {
    hide HighPath, BackClosed, Starts, StartsVia;
    assert s - {} == s;
    if q.Ref? {
      var x: nat :| x in s && x < g.Size() && q.id in g.preds[x];
      LowPredStartsSemiPath(g, t, bb, pred, x, q.id);
    }
    forall y: nat | StartsVia(g, t, y, bb, pred) ensures LowPred(g, t.num, t.num[bb], s, y) {
      ViaStartSeen(g, t, bb, pred, s, y);
    }
  }

  lemma ViaStartSeen(g: Graph, t: Tree, bb: nat, pred: nat, s: set<nat>, y: nat)
    requires g.Valid() && TreeShape(g, t) && bb < g.Size() && pred < g.Size() && pred in s && t.num[pred] > t.num[bb]
    requires forall x: nat :: x in s ==> x < g.Size() && BackClosed(g, t.num, t.num[bb], x, s)
    requires StartsVia(g, t, y, bb, pred)
    ensures y < g.Size() && LowPred(g, t.num, t.num[bb], s, y)
  {
    hide BackClosed;
    var p :| SemiPath(g, t, p, bb) && p[0] == y && p[|p| - 2] == pred;
    SemiStartSeen(g, t, bb, s, p);
  }

  lemma SemiStartSeen(g: Graph, t: Tree, bb: nat, s: set<nat>, p: seq<nat>)
    requires g.Valid() && TreeShape(g, t) && bb < g.Size()
    requires forall x: nat :: x in s ==> x < g.Size() && BackClosed(g, t.num, t.num[bb], x, s)
    requires SemiPath(g, t, p, bb) && t.num[p[0]] < t.num[bb] && p[|p| - 2] in s && t.num[p[|p| - 2]] > t.num[bb]
    ensures LowPred(g, t.num, t.num[bb], s, p[0])
  {
    SemiPathStaysMarked(g, t, bb, s, p, 1);
    assert Step(g, p, 1);
  }

  // A lower-numbered predecessor is itself the only start of a path through it.
  lemma SemiDirect(g: Graph, t: Tree, bb: nat, pred: nat)
    requires g.Valid() && TreeShape(g, t) && bb < g.Size() && pred < g.Size() && pred in g.preds[bb]
    requires t.num[pred] < t.num[bb]
    ensures Starts(g, t, pred, bb) && LowestVia(g, t, bb, Ref(pred), pred)
  {
    var p := [pred, bb];
    assert Step(g, p, 1);
    assert SemiPath(g, t, p, bb);
  }

  lemma SemiLoopExtend(g: Graph, t: Tree, bb: nat, r: BlockRef, q: BlockRef, i: nat)
    requires g.Valid() && TreeShape(g, t) && bb < g.Size() && SemiLoop(g, t, bb, r, i) && i < |g.preds[bb]|
    requires q.Ref? ==> q.id < g.Size() && Starts(g, t, q.id, bb)
    requires LowestVia(g, t, bb, q, g.preds[bb][i])
    ensures SemiLoop(g, t, bb, Lower(t.num, r, q), i + 1)
  {
    forall j | 0 <= j < i + 1 ensures LowestVia(g, t, bb, Lower(t.num, r, q), g.preds[bb][j]) {
      assert j < i ==> LowestVia(g, t, bb, r, g.preds[bb][j]);
    }
  }

  lemma SemiExit(g: Graph, t: Tree, bb: nat, r: BlockRef)
    requires g.Valid() && ValidTree(g, t) && bb < g.Size() && bb != ENTRY && SemiLoop(g, t, bb, r, |g.preds[bb]|)
    ensures r.Ref? && IsSemi(g, t, r.id, bb)
  {
    var q := ParentPath(g, t, bb);
    SemiLoopBound(g, t, bb, r, q);
    forall p | SemiPath(g, t, p, bb) ensures t.num[r.id] <= t.num[p[0]] {
      if t.num[p[0]] < t.num[bb] {
        SemiLoopBound(g, t, bb, r, p);
      }
    }
  }

  lemma SemiLoopBound(g: Graph, t: Tree, bb: nat, r: BlockRef, p: seq<nat>)
    requires g.Valid() && TreeShape(g, t) && bb < g.Size() && SemiLoop(g, t, bb, r, |g.preds[bb]|)
    requires SemiPath(g, t, p, bb) && t.num[p[0]] < t.num[bb]
    ensures r.Ref? && t.num[r.id] <= t.num[p[0]]
  {
    assert Step(g, p, |p| - 1);
    var j :| 0 <= j < |g.preds[bb]| && g.preds[bb][j] == p[|p| - 2];
    assert StartsVia(g, t, p[0], bb, g.preds[bb][j]);
    assert LowestVia(g, t, bb, r, g.preds[bb][j]);
  }

  // ---------------------------------------------------------------- immediate dominators

  ghost function Ids(refs: seq<BlockRef>): (ids: seq<nat>)
    ensures |ids| == |refs|
  {
    seq(|refs|, i requires 0 <= i < |refs| => if refs[i].Ref? then refs[i].id else 0)
  }

  // Walking up from w has passed every block below u on the tree path from u to w; low has the lowest
  // semidominator among them.
  ghost predicate WalkLoop(g: Graph, t: Tree, semi: seq<nat>, w: nat, u: nat, low: nat) {
    && ValidTree(g, t) && AllSemi(g, t, semi)
    && w < g.Size() && w != ENTRY && u < g.Size() && low < g.Size() && low != ENTRY
    && Anc(t, semi[w], u) && Anc(t, u, w)
    && low != semi[w] && Anc(t, semi[w], low) && Anc(t, low, w)
    && t.num[semi[low]] <= t.num[semi[w]]
    && (forall v :: 0 <= v < g.Size() && v != u && Anc(t, u, v) && Anc(t, v, w) && v != ENTRY ==>
          t.num[semi[v]] >= t.num[semi[low]])
  }

  lemma TreeNumbers(g: Graph, t: Tree)
    requires TreeShape(g, t)
    ensures t.num[ENTRY] == 1
    ensures forall b :: 0 <= b < g.Size() && t.num[b] == 1 ==> b == ENTRY
    ensures forall b :: 0 <= b < g.Size() ==> 1 <= t.num[b] <= g.Size()
  {
  }

  lemma SameNumber(g: Graph, t: Tree, c: nat)
    requires TreeShape(g, t) && c < g.Size()
    ensures forall b :: 0 <= b < g.Size() && t.num[b] == t.num[c] ==> b == c
  {
  }

  lemma AllSemiIds(g: Graph, t: Tree, semidoms: seq<BlockRef>)
    requires TreeShape(g, t) && |semidoms| == g.Size()
    requires forall b :: 0 <= b < g.Size() && b != ENTRY ==> semidoms[b].Ref? && IsSemi(g, t, semidoms[b].id, b)
    ensures AllSemi(g, t, Ids(semidoms))
    ensures forall b :: 0 <= b < g.Size() && b != ENTRY ==> semidoms[b].id < g.Size()
  {
  }

  lemma NumbersDiffer(g: Graph, t: Tree, b: nat, c: nat)
    requires g.Valid() && g.NoSelfEdge() && TreeShape(g, t) && b < g.Size() && c < g.Size() && c in g.preds[b]
    ensures t.num[b] != t.num[c]
  {
    assert b in g.succs[c];
  }

  lemma WalkStart(g: Graph, t: Tree, semi: seq<nat>, w: nat)
    requires ValidTree(g, t) && AllSemi(g, t, semi) && w < g.Size() && w != ENTRY
    ensures WalkLoop(g, t, semi, w, w, w) && semi[w] < g.Size()
  {
    SemiIsProperAncestor(g, t, semi[w], w);
  }

  lemma WalkNotEntry(g: Graph, t: Tree, semi: seq<nat>, w: nat, u: nat, low: nat)
    requires w < |semi| && WalkLoop(g, t, semi, w, u, low) && u != semi[w]
    ensures u != ENTRY
  {
    EntryTop(g, t, semi[w], u);
  }

  lemma WalkStep(g: Graph, t: Tree, semi: seq<nat>, w: nat, u: nat, low: nat, low': nat)
    requires w < |semi| && low < |semi| && u < |semi| && semi[low] < |t.num| && semi[u] < |t.num|
    requires WalkLoop(g, t, semi, w, u, low) && u != semi[w]
    requires low' == if t.num[semi[u]] < t.num[semi[low]] then u else low
    ensures u != ENTRY && t.parent[u] < g.Size() && t.num[t.parent[u]] < t.num[u]
    ensures WalkLoop(g, t, semi, w, t.parent[u], low') && low' < g.Size() && low' != ENTRY
  {
    EntryTop(g, t, semi[w], u);
    var c := t.parent[u];
    forall v | 0 <= v < g.Size() && v != c && Anc(t, c, v) && Anc(t, v, w) && v != ENTRY
      ensures t.num[semi[v]] >= t.num[semi[low']]
    {
      OnTreePath(g, t, u, v, w);
    }
  }

  // A block strictly below u's parent on the tree path to w is u or below u.
  lemma OnTreePath(g: Graph, t: Tree, u: nat, v: nat, w: nat)
    requires ValidTree(g, t) && u < g.Size() && v < g.Size() && w < g.Size() && u != ENTRY
    requires Anc(t, u, w) && Anc(t, v, w) && t.parent[u] != v && Anc(t, t.parent[u], v)
    ensures Anc(t, u, v)
  {
    assert t.num[v] < t.num[u] ==> Anc(t, v, u);
  }

  lemma WalkEnd(g: Graph, t: Tree, semi: seq<nat>, w: nat, low: nat)
    requires w < |semi| && WalkLoop(g, t, semi, w, semi[w], low)
    ensures t.num[semi[low]] == t.num[semi[w]] ==> IsIdom(g, semi[w], w)
    ensures t.num[semi[low]] != t.num[semi[w]] ==> t.num[low] < t.num[w]
    ensures forall d :: t.num[semi[low]] != t.num[semi[w]] && IsIdom(g, d, low) ==> IsIdom(g, d, w)
  {
    if t.num[semi[low]] == t.num[semi[w]] {
      IdomIsSemi(g, t, semi, w);
    } else {
      forall d | IsIdom(g, d, low) ensures IsIdom(g, d, w) {
        IdomIsShared(g, t, semi, w, low, d);
      }
    }
  }

  // A completed numbering of all blocks is a depth-first spanning tree.
  lemma DfsTree(g: Graph, w: Walk, v: Walk, next: nat)
    requires g.Valid() && DfsDone(g, w, v, ENTRY, 0, next) && SubtreeDone(g, v.t, ENTRY, 0, next) && next == g.Size()
    ensures ValidTree(g, v.t)
  {
    CountBound(g, v, next);
    assert forall b :: 0 <= b < g.Size() && b != ENTRY ==> InRange(v.t, b, 1, next);
    assert forall b :: 0 <= b < g.Size() ==> Explored(g, v.t, b);
    assert TreeShape(g, v.t);
    assert forall b {:trigger v.t.parent[b]} :: 0 <= b < g.Size() && b != ENTRY ==> InRange(v.t, b, 1, next);
    forall a, b | 0 <= a < g.Size() && 0 <= b < g.Size() && Anc(v.t, a, b)
      ensures v.t.last[b] <= v.t.last[a]
      ensures a != b ==> v.t.parent[b] < g.Size() && Anc(v.t, a, v.t.parent[b])
    {
      DfsTreeNested(g, v, next, a, b);
    }
    forall a, b | 0 <= a < g.Size() && b in g.succs[a] && b < g.Size() && v.t.num[a] < v.t.num[b]
      ensures Anc(v.t, a, b)
    {
      assert Explored(g, v.t, a);
    }
  }

  lemma DfsTreeNested(g: Graph, v: Walk, next: nat, a: nat, b: nat)
    requires g.Valid() && Counted(g, v, next) && next == g.Size() && v.t.num[ENTRY] == 1 && v.t.last[ENTRY] == next
    requires Forest(g, v.t, 1, next, ENTRY) && a < g.Size() && b < g.Size() && Anc(v.t, a, b)
    requires forall c :: 0 <= c < g.Size() && c != ENTRY ==> InRange(v.t, c, 1, next)
    ensures v.t.last[b] <= v.t.last[a]
    ensures a != b ==> v.t.parent[b] < g.Size() && Anc(v.t, a, v.t.parent[b])
  {
    assert a != ENTRY ==> InRange(v.t, a, 1, next);
    if b != ENTRY {
      assert InRange(v.t, b, 1, next);
      assert v.t.last[b] <= next;
      assert v.t.parent[b] < g.Size();
    }
  }

  // The visited blocks are closed under edges, so they include everything reachable.
  lemma CountIsReachability(g: Graph, w: Walk, v: Walk, next: nat)
    requires g.Valid() && DfsDone(g, w, v, ENTRY, 0, next) && SubtreeDone(g, v.t, ENTRY, 0, next)
    ensures next == g.Size() <==> AllReachable(g)
  {
    CountBound(g, v, next);
    if AllReachable(g) {
      VisitedClosed(g, w, v, next);
      forall b | 0 <= b < g.Size() ensures v.t.num[b] != 0 {
        assert Reachable(g, b);
        var p :| PathTo(g, p, ENTRY, b);
        ClosedPath(g, (set a | 0 <= a < g.Size() && v.t.num[a] != 0), {}, p, |p| - 1);
      }
    }
    if next == g.Size() {
      DfsTree(g, w, v, next);
      forall b | 0 <= b < g.Size() ensures Reachable(g, b) {
        assert Anc(v.t, ENTRY, b);
        assert PathTo(g, TreePath(g, v.t, ENTRY, b), ENTRY, b);
      }
    }
  }

  lemma VisitedClosed(g: Graph, w: Walk, v: Walk, next: nat)
    requires g.Valid() && DfsDone(g, w, v, ENTRY, 0, next) && SubtreeDone(g, v.t, ENTRY, 0, next)
    ensures forall a, b :: 0 <= a < g.Size() && 0 <= b < g.Size() && v.t.num[a] != 0 && b in g.succs[a] ==>
              v.t.num[b] != 0
  {
    forall a, b | 0 <= a < g.Size() && 0 <= b < g.Size() && v.t.num[a] != 0 && b in g.succs[a]
      ensures v.t.num[b] != 0
    {
      assert a == ENTRY || InRange(v.t, a, 1, next);
      assert Explored(g, v.t, a);
    }
  }

  ghost function MarkedSet(marks: seq<nat>, m: nat): set<nat> {
    set b | 0 <= b < |marks| && marks[b] == m
  }

  // The dominator tree of a graph, computed in place.
  class DomTree {
    const g: Graph
    const blocks: BlockMarks
    var mark: nat
    var vNumbers: seq<nat>
    var sorted: seq<BlockRef>
    var semidoms: seq<BlockRef>
    var spanningTreeImmAnc: seq<nat>
    var idoms: seq<BlockRef>
    ghost var last: seq<nat>  // the largest number in the subtree of a finished block

    constructor (g: Graph, blocks: BlockMarks)
      requires g.Valid() && blocks.Valid() && |blocks.marks| == g.Size()
      modifies blocks
      ensures this.g == g && this.blocks == blocks && blocks.Valid() && blocks.marks == old(blocks.marks)
      ensures mark == blocks.counter && forall b :: 0 <= b < g.Size() ==> blocks.marks[b] != mark
    {
      this.g, this.blocks := g, blocks;
      vNumbers, spanningTreeImmAnc, last := [], [], [];
      sorted, semidoms, idoms := [], [], [];
      new;
      mark := blocks.NewMarker();
    }

    ghost function State(): Walk
      reads this
    {
      Walk(Tree(vNumbers, last, spanningTreeImmAnc), sorted)
    }

    // A block is numbered as soon as it is marked.
    ghost predicate Numbering()
      reads this, blocks
    {
      && g.Valid() && blocks.Valid() && |blocks.marks| == |vNumbers| == g.Size() && mark <= blocks.counter
      && (forall b :: 0 <= b < g.Size() ==> (blocks.marks[b] == mark <==> vNumbers[b] != 0))
    }

    function NumOf(r: BlockRef): nat
      reads this
      requires r.Ref? ==> r.id < |vNumbers|
    {
      if r.Ref? then vNumbers[r.id] else 0
    }

    method DFS(bb: nat, idx: nat) returns (next: nat)
      requires Numbering() && Counted(g, State(), idx) && bb < g.Size() && vNumbers[bb] == 0
      modifies this`vNumbers, this`sorted, this`spanningTreeImmAnc, this`last, blocks`marks
      ensures Numbering()
      ensures DfsDone(g, old(State()), State(), bb, idx, next)
      ensures SubtreeDone(g, State().t, bb, idx, next)
      decreases g.Size() - idx, 0
    {
      hide Counted, Kept, Forest, SubtreeDone;
      ghost var w := State();
      CountBound(g, w, idx);
      blocks.Mark(bb, mark);
      next := idx + 1;
      vNumbers := vNumbers[bb := next];
      sorted := sorted[|sorted| - next := Ref(bb)];
      DfsEnter(g, w, State(), bb, idx);
      for i := 0 to |g.succs[bb]|
        invariant Numbering()
        invariant DfsLoop(g, w, State(), bb, idx, next, i)
        invariant Forest(g, State().t, idx + 1, next, bb)
      {
        next := VisitSuccessor(bb, i, next, w, idx);
      }
      ghost var v := State();
      last := last[bb := next];
      DfsExit(g, w, v, State(), bb, idx, next);
    }

    // The body of DFS's loop over the successors of bb.
    method VisitSuccessor(bb: nat, i: nat, cur: nat, ghost w: Walk, ghost idx: nat) returns (next: nat)
      requires Numbering() && DfsLoop(g, w, State(), bb, idx, cur, i) && i < |g.succs[bb]|
      requires Forest(g, State().t, idx + 1, cur, bb)
      modifies this`vNumbers, this`sorted, this`spanningTreeImmAnc, this`last, blocks`marks
      ensures Numbering() && DfsLoop(g, w, State(), bb, idx, next, i + 1)
      ensures Forest(g, State().t, idx + 1, next, bb)
      decreases g.Size() - cur, 1
    {
      hide Counted, Kept, Forest, SubtreeDone;
      ghost var v := State();
      CountBound(g, v, cur);
      var succ := g.succs[bb][i];
      if blocks.IsMarked(succ, mark) {
        next := cur;
        DfsSkip(g, w, v, bb, idx, cur, i);
      } else {
        spanningTreeImmAnc := spanningTreeImmAnc[succ := bb];
        ghost var u := State();
        DfsLink(g, v, u, cur, succ, bb);
        next := DFS(succ, cur);
        DfsRecurse(g, w, v, u, State(), bb, idx, cur, next, i, succ);
        DfsRecurseForest(g, v, u, State(), idx + 1, cur, next, bb, succ);
      }
    }

    // Numbers all blocks; fails when some block cannot be reached from the entry.
    method EnumerateBlocks() returns (ok: bool)
      requires g.Valid() && blocks.Valid() && |blocks.marks| == g.Size() && mark <= blocks.counter
      requires forall b :: 0 <= b < g.Size() ==> blocks.marks[b] != mark
      modifies this, blocks`marks
      ensures blocks.Valid() && |blocks.marks| == g.Size()
      ensures ok <==> AllReachable(g)
      ensures ok ==> Enumerated()
    {
      hide Forest, SubtreeDone, Kept;
      var blocksCount := g.Size();
      vNumbers := seq(blocksCount, _ => 0);
      sorted := seq(blocksCount, _ => Null);
      spanningTreeImmAnc := seq(blocksCount, _ => 0);
      idoms := seq(blocksCount, _ => Null);
      last := seq(blocksCount, _ => 0);
      ghost var w := State();
      assert Numbered(vNumbers) == {};
      var idx := DFS(ENTRY, 0);
      CountIsReachability(g, w, State(), idx);
      ok := blocksCount == idx;
      if ok {
        DfsTree(g, w, State(), idx);
      }
    }

    // The numbering is complete: a spanning tree, listed in `sorted` by descending number.
    ghost predicate Enumerated()
      reads this
    {
      && g.Valid() && |vNumbers| == |last| == |spanningTreeImmAnc| == |sorted| == |idoms| == g.Size()
      && TreeShape(g, State().t) && ValidTree(g, State().t)
      && (forall j :: 0 <= j < g.Size() ==>
            sorted[j].Ref? && sorted[j].id < g.Size() && vNumbers[sorted[j].id] == g.Size() - j)
    }

    // Marked search through predecessors numbered num or more for the lowest one numbered below num.
    method FindPredWithLessThan(num: nat, bb: nat) returns (semidom: BlockRef)
      requires Enumerated() && blocks.Valid() && |blocks.marks| == g.Size() && mark <= blocks.counter
      requires bb < g.Size() && num <= vNumbers[bb] && blocks.marks[bb] != mark
      modifies blocks`marks
      ensures blocks.Valid() && |blocks.marks| == g.Size()
      ensures semidom.Ref? ==> semidom.id < g.Size()
      ensures BackDone(g, vNumbers, num, bb, old(MarkedSet(blocks.marks, mark)), MarkedSet(blocks.marks, mark), semidom)
      decreases UpTo(g.Size()) - MarkedSet(blocks.marks, mark)
    {
      hide ValidTree, TreeShape, BackDone, BackLoop;
      ghost var s := MarkedSet(blocks.marks, mark);
      blocks.Mark(bb, mark);
      ghost var s' := MarkedSet(blocks.marks, mark);
      assert s' == s + {bb};
      semidom := Null;
      BackEnter(g, vNumbers, num, bb, s);
      for i := 0 to |g.preds[bb]|
        invariant blocks.Valid() && |blocks.marks| == g.Size()
        invariant s' == MarkedSet(blocks.marks, mark) && s <= s' && bb in s'
        invariant semidom.Ref? ==> semidom.id < g.Size()
        invariant BackLoop(g, vNumbers, num, bb, s, s', semidom, i)
      {
        var pred := g.preds[bb][i];
        var semidomTmp := Null;
        ghost var before := semidom;
        if num > vNumbers[pred] {
          semidomTmp := Ref(pred);
          BackLow(g, vNumbers, num, bb, s, s', semidom, i, pred);
        } else if blocks.marks[pred] != mark {
          semidomTmp := FindPredWithLessThan(num, pred);
          ghost var s'' := MarkedSet(blocks.marks, mark);
          BackRecurse(g, vNumbers, num, bb, s, s', s'', semidom, semidomTmp, i, pred);
          s' := s'';
        } else {
          BackSkip(g, vNumbers, num, bb, s, s', semidom, i, pred);
        }
        if semidomTmp.Ref? {
          if NumOf(semidomTmp) < NumOf(semidom) || semidom.Null? {
            semidom := semidomTmp;
          }
        }
        assert semidom == Lower(vNumbers, before, semidomTmp);
      }
      BackExit(g, vNumbers, num, bb, s, s', semidom);
    }

    // The semidominator of bb.
    method FindSemiDom(bb: nat) returns (semidom: BlockRef)
      requires Enumerated() && g.NoSelfEdge() && blocks.Valid() && |blocks.marks| == g.Size()
      requires bb < g.Size() && bb != ENTRY && |semidoms| == g.Size()
      modifies this`mark, this`semidoms, blocks
      ensures Enumerated() && blocks.Valid() && |blocks.marks| == g.Size()
      ensures semidom.Ref? && IsSemi(g, State().t, semidom.id, bb) && semidoms == old(semidoms)[bb := semidom]
    {
      hide ValidTree, TreeShape, BackDone, IsSemi, Starts, LowestVia;
      ghost var t := State().t;
      semidom := Null;
      for i := 0 to |g.preds[bb]|
        invariant Enumerated() && blocks.Valid() && |blocks.marks| == g.Size() && t == State().t
        invariant semidoms == old(semidoms)
        invariant SemiLoop(g, t, bb, semidom, i)
      {
        var pred := g.preds[bb][i];
        var semidomTmp := Null;
        ghost var before := semidom;
        NumbersDiffer(g, t, bb, pred);
        if vNumbers[bb] > vNumbers[pred] {
          semidomTmp := Ref(pred);
          SemiDirect(g, t, bb, pred);
        } else {
          mark := blocks.NewMarker();
          assert MarkedSet(blocks.marks, mark) == {};
          semidomTmp := FindPredWithLessThan(vNumbers[bb], pred);
          SemiSearch(g, t, bb, pred, MarkedSet(blocks.marks, mark), semidomTmp);
        }
        if semidomTmp.Ref? {
          if NumOf(semidomTmp) < NumOf(semidom) || semidom.Null? {
            semidom := semidomTmp;
          }
        }
        SemiLoopExtend(g, t, bb, before, semidomTmp, i);
      }
      SemiExit(g, t, bb, semidom);
      semidoms := semidoms[bb := semidom];
    }

    // The semidominators of the first i blocks of `sorted` are in place.
    ghost predicate SemisUpTo(i: nat)
      reads this
      requires Enumerated() && |semidoms| == g.Size()
    {
      forall b :: 0 <= b < g.Size() && b != ENTRY && vNumbers[b] > g.Size() - i ==>
        semidoms[b].Ref? && IsSemi(g, State().t, semidoms[b].id, b)
    }

    method CollectSemiDoms()
      requires Enumerated() && g.NoSelfEdge() && blocks.Valid() && |blocks.marks| == g.Size()
      modifies this`mark, this`semidoms, blocks
      ensures Enumerated() && blocks.Valid() && |blocks.marks| == g.Size()
      ensures |semidoms| == g.Size() && semidoms[ENTRY] == Null && SemisUpTo(g.Size())
    {
      hide ValidTree, TreeShape, IsSemi;
      semidoms := seq(|vNumbers|, _ => Null);
      TreeNumbers(g, State().t);
      for i := 0 to |sorted|
        invariant Enumerated() && blocks.Valid() && |blocks.marks| == g.Size()
        invariant |semidoms| == g.Size() && semidoms[ENTRY] == Null && SemisUpTo(i)
        invariant State() == old(State())
      {
        var bb := sorted[i].id;
        SameNumber(g, State().t, bb);
        if bb != ENTRY {
          var semidom := FindSemiDom(bb);
        }
      }
    }

    // The blocks numbered up to k have their immediate dominators in place.
    ghost predicate IdomsUpTo(k: nat)
      reads this
      requires Enumerated()
    {
      && idoms[ENTRY] == Null
      && (forall b :: 0 <= b < g.Size() && b != ENTRY && vNumbers[b] <= k ==>
            idoms[b].Ref? && IsIdom(g, idoms[b].id, b))
    }

    // The inner loop of CollectIdoms: walks the spanning tree from bb up to its semidominator and picks
    // the block whose semidominator is lowest.
    method LowestSemidomBelow(bb: nat) returns (uMin: nat)
      requires Enumerated() && |semidoms| == g.Size() && semidoms[ENTRY] == Null && SemisUpTo(g.Size())
      requires bb < g.Size() && bb != ENTRY
      ensures uMin < g.Size() && uMin != ENTRY
      ensures WalkLoop(g, State().t, Ids(semidoms), bb, semidoms[bb].id, uMin)
    {
      hide ValidTree, TreeShape, AllSemi, IsSemi, WalkLoop;
      ghost var t, semi := State().t, Ids(semidoms);
      TreeNumbers(g, t);
      AllSemiIds(g, t, semidoms);
      var u: nat := bb;
      uMin := u;
      var semidomId := semidoms[bb].id;
      WalkStart(g, t, semi, bb);
      while u != semidomId
        invariant u < g.Size() && uMin < g.Size() && uMin != ENTRY
        invariant WalkLoop(g, t, semi, bb, u, uMin)
        decreases vNumbers[u]
      {
        ghost var low := uMin;
        WalkNotEntry(g, t, semi, bb, u, low);
        if NumOf(semidoms[u]) < NumOf(semidoms[uMin]) {
          uMin := u;
        }
        WalkStep(g, t, semi, bb, u, low, uMin);
        u := spanningTreeImmAnc[u];
      }
    }

    method CollectIdoms()
      requires Enumerated() && |semidoms| == g.Size() && semidoms[ENTRY] == Null && SemisUpTo(g.Size())
      modifies this`idoms
      ensures Enumerated() && IdomsUpTo(g.Size())
    {
      hide ValidTree, TreeShape, IsSemi, IsIdom;
      idoms := idoms[ENTRY := Null];
      TreeNumbers(g, State().t);
      for i := 1 to |sorted|
        invariant Enumerated() && IdomsUpTo(i)
      {
        CollectIdom(i);
      }
    }

    // The block numbered i + 1 takes its semidominator, or the immediate dominator of a block numbered lower.
    method CollectIdom(i: nat)
      requires Enumerated() && |semidoms| == g.Size() && semidoms[ENTRY] == Null && SemisUpTo(g.Size())
      requires 1 <= i < |sorted| && IdomsUpTo(i)
      modifies this`idoms
      ensures Enumerated() && IdomsUpTo(i + 1)
    {
      hide ValidTree, TreeShape, AllSemi, IsSemi, IsIdom, WalkLoop;
      ghost var t, semi := State().t, Ids(semidoms);
      TreeNumbers(g, t);
      AllSemiIds(g, t, semidoms);
      var bb := sorted[|sorted| - 1 - i].id;
      SameNumber(g, t, bb);
      assert bb != ENTRY;
      var semidom := semidoms[bb];
      var uMin := LowestSemidomBelow(bb);
      WalkEnd(g, t, semi, bb, uMin);
      if NumOf(semidoms[uMin]) == NumOf(semidoms[bb]) {
        idoms := idoms[bb := semidom];
      } else {
        idoms := idoms[bb := idoms[uMin]];
      }
    }

    // The whole construction. It succeeds exactly on graphs without unreachable blocks, and then every
    // block but the entry has its immediate dominator.
    method Build() returns (ok: bool)
      requires g.Valid() && g.NoSelfEdge() && blocks.Valid() && |blocks.marks| == g.Size() && mark <= blocks.counter
      requires forall b :: 0 <= b < g.Size() ==> blocks.marks[b] != mark
      modifies this, blocks
      ensures ok <==> AllReachable(g)
      ensures ok ==> |idoms| == g.Size() && idoms[ENTRY] == Null
      ensures ok ==> forall b :: 0 <= b < g.Size() && b != ENTRY ==> idoms[b].Ref? && IsIdom(g, idoms[b].id, b)
    {
      ok := EnumerateBlocks();
      hide ValidTree, TreeShape, IsSemi, IsIdom;
      if ok {
        CollectSemiDoms();
        CollectIdoms();
        TreeNumbers(g, State().t);
      }
    }
  }
}
