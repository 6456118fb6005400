// Semidominators over a depth-first spanning tree, and why they determine immediate dominators.
module DomTheory {
  import opened Cfg

  // A depth-first spanning tree. `num` is the preorder number of a block (from 1), `last` the largest
  // number in its subtree and `parent` the block it was discovered from.
  datatype Tree = Tree(num: seq<nat>, last: seq<nat>, parent: seq<nat>)

  // a is b or an ancestor of b: b's number falls into the interval of a's subtree.
  ghost predicate Anc(t: Tree, a: nat, b: nat)
    requires a < |t.num| && a < |t.last| && b < |t.num|
  {
    t.num[a] <= t.num[b] <= t.last[a]
  }

  ghost predicate TreeShape(g: Graph, t: Tree) {
    && |t.num| == |t.last| == |t.parent| == g.Size()
    && ENTRY < g.Size()
    && t.num[ENTRY] == 1
    && (forall b :: 0 <= b < g.Size() ==> 1 <= t.num[b] <= t.last[b] <= t.last[ENTRY] == g.Size())
    && (forall b, c :: 0 <= b < g.Size() && 0 <= c < g.Size() && t.num[b] == t.num[c] ==> b == c)
  }

  ghost predicate ValidTree(g: Graph, t: Tree) {
    && TreeShape(g, t)
    // the parent is joined to the block by an edge and is its closest proper ancestor
    && (forall b :: 0 <= b < g.Size() && b != ENTRY ==>
          t.parent[b] < g.Size() && b in g.succs[t.parent[b]] && t.num[t.parent[b]] < t.num[b])
    && (forall a, b {:trigger Anc(t, a, b), t.parent[b]} ::
          0 <= a < g.Size() && 0 <= b < g.Size() && a != b && Anc(t, a, b) ==> Anc(t, a, t.parent[b]))
    && (forall a, b :: 0 <= a < g.Size() && 0 <= b < g.Size() && Anc(t, a, b) ==> t.last[b] <= t.last[a])
    // an edge to a higher number always leads into the subtree of its source
    && (forall u, v :: 0 <= u < g.Size() && v in g.succs[u] && v < g.Size() && t.num[u] < t.num[v] ==> Anc(t, u, v))
  }

  // A block that is lowest on a stretch of a path is an ancestor of the block where the stretch ends.
  lemma {:induction false} MinIsAncestor(g: Graph, t: Tree, p: seq<nat>, m: nat, j: nat)
    requires ValidTree(g, t) && IsPath(g, p) && m <= j < |p|
    requires forall n :: m <= n <= j ==> t.num[p[m]] <= t.num[p[n]]
    ensures Anc(t, p[m], p[j])
  {
    if m < j {
      MinIsAncestor(g, t, p, m, j - 1);
      assert Step(g, p, j);
    }
  }

  // The path along the spanning tree from an ancestor down to a block.
  ghost function TreePath(g: Graph, t: Tree, a: nat, b: nat): (p: seq<nat>)
    requires ValidTree(g, t) && a < g.Size() && b < g.Size() && Anc(t, a, b)
    ensures PathTo(g, p, a, b)
    ensures forall x :: x in p ==> Anc(t, a, x) && Anc(t, x, b)
    decreases t.num[b]
  {
    if a == b then
      [b]
    else
      EntryTop(g, t, a, b);
      var q := TreePath(g, t, a, t.parent[b]);
      PathExtend(g, q, a, t.parent[b], b);
      assert forall x :: x in q + [b] ==> x in q || x == b;
      assert Anc(t, t.parent[b], b);
      q + [b]
  }

  lemma EntryTop(g: Graph, t: Tree, a: nat, b: nat)
    requires ValidTree(g, t) && a < g.Size() && b < g.Size() && Anc(t, a, b) && a != b
    ensures b != ENTRY && Anc(t, t.parent[b], b)
  {
    assert t.num[a] < t.num[b];
    var c := t.parent[b];
    assert b in g.succs[c];
  }

  // A path to b whose interior blocks are all numbered above b.
  ghost predicate SemiPath(g: Graph, t: Tree, p: seq<nat>, b: nat)
    requires TreeShape(g, t) && b < g.Size()
  {
    && |p| >= 2
    && PathTo(g, p, p[0], b)
    && (forall i :: 0 < i < |p| - 1 ==> t.num[p[i]] > t.num[b])
  }

  // s is the semidominator of b: the lowest-numbered start of such a path.
  ghost predicate IsSemi(g: Graph, t: Tree, s: nat, b: nat)
    requires TreeShape(g, t) && b < g.Size()
  {
    && s < g.Size()
    && (exists p :: SemiPath(g, t, p, b) && p[0] == s)
    && (forall p :: SemiPath(g, t, p, b) ==> t.num[s] <= t.num[p[0]])
  }

  ghost predicate AllSemi(g: Graph, t: Tree, semi: seq<nat>)
    requires TreeShape(g, t)
  {
    && |semi| == g.Size()
    && (forall b :: 0 <= b < g.Size() && b != ENTRY ==> IsSemi(g, t, semi[b], b))
  }

  lemma SemiIsProperAncestor(g: Graph, t: Tree, s: nat, b: nat)
    requires ValidTree(g, t) && b < g.Size() && b != ENTRY && IsSemi(g, t, s, b)
    ensures Anc(t, s, b) && t.num[s] < t.num[b] && s != b
  {
    var q := ParentPath(g, t, b);
    var p :| SemiPath(g, t, p, b) && p[0] == s;
    SemiStartIsAncestor(g, t, p, b);
  }

  lemma ParentPath(g: Graph, t: Tree, b: nat) returns (p: seq<nat>)
    requires ValidTree(g, t) && b < g.Size() && b != ENTRY
    ensures SemiPath(g, t, p, b) && p[0] == t.parent[b]
  {
    p := [t.parent[b], b];
    assert Step(g, p, 1);
  }

  lemma SemiStartIsAncestor(g: Graph, t: Tree, p: seq<nat>, b: nat)
    requires ValidTree(g, t) && b < g.Size() && SemiPath(g, t, p, b) && t.num[p[0]] <= t.num[b]
    ensures Anc(t, p[0], b)
  {
    MinIsAncestor(g, t, p, 0, |p| - 1);
  }

  // A path that goes around a proper ancestor `a` of `w` rejoins the tree path below `a` at a block
  // whose semidominator lies above `a`.
  lemma Bypass(g: Graph, t: Tree, semi: seq<nat>, a: nat, w: nat, p: seq<nat>) returns (j: nat)
    requires ValidTree(g, t) && AllSemi(g, t, semi)
    requires a < g.Size() && w < g.Size() && Anc(t, a, w) && a != w && a != ENTRY
    requires PathTo(g, p, ENTRY, w) && a !in p
    ensures j < |p| && Anc(t, a, p[j]) && Anc(t, p[j], w) && p[j] != a && p[j] != ENTRY
    ensures t.num[semi[p[j]]] < t.num[a]
  {
    var i := LastBelow(t, p, t.num[a]);
    j := FirstOnTree(t, a, w, p, i + 1);
    forall k | i < k < j ensures t.num[p[k]] > t.num[p[j]] {
      FirstOnTreeIsLowest(g, t, a, w, p, k, j);
    }
    SemiBelow(g, t, semi[p[j]], p, i, j);
  }

  lemma SemiBelow(g: Graph, t: Tree, s: nat, p: seq<nat>, i: nat, j: nat)
    requires TreeShape(g, t) && IsPath(g, p) && i < j < |p| && IsSemi(g, t, s, p[j])
    requires forall k :: i < k < j ==> t.num[p[k]] > t.num[p[j]]
    ensures t.num[s] <= t.num[p[i]]
  {
    var q := p[i..j + 1];
    PathSlice(g, p, i, j + 1);
    assert SemiPath(g, t, q, p[j]);
  }

  lemma LastBelow(t: Tree, p: seq<nat>, bound: nat) returns (i: nat)
    requires |p| > 0 && (forall k :: 0 <= k < |p| ==> p[k] < |t.num|)
    requires t.num[p[0]] < bound
    ensures i < |p| && t.num[p[i]] < bound
    ensures forall k :: i < k < |p| ==> t.num[p[k]] >= bound
  {
    i := |p| - 1;
    while t.num[p[i]] >= bound
      invariant 0 <= i < |p|
      invariant forall k :: i < k < |p| ==> t.num[p[k]] >= bound
      decreases i
    {
      i := i - 1;
    }
  }

  lemma FirstOnTree(t: Tree, a: nat, w: nat, p: seq<nat>, lo: nat) returns (j: nat)
    requires |t.num| == |t.last| && a < |t.num| && w < |t.num|
    requires lo < |p| && (forall k :: 0 <= k < |p| ==> p[k] < |t.num|)
    requires p[|p| - 1] == w && Anc(t, a, w) && Anc(t, w, w)
    ensures lo <= j < |p| && Anc(t, a, p[j]) && Anc(t, p[j], w)
    ensures forall k :: lo <= k < j ==> !(Anc(t, a, p[k]) && Anc(t, p[k], w))
  {
    j := lo;
    while !(Anc(t, a, p[j]) && Anc(t, p[j], w))
      invariant lo <= j < |p|
      invariant forall k :: lo <= k < j ==> !(Anc(t, a, p[k]) && Anc(t, p[k], w))
      decreases |p| - j
    {
      j := j + 1;
    }
  }

  // If p stays below `a` from k to j and p[j] is its first block on the tree path from a to w, then
  // p[k] is numbered above p[j].
  lemma FirstOnTreeIsLowest(g: Graph, t: Tree, a: nat, w: nat, p: seq<nat>, k: nat, j: nat)
    requires ValidTree(g, t) && IsPath(g, p) && k < j < |p| && a < g.Size() && w < g.Size()
    requires forall m :: k <= m <= j ==> t.num[p[m]] >= t.num[a]
    requires forall m :: k <= m < j ==> !(Anc(t, a, p[m]) && Anc(t, p[m], w))
    requires Anc(t, a, p[j]) && Anc(t, p[j], w)
    ensures t.num[p[k]] > t.num[p[j]]
  {
    var m := LowestIn(t, p, k, j + 1);
    MinIsAncestor(g, t, p, m, j);
    assert m == j;
  }

  lemma LowestIn(t: Tree, p: seq<nat>, lo: nat, hi: nat) returns (m: nat)
    requires lo < hi <= |p| && forall i :: 0 <= i < |p| ==> p[i] < |t.num|
    ensures lo <= m < hi && forall k :: lo <= k < hi ==> t.num[p[m]] <= t.num[p[k]]
  {
    m := lo;
    for i := lo to hi
      invariant lo <= m < hi && forall k :: lo <= k < i ==> t.num[p[m]] <= t.num[p[k]]
    {
      if t.num[p[i]] < t.num[p[m]] {
        m := i;
      }
    }
  }

  // Every dominator lies on the tree path.
  lemma DominatorIsAncestor(g: Graph, t: Tree, x: nat, w: nat)
    requires ValidTree(g, t) && w < g.Size() && Dominates(g, x, w)
    ensures x < g.Size() && Anc(t, x, w)
  {
    assert Anc(t, ENTRY, w);
    var p := TreePath(g, t, ENTRY, w);
    assert x in p;
  }

  // No strict dominator lies below the semidominator.
  lemma SemiBoundsDominators(g: Graph, t: Tree, s: nat, x: nat, w: nat)
    requires ValidTree(g, t) && w < g.Size() && w != ENTRY && IsSemi(g, t, s, w)
    requires StrictlyDominates(g, x, w)
    ensures x < g.Size() && Anc(t, x, s)
  {
    DominatorIsAncestor(g, t, x, w);
    assert Anc(t, ENTRY, s);
    var p := TreePath(g, t, ENTRY, s);
    var q :| SemiPath(g, t, q, w) && q[0] == s;
    PathJoin(g, p, q, ENTRY, s, w);
    assert x in p + q[1..];
  }

  // A dominator of w also dominates every block of the tree path between the two.
  lemma DominatesAlongTree(g: Graph, t: Tree, x: nat, y: nat, w: nat)
    requires ValidTree(g, t) && x < g.Size() && y < g.Size() && w < g.Size()
    requires Dominates(g, x, w) && Anc(t, x, y) && Anc(t, y, w)
    ensures Dominates(g, x, y)
  {
    forall p | PathTo(g, p, ENTRY, y) ensures x in p {
      var q := TreePath(g, t, y, w);
      PathJoin(g, p, q, ENTRY, y, w);
      assert x in p + q[1..];
      assert x in q ==> Anc(t, y, x) && x == y;
      assert p[|p| - 1] == y;
    }
  }

  // If no block between s = semi(w) and w has a semidominator above s, then s is the immediate
  // dominator of w.
  lemma IdomIsSemi(g: Graph, t: Tree, semi: seq<nat>, w: nat)
    requires ValidTree(g, t) && AllSemi(g, t, semi) && w < g.Size() && w != ENTRY
    requires forall u :: 0 <= u < g.Size() && u != semi[w] && Anc(t, semi[w], u) && Anc(t, u, w) && u != ENTRY ==>
               t.num[semi[u]] >= t.num[semi[w]]
    ensures IsIdom(g, semi[w], w)
  {
    var s := semi[w];
    SemiIsProperAncestor(g, t, s, w);
    forall p | PathTo(g, p, ENTRY, w) ensures s in p {
      if s !in p {
        assert s != ENTRY;
        var j := Bypass(g, t, semi, s, w, p);
        assert false;
      }
    }
    forall x | StrictlyDominates(g, x, w) ensures Dominates(g, x, s) {
      SemiBoundsDominators(g, t, s, x, w);
      DominatesAlongTree(g, t, x, s, w);
    }
  }

  // Otherwise w shares the immediate dominator of the block u between s and w whose semidominator
  // is lowest.
  lemma IdomIsShared(g: Graph, t: Tree, semi: seq<nat>, w: nat, u: nat, d: nat)
    requires ValidTree(g, t) && AllSemi(g, t, semi) && w < g.Size() && w != ENTRY
    requires u < g.Size() && u != ENTRY && u != semi[w]
    requires semi[w] < g.Size() && Anc(t, semi[w], u) && Anc(t, u, w)
    requires forall v :: 0 <= v < g.Size() && v != semi[w] && Anc(t, semi[w], v) && Anc(t, v, w) && v != ENTRY ==>
               t.num[semi[v]] >= t.num[semi[u]]
    requires t.num[semi[u]] < t.num[semi[w]]
    requires IsIdom(g, d, u)
    ensures IsIdom(g, d, w)
  {
    var s := semi[w];
    SemiIsProperAncestor(g, t, s, w);
    SemiIsProperAncestor(g, t, semi[u], u);
    SemiBoundsDominators(g, t, semi[u], d, u);
    assert Anc(t, d, u) && Anc(t, d, w) && t.num[d] < t.num[s];
    forall p | PathTo(g, p, ENTRY, w) ensures d in p {
      if d !in p {
        DominatorNotBypassed(g, t, semi, w, u, d, p);
        assert false;
      }
    }
    forall x | StrictlyDominates(g, x, w) ensures Dominates(g, x, d) {
      SemiBoundsDominators(g, t, s, x, w);
      DominatesAlongTree(g, t, x, u, w);
      assert x != u;
    }
  }

  lemma DominatorNotBypassed(g: Graph, t: Tree, semi: seq<nat>, w: nat, u: nat, d: nat, p: seq<nat>)
    requires ValidTree(g, t) && AllSemi(g, t, semi) && w < g.Size() && w != ENTRY
    requires u < g.Size() && u != semi[w] && semi[w] < g.Size() && Anc(t, semi[w], u) && Anc(t, u, w)
    requires u != ENTRY && semi[u] < g.Size()
    requires forall v :: 0 <= v < g.Size() && v != semi[w] && Anc(t, semi[w], v) && Anc(t, v, w) && v != ENTRY ==>
               t.num[semi[v]] >= t.num[semi[u]]
    requires d < g.Size() && Anc(t, d, u) && Anc(t, d, w) && t.num[d] <= t.num[semi[u]] < t.num[semi[w]]
    requires Dominates(g, d, u) && d != w
    requires PathTo(g, p, ENTRY, w)
    ensures d in p
  {
    if d !in p {
      var j := Bypass(g, t, semi, d, w, p);
      SemiIsProperAncestor(g, t, semi[w], w);
      PathSlice(g, p, 0, j + 1);
      TreeDetour(g, t, d, p[..j + 1], p[j], u);
      assert false;
    }
  }

  // A path that avoids a dominator of u cannot end between that dominator and u.
  lemma TreeDetour(g: Graph, t: Tree, d: nat, p: seq<nat>, y: nat, u: nat)
    requires ValidTree(g, t) && d < g.Size() && u < g.Size() && y < g.Size()
    requires PathTo(g, p, ENTRY, y) && Anc(t, d, y) && Anc(t, y, u) && Dominates(g, d, u)
    ensures d in p
  {
    DominatesAlongTree(g, t, d, y, u);
  }
}
