// The depth-first walk as a function on values, and what the order it leaves says about the edges.
module Postorder {
  import opened Cfg
  import opened FiniteSets

  // How many blocks have not been marked.
  ghost function Left(g: Graph, m: set<nat>): nat {
    |UpTo(g.Size()) - m|
  }

  lemma FewerLeft(g: Graph, m: set<nat>, more: set<nat>)
    ensures Left(g, m + more) <= Left(g, m)
  {
    SubsetSize(UpTo(g.Size()) - (m + more), UpTo(g.Size()) - m);
  }

  lemma MarkedLeft(g: Graph, m: set<nat>, bb: nat)
    requires bb < g.Size() && bb !in m
    ensures Left(g, m + {bb}) < Left(g, m)
  {
    assert bb in UpTo(g.Size()) - m;
    SubsetSize(UpTo(g.Size()) - (m + {bb}), UpTo(g.Size()) - m);
  }

  // What a visit of bb places, in its order, when the blocks of m are marked.
  ghost function Visit(g: Graph, m: set<nat>, bb: nat): seq<nat>
    requires g.Valid() && bb < g.Size() && bb !in m
    decreases Left(g, m), 0, 0
  {
    MarkedLeft(g, m, bb);
    [bb] + VisitAll(g, m + {bb}, g.succs[bb])
  }

  // The same for a list of successors: later ones are placed in front.
  ghost function VisitAll(g: Graph, m: set<nat>, succs: seq<nat>): seq<nat>
    requires g.Valid() && InGraph(g, succs)
    decreases Left(g, m), 1, |succs|
  {
    if succs == [] then []
    else if succs[0] in m then VisitAll(g, m, succs[1..])
    else
      var first := Visit(g, m, succs[0]);
      FewerLeft(g, m, Members(first));
      VisitAll(g, m + Members(first), succs[1..]) + first
  }

  ghost predicate InGraph(g: Graph, s: seq<nat>) {
    forall i :: 0 <= i < |s| ==> s[i] < g.Size()
  }

  // ---------------------------------------------------------------- the loop over the successors

  // The first i successors have been tried and have placed `placed`.
  ghost predicate Tried(g: Graph, m: set<nat>, succs: seq<nat>, i: nat, placed: seq<nat>)
    requires g.Valid() && InGraph(g, succs)
  {
    i <= |succs| && VisitAll(g, m, succs) == VisitAll(g, m + Members(placed), succs[i..]) + placed
  }

  lemma NoneTried(g: Graph, m: set<nat>, succs: seq<nat>)
    requires g.Valid() && InGraph(g, succs)
    ensures Tried(g, m, succs, 0, [])
  {
    assert succs[0..] == succs && m + Members([]) == m;
  }

  lemma OneSkipped(g: Graph, m: set<nat>, succs: seq<nat>, i: nat, placed: seq<nat>)
    requires g.Valid() && InGraph(g, succs) && Tried(g, m, succs, i, placed) && i < |succs|
    requires succs[i] in m + Members(placed)
    ensures Tried(g, m, succs, i + 1, placed)
  {
    assert succs[i..][0] == succs[i] && succs[i..][1..] == succs[i + 1..];
  }

  lemma OneVisited(g: Graph, m: set<nat>, succs: seq<nat>, i: nat, placed: seq<nat>)
    requires g.Valid() && InGraph(g, succs) && Tried(g, m, succs, i, placed) && i < |succs|
    requires succs[i] !in m + Members(placed)
    ensures Tried(g, m, succs, i + 1, Visit(g, m + Members(placed), succs[i]) + placed)
  {
    var first := Visit(g, m + Members(placed), succs[i]);
    assert succs[i..][0] == succs[i] && succs[i..][1..] == succs[i + 1..];
    assert m + Members(placed) + Members(first) == m + Members(first + placed);
    var rest := VisitAll(g, m + Members(first + placed), succs[i + 1..]);
    assert (rest + first) + placed == rest + (first + placed);
  }

  lemma AllTried(g: Graph, m: set<nat>, succs: seq<nat>, placed: seq<nat>)
    requires g.Valid() && InGraph(g, succs) && Tried(g, m, succs, |succs|, placed)
    ensures VisitAll(g, m, succs) == placed
  {
    assert [] + placed == placed;
  }

  // ---------------------------------------------------------------- edges and the order

  // a stands in front of b in the list.
  ghost predicate Ahead(v: seq<nat>, a: nat, b: nat) {
    exists i, j :: 0 <= i < j < |v| && v[i] == a && v[j] == b
  }

  // The blocks of the path stand in the list in the order of the path.
  ghost predicate Rising(v: seq<nat>, p: seq<nat>) {
    forall i :: 0 < i < |p| ==> Ahead(v, p[i - 1], p[i])
  }

  // A path leads from s to b by blocks that stand in the list one behind the other.
  ghost predicate RisesTo(g: Graph, v: seq<nat>, s: nat, b: nat) {
    exists p :: PathTo(g, p, s, b) && Rising(v, p)
  }

  // Every edge of b leads behind b in the list, or to a block from which b is reached that way.
  ghost predicate Settled(g: Graph, v: seq<nat>, b: nat)
    requires b < g.Size()
  {
    forall s :: s in g.succs[b] ==> Ahead(v, b, s) || RisesTo(g, v, s, b)
  }

  // So do the edges of the blocks placed. The blocks on the stack will stand in front of them.
  ghost predicate AllSettled(g: Graph, stack: seq<nat>, order: seq<nat>) {
    forall b :: b in order ==> b < g.Size() && Settled(g, stack + order, b)
  }

  lemma AheadInsert(s: seq<nat>, x: nat, t: seq<nat>, a: nat, b: nat)
    requires Ahead(s + t, a, b)
    ensures Ahead(s + [x] + t, a, b)
  {
    var v, w := s + t, s + [x] + t;
    var i, j :| 0 <= i < j < |v| && v[i] == a && v[j] == b;
    var i', j' := if i < |s| then i else i + 1, if j < |s| then j else j + 1;
    assert w[i'] == a && w[j'] == b;
  }

  lemma SettledInsert(g: Graph, s: seq<nat>, x: nat, t: seq<nat>, b: nat)
    requires b < g.Size() && Settled(g, s + t, b)
    ensures Settled(g, s + [x] + t, b)
  {
    hide Ahead;
    forall c | c in g.succs[b] ensures Ahead(s + [x] + t, b, c) || RisesTo(g, s + [x] + t, c, b) {
      if Ahead(s + t, b, c) {
        AheadInsert(s, x, t, b, c);
      } else {
        var p :| PathTo(g, p, c, b) && Rising(s + t, p);
        forall i | 0 < i < |p| ensures Ahead(s + [x] + t, p[i - 1], p[i]) {
          AheadInsert(s, x, t, p[i - 1], p[i]);
        }
      }
    }
  }

  lemma Push(g: Graph, stack: seq<nat>, order: seq<nat>, bb: nat)
    requires AllSettled(g, stack, order)
    ensures AllSettled(g, stack + [bb], order)
  {
    hide Settled;
    forall b | b in order ensures b < g.Size() && Settled(g, stack + [bb] + order, b) {
      SettledInsert(g, stack, bb, order, b);
    }
  }

  // A block on the stack reaches the top of it along the stack.
  lemma StackRises(g: Graph, stack: seq<nat>, order: seq<nat>, i: nat)
    requires IsPath(g, stack) && i < |stack|
    ensures RisesTo(g, stack + order, stack[i], stack[|stack| - 1])
  {
    PathSlice(g, stack, i, |stack|);
    var p, v := stack[i..], stack + order;
    assert p == stack[i..|stack|];
    forall k | 0 < k < |p| ensures Ahead(v, p[k - 1], p[k]) {
      assert v[i + k - 1] == p[k - 1] && v[i + k] == p[k];
    }
  }

  lemma InFront(stack: seq<nat>, order: seq<nat>, b: nat)
    requires stack != [] && b in order
    ensures Ahead(stack + order, stack[|stack| - 1], b)
  {
    var j :| 0 <= j < |order| && order[j] == b;
    var v := stack + order;
    assert v[|stack| - 1] == stack[|stack| - 1] && v[|stack| + j] == b;
  }

  // The blocks of the list are among those of m.
  ghost predicate Within(succs: seq<nat>, m: set<nat>) {
    forall i :: 0 <= i < |succs| ==> succs[i] in m
  }

  // The top of the stack is placed once all its successors are on the stack or placed.
  lemma Pop(g: Graph, stack: seq<nat>, order: seq<nat>, bb: nat)
    requires AllSettled(g, stack + [bb], order) && bb < g.Size() && IsPath(g, stack + [bb])
    requires Within(g.succs[bb], Members(stack + [bb]) + Members(order))
    ensures AllSettled(g, stack, [bb] + order)
  {
    hide Ahead, RisesTo, IsPath;
    var top := stack + [bb];
    assert top + order == stack + ([bb] + order);
    forall s | s in g.succs[bb] ensures Ahead(top + order, bb, s) || RisesTo(g, top + order, s, bb) {
      if s in order {
        InFront(top, order, s);
      } else {
        var i :| 0 <= i < |top| && top[i] == s;
        StackRises(g, top, order, i);
      }
    }
  }

  lemma VisitIs(g: Graph, m: set<nat>, bb: nat)
    requires g.Valid() && bb < g.Size() && bb !in m
    ensures InGraph(g, g.succs[bb]) && Visit(g, m, bb) == [bb] + VisitAll(g, m + {bb}, g.succs[bb])
    ensures Left(g, m + {bb}) < Left(g, m)
  {
    MarkedLeft(g, m, bb);
  }

  // The marked blocks are those on the stack and those placed.
  ghost predicate Marks(m: set<nat>, stack: seq<nat>, order: seq<nat>) {
    m == Members(stack) + Members(order)
  }

  lemma MarksPush(m: set<nat>, stack: seq<nat>, order: seq<nat>, bb: nat)
    requires Marks(m, stack, order)
    ensures Marks(m + {bb}, stack + [bb], order)
  {
  }

  lemma MarksMore(m: set<nat>, stack: seq<nat>, order: seq<nat>, more: seq<nat>)
    requires Marks(m, stack, order)
    ensures Marks(m + Members(more), stack, more + order)
  {
  }

  lemma Assoc(a: seq<nat>, b: seq<nat>, c: seq<nat>)
    ensures a + b + c == a + (b + c)
  {
  }

  lemma {:induction false} VisitSettled(g: Graph, m: set<nat>, stack: seq<nat>, order: seq<nat>, bb: nat)
    requires g.Valid() && bb < g.Size() && bb !in m && IsPath(g, stack + [bb])
    requires Marks(m, stack, order) && AllSettled(g, stack, order)
    ensures AllSettled(g, stack, Visit(g, m, bb) + order)
    decreases Left(g, m), 0, 0
  {
    VisitIs(g, m, bb);
    OwnEdges(g, stack + [bb]);
    TopOf(stack, bb);
    hide AllSettled, Visit, VisitAll, IsPath, Graph.Valid, InGraph, Within, Left, Marks, LeadOn, Members;
    Push(g, stack, order, bb);
    MarksPush(m, stack, order, bb);
    VisitAllSettled(g, m + {bb}, stack + [bb], order, g.succs[bb]);
    var rest := VisitAll(g, m + {bb}, g.succs[bb]);
    Pop(g, stack, rest + order, bb);
    Assoc([bb], rest, order);
  }

  lemma TopOf(stack: seq<nat>, bb: nat)
    ensures (stack + [bb])[|stack + [bb]| - 1] == bb
  {
  }

  // The successors lead on from the top of the stack.
  ghost predicate LeadOn(g: Graph, stack: seq<nat>, succs: seq<nat>) {
    forall i :: 0 <= i < |succs| ==> IsPath(g, stack + [succs[i]])
  }

  lemma OwnEdges(g: Graph, stack: seq<nat>)
    requires g.Valid() && IsPath(g, stack)
    ensures stack[|stack| - 1] < g.Size() && LeadOn(g, stack, g.succs[stack[|stack| - 1]])
  {
    var bb := stack[|stack| - 1];
    forall i | 0 <= i < |g.succs[bb]| ensures IsPath(g, stack + [g.succs[bb][i]]) {
      PathExtend(g, stack, stack[0], bb, g.succs[bb][i]);
    }
  }

  lemma Rest(g: Graph, m: set<nat>, stack: seq<nat>, succs: seq<nat>)
    requires g.Valid() && InGraph(g, succs) && LeadOn(g, stack, succs) && succs != []
    ensures InGraph(g, succs[1..]) && LeadOn(g, stack, succs[1..]) && succs[0] < g.Size()
    ensures IsPath(g, stack + [succs[0]])
    ensures succs[0] in m ==> VisitAll(g, m, succs) == VisitAll(g, m, succs[1..])
    ensures succs[0] !in m ==>
              var first := Visit(g, m, succs[0]);
              first != [] && first[0] == succs[0] &&
              VisitAll(g, m, succs) == VisitAll(g, m + Members(first), succs[1..]) + first
  {
    hide IsPath;
  }

  lemma WithinRest(succs: seq<nat>, m: set<nat>)
    requires succs != [] && Within(succs[1..], m) && succs[0] in m
    ensures Within(succs, m)
  {
    assert succs == [succs[0]] + succs[1..];
  }

  lemma {:induction false} VisitAllSettled(g: Graph, m: set<nat>, stack: seq<nat>, order: seq<nat>, succs: seq<nat>)
    requires g.Valid() && InGraph(g, succs) && LeadOn(g, stack, succs)
    requires Marks(m, stack, order) && AllSettled(g, stack, order)
    ensures AllSettled(g, stack, VisitAll(g, m, succs) + order)
    ensures Within(succs, Members(stack) + Members(VisitAll(g, m, succs) + order))
    decreases Left(g, m), 1, |succs|
  {
    if succs == [] {
      assert [] + order == order;
    } else {
      Rest(g, m, stack, succs);
      var tail := succs[1..];
      hide AllSettled, Visit, VisitAll, IsPath, Graph.Valid, InGraph, LeadOn, Within, Members, Left, Marks;
      if succs[0] in m {
        VisitAllSettled(g, m, stack, order, tail);
        MarksMore(m, stack, order, VisitAll(g, m, tail));
        MarksHold(m, stack, order, VisitAll(g, m, tail), succs[0]);
      } else {
        var first := Visit(g, m, succs[0]);
        VisitSettled(g, m, stack, order, succs[0]);
        MarksMore(m, stack, order, first);
        FewerLeft(g, m, Members(first));
        VisitAllSettled(g, m + Members(first), stack, first + order, tail);
        var rest := VisitAll(g, m + Members(first), tail);
        Assoc(rest, first, order);
        FirstPlaced(stack, rest, first, order);
      }
      WithinRest(succs, Members(stack) + Members(VisitAll(g, m, succs) + order));
    }
  }

  lemma MarksHold(m: set<nat>, stack: seq<nat>, order: seq<nat>, more: seq<nat>, x: nat)
    requires Marks(m, stack, order) && x in m
    ensures x in Members(stack) + Members(more + order)
  {
  }

  lemma FirstPlaced(stack: seq<nat>, rest: seq<nat>, first: seq<nat>, order: seq<nat>)
    requires first != []
    ensures first[0] in Members(stack) + Members(rest + (first + order))
  {
    assert first[0] in first;
  }

  // The whole walk: every edge leads behind its block, or to one from which the block is reached in the order.
  lemma WalkSettled(g: Graph)
    requires g.Valid()
    ensures AllSettled(g, [], Visit(g, {}, ENTRY))
  {
    EntryReachable(g);
    assert [] + [ENTRY] == [ENTRY];
    assert Marks({}, [], []);
    VisitSettled(g, {}, [], [], ENTRY);
    assert Visit(g, {}, ENTRY) + [] == Visit(g, {}, ENTRY);
  }

  // No block is reached from one of its successors.
  ghost predicate NoCycle(g: Graph) {
    forall b, s, p :: 0 <= b < g.Size() && s in g.succs[b] ==> !PathTo(g, p, s, b)
  }

  // Without cycles every edge leads behind its block.
  lemma EdgesForward(g: Graph, order: seq<nat>, b: nat, s: nat)
    requires AllSettled(g, [], order) && NoCycle(g) && b in order && b < g.Size() && s in g.succs[b]
    ensures Ahead(order, b, s)
  {
    hide Ahead;
    assert [] + order == order;
  }
}
