// The mark phase: depth-first marking that collects survivors and the references to them.
module HeapMark {
  import opened HeapModel
  import opened HeapSpace
  import opened HeapRebind

  ghost function Marked(h: Heap, mark: nat): set<nat> {
    set a | a in h && h[a].mark == mark
  }

  // Some objects have got the mark, and nothing else has changed.
  ghost predicate OnlyMarks(h: Heap, h': Heap, mark: nat) {
    && h.Keys == h'.Keys
    && (forall a :: a in h ==> h'[a] == h[a] || h'[a] == h[a].(mark := mark))
  }

  // s' is s with the elements of x, once each, at its end.
  ghost predicate Appends<T(!new)>(s: seq<T>, s': seq<T>, x: set<T>) {
    && |s| <= |s'| && s'[..|s|] == s && Distinct(s'[|s|..])
    && (forall e :: e in s'[|s|..] <==> e in x)
  }

  lemma AppendsTrans<T(!new)>(s: seq<T>, t: seq<T>, u: seq<T>, x: set<T>, y: set<T>)
    requires Appends(s, t, x) && Appends(t, u, y) && x !! y
    ensures Appends(s, u, x + y)
  {
    var a, b := t[|s|..], u[|t|..];
    assert t == s + a && u == t + b;
    assert u[|s|..] == a + b;
    forall i, j | 0 <= i < j < |a + b| ensures (a + b)[i] != (a + b)[j] {
      if i < |a| <= j {
        assert a[i] in x && b[j - |a|] in y;
      }
    }
  }

  lemma AppendsOne<T(!new)>(s: seq<T>, e: T)
    ensures Appends(s, s + [e], {e})
  {
  }

  lemma AppendsNone<T(!new)>(s: seq<T>)
    ensures Appends(s, s, {})
  {
  }

  ghost function InRegion(sp: Space, k: nat, s: set<nat>): set<nat>
    requires |sp.starts| == |sp.sizes| && k < |sp.starts|
  {
    set a | a in s && sp.Contains(k, a)
  }

  // Slot i of an object points into region k.
  ghost predicate Into(sp: Space, k: nat, slots: seq<Slot>, i: nat)
    requires |sp.starts| == |sp.sizes| && k < |sp.starts|
  {
    i < |slots| && slots[i].Ref? && sp.Contains(k, slots[i].addr)
  }

  // The slots of the objects of s that point into region k.
  ghost function FieldsOf(sp: Space, k: nat, h: Heap, s: set<nat>): set<Entry>
    requires |sp.starts| == |sp.sizes| && k < |sp.starts|
  {
    set a, i: nat | a in s && a in h && i < |h[a].slots| && Into(sp, k, h[a].slots, i) :: Field(a, i)
  }

  // The first n slots of x that do.
  ghost function FieldsBelow(sp: Space, k: nat, h: Heap, x: nat, n: nat): set<Entry>
    requires |sp.starts| == |sp.sizes| && k < |sp.starts| && x in h
  {
    set i: nat | i < n && Into(sp, k, h[x].slots, i) :: Field(x, i)
  }

  ghost function RootsBelow(sp: Space, k: nat, roots: seq<Slot>, n: nat): set<Entry>
    requires |sp.starts| == |sp.sizes| && k < |sp.starts|
  {
    set i: nat | i < n && Into(sp, k, roots, i) :: Root(i)
  }

  // The references of an object lead to marked objects.
  ghost predicate Done(h: Heap, marked: set<nat>, a: nat) {
    a in h && forall i :: 0 <= i < |h[a].slots| && h[a].slots[i].Ref? ==> h[a].slots[i].addr in marked
  }

  // What a stage of the mark phase has done from heap h0 on: the newly marked objects, apart from those still
  // `open`, have been finished; those in region k are targets, and the slots `refs` have been recorded.
  ghost predicate Progress(sp: Space, k: nat, live: set<nat>, mark: nat, h0: Heap, h: Heap,
                           targets0: seq<nat>, targets: seq<nat>, refs0: seq<Entry>, refs: seq<Entry>,
                           recorded: set<Entry>, open: set<nat>)
    requires |sp.starts| == |sp.sizes| && k < |sp.starts|
  {
    var new' := Marked(h, mark) - Marked(h0, mark);
    && OnlyMarks(h0, h, mark) && Marked(h, mark) <= live
    && (forall a :: a in new' && a !in open ==> Done(h, Marked(h, mark), a))
    && Appends(targets0, targets, InRegion(sp, k, new')) && Appends(refs0, refs, recorded)
  }

  lemma OnlyMarksTrans(h0: Heap, h1: Heap, h2: Heap, mark: nat)
    requires OnlyMarks(h0, h1, mark) && OnlyMarks(h1, h2, mark)
    ensures OnlyMarks(h0, h2, mark) && Marked(h0, mark) <= Marked(h1, mark) <= Marked(h2, mark)
  {
  }

  lemma OnlyMarksFields(sp: Space, k: nat, h: Heap, h': Heap, mark: nat, s: set<nat>)
    requires |sp.starts| == |sp.sizes| && k < |sp.starts| && OnlyMarks(h, h', mark)
    ensures FieldsOf(sp, k, h', s) == FieldsOf(sp, k, h, s)
  {
  }

  lemma OnlyMarksClosed(roots: seq<Slot>, h: Heap, h': Heap, live: set<nat>, mark: nat)
    requires OnlyMarks(h, h', mark) && Closed(roots, h, live)
    ensures Closed(roots, h', live)
  {
    forall a | a in live ensures a in h' && SlotsOk(h', live, h'[a].slots) {
      assert SlotsOk(h, live, h[a].slots);
    }
  }

  // One piece of marking after another.
  lemma ProgressTrans(sp: Space, k: nat, live: set<nat>, mark: nat, h0: Heap, h1: Heap, h2: Heap,
                      t0: seq<nat>, t1: seq<nat>, t2: seq<nat>, r0: seq<Entry>, r1: seq<Entry>, r2: seq<Entry>,
                      x: set<Entry>, y: set<Entry>, open: set<nat>)
    requires |sp.starts| == |sp.sizes| && k < |sp.starts|
    requires Progress(sp, k, live, mark, h0, h1, t0, t1, r0, r1, x, open)
    requires Progress(sp, k, live, mark, h1, h2, t1, t2, r1, r2, y, {}) && x !! y
    ensures Progress(sp, k, live, mark, h0, h2, t0, t2, r0, r2, x + y, open)
  {
    hide Appends;
    OnlyMarksTrans(h0, h1, h2, mark);
    var m0, m1, m2 := Marked(h0, mark), Marked(h1, mark), Marked(h2, mark);
    assert InRegion(sp, k, m2 - m0) == InRegion(sp, k, m1 - m0) + InRegion(sp, k, m2 - m1);
    AppendsTrans(t0, t1, t2, InRegion(sp, k, m1 - m0), InRegion(sp, k, m2 - m1));
    AppendsTrans(r0, r1, r2, x, y);
    forall a | a in m2 - m0 && a !in open ensures Done(h2, m2, a) {
      if a in m1 {
        assert Done(h1, m1, a);
      }
    }
  }

  // Marking one object, which is open from then on.
  lemma ProgressMark(sp: Space, k: nat, live: set<nat>, mark: nat, h: Heap, a: nat, targets: seq<nat>, refs: seq<Entry>)
    requires |sp.starts| == |sp.sizes| && k < |sp.starts| && Marked(h, mark) <= live
    requires a in live && a in h && h[a].mark != mark
    ensures Progress(sp, k, live, mark, h, h[a := h[a].(mark := mark)],
                     targets, if sp.Contains(k, a) then targets + [a] else targets, refs, refs, {}, {a})
    ensures Marked(h[a := h[a].(mark := mark)], mark) == Marked(h, mark) + {a}
  {
    hide Appends;
    var h' := h[a := h[a].(mark := mark)];
    assert Marked(h', mark) == Marked(h, mark) + {a};
    assert Marked(h', mark) - Marked(h, mark) == {a};
    AppendsOne(targets, a);
    AppendsNone(targets);
    AppendsNone(refs);
    assert InRegion(sp, k, {a}) == if sp.Contains(k, a) then {a} else {};
  }

  // Recording one slot.
  lemma ProgressRecord(sp: Space, k: nat, live: set<nat>, mark: nat, h0: Heap, h: Heap, targets0: seq<nat>,
                       targets: seq<nat>, refs0: seq<Entry>, refs: seq<Entry>, x: set<Entry>, open: set<nat>, e: Entry)
    requires |sp.starts| == |sp.sizes| && k < |sp.starts|
    requires Progress(sp, k, live, mark, h0, h, targets0, targets, refs0, refs, x, open) && e !in x
    ensures Progress(sp, k, live, mark, h0, h, targets0, targets, refs0, refs + [e], x + {e}, open)
  {
    hide Appends;
    AppendsOne(refs, e);
    AppendsTrans(refs0, refs, refs + [e], x, {e});
  }

  lemma ProgressNone(sp: Space, k: nat, live: set<nat>, mark: nat, h: Heap, targets: seq<nat>, refs: seq<Entry>)
    requires |sp.starts| == |sp.sizes| && k < |sp.starts| && Marked(h, mark) <= live
    ensures Progress(sp, k, live, mark, h, h, targets, targets, refs, refs, {}, {})
  {
    hide Appends;
    assert Marked(h, mark) - Marked(h, mark) == {};
    assert InRegion(sp, k, {}) == {};
    AppendsNone(targets);
    AppendsNone(refs);
  }

  // ---------------------------------------------------------------- scanning the slots of one object

  ghost predicate Visited(sp: Space, k: nat, live: set<nat>, mark: nat, h0: Heap, h: Heap,
                          t0: seq<nat>, t: seq<nat>, r0: seq<Entry>, r: seq<Entry>)
    requires |sp.starts| == |sp.sizes| && k < |sp.starts|
  {
    Progress(sp, k, live, mark, h0, h, t0, t, r0, r, FieldsOf(sp, k, h0, Marked(h, mark) - Marked(h0, mark)), {})
  }

  // x has just been marked, and its first n slots have been visited.
  ghost predicate Scanning(sp: Space, k: nat, live: set<nat>, mark: nat, h0: Heap, h: Heap,
                           t0: seq<nat>, t: seq<nat>, r0: seq<Entry>, r: seq<Entry>, x: nat, n: nat)
    requires |sp.starts| == |sp.sizes| && k < |sp.starts|
  {
    var new' := Marked(h, mark) - Marked(h0, mark);
    && x in new' && x in h0
    && Progress(sp, k, live, mark, h0, h, t0, t, r0, r, FieldsOf(sp, k, h0, new' - {x}) + FieldsBelow(sp, k, h0, x, n),
      {x})
    && (forall i :: 0 <= i < n && i < |h0[x].slots| && h0[x].slots[i].Ref? ==> h0[x].slots[i].addr in Marked(h, mark))
  }

  lemma ScanStart(sp: Space, k: nat, live: set<nat>, mark: nat, h: Heap, x: nat, targets: seq<nat>, refs: seq<Entry>)
    requires |sp.starts| == |sp.sizes| && k < |sp.starts| && Marked(h, mark) <= live
    requires x in live && x in h && h[x].mark != mark
    ensures Scanning(sp, k, live, mark, h, h[x := h[x].(mark := mark)],
                     targets, if sp.Contains(k, x) then targets + [x] else targets, refs, refs, x, 0)
  {
    hide Progress;
    ProgressMark(sp, k, live, mark, h, x, targets, refs);
    var h' := h[x := h[x].(mark := mark)];
    assert Marked(h', mark) - Marked(h, mark) - {x} == {};
    assert FieldsOf(sp, k, h, {}) + FieldsBelow(sp, k, h, x, 0) == {};
  }

  // The slot is visited, and recorded when it points into the region.
  lemma ScanStep(sp: Space, k: nat, live: set<nat>, mark: nat, h0: Heap, h1: Heap, h2: Heap, t0: seq<nat>, t1: seq<nat>,
                 t2: seq<nat>, r0: seq<Entry>, r1: seq<Entry>, r2: seq<Entry>, x: nat, n: nat)
    requires |sp.starts| == |sp.sizes| && k < |sp.starts|
    requires Scanning(sp, k, live, mark, h0, h1, t0, t1, r0, r1, x, n) && n < |h0[x].slots|
    requires Visited(sp, k, live, mark, h1, h2, t1, t2, r1, r2)
    requires h0[x].slots[n].Ref? ==> h0[x].slots[n].addr in Marked(h2, mark)
    ensures Scanning(sp, k, live, mark, h0, h2, t0, t2, r0,
                     if Into(sp, k, h0[x].slots, n) then r2 + [Field(x, n)] else r2, x, n + 1)
  {
    hide Progress;
    var m0, m1, m2 := Marked(h0, mark), Marked(h1, mark), Marked(h2, mark);
    MarksGrow(sp, k, live, mark, h0, h1, t0, t1, r0, r1,
      FieldsOf(sp, k, h0, m1 - m0 - {x}) + FieldsBelow(sp, k, h0, x, n), {x});
    MarksGrow(sp, k, live, mark, h1, h2, t1, t2, r1, r2, FieldsOf(sp, k, h1, m2 - m1), {});
    OnlyMarksFields(sp, k, h0, h1, mark, m2 - m1);
    var a, b := FieldsOf(sp, k, h0, m1 - m0 - {x}) + FieldsBelow(sp, k, h0, x, n), FieldsOf(sp, k, h0, m2 - m1);
    FieldsApart(sp, k, h0, m0, m1, m2, x, n);
    ProgressTrans(sp, k, live, mark, h0, h1, h2, t0, t1, t2, r0, r1, r2, a, b, {x});
    assert a + b == FieldsOf(sp, k, h0, m2 - m0 - {x}) + FieldsBelow(sp, k, h0, x, n);
    FieldsBelowStep(sp, k, h0, x, n);
    if Into(sp, k, h0[x].slots, n) {
      ProgressRecord(sp, k, live, mark, h0, h2, t0, t2, r0, r2, a + b, {x}, Field(x, n));
      assert (a + b) + {Field(x, n)} == FieldsOf(sp, k, h0, m2 - m0 - {x}) + FieldsBelow(sp, k, h0, x, n + 1);
    } else {
      assert a + b == FieldsOf(sp, k, h0, m2 - m0 - {x}) + FieldsBelow(sp, k, h0, x, n + 1);
    }
  }

  lemma MarksGrow(sp: Space, k: nat, live: set<nat>, mark: nat, h0: Heap, h: Heap, t0: seq<nat>, t: seq<nat>,
                  r0: seq<Entry>, r: seq<Entry>, x: set<Entry>, open: set<nat>)
    requires |sp.starts| == |sp.sizes| && k < |sp.starts| && Progress(sp, k, live, mark, h0, h, t0, t, r0, r, x, open)
    ensures OnlyMarks(h0, h, mark) && Marked(h0, mark) <= Marked(h, mark) <= live
  {
  }

  lemma FieldsApart(sp: Space, k: nat, h: Heap, m0: set<nat>, m1: set<nat>, m2: set<nat>, x: nat, n: nat)
    requires |sp.starts| == |sp.sizes| && k < |sp.starts| && x in h && x in m1 && x !in m0 && m0 <= m1 <= m2
    ensures FieldsOf(sp, k, h, m1 - m0 - {x}) + FieldsBelow(sp, k, h, x, n) !! FieldsOf(sp, k, h, m2 - m1)
    ensures FieldsOf(sp, k, h, m1 - m0 - {x}) + FieldsOf(sp, k, h, m2 - m1) == FieldsOf(sp, k, h, m2 - m0 - {x})
    ensures Field(x, n) !in FieldsOf(sp, k, h, m2 - m0 - {x}) + FieldsBelow(sp, k, h, x, n)
  {
  }

  lemma FieldsBelowStep(sp: Space, k: nat, h: Heap, x: nat, n: nat)
    requires |sp.starts| == |sp.sizes| && k < |sp.starts| && x in h
    ensures FieldsBelow(sp, k, h, x, n + 1) ==
            FieldsBelow(sp, k, h, x, n) + if Into(sp, k, h[x].slots, n) then {Field(x, n)} else {}
  {
  }

  // All slots have been visited.
  lemma ScanEnd(sp: Space, k: nat, live: set<nat>, mark: nat, h0: Heap, h: Heap, t0: seq<nat>, t: seq<nat>,
                r0: seq<Entry>, r: seq<Entry>, x: nat)
    requires |sp.starts| == |sp.sizes| && k < |sp.starts| && x in h0
    requires Scanning(sp, k, live, mark, h0, h, t0, t, r0, r, x, |h0[x].slots|)
    ensures Visited(sp, k, live, mark, h0, h, t0, t, r0, r) && x in Marked(h, mark)
  {
    hide Appends;
    var new' := Marked(h, mark) - Marked(h0, mark);
    assert FieldsOf(sp, k, h0, new') == FieldsOf(sp, k, h0, new' - {x}) + FieldsBelow(sp, k, h0, x, |h0[x].slots|);
    assert Done(h, Marked(h, mark), x);
  }

  // ---------------------------------------------------------------- scanning the registers of the frames

  ghost predicate RootsScanned(sp: Space, k: nat, live: set<nat>, mark: nat, roots: seq<Slot>, h0: Heap, h: Heap,
                               t: seq<nat>, r: seq<Entry>, n: nat)
    requires |sp.starts| == |sp.sizes| && k < |sp.starts|
  {
    && Progress(sp, k, live, mark, h0, h, [], t, [], r,
                FieldsOf(sp, k, h0, Marked(h, mark) - Marked(h0, mark)) + RootsBelow(sp, k, roots, n), {})
    && (forall i :: 0 <= i < n && i < |roots| && roots[i].Ref? ==> roots[i].addr in Marked(h, mark))
  }

  lemma RootsStart(sp: Space, k: nat, live: set<nat>, mark: nat, roots: seq<Slot>, h: Heap)
    requires |sp.starts| == |sp.sizes| && k < |sp.starts| && Marked(h, mark) <= live
    ensures RootsScanned(sp, k, live, mark, roots, h, h, [], [], 0)
  {
    ProgressNone(sp, k, live, mark, h, [], []);
    assert FieldsOf(sp, k, h, Marked(h, mark) - Marked(h, mark)) + RootsBelow(sp, k, roots, 0) == {};
  }

  lemma RootsStep(sp: Space, k: nat, live: set<nat>, mark: nat, roots: seq<Slot>, h0: Heap, h1: Heap, h2: Heap,
                  t1: seq<nat>, t2: seq<nat>, r1: seq<Entry>, r2: seq<Entry>, n: nat)
    requires |sp.starts| == |sp.sizes| && k < |sp.starts| && n < |roots|
    requires RootsScanned(sp, k, live, mark, roots, h0, h1, t1, r1, n)
    requires Visited(sp, k, live, mark, h1, h2, t1, t2, r1, r2)
    requires roots[n].Ref? ==> roots[n].addr in Marked(h2, mark)
    ensures RootsScanned(sp, k, live, mark, roots, h0, h2, t2,
                         if Into(sp, k, roots, n) then r2 + [Root(n)] else r2, n + 1)
  {
    hide Progress;
    var m0, m1, m2 := Marked(h0, mark), Marked(h1, mark), Marked(h2, mark);
    var a, b := FieldsOf(sp, k, h0, m1 - m0) + RootsBelow(sp, k, roots, n), FieldsOf(sp, k, h0, m2 - m1);
    MarksGrow(sp, k, live, mark, h0, h1, [], t1, [], r1, a, {});
    MarksGrow(sp, k, live, mark, h1, h2, t1, t2, r1, r2, FieldsOf(sp, k, h1, m2 - m1), {});
    OnlyMarksFields(sp, k, h0, h1, mark, m2 - m1);
    RootsApart(sp, k, roots, h0, m0, m1, m2, n);
    ProgressTrans(sp, k, live, mark, h0, h1, h2, [], t1, t2, [], r1, r2, a, b, {});
    if Into(sp, k, roots, n) {
      ProgressRecord(sp, k, live, mark, h0, h2, [], t2, [], r2, a + b, {}, Root(n));
      assert (a + b) + {Root(n)} == FieldsOf(sp, k, h0, m2 - m0) + RootsBelow(sp, k, roots, n + 1);
    } else {
      assert a + b == FieldsOf(sp, k, h0, m2 - m0) + RootsBelow(sp, k, roots, n + 1);
    }
  }

  lemma RootsApart(sp: Space, k: nat, roots: seq<Slot>, h: Heap, m0: set<nat>, m1: set<nat>, m2: set<nat>, n: nat)
    requires |sp.starts| == |sp.sizes| && k < |sp.starts| && m0 <= m1 <= m2
    ensures FieldsOf(sp, k, h, m1 - m0) + RootsBelow(sp, k, roots, n) !! FieldsOf(sp, k, h, m2 - m1)
    ensures Root(n) !in FieldsOf(sp, k, h, m1 - m0) + RootsBelow(sp, k, roots, n) + FieldsOf(sp, k, h, m2 - m1)
    ensures FieldsOf(sp, k, h, m1 - m0) + RootsBelow(sp, k, roots, n) + FieldsOf(sp, k, h, m2 - m1)
              + (if Into(sp, k, roots, n) then {Root(n)} else {}) ==
            FieldsOf(sp, k, h, m2 - m0) + RootsBelow(sp, k, roots, n + 1)
  {
  }

  // The whole phase: exactly the reachable objects are marked, those in the region are the targets, and
  // every slot with a pointer into the region is recorded, all of them once.
  lemma RootsEnd(sp: Space, k: nat, live: set<nat>, mark: nat, roots: seq<Slot>, h0: Heap, h: Heap,
                 targets: seq<nat>, refs: seq<Entry>)
    requires |sp.starts| == |sp.sizes| && k < |sp.starts| && IsLive(roots, h0, live) && Marked(h0, mark) == {}
    requires RootsScanned(sp, k, live, mark, roots, h0, h, targets, refs, |roots|)
    ensures Marked(h, mark) == live && OnlyMarks(h0, h, mark)
    ensures TargetsExact(sp, k, live, targets) && RefsExact(sp, k, roots, h, live, refs)
  {
    hide Reachable;
    var m := Marked(h, mark);
    assert m - Marked(h0, mark) == m;
    MarkedClosed(sp, k, live, mark, roots, h0, h, targets, refs);
    forall a | a in live ensures a in m {
      ReachableInClosed(roots, h0, m, a);
    }
    assert targets[0..] == targets && refs[0..] == refs;
    forall e: Entry ensures e in refs <==> IsRefInto(sp, k, roots, h, live, e) {
      RecordedExactly(sp, k, live, mark, roots, h0, h, e);
    }
  }

  lemma MarkedClosed(sp: Space, k: nat, live: set<nat>, mark: nat, roots: seq<Slot>, h0: Heap, h: Heap,
                     targets: seq<nat>, refs: seq<Entry>)
    requires |sp.starts| == |sp.sizes| && k < |sp.starts| && Closed(roots, h0, live) && Marked(h0, mark) == {}
    requires RootsScanned(sp, k, live, mark, roots, h0, h, targets, refs, |roots|)
    ensures Closed(roots, h0, Marked(h, mark))
  {
    hide Appends;
    var m := Marked(h, mark);
    forall a | a in m ensures a in h0 && SlotsOk(h0, m, h0[a].slots) {
      assert Done(h, m, a) && SlotsOk(h0, live, h0[a].slots);
    }
  }

  lemma RecordedExactly(sp: Space, k: nat, live: set<nat>, mark: nat, roots: seq<Slot>, h0: Heap, h: Heap, e: Entry)
    requires |sp.starts| == |sp.sizes| && k < |sp.starts| && OnlyMarks(h0, h, mark)
    ensures e in FieldsOf(sp, k, h0, live) + RootsBelow(sp, k, roots, |roots|) <==> IsRefInto(sp, k, roots, h, live, e)
  {
  }
}
