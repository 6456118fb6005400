// The collector: stages, marking, moving survivors to the next region and rebinding references to them.
module Collector {
  import opened HeapModel
  import opened HeapSpace
  import opened HeapRebind
  import opened HeapMark
  import opened HeapSizes
  import opened HeapMove
  import opened HeapPhases
  import opened HeapNesting
  import opened HeapAlloc
  import opened FiniteSets

  lemma Cardinality(live: set<nat>, m: set<nat>, m': set<nat>)
    requires m <= m'
    ensures |live - m'| <= |live - m|
    ensures forall x :: x in live && x in m' && x !in m ==> |live - m'| < |live - m|
  {
    SubsetSize(live - m', live - m);
  }

  lemma MarkingKeeps(roots: seq<Slot>, h: Heap, live: set<nat>, mark: nat, x: nat, targets: seq<nat>)
    requires Closed(roots, h, live) && x in live && x in h && Marked(h, mark) <= live && h[x].mark != mark
    ensures var h' := h[x := h[x].(mark := mark)];
            && OnlyMarks(h, h', mark) && Closed(roots, h', live) && Marked(h', mark) <= live
            && Sum(h', targets) == Sum(h, targets) && |live - Marked(h', mark)| < |live - Marked(h, mark)|
  {
    var h' := h[x := h[x].(mark := mark)];
    OnlyMarksClosed(roots, h, h', live, mark);
    SumSame(h', h, targets);
    assert Marked(h', mark) == Marked(h, mark) + {x};
    Cardinality(live, Marked(h, mark), Marked(h', mark));
  }

  lemma StringScanned(sp: Space, k: nat, live: set<nat>, mark: nat, roots: seq<Slot>, h0: Heap, h: Heap,
                      t0: seq<nat>, t: seq<nat>, r0: seq<Entry>, r: seq<Entry>, x: nat)
    requires |sp.starts| == |sp.sizes| && k < |sp.starts|
    requires Closed(roots, h0, live) && x in live && x in h0 && h0[x].kind == Str
    requires Scanning(sp, k, live, mark, h0, h, t0, t, r0, r, x, 0)
    ensures Visited(sp, k, live, mark, h0, h, t0, t, r0, r) && x in Marked(h, mark)
  {
    hide Scanning, Visited;
    ScanEnd(sp, k, live, mark, h0, h, t0, t, r0, r, x);
  }

  lemma SameMarks(h: Heap, mark: nat)
    ensures OnlyMarks(h, h, mark)
  {
  }

  lemma SameSlots(h0: Heap, h: Heap, mark: nat, x: nat)
    requires OnlyMarks(h0, h, mark) && x in h0
    ensures x in h && h[x].slots == h0[x].slots && h[x].kind == h0[x].kind
  {
  }

  lemma SlotReady(roots: seq<Slot>, h: Heap, live: set<nat>, x: nat, i: nat)
    requires Closed(roots, h, live) && x in live && x in h && i < |h[x].slots|
    ensures SlotOk(h, live, h[x].slots[i])
  {
    assert SlotsOk(h, live, h[x].slots);
  }

  lemma MeasureKept(h0: Heap, h: Heap, live: set<nat>, mark: nat)
    requires OnlyMarks(h0, h, mark)
    ensures |live - Marked(h, mark)| <= |live - Marked(h0, mark)|
  {
    OnlyMarksTrans(h0, h0, h, mark);
    Cardinality(live, Marked(h0, mark), Marked(h, mark));
  }

  lemma VisitedMarks(sp: Space, k: nat, live: set<nat>, mark: nat, h0: Heap, h: Heap, t0: seq<nat>, t: seq<nat>,
                     r0: seq<Entry>, r: seq<Entry>)
    requires |sp.starts| == |sp.sizes| && k < |sp.starts| && Visited(sp, k, live, mark, h0, h, t0, t, r0, r)
    ensures OnlyMarks(h0, h, mark) && Marked(h, mark) <= live
  {
  }

  lemma NothingVisited(sp: Space, k: nat, live: set<nat>, mark: nat, h: Heap, targets: seq<nat>, refs: seq<Entry>)
    requires |sp.starts| == |sp.sizes| && k < |sp.starts| && Marked(h, mark) <= live
    ensures Visited(sp, k, live, mark, h, h, targets, targets, refs, refs)
  {
    ProgressNone(sp, k, live, mark, h, targets, refs);
    assert FieldsOf(sp, k, h, Marked(h, mark) - Marked(h, mark)) == {};
  }

  lemma RootReady(roots: seq<Slot>, h: Heap, live: set<nat>, i: nat)
    requires Closed(roots, h, live) && i < |roots|
    ensures SlotOk(h, live, roots[i])
  {
  }

  lemma SumNone(h: Heap)
    ensures Sum(h, []) == 0
  {
  }

  lemma InPlaceFacts(sp: Space, cursors: seq<nat>, h: Heap, live: set<nat>)
    requires InPlace(sp, cursors, h, live)
    ensures sp.Valid() && CursorsOk(sp, cursors) && forall a :: a in live ==> a in h
  {
  }

  lemma CollectedFacts(sp: Space, k: nat, live: set<nat>, f: map<nat, nat>, cursors: seq<nat>, cursors': seq<nat>,
                       roots: seq<Slot>, h: Heap, roots': seq<Slot>, h': Heap, s: seq<Stage>, s': seq<Stage>)
    requires sp.Valid() && k < |sp.starts| && Collected(sp, k, live, f, cursors, cursors', roots, h, roots', h', s, s')
    ensures Above(sp, k, live, f) && forall a :: a in f ==> f[a] in h'
  {
    UpwardAbove(sp, k, live, f);
  }

  lemma PromotedFirst(sp: Space, last: nat, c: seq<nat>, c': seq<nat>, h: Heap, live: set<nat>, f: map<nat, nat>)
    requires |sp.starts| == |sp.sizes| == |c| == |c'| && Promoted(sp, 0, last, c, c', h, live, f)
    ensures |c'| > 0 && c'[0] == CURSOR_SIZE
  {
  }

  lemma NurseryFacts(sp: Space, cursors: seq<nat>, roots: seq<Slot>, h: Heap, mark: nat, live: set<nat>, made: set<nat>)
    requires Nursery(sp, cursors, roots, h, mark, live, made)
    ensures sp.Valid() && CursorsOk(sp, cursors) && Sound(sp, cursors, roots, h, mark, live) && Closed(roots, h, live)
  {
    NurserySound(sp, cursors, roots, h, mark, live, made);
  }

  // n registers that have been reset
  function Prims(n: nat): (r: seq<Slot>)
    ensures |r| == n && forall i :: 0 <= i < n ==> r[i] == Prim(0)
  {
    seq(n, _ => Prim(0))
  }

  const FUNCTION_REGISTERS: nat := 9  // this, INPUTS_COUNT arguments and OUTPUTS_COUNT results

  function FunctionObj(size: nat, body: seq<bv8>): Obj {
    Obj(Func, 0, size, 0, Prims(FUNCTION_REGISTERS), body)
  }

  // The last members are the methods; the first n of them have been created.
  ghost predicate HasMethods(h: Heap, made: set<nat>, slots: seq<Slot>, members: nat, bodies: seq<seq<bv8>>, size: nat,
                             n: nat)
  {
    && |bodies| <= members == |slots| && n <= |bodies|
    && (forall i :: 0 <= i < members - |bodies| ==> slots[i] == Prim(0))
    && (forall i :: 0 <= i < n ==> IsMethod(h, made, slots[members - |bodies| + i], bodies[i], size))
  }

  ghost predicate IsMethod(h: Heap, made: set<nat>, s: Slot, body: seq<bv8>, size: nat) {
    s.Ref? && s.kind == Func && s.addr in made && s.addr in h && h[s.addr] == FunctionObj(size, body)
  }

  // The reachable objects have stayed where they are, once more.
  lemma SameAgain(r0: seq<Slot>, h0: Heap, h1: Heap, h2: Heap, roots: seq<Slot>, live: set<nat>)
    requires Closed(r0, h0, live) && Renamed(Identity(live), r0, h0, roots, h1)
    requires Renamed(Identity(live), roots, h1, roots, h2)
    ensures Renamed(Identity(live), r0, h0, roots, h2)
  {
    hide Closed, Renamed;
    IdentityImage(live);
    ThenStay(Identity(live), r0, h0, roots, h1, h2, live);
  }

  lemma MethodAdded(h1: Heap, h2: Heap, h3: Heap, made: set<nat>, c: nat, m: nat, members: nat, bodies: seq<seq<bv8>>,
                    size: nat, i: nat)
    requires c in made && c in h1 && HasMethods(h1, made, h1[c].slots, members, bodies, size, i) && i < |bodies|
    requires (forall a :: a in made ==> a in h1 && a in h2 && h2[a] == h1[a]) && m in h2 && m !in made
    requires h2[m] == FunctionObj(size, bodies[i]) && h1[c].kind == Object
    requires h3 == SetSlot(h2, c, members - |bodies| + i, Ref(m, Func))
    ensures HasMethods(h3, made + {m}, h3[c].slots, members, bodies, size, i + 1)
  {
    hide FunctionObj;
    FunctionKind(size, bodies);
    forall j | 0 <= j < i + 1 ensures IsMethod(h3, made + {m}, h3[c].slots[members - |bodies| + j], bodies[j], size) {
      assert j < i ==> IsMethod(h1, made, h1[c].slots[members - |bodies| + j], bodies[j], size);
    }
  }

  lemma FunctionKind(size: nat, bodies: seq<seq<bv8>>)
    ensures forall i :: 0 <= i < |bodies| ==> FunctionObj(size, bodies[i]).kind == Func
  {
  }

  lemma Product(i: nat, n: nat, size: nat)
    requires i < n
    ensures i * size + size == (i + 1) * size <= n * size
  {
  }

  class Memory {
    const sp: Space
    var cursors: seq<nat>
    var heap: Heap
    var roots: seq<Slot>      // callee, accumulator and registers of every frame, frame by frame
    var mark: nat
    var forbidden: bool       // is_trigger_forbidden_
    var stages: seq<Stage>    // stages_stack_

    // Reset regions, and frames without references.
    constructor (sp: Space, registers: nat)
      requires sp.Valid()
      ensures this.sp == sp && roots == Prims(registers) && heap == map[] && stages == [] && !forbidden
      ensures Sound(sp, cursors, roots, heap, mark, {})
    {
      this.sp, cursors := sp, seq(|sp.starts|, _ => CURSOR_SIZE);
      heap, roots, mark, forbidden, stages := map[], Prims(registers), 0, false, [];
    }

    ghost function Last(): Stage
      reads this
    {
      if stages == [] then Stage([], 0, []) else stages[|stages| - 1]
    }

    ghost predicate Below(s: seq<Stage>)
      reads this
    {
      |stages| > 0 && stages[..|stages| - 1] == s
    }

    // GC::AppendAliveObject
    method AppendAliveObject(a: nat)
      requires stages != [] && a in heap && Last().estimated == Sum(heap, Last().targets)
      modifies this`stages
      ensures stages != [] && Below(old(stages)[..|old(stages)| - 1])
      ensures Last().targets == old(Last()).targets + [a] && Last().refs == old(Last()).refs
      ensures Last().estimated == Sum(heap, Last().targets)
    {
      var s := stages[|stages| - 1];
      SumAppend(heap, s.targets, a);
      stages := stages[..|stages| - 1] + [Stage(s.targets + [a], s.estimated + heap[a].size, s.refs)];
    }

    // GC::AppendRefToAliveObject
    method AppendRefToAliveObject(e: Entry)
      requires stages != []
      modifies this`stages
      ensures stages != [] && Below(old(stages)[..|old(stages)| - 1])
      ensures Last() == old(Last()).(refs := old(Last()).refs + [e])
    {
      var s := stages[|stages| - 1];
      stages := stages[..|stages| - 1] + [s.(refs := s.refs + [e])];
    }

    // RegionsPool::MarkAndFetchRecursively
    method MarkAndFetchRecursively(k: nat, v: Slot, ghost live: set<nat>) returns (should: bool)
      requires sp.Valid() && k < |sp.starts| && stages != []
      requires Closed(roots, heap, live) && SlotOk(heap, live, v) && Marked(heap, mark) <= live
      requires Last().estimated == Sum(heap, Last().targets)
      modifies this`heap, this`stages
      ensures should <==> v.Ref? && sp.Contains(k, v.addr)
      ensures stages != [] && Below(old(stages)[..|old(stages)| - 1])
      ensures Last().estimated == Sum(heap, Last().targets)
      ensures Visited(sp, k, live, mark, old(heap), heap, old(Last()).targets, Last().targets, old(Last()).refs,
                Last().refs)
      ensures v.Ref? ==> v.addr in Marked(heap, mark)
      ensures Closed(roots, heap, live)
      decreases |live - Marked(heap, mark)|, 0
    {
      hide Closed, Scanning, Visited, OnlyMarks, Sum;
      if v.Prim? {
        NothingVisited(sp, k, live, mark, heap, Last().targets, Last().refs);
        return false;
      }
      var x := v.addr;
      should := sp.Contains(k, x);
      if heap[x].mark == mark {
        NothingVisited(sp, k, live, mark, heap, Last().targets, Last().refs);
        return;
      }
      ghost var h0, t0, r0 := heap, Last().targets, Last().refs;
      MarkAndFetch(k, x, live);
      match v.kind
      case Str =>
        StringScanned(sp, k, live, mark, roots, h0, heap, t0, Last().targets, r0, Last().refs, x);
      case _ =>
        MarkSlots(k, x, live, h0, t0, r0);
    }

    // The object itself.
    method MarkAndFetch(k: nat, x: nat, ghost live: set<nat>)
      requires sp.Valid() && k < |sp.starts| && stages != [] && x in live && x in heap && heap[x].mark != mark
      requires Closed(roots, heap, live) && Marked(heap, mark) <= live && Last().estimated == Sum(heap, Last().targets)
      modifies this`heap, this`stages
      ensures stages != [] && Below(old(stages)[..|old(stages)| - 1])
      ensures Last().estimated == Sum(heap, Last().targets)
      ensures Closed(roots, heap, live) && Marked(heap, mark) <= live && OnlyMarks(old(heap), heap, mark)
      ensures |live - Marked(heap, mark)| < |live - Marked(old(heap), mark)|
      ensures Scanning(sp, k, live, mark, old(heap), heap, old(Last()).targets, Last().targets,
                       old(Last()).refs, Last().refs, x, 0)
    {
      hide Closed, Scanning, OnlyMarks, Sum;
      ScanStart(sp, k, live, mark, heap, x, Last().targets, Last().refs);
      MarkingKeeps(roots, heap, live, mark, x, Last().targets);
      heap := heap[x := heap[x].(mark := mark)];
      if sp.Contains(k, x) {
        AppendAliveObject(x);
      }
    }

    // RegionsPool::MarkArray, MarkObject and MarkFunction: the elements, the fields, or this, the arguments and
    // the results of x.
    method MarkSlots(k: nat, x: nat, ghost live: set<nat>, ghost h0: Heap, ghost t0: seq<nat>, ghost r0: seq<Entry>)
      requires sp.Valid() && k < |sp.starts| && stages != [] && x in live && x in h0
      requires Closed(roots, heap, live) && Marked(heap, mark) <= live && OnlyMarks(h0, heap, mark)
      requires Last().estimated == Sum(heap, Last().targets)
      requires Scanning(sp, k, live, mark, h0, heap, t0, Last().targets, r0, Last().refs, x, 0)
      modifies this`heap, this`stages
      ensures stages != [] && Below(old(stages)[..|old(stages)| - 1])
      ensures Last().estimated == Sum(heap, Last().targets)
      ensures Visited(sp, k, live, mark, h0, heap, t0, Last().targets, r0, Last().refs) && x in Marked(heap, mark)
      ensures Closed(roots, heap, live)
      decreases |live - Marked(heap, mark)|, 1
    {
      hide Closed, Scanning, Visited, OnlyMarks, Sum;
      SameSlots(h0, heap, mark, x);
      SameMarks(heap, mark);
      for i := 0 to |heap[x].slots|
        invariant stages != [] && Below(old(stages)[..|old(stages)| - 1])
        invariant Last().estimated == Sum(heap, Last().targets)
        invariant Closed(roots, heap, live) && OnlyMarks(h0, heap, mark) && OnlyMarks(old(heap), heap, mark)
        invariant Marked(heap, mark) <= live && x in heap && heap[x].slots == h0[x].slots
        invariant Scanning(sp, k, live, mark, h0, heap, t0, Last().targets, r0, Last().refs, x, i)
      {
        ghost var h1, t1, r1 := heap, Last().targets, Last().refs;
        SlotReady(roots, heap, live, x, i);
        MeasureKept(old(heap), heap, live, mark);
        var should := MarkAndFetchRecursively(k, heap[x].slots[i], live);
        ghost var r2 := Last().refs;
        if should {
          AppendRefToAliveObject(Field(x, i));
        }
        VisitedMarks(sp, k, live, mark, h1, heap, t1, Last().targets, r1, r2);
        ScanStep(sp, k, live, mark, h0, h1, heap, t0, t1, Last().targets, r0, r1, r2, x, i);
        OnlyMarksTrans(h0, h1, heap, mark);
        OnlyMarksTrans(old(heap), h1, heap, mark);
        SameSlots(h0, heap, mark, x);
      }
      ScanEnd(sp, k, live, mark, h0, heap, t0, Last().targets, r0, Last().refs, x);
    }

    // RegionsPool::MarkAndFetchTargetObjects
    method MarkAndFetchTargetObjects(k: nat, ghost live: set<nat>)
      requires Sound(sp, cursors, roots, heap, mark, live) && k < |sp.starts|
      requires stages != [] && Last() == Stage([], 0, [])
      modifies this`heap, this`stages, this`mark
      ensures stages != [] && Below(old(stages)[..|old(stages)| - 1])
      ensures mark == old(mark) + 1 && Sound(sp, cursors, roots, heap, mark, live)
      ensures Marked(heap, mark) == live && OnlyMarks(old(heap), heap, mark)
      ensures Renamed(Identity(live), roots, old(heap), roots, heap)
      ensures sp.Valid() && TargetsExact(sp, k, live, Last().targets)
      ensures RefsExact(sp, k, roots, heap, live, Last().refs)
      ensures Last().estimated == Sum(heap, Last().targets)
    {
      hide Closed, RootsScanned, Visited, OnlyMarks, Sum, AllApart, MarksUpTo, Renamed, TargetsExact, RefsExact;
      hide Reachable;
      mark := mark + 1;
      ghost var h0 := heap;
      SameMarks(heap, mark);
      NoneMarked(heap, old(mark));
      RootsStart(sp, k, live, mark, roots, heap);
      SumNone(heap);
      for i := 0 to |roots|
        invariant stages != [] && Below(old(stages)[..|old(stages)| - 1])
        invariant Last().estimated == Sum(heap, Last().targets)
        invariant Closed(roots, heap, live) && OnlyMarks(h0, heap, mark) && Marked(heap, mark) <= live
        invariant RootsScanned(sp, k, live, mark, roots, h0, heap, Last().targets, Last().refs, i)
        modifies this`heap, this`stages
      {
        ghost var h1, t1, r1 := heap, Last().targets, Last().refs;
        RootReady(roots, heap, live, i);
        var should := MarkAndFetchRecursively(k, roots[i], live);
        ghost var r2 := Last().refs;
        if should {
          AppendRefToAliveObject(Root(i));
        }
        VisitedMarks(sp, k, live, mark, h1, heap, t1, Last().targets, r1, r2);
        RootsStep(sp, k, live, mark, roots, h0, h1, heap, t1, Last().targets, r1, r2, i);
        OnlyMarksTrans(h0, h1, heap, mark);
      }
      RootsEnd(sp, k, live, mark, roots, h0, heap, Last().targets, Last().refs);
      SoundMarked(sp, cursors, roots, h0, heap, old(mark), live);
    }

    // Region::AllocBytes: bumps the cursor; running out of the region is fatal.
    method AllocBytes(k: nat, n: nat) returns (ok: bool, c: nat)
      requires CursorsOk(sp, cursors) && k < |cursors|
      modifies this`cursors
      ensures ok <==> old(cursors)[k] + n <= sp.sizes[k]
      ensures ok ==> c == sp.starts[k] + old(cursors)[k] && cursors == old(cursors)[k := old(cursors)[k] + n]
      ensures !ok ==> cursors == old(cursors)
      ensures CursorsOk(sp, cursors)
    {
      var newCursor := cursors[k] + n;
      if newCursor > sp.sizes[k] {
        return false, 0;
      }
      c := sp.starts[k] + cursors[k];
      cursors := cursors[k := newCursor];
      ok := true;
    }

    // GC::PopAliveObject
    method PopAliveObject() returns (a: nat)
      requires stages != [] && Last().targets != []
      modifies this`stages
      ensures stages != [] && Below(old(stages)[..|old(stages)| - 1])
      ensures a == old(Last()).targets[|old(Last()).targets| - 1]
      ensures Last() == old(Last()).(targets := old(Last()).targets[..|old(Last()).targets| - 1])
    {
      var s := stages[|stages| - 1];
      a := s.targets[|s.targets| - 1];
      stages := stages[..|stages| - 1] + [s.(targets := s.targets[..|s.targets| - 1])];
    }

    // GC::PopRefToMovedObject
    method PopRefToMovedObject() returns (e: Entry)
      requires stages != [] && Last().refs != []
      modifies this`stages
      ensures stages != [] && Below(old(stages)[..|old(stages)| - 1])
      ensures e == old(Last()).refs[|old(Last()).refs| - 1]
      ensures Last() == old(Last()).(refs := old(Last()).refs[..|old(Last()).refs| - 1])
    {
      var s := stages[|stages| - 1];
      e := s.refs[|s.refs| - 1];
      stages := stages[..|stages| - 1] + [s.(refs := s.refs[..|s.refs| - 1])];
    }

    // The loop of MoveObjects.
    method CopyTargets(k: nat, ghost live: set<nat>) returns (ok: bool, ghost f: map<nat, nat>)
      requires Sound(sp, cursors, roots, heap, mark, live) && k + 1 < |sp.starts| && stages != []
      requires TargetsExact(sp, k, live, Last().targets)
      requires cursors[k + 1] + Sum(heap, Last().targets) <= sp.sizes[k + 1]
      modifies this`heap, this`cursors, this`stages
      ensures ok
      ensures stages != [] && Below(old(stages)[..|old(stages)| - 1])
      ensures Last() == old(Last()).(targets := [])
      ensures |old(cursors)| == |sp.starts|
      ensures Copying(sp, k, old(cursors), cursors, old(heap), heap, mark, live, f, old(Last()).targets, 0)
    {
      hide InPlace, IsLive, MarksUpTo, TargetsExact, Copying, Sum, Place;
      ghost var targets := Last().targets;
      ghost var n: nat := |targets|;
      InPlaceFacts(sp, cursors, heap, live);
      CopyingStart(sp, k, cursors, heap, mark, live, targets);
      f := map[];
      while stages[|stages| - 1].targets != []
        invariant stages != [] && Below(old(stages)[..|old(stages)| - 1])
        invariant n <= |targets| && Last() == old(Last()).(targets := targets[..n])
        invariant CursorsOk(sp, cursors)
        invariant Copying(sp, k, old(cursors), cursors, old(heap), heap, mark, live, f, targets, n)
        decreases n
      {
        CopyingFits(sp, k, old(cursors), cursors, old(heap), heap, mark, live, f, targets, n);
        CopyingStep(sp, k, old(cursors), cursors, old(heap), heap, mark, live, f, targets, n);
        var obj := PopAliveObject();
        var o := heap[obj];
        var c: nat;
        ok, c := AllocBytes(k + 1, o.size);
        if !ok {
          return;
        }
        heap := Place(heap, c, o);
        heap := heap[obj := heap[obj].(reloc := c)];
        f := f[obj := c];
        n := n - 1;
      }
      ok := true;
    }

    // DanglingReference::Fix, with its assertions, for the n-th recorded slot.
    method Fix(e: Entry, k: nat, ghost roots1: seq<Slot>, ghost h1: Heap, ghost live: set<nat>, ghost f: map<nat, nat>,
               ghost refs: seq<Entry>, ghost n: nat)
      requires sp.Valid() && k < |sp.starts| && 0 < n <= |refs| && refs[n - 1] == e
      requires RefsExact(sp, k, roots1, h1, live, refs) && Closed(roots1, h1, live)
      requires forall a: nat :: a in f <==> a in live && sp.Contains(k, a)
      requires Forwarded(h1, live, f) && Relocation(live, f)
      requires Rebinding(roots1, h1, roots, heap, mark, live, f, refs, n)
      modifies this`roots, this`heap
      ensures Rebinding(roots1, h1, roots, heap, mark, live, f, refs, n - 1)
    {
      hide RefsExact, Closed, Forwarded, Relocation, Rebinding;
      RefHere(sp, k, roots1, h1, live, f, refs, n);
      match e
      case Root(i) =>
        RebindRoot(roots1, h1, roots, heap, mark, live, f, refs, n, i);
        var newRef := heap[roots[i].addr].reloc;
        assert newRef != 0;
        roots := roots[i := Ref(newRef, roots[i].kind)];
      case Field(x, i) =>
        RebindField(roots1, h1, roots, heap, mark, live, f, refs, n, x, i);
        var newRef := heap[heap[x].slots[i].addr].reloc;
        assert newRef != 0;
        var y := heap[x].reloc;
        if y != 0 {
          assert heap[heap[y].slots[i].addr].reloc == newRef;
          heap := SetSlot(heap, y, i, Ref(newRef, heap[y].slots[i].kind));
        } else {
          heap := SetSlot(heap, x, i, Ref(newRef, heap[x].slots[i].kind));
        }
    }

    // RegionsPool::RebindLinks
    method RebindLinks(k: nat, ghost live: set<nat>, ghost f: map<nat, nat>)
      requires sp.Valid() && k < |sp.starts| && stages != []
      requires RefsExact(sp, k, roots, heap, live, Last().refs) && Closed(roots, heap, live)
      requires forall a: nat :: a in f <==> a in live && sp.Contains(k, a)
      requires Forwarded(heap, live, f) && Relocation(live, f) && MarksUpTo(heap, mark)
      requires AllRebound(heap, heap, live, f, {}) && RootsRebound(Moved(live, f), {}, roots, roots)
      modifies this`roots, this`heap, this`stages
      ensures stages != [] && Below(old(stages)[..|old(stages)| - 1])
      ensures Rebinding(old(roots), old(heap), roots, heap, mark, live, f, old(Last()).refs, 0)
    {
      hide RefsExact, Closed, Forwarded, Relocation, Rebinding, AllRebound, RootsRebound, MarksUpTo;
      ghost var refs := Last().refs;
      ghost var n: nat := |refs|;
      RebindingStart(roots, heap, mark, live, f, refs);
      while stages[|stages| - 1].refs != []
        invariant stages != [] && Below(old(stages)[..|old(stages)| - 1])
        invariant n <= |refs| && Last().refs == refs[..n]
        invariant Rebinding(old(roots), old(heap), roots, heap, mark, live, f, refs, n)
        decreases n
      {
        var e := PopRefToMovedObject();
        Fix(e, k, old(roots), old(heap), live, f, refs, n);
        n := n - 1;
      }
    }

    // GC::FixInvalidDanglingReferences
    method FixInvalidDanglingReferences()
      requires forall j, i :: 0 <= j < |stages| && 0 <= i < |stages[j].refs| && stages[j].refs[i].Field? ==>
                 stages[j].refs[i].holder in heap
      modifies this`stages
      ensures |stages| == |old(stages)|
      ensures forall j :: 0 <= j < |stages| ==> Repaired(heap, old(stages)[j], stages[j])
    {
      for j := 0 to |stages|
        invariant |stages| == |old(stages)|
        invariant forall m :: j <= m < |stages| ==> stages[m] == old(stages)[m]
        invariant forall m :: 0 <= m < j ==> Repaired(heap, old(stages)[m], stages[m])
      {
        var refs := RepairRefs(stages[j].refs);
        stages := stages[j := stages[j].(refs := refs)];
      }
    }

    // Its inner loop.
    method RepairRefs(was: seq<Entry>) returns (refs: seq<Entry>)
      requires forall i :: 0 <= i < |was| && was[i].Field? ==> was[i].holder in heap
      ensures |refs| == |was| && forall i :: 0 <= i < |refs| ==> refs[i] == Resolve(heap, was[i])
    {
      refs := was;
      for i := 0 to |refs|
        invariant |refs| == |was|
        invariant forall m :: i <= m < |refs| ==> refs[m] == was[m]
        invariant forall m :: 0 <= m < i ==> refs[m] == Resolve(heap, was[m])
      {
        if refs[i].Field? && heap[refs[i].holder].reloc != 0 {
          refs := refs[i := refs[i].(holder := heap[refs[i].holder].reloc)];
        }
      }
    }

    // GC::PrepareNewStage
    method PrepareNewStage()
      modifies this`stages
      ensures stages != [] && Below(old(stages)) && Last() == Stage([], 0, [])
    {
      stages := stages + [Stage([], 0, [])];
    }

    // The first part of MoveObjects: when the next region is too full for the survivors, it is collected in the
    // middle of this collection, and the pending references are repaired.
    method MakeRoom(k: nat, ghost live: set<nat>) returns (ok: bool, ghost f: map<nat, nat>, ghost last: nat)
      requires Sound(sp, cursors, roots, heap, mark, live) && k + 1 < |sp.starts| && stages != [] && !forbidden
      requires AllHoldersLive(live, stages) && TargetsExact(sp, k, live, Last().targets)
      requires Last().estimated == Sum(heap, Last().targets)
      modifies this
      ensures ok ==> |old(cursors)| == |cursors| == |sp.starts| && !forbidden && f.Keys == live
      ensures ok ==> Sound(sp, cursors, roots, heap, mark, Image(f, live)) && Above(sp, k + 1, live, f)
      ensures ok ==> Renamed(f, old(roots), old(heap), roots, heap) && StagesMoved(f, old(stages), stages)
      ensures ok ==> forall j :: 0 <= j <= k ==> cursors[j] == old(cursors)[j]
      ensures ok ==> cursors[k + 1] + old(Last()).estimated <= sp.sizes[k + 1]
      ensures ok ==> sp.Valid() && Roomy(sp, k, last, old(cursors), cursors, old(heap), live, f)
      ensures ok ==> k <= last && mark == old(mark) + (last - k)
      ensures RoomFor(sp, old(cursors), k, old(heap), live) ==> ok && heap == old(heap) && roots == old(roots)
      ensures TenuredRoom(sp, old(cursors), old(heap), live) ==> ok
      decreases |sp.starts| - k, 0
    {
      hide Closed, Renamed, Reachable, AllApart, MarksUpTo, Upward, TargetsExact, StagesMoved, Sum, AllHoldersLive;
      hide TenuredRoom;
      hide StagesCarried, Allocated, Above, RoomFor, Promoted;
      last := k;
      RoomIff(sp, cursors, k, heap, live, Last().targets);
      var estimated := stages[|stages| - 1].estimated;
      RoomEnough(sp, k, cursors, heap, live, Last().targets);
      if sp.sizes[k + 1] - cursors[k + 1] < estimated {
        ok, f, last := CleanupThis(k + 1, live);
        if ok && sp.sizes[k + 1] - cursors[k + 1] < estimated {
          ok := false;
        }
        if ok {
          CollectedFacts(sp, k + 1, live, f, old(cursors), cursors, old(roots), old(heap), roots, heap, old(stages),
            stages);
          CarriedHolders(heap, f, live, old(stages), stages);
          ghost var carried := stages;
          FixInvalidDanglingReferences();
          RepairedMoved(heap, f, old(stages), carried, stages);
        }
      } else {
        f := Identity(live);
        IdentityMoved(roots, heap, live);
        IdentityStages(live, stages);
        IdentityAbove(sp, k + 1, live);
        ok := true;
      }
    }

    // RegionsPool::CleanupThis of region k. The tenured region, which is the last, is never collected.
    // A collection fails when the trigger is forbidden or the survivors find no room.
    method CleanupThis(k: nat, ghost live: set<nat>) returns (ok: bool, ghost f: map<nat, nat>, ghost last: nat)
      requires Sound(sp, cursors, roots, heap, mark, live) && k < |sp.starts| && AllHoldersLive(live, stages)
      modifies this
      ensures ok ==> Collected(sp, k, live, f, old(cursors), cursors, old(roots), old(heap), roots, heap, old(stages),
                stages)
      ensures ok ==> Sound(sp, cursors, roots, heap, mark, Image(f, live)) && forbidden == old(forbidden)
      ensures ok && k + 1 < |sp.starts| ==>
                sp.Valid() && forall e: Entry :: !IsRefInto(sp, k, roots, heap, Image(f, live), e)
      ensures ok && k + 1 < |sp.starts| ==>
                |old(cursors)| == |cursors| == |sp.starts| && k <= last && mark == old(mark) + (last - k) + 1 &&
                Promoted(sp, k, last, old(cursors), cursors, old(heap), live, f)
      ensures k + 1 < |sp.starts| && old(forbidden) ==> !ok
      ensures !old(forbidden) && TenuredRoom(sp, old(cursors), old(heap), live) ==> ok
      decreases |sp.starts| - k, 2
    {
      hide Closed, Renamed, Reachable, AllApart, MarksUpTo, Above, TargetsExact, RefsExact, StagesMoved, Sum;
      hide TenuredRoom;
      hide AllHoldersLive, Collected, Copying, Rebinding, Relocation, Forwarded, AllRebound, RootsRebound, Allocated;
      hide OnlyMarks, SameGraph, Settled, Promoted, Roomy, CopiedUp, RoomFor;
      last := k;
      if k == |sp.starts| - 1 {
        TenuredStays(sp, k, cursors, roots, heap, mark, live, stages);
        return true, Identity(live), k;
      }
      if forbidden {
        return false, map[], k;
      }
      ghost var s, c0, r0, h0 := stages, cursors, roots, heap;
      PrepareNewStage();
      MarkAndFetchTargetObjects(k, live);
      OuterAndOwn(sp, k, roots, heap, live, Last(), s, stages);
      MarksSameGraph(h0, heap, mark, live);
      if TenuredRoom(sp, c0, h0, live) {
        RoomKept(sp, c0, h0, heap, live);
      }
      ghost var hm, own, f1 := heap, Last(), map[];
      ok, f1, last := MakeRoom(k, live);
      f := f1;
      if ok {
        ghost var live1, s1, c1, r1, h1 := Image(f1, live), stages, cursors, roots, heap;
        OwnStage(sp, k, r0, hm, roots, heap, live, f1, s, own, stages);
        SameSum(hm, heap, r0, roots, sp, k, live, f1, own.targets);
        ghost var refs, f2 := Last().refs, map[];
        ok, f2 := CopyTargets(k, live1);
        ghost var c2, h2 := cursors, heap;
        AfterCopy(sp, k, c1, c2, r1, h1, h2, mark, live1, f2, own.targets, refs);
        RebindLinks(k, live1, f2);
        cursors := cursors[k := CURSOR_SIZE];  // Reset
        stages := stages[..|stages| - 1];      // FinalizeStage
        CollectionDone(sp, k, c0, r0, h0, hm, old(mark), live, c1, r1, h1, mark, f1, c2, h2, f2, roots, heap,
                       own.targets, refs, s, stages);
        f := Compose(f1, Moved(live1, f2));
        RegionLeft(sp, k, live, f, c0, cursors, r0, h0, roots, heap, s, stages);
        SumUnmarked(sp, k, h0, hm, live, own.targets);
        PromotedDone(sp, k, last, c0, h0, hm, live, c1, f1, cursors, f2, own.targets);
      }
    }

    // RegionsPool::AllocBytes on the youngest region, and an object constructed there.
    method Allocate(o: Obj, ghost live: set<nat>, ghost made: set<nat>)
      returns (ok: bool, c: nat, ghost f: map<nat, nat>, ghost last: nat)
      requires Nursery(sp, cursors, roots, heap, mark, live, made) && |sp.starts| >= 2 && stages == []
      requires o.size > 0 && o.reloc == 0 && o.mark == 0
      requires made == {} || (cursors != [] && sp.sizes != [] && cursors[0] + o.size <= sp.sizes[0])
      modifies this
      ensures |old(cursors)| == |sp.starts| == |sp.sizes|
      ensures old(cursors)[0] + o.size <= sp.sizes[0] ==>
                ok && mark == old(mark) && f == Identity(live) && roots == old(roots) &&
                cursors == old(cursors)[0 := old(cursors)[0] + o.size]
      ensures ok && old(cursors)[0] + o.size > sp.sizes[0] ==>
                |cursors| == |old(cursors)| && cursors[0] == CURSOR_SIZE + o.size && mark == old(mark) + last + 1 &&
                Promoted(sp, 0, last, old(cursors), cursors[0 := CURSOR_SIZE], old(heap), live, f)
      ensures ok ==> stages == [] && forbidden == old(forbidden) && f.Keys == live
      ensures ok ==> c in heap && heap[c] == o && c !in Image(f, live) && c !in made
      ensures ok ==> Nursery(sp, cursors, roots, heap, mark, Image(f, live), made + {c})
      ensures ok ==> Renamed(f, old(roots), old(heap), roots, heap)
      ensures ok ==> forall a :: a in made ==> a in heap && a in old(heap) && heap[a] == old(heap)[a]
      ensures TenuredRoom(sp, old(cursors), old(heap), live) && CURSOR_SIZE + o.size <= sp.sizes[0] ==>
                old(forbidden) || ok
    {
      hide InPlace, IsLive, Closed, Reachable, Renamed, Place, TenuredRoom, MarksUpTo, Promoted, Upward;
      c, last := 0, 0;
      ghost var r0, h0 := roots, heap;
      NurseryFacts(sp, cursors, roots, heap, mark, live, made);
      IdentityMoved(roots, heap, live);
      if sp.sizes[0] - cursors[0] >= o.size {
        f := Identity(live);
        ok := true;
      } else {
        ok, f, last := CleanupThis(0, live);
        if !ok {
          return;
        }
        PromotedFirst(sp, last, old(cursors), cursors, h0, live, f);
        assert sp.sizes[0] - cursors[0] == sp.sizes[0] - CURSOR_SIZE;
        EmptyCarried(heap, f, stages);
        SoundNursery(sp, cursors, roots, heap, mark, Image(f, live));
      }
      NurseryFacts(sp, cursors, roots, heap, mark, Image(f, live), made);
      ghost var c1, h1 := cursors, heap;
      ok, c := AllocBytes(0, o.size);
      if ok {
        heap := Place(heap, c, o);
        assert cursors[0 := c1[0]] == c1;
        PlaceNursery(sp, c1, roots, h1, mark, Image(f, live), made, 0, o);
        ThenStay(f, r0, h0, roots, h1, heap, live);
      }
    }

    // GCRegion::PrepareForSequentAllocations
    method PrepareForSequentAllocations(n: nat, ghost live: set<nat>)
      returns (ok: bool, ghost f: map<nat, nat>, ghost last: nat)
      requires Sound(sp, cursors, roots, heap, mark, live) && |sp.starts| >= 2 && stages == []
      modifies this
      ensures |old(cursors)| == |sp.starts| == |sp.sizes|
      ensures ok ==> forbidden && stages == [] && f.Keys == live && Renamed(f, old(roots), old(heap), roots, heap)
      ensures ok ==>
                Sound(sp, cursors, roots, heap, mark, Image(f, live)) && cursors != [] &&
                cursors[0] + n < sp.sizes[0]
      ensures old(cursors)[0] + n < sp.sizes[0] ==>
                ok && mark == old(mark) && f == Identity(live) && cursors == old(cursors) && heap == old(heap)
      ensures ok && old(cursors)[0] + n >= sp.sizes[0] ==>
                |cursors| == |old(cursors)| && cursors[0] == CURSOR_SIZE && mark == old(mark) + last + 1 &&
                Promoted(sp, 0, last, old(cursors), cursors, old(heap), live, f)
      ensures !old(forbidden) && TenuredRoom(sp, old(cursors), old(heap), live) && CURSOR_SIZE + n < sp.sizes[0] ==> ok
    {
      hide Closed, Reachable, Renamed, TenuredRoom, MarksUpTo, Promoted, Upward, Allocated;
      IdentityMoved(roots, heap, live);
      f, last := Identity(live), 0;
      ok := true;
      if sp.sizes[0] - cursors[0] <= n {
        ok, f, last := CleanupThis(0, live);
        if ok {
          PromotedFirst(sp, last, old(cursors), cursors, old(heap), live, f);
          EmptyCarried(heap, f, stages);
          ok := sp.sizes[0] - cursors[0] > n;
        }
      }
      if ok {
        forbidden := true;
      }
    }

    // The constructor of Object: the members that are not methods are reset, and a function is created for each
    // method. No collection happens, although the trigger is forbidden and objects are allocated.
    method Construct(size: nat, members: nat, payload: seq<bv8>, bodies: seq<seq<bv8>>, functionSize: nat,
                     ghost live: set<nat>)
      returns (c: nat, ghost made: set<nat>)
      requires Nursery(sp, cursors, roots, heap, mark, live, {}) && |sp.starts| >= 2 && stages == [] && forbidden
      requires size > 0 && functionSize > 0 && |bodies| <= members
      requires cursors != [] && sp.sizes != [] && cursors[0] + size + |bodies| * functionSize <= sp.sizes[0]
      modifies this
      ensures mark == old(mark) && forbidden && stages == [] && roots == old(roots)
      ensures Nursery(sp, cursors, roots, heap, mark, live, made)
      ensures Renamed(Identity(live), old(roots), old(heap), roots, heap)
      ensures cursors == old(cursors)[0 := old(cursors)[0] + size + |bodies| * functionSize]
      ensures c in made && c in heap && heap[c].kind == Object && heap[c].size == size && heap[c].payload == payload
      ensures HasMethods(heap, made, heap[c].slots, members, bodies, functionSize, |bodies|)
    {
      hide InPlace, IsLive, Closed, Reachable, Renamed, TenuredRoom, MarksUpTo, Nursery;
      ghost var r0, h0 := roots, heap;
      NurseryFacts(sp, cursors, roots, heap, mark, live, {});
      IdentityMoved(roots, heap, live);
      var ok: bool;
      ghost var f, last;
      ok, c, f, last := Allocate(Obj(Object, 0, size, 0, Prims(members), payload), live, {});
      IdentityImage(live);
      made := {} + {c};
      for i := 0 to |bodies|
        invariant mark == old(mark) && forbidden && stages == [] && roots == r0
        invariant Nursery(sp, cursors, roots, heap, mark, live, made) && Renamed(Identity(live), r0, h0, roots, heap)
        invariant cursors == old(cursors)[0 := old(cursors)[0] + size + i * functionSize]
        invariant c in made && c in heap && c !in live
        invariant heap[c].kind == Object && heap[c].size == size && heap[c].payload == payload
        invariant HasMethods(heap, made, heap[c].slots, members, bodies, functionSize, i)
      {
        Product(i, |bodies|, functionSize);
        ghost var h1, made1 := heap, made;
        var m: nat;
        ok, m, f, last := Allocate(FunctionObj(functionSize, bodies[i]), live, made);
        IdentityImage(live);
        SameAgain(r0, h0, h1, heap, roots, live);
        ghost var h2 := heap;
        var slot := members - |bodies| + i;
        WriteNursery(sp, cursors, roots, heap, mark, live, made + {m}, c, slot, Ref(m, Func));
        heap := SetSlot(heap, c, slot, Ref(m, Func));
        SameAgain(r0, h0, h2, heap, roots, live);
        made := made + {m};
        MethodAdded(h1, h2, heap, made1, c, m, members, bodies, functionSize, i);
      }
    }

    // Object::New
    method NewObject(size: nat, members: nat, payload: seq<bv8>, bodies: seq<seq<bv8>>, functionSize: nat,
                     ghost live: set<nat>)
      returns (ok: bool, c: nat, ghost f: map<nat, nat>, ghost last: nat, ghost made: set<nat>)
      requires Sound(sp, cursors, roots, heap, mark, live) && |sp.starts| >= 2 && stages == []
      requires size > 0 && functionSize > 0 && |bodies| <= members
      modifies this
      ensures |old(cursors)| == |sp.starts| == |sp.sizes|
      ensures ok ==> !forbidden && stages == [] && f.Keys == live && Renamed(f, old(roots), old(heap), roots, heap)
      ensures ok ==> Nursery(sp, cursors, roots, heap, mark, Image(f, live), made)
      ensures ok ==>
                c in made && c in heap && heap[c].kind == Object && heap[c].size == size &&
                heap[c].payload == payload
      ensures ok ==> HasMethods(heap, made, heap[c].slots, members, bodies, functionSize, |bodies|)
      ensures old(cursors)[0] + size + |bodies| * functionSize < sp.sizes[0] ==>
                ok && mark == old(mark) && f == Identity(live) &&
                cursors == old(cursors)[0 := old(cursors)[0] + size + |bodies| * functionSize]
      ensures ok && old(cursors)[0] + size + |bodies| * functionSize >= sp.sizes[0] ==>
                |cursors| == |old(cursors)| && cursors[0] == CURSOR_SIZE + size + |bodies| * functionSize &&
                mark == old(mark) + last + 1 &&
                Promoted(sp, 0, last, old(cursors), cursors[0 := CURSOR_SIZE], old(heap), live, f)
      ensures !old(forbidden) && TenuredRoom(sp, old(cursors), old(heap), live) ==>
                (CURSOR_SIZE + size + |bodies| * functionSize < sp.sizes[0] ==> ok)
    {
      hide Closed, Reachable, Renamed, TenuredRoom, MarksUpTo, Allocated, Nursery, HasMethods, Promoted;
      c, made := 0, {};
      ok, f, last := PrepareForSequentAllocations(|bodies| * functionSize + size, live);
      if ok {
        ghost var r1, h1, c1 := roots, heap, cursors;
        SoundNursery(sp, cursors, roots, heap, mark, Image(f, live));
        c, made := Construct(size, members, payload, bodies, functionSize, Image(f, live));
        ThenStay(f, old(roots), old(heap), roots, h1, heap, live);
        assert cursors[0 := c1[0]] == c1;
        forbidden := false;
      }
    }
  }
}