// Rebinding the recorded references once the survivors have been copied.
module HeapRebind {
  import opened HeapModel
  import opened HeapSpace

  // GC::DanglingReference: a register of a frame, or the idx-th register of an object.
  datatype Entry = Root(idx: nat) | Field(holder: nat, idx: nat)

  ghost predicate IsSlot(roots: seq<Slot>, h: Heap, e: Entry) {
    match e
    case Root(i) => i < |roots|
    case Field(x, i) => x in h && i < |h[x].slots|
  }

  ghost function SlotAt(roots: seq<Slot>, h: Heap, e: Entry): Slot
    requires IsSlot(roots, h, e)
  {
    match e
    case Root(i) => roots[i]
    case Field(x, i) => h[x].slots[i]
  }

  // e names a slot, reachable from the frames, with a pointer into region k.
  ghost predicate IsRefInto(sp: Space, k: nat, roots: seq<Slot>, h: Heap, live: set<nat>, e: Entry)
    requires |sp.starts| == |sp.sizes| && k < |sp.starts|
  {
    && (e.Field? ==> e.holder in live) && IsSlot(roots, h, e)
    && SlotAt(roots, h, e).Ref? && sp.Contains(k, SlotAt(roots, h, e).addr)
  }

  ghost predicate RefsExact(sp: Space, k: nat, roots: seq<Slot>, h: Heap, live: set<nat>, refs: seq<Entry>)
    requires |sp.starts| == |sp.sizes| && k < |sp.starts|
  {
    Distinct(refs) && forall e: Entry :: e in refs <==> IsRefInto(sp, k, roots, h, live, e)
  }

  ghost predicate TargetsExact(sp: Space, k: nat, live: set<nat>, targets: seq<nat>)
    requires |sp.starts| == |sp.sizes| && k < |sp.starts|
  {
    Distinct(targets) && forall a: nat :: a in targets <==> a in live && sp.Contains(k, a)
  }

  // Where every reachable object is after the objects of f have moved.
  ghost function Moved(live: set<nat>, f: map<nat, nat>): (g: map<nat, nat>)
    ensures g.Keys == live
  {
    map a | a in live :: if a in f then f[a] else a
  }

  // Copies are where no reachable object was.
  ghost predicate Relocation(live: set<nat>, f: map<nat, nat>) {
    && (forall a :: a in f ==> a in live && f[a] != 0 && f[a] !in live)
    && Injective(f)
  }

  lemma CopiedRelocation(h0: Heap, h: Heap, live: set<nat>, f: map<nat, nat>, lo: nat, hi: nat, lim: nat)
    requires Outside(h0, live, lo, lim) && Copied(h0, h, live, f, lo, hi) && 0 < lo && hi <= lim
    ensures Relocation(live, f)
  {
    forall a | a in f ensures a in live && f[a] != 0 && f[a] !in live && a in h0 && h0[a].size > 0 {
      assert Forwards(h0, h, f, a, lo, hi);
    }
  }

  lemma MovedInjective(live: set<nat>, f: map<nat, nat>)
    requires Relocation(live, f)
    ensures Injective(Moved(live, f))
    ensures forall a, x :: a in f && x in live ==> Moved(live, f)[x] != a
  {
  }

  // ---------------------------------------------------------------- the state between two fixes

  function Rebind(done: bool, g: map<nat, nat>, s: Slot): Slot {
    if done then MoveSlot(g, s) else s
  }

  // The slots named by `done` have been rebound in o, the current copy of x.
  ghost predicate ObjRebound(g: map<nat, nat>, done: set<Entry>, x: nat, was: Obj, o: Obj) {
    && o == was.(reloc := 0, slots := o.slots) && |o.slots| == |was.slots|
    && (forall i :: 0 <= i < |o.slots| ==> o.slots[i] == Rebind(Field(x, i) in done, g, was.slots[i]))
  }

  ghost predicate RootsRebound(g: map<nat, nat>, done: set<Entry>, roots1: seq<Slot>, roots: seq<Slot>) {
    |roots| == |roots1| && forall i :: 0 <= i < |roots| ==> roots[i] == Rebind(Root(i) in done, g, roots1[i])
  }

  ghost predicate Rebound(h1: Heap, h: Heap, live: set<nat>, f: map<nat, nat>, done: set<Entry>, x: nat)
    requires x in live && x in h1
  {
    var g := Moved(live, f);
    && x in h && g[x] in h && ObjRebound(g, done, x, h1[x], h[g[x]])
    && (x in f ==> h[x] == h1[x])
  }

  ghost predicate AllRebound(h1: Heap, h: Heap, live: set<nat>, f: map<nat, nat>, done: set<Entry>) {
    forall x :: x in live ==> x in h1 && Rebound(h1, h, live, f, done, x)
  }

  // The forwarding pointers of the moved objects are set, and no others.
  ghost predicate Forwarded(h1: Heap, live: set<nat>, f: map<nat, nat>) {
    forall x :: x in live ==> x in h1 && h1[x].reloc == if x in f then f[x] else 0
  }

  // Before the first fix.
  lemma NothingRebound(h0: Heap, h1: Heap, roots: seq<Slot>, live: set<nat>, f: map<nat, nat>, lo: nat, hi: nat)
    requires Copied(h0, h1, live, f, lo, hi) && forall x :: x in live ==> x in h0 && h0[x].reloc == 0
    ensures AllRebound(h1, h1, live, f, {}) && RootsRebound(Moved(live, f), {}, roots, roots)
    ensures Forwarded(h1, live, f)
  {
    forall x | x in live
      ensures x in h1 && Rebound(h1, h1, live, f, {}, x) && h1[x].reloc == if x in f then f[x] else 0
    {
      assert Untouched(h0, h1, f, x);
      assert x in f ==> Forwards(h0, h1, f, x, lo, hi);
    }
  }

  function SetSlot(h: Heap, x: nat, i: nat, s: Slot): Heap
    requires x in h && i < |h[x].slots|
  {
    h[x := h[x].(slots := h[x].slots[i := s])]
  }

  // Fix finds a forwarding pointer for the recorded slot, and in a relocated holder still the old pointer.
  lemma FixReads(h1: Heap, h: Heap, live: set<nat>, f: map<nat, nat>, done: set<Entry>, x: nat, i: nat)
    requires AllRebound(h1, h, live, f, done) && Forwarded(h1, live, f) && Relocation(live, f)
    requires x in live && x in h1 && i < |h1[x].slots| && Field(x, i) !in done
    requires h1[x].slots[i].Ref? && h1[x].slots[i].addr in f
    ensures var y := Moved(live, f)[x];
            && x in h && i < |h[x].slots| && h[x].slots[i] == h1[x].slots[i]
            && y in h && i < |h[y].slots| && h[y].slots[i] == h1[x].slots[i]
            && h[x].reloc == (if x in f then y else 0) && (x !in f ==> y == x)
    ensures var a := h1[x].slots[i].addr; a in h && h[a].reloc == f[a] == Moved(live, f)[a] && f[a] != 0
  {
    var a := h1[x].slots[i].addr;
    assert Rebound(h1, h, live, f, done, x) && Rebound(h1, h, live, f, done, a);
  }

  lemma FixField(h1: Heap, h: Heap, live: set<nat>, f: map<nat, nat>, done: set<Entry>, x: nat, i: nat, s: Slot)
    requires AllRebound(h1, h, live, f, done) && Relocation(live, f)
    requires x in live && x in h1 && i < |h1[x].slots|
    requires s == MoveSlot(Moved(live, f), h1[x].slots[i])
    ensures var y := Moved(live, f)[x];
            && y in h && i < |h[y].slots| && AllRebound(h1, SetSlot(h, y, i, s), live, f, done + {Field(x, i)})
  {
    hide Moved;
    var g := Moved(live, f);
    MovedInjective(live, f);
    assert Rebound(h1, h, live, f, done, x);
    var h' := SetSlot(h, g[x], i, s);
    forall z | z in live ensures z in h1 && Rebound(h1, h', live, f, done + {Field(x, i)}, z) {
      assert Rebound(h1, h, live, f, done, z);
      if z != x {
        assert g[z] != g[x];
      }
    }
  }

  lemma FixRoot(roots1: seq<Slot>, roots: seq<Slot>, g: map<nat, nat>, done: set<Entry>, i: nat, s: Slot)
    requires RootsRebound(g, done, roots1, roots) && i < |roots1| && s == MoveSlot(g, roots1[i])
    ensures RootsRebound(g, done + {Root(i)}, roots1, roots[i := s])
  {
  }

  // A fix of a register leaves the objects alone, and the other way around.
  lemma OtherEntry(h1: Heap, h: Heap, live: set<nat>, f: map<nat, nat>, done: set<Entry>, i: nat)
    requires AllRebound(h1, h, live, f, done)
    ensures AllRebound(h1, h, live, f, done + {Root(i)})
  {
    forall z | z in live ensures z in h1 && Rebound(h1, h, live, f, done + {Root(i)}, z) {
      assert Rebound(h1, h, live, f, done, z);
    }
  }

  lemma OtherRoot(roots1: seq<Slot>, roots: seq<Slot>, g: map<nat, nat>, done: set<Entry>, x: nat, i: nat)
    requires RootsRebound(g, done, roots1, roots)
    ensures RootsRebound(g, done + {Field(x, i)}, roots1, roots)
  {
  }

  // ---------------------------------------------------------------- once every recorded slot is rebound

  lemma SlotFinal(sp: Space, k: nat, live: set<nat>, f: map<nat, nat>, done: bool, s: Slot)
    requires |sp.starts| == |sp.sizes| && k < |sp.starts|
    requires forall a: nat :: a in f ==> sp.Contains(k, a)
    requires s.Ref? && sp.Contains(k, s.addr) ==> done
    ensures Rebind(done, Moved(live, f), s) == MoveSlot(Moved(live, f), s)
  {
  }

  // With every reference into region k rebound, the heap is the old one renamed.
  lemma AllReboundRenamed(sp: Space, k: nat, roots1: seq<Slot>, h1: Heap, roots: seq<Slot>, h: Heap, live: set<nat>,
                          f: map<nat, nat>, done: set<Entry>)
    requires |sp.starts| == |sp.sizes| && k < |sp.starts|
    requires AllRebound(h1, h, live, f, done) && RootsRebound(Moved(live, f), done, roots1, roots)
    requires Relocation(live, f)
    requires forall a: nat :: a in f ==> sp.Contains(k, a)
    requires forall e: Entry :: IsRefInto(sp, k, roots1, h1, live, e) ==> e in done
    ensures Renamed(Moved(live, f), roots1, h1, roots, h)
  {
    hide Moved, Rebind, Relocation;
    var g := Moved(live, f);
    MovedInjective(live, f);
    forall i: nat | i < |roots| ensures roots[i] == MoveSlot(g, roots1[i]) {
      assert IsRefInto(sp, k, roots1, h1, live, Root(i)) || !roots1[i].Ref? || !sp.Contains(k, roots1[i].addr);
      SlotFinal(sp, k, live, f, Root(i) in done, roots1[i]);
    }
    forall x | x in g ensures x in h1 && g[x] in h && ObjMoved(g, h1[x], h[g[x]]) {
      assert Rebound(h1, h, live, f, done, x);
      forall i: nat | i < |h1[x].slots| ensures h[g[x]].slots[i] == MoveSlot(g, h1[x].slots[i]) {
        assert IsRefInto(sp, k, roots1, h1, live, Field(x, i)) || !h1[x].slots[i].Ref?
          || !sp.Contains(k, h1[x].slots[i].addr);
        SlotFinal(sp, k, live, f, Field(x, i) in done, h1[x].slots[i]);
      }
    }
  }
}
