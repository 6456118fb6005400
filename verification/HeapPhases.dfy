// The loops of MoveObjects and RebindLinks, and the state they leave.
module HeapPhases {
  import opened HeapModel
  import opened HeapSpace
  import opened HeapRebind
  import opened HeapMark
  import opened HeapSizes
  import opened HeapMove

  // ---------------------------------------------------------------- MoveObjects

  // The first n targets of region k are still to be copied, and the next region has room for them.
  ghost predicate Copying(sp: Space, k: nat, cursors0: seq<nat>, cursors: seq<nat>, h0: Heap, h: Heap, mark: nat,
                          live: set<nat>, f: map<nat, nat>, targets: seq<nat>, n: nat)
    requires sp.Valid() && k + 1 < |sp.starts| == |cursors0|
  {
    && n <= |targets| && |cursors| == |cursors0|
    && cursors == cursors0[k + 1 := cursors[k + 1]] && cursors0[k + 1] <= cursors[k + 1]
    && cursors[k + 1] + Sum(h0, targets[..n]) == cursors0[k + 1] + Sum(h0, targets) <= sp.sizes[k + 1]
    && Copied(h0, h, live, f, sp.starts[k + 1] + cursors0[k + 1], sp.starts[k + 1] + cursors[k + 1])
    && (forall a: nat :: a in f <==> a in targets[n..])
    && MarksUpTo(h, mark)
  }

  lemma CopyingStart(sp: Space, k: nat, cursors: seq<nat>, h: Heap, mark: nat, live: set<nat>, targets: seq<nat>)
    requires InPlace(sp, cursors, h, live) && MarksUpTo(h, mark) && k + 1 < |sp.starts|
    requires cursors[k + 1] + Sum(h, targets) <= sp.sizes[k + 1]
    ensures Copying(sp, k, cursors, cursors, h, h, mark, live, map[], targets, |targets|)
  {
    assert targets[..|targets|] == targets;
  }

  lemma TargetHere(sp: Space, k: nat, live: set<nat>, targets: seq<nat>, n: nat)
    requires |sp.starts| == |sp.sizes| && k < |sp.starts| && TargetsExact(sp, k, live, targets) && 0 < n <= |targets|
    ensures targets[n - 1] in live && sp.Contains(k, targets[n - 1]) && targets[n - 1] !in targets[n..]
    ensures targets[..n] == targets[..n - 1] + [targets[n - 1]]
    ensures forall a: nat :: a in targets[n - 1..] <==> a in targets[n..] || a == targets[n - 1]
  {
    assert targets[n - 1] in targets;
    assert targets[n - 1..] == [targets[n - 1]] + targets[n..];
  }

  // Reading the target that is next, and why it fits.
  lemma CopyingFits(sp: Space, k: nat, cursors0: seq<nat>, cursors: seq<nat>, h0: Heap, h: Heap, mark: nat,
                    live: set<nat>, f: map<nat, nat>, targets: seq<nat>, n: nat)
    requires InPlace(sp, cursors0, h0, live) && k + 1 < |sp.starts| == |cursors0| && TargetsExact(sp, k, live, targets)
    requires Copying(sp, k, cursors0, cursors, h0, h, mark, live, f, targets, n) && n > 0
    ensures var a := targets[n - 1];
            && a in live && a !in f && a in h && a in h0 && h[a] == h0[a] && h[a].reloc == 0
            && cursors[k + 1] + h[a].size <= sp.sizes[k + 1]
            && cursors[k + 1] + h[a].size + Sum(h0, targets[..n - 1]) == cursors0[k + 1] + Sum(h0, targets)
  {
    hide AllApart, Copied, MarksUpTo, Sum, TargetsExact;
    TargetHere(sp, k, live, targets, n);
    SumAppend(h0, targets[..n - 1], targets[n - 1]);
    CopySame(h0, h, live, f, sp.starts[k + 1] + cursors0[k + 1], sp.starts[k + 1] + cursors[k + 1], 0, targets[n - 1]);
  }

  lemma CopyingStep(sp: Space, k: nat, cursors0: seq<nat>, cursors: seq<nat>, h0: Heap, h: Heap, mark: nat,
                    live: set<nat>, f: map<nat, nat>, targets: seq<nat>, n: nat)
    requires InPlace(sp, cursors0, h0, live) && k + 1 < |sp.starts| == |cursors0| && TargetsExact(sp, k, live, targets)
    requires Copying(sp, k, cursors0, cursors, h0, h, mark, live, f, targets, n) && n > 0 && targets[n - 1] in h
    ensures var a := targets[n - 1];
            var c := sp.starts[k + 1] + cursors[k + 1];
            && a in Place(h, c, h[a])
            && Copying(sp, k, cursors0, cursors[k + 1 := cursors[k + 1] + h[a].size], h0, CopyOf(h, a, c), mark, live,
                       f[a := c], targets, n - 1)
  {
    hide AllApart, Copied, MarksUpTo, Place, CopyOf, Outside;
    var a := targets[n - 1];
    var lo, hi, lim := sp.starts[k + 1] + cursors0[k + 1], sp.starts[k + 1] + cursors[k + 1],
      sp.starts[k + 1] + sp.sizes[k + 1];
    TargetHere(sp, k, live, targets, n);
    CopyingFits(sp, k, cursors0, cursors, h0, h, mark, live, f, targets, n);
    FreeOutside(sp, cursors0, h0, live, k + 1);
    CopyOne(h0, h, live, f, lo, hi, lim, a);
    CopyMarks(h, a, hi, mark);
    CopyLeaves(h0, h, live, lo, hi, lim, a);
  }

  lemma CopyMarks(h: Heap, a: nat, c: nat, mark: nat)
    requires a in h && MarksUpTo(h, mark)
    ensures MarksUpTo(CopyOf(h, a, c), mark)
  {
  }

  lemma CopyLeaves(h0: Heap, h: Heap, live: set<nat>, lo: nat, hi: nat, lim: nat, a: nat)
    requires Outside(h0, live, lo, lim) && lo <= hi && a in live && a in h && h[a] == h0[a] && hi + h[a].size <= lim
    ensures a in Place(h, hi, h[a])
  {
  }

  // All targets have been copied: exactly the objects of region k have moved.
  lemma CopyingEnd(sp: Space, k: nat, cursors0: seq<nat>, cursors: seq<nat>, roots: seq<Slot>, h0: Heap, h: Heap,
                   mark: nat, live: set<nat>, f: map<nat, nat>, targets: seq<nat>)
    requires InPlace(sp, cursors0, h0, live) && k + 1 < |sp.starts| == |cursors0| && TargetsExact(sp, k, live, targets)
    requires Copying(sp, k, cursors0, cursors, h0, h, mark, live, f, targets, 0)
    ensures cursors == cursors0[k + 1 := cursors0[k + 1] + Sum(h0, targets)]
    ensures forall a: nat :: a in f <==> a in live && sp.Contains(k, a)
    ensures Relocation(live, f) && Forwarded(h, live, f)
    ensures AllRebound(h, h, live, f, {}) && RootsRebound(Moved(live, f), {}, roots, roots)
  {
    hide InPlace, Copying, Copied, Outside, Relocation, Forwarded, AllRebound, RootsRebound, TargetsExact;
    NotRelocated(sp, cursors0, h0, live);
    CopyingDone(sp, k, cursors0, cursors, h0, h, mark, live, f, targets);
    var lo, hi, lim := sp.starts[k + 1] + cursors0[k + 1], sp.starts[k + 1] + cursors[k + 1],
      sp.starts[k + 1] + sp.sizes[k + 1];
    FreeOutside(sp, cursors0, h0, live, k + 1);
    CopiedRelocation(h0, h, live, f, lo, hi, lim);
    NothingRebound(h0, h, roots, live, f, lo, hi);
  }

  lemma CopyingDone(sp: Space, k: nat, cursors0: seq<nat>, cursors: seq<nat>, h0: Heap, h: Heap, mark: nat,
                    live: set<nat>, f: map<nat, nat>, targets: seq<nat>)
    requires sp.Valid() && k + 1 < |sp.starts| == |cursors0| && TargetsExact(sp, k, live, targets)
    requires Copying(sp, k, cursors0, cursors, h0, h, mark, live, f, targets, 0)
    ensures |cursors| == |cursors0| && cursors == cursors0[k + 1 := cursors0[k + 1] + Sum(h0, targets)]
    ensures cursors[k + 1] <= sp.sizes[k + 1] && cursors0[k + 1] <= cursors[k + 1] && 0 < sp.starts[k + 1]
    ensures forall a: nat :: a in f <==> a in live && sp.Contains(k, a)
    ensures Copied(h0, h, live, f, sp.starts[k + 1] + cursors0[k + 1], sp.starts[k + 1] + cursors[k + 1])
    ensures MarksUpTo(h, mark)
  {
    hide Copied;
    assert targets[..0] == [] && targets[0..] == targets;
  }

  lemma NotRelocated(sp: Space, cursors: seq<nat>, h: Heap, live: set<nat>)
    requires InPlace(sp, cursors, h, live)
    ensures sp.Valid() && forall x :: x in live ==> x in h && h[x].reloc == 0
  {
  }

  // ---------------------------------------------------------------- RebindLinks

  ghost function Entries(s: seq<Entry>): set<Entry> {
    set e | e in s
  }

  // All but the first n recorded slots have been rebound.
  ghost predicate Rebinding(roots1: seq<Slot>, h1: Heap, roots: seq<Slot>, h: Heap, mark: nat, live: set<nat>,
                            f: map<nat, nat>, refs: seq<Entry>, n: nat)
  {
    && n <= |refs|
    && AllRebound(h1, h, live, f, Entries(refs[n..])) && RootsRebound(Moved(live, f), Entries(refs[n..]), roots1, roots)
    && MarksUpTo(h, mark)
  }

  lemma RebindingStart(roots: seq<Slot>, h: Heap, mark: nat, live: set<nat>, f: map<nat, nat>, refs: seq<Entry>)
    requires AllRebound(h, h, live, f, {}) && RootsRebound(Moved(live, f), {}, roots, roots) && MarksUpTo(h, mark)
    ensures Rebinding(roots, h, roots, h, mark, live, f, refs, |refs|)
  {
    hide AllRebound, RootsRebound;
    assert Entries(refs[|refs|..]) == {};
  }

  // The recorded slot that is next.
  lemma RefHere(sp: Space, k: nat, roots1: seq<Slot>, h1: Heap, live: set<nat>, f: map<nat, nat>, refs: seq<Entry>,
                n: nat)
    requires |sp.starts| == |sp.sizes| && k < |sp.starts| && RefsExact(sp, k, roots1, h1, live, refs) && 0 < n <= |refs|
    requires forall a: nat :: a in f <==> a in live && sp.Contains(k, a)
    requires Closed(roots1, h1, live)
    ensures var e := refs[n - 1];
            && e !in Entries(refs[n..]) && Entries(refs[n - 1..]) == Entries(refs[n..]) + {e}
            && (e.Field? ==> e.holder in live) && IsSlot(roots1, h1, e)
            && SlotAt(roots1, h1, e).Ref? && SlotAt(roots1, h1, e).addr in f
  {
    var e := refs[n - 1];
    assert e in refs;
    assert refs[n - 1..] == [e] + refs[n..];
    match e
    case Root(i) =>
      assert SlotOk(h1, live, roots1[i]);
    case Field(x, i) =>
      assert SlotsOk(h1, live, h1[x].slots);
      assert SlotOk(h1, live, h1[x].slots[i]);
  }

  lemma RebindRoot(roots1: seq<Slot>, h1: Heap, roots: seq<Slot>, h: Heap, mark: nat, live: set<nat>, f: map<nat, nat>,
                   refs: seq<Entry>, n: nat, i: nat)
    requires Rebinding(roots1, h1, roots, h, mark, live, f, refs, n) && 0 < n && refs[n - 1] == Root(i) && i < |roots1|
    requires Entries(refs[n - 1..]) == Entries(refs[n..]) + {Root(i)} && Root(i) !in Entries(refs[n..])
    requires Forwarded(h1, live, f) && Relocation(live, f) && roots1[i].Ref? && roots1[i].addr in f
    ensures i < |roots| && roots[i] == roots1[i]
    ensures var a := roots1[i].addr;
            && a in h && h[a].reloc != 0
            && Rebinding(roots1, h1, roots[i := Ref(h[a].reloc, roots[i].kind)], h, mark, live, f, refs, n - 1)
  {
    hide AllRebound, Forwarded, Entries;
    var a := roots1[i].addr;
    ForwardedAt(h1, h, live, f, Entries(refs[n..]), a);
    FixRoot(roots1, roots, Moved(live, f), Entries(refs[n..]), i, Ref(f[a], roots1[i].kind));
    OtherEntry(h1, h, live, f, Entries(refs[n..]), i);
  }

  lemma ForwardedAt(h1: Heap, h: Heap, live: set<nat>, f: map<nat, nat>, done: set<Entry>, a: nat)
    requires AllRebound(h1, h, live, f, done) && Forwarded(h1, live, f) && Relocation(live, f) && a in f
    ensures a in live && a in h && h[a].reloc == f[a] == Moved(live, f)[a] && f[a] != 0
  {
    assert Rebound(h1, h, live, f, done, a);
  }

  lemma RebindField(roots1: seq<Slot>, h1: Heap, roots: seq<Slot>, h: Heap, mark: nat, live: set<nat>, f: map<nat, nat>,
                    refs: seq<Entry>, n: nat, x: nat, i: nat)
    requires Rebinding(roots1, h1, roots, h, mark, live, f, refs, n) && 0 < n && refs[n - 1] == Field(x, i)
    requires Entries(refs[n - 1..]) == Entries(refs[n..]) + {Field(x, i)} && Field(x, i) !in Entries(refs[n..])
    requires Forwarded(h1, live, f) && Relocation(live, f)
    requires x in live && x in h1 && i < |h1[x].slots| && h1[x].slots[i].Ref? && h1[x].slots[i].addr in f
    ensures x in h && i < |h[x].slots| && h[x].slots[i] == h1[x].slots[i]
    ensures var a := h1[x].slots[i].addr; a in h && h[a].reloc != 0
    ensures h[x].reloc != 0 ==>
              h[x].reloc in h && i < |h[h[x].reloc].slots| && h[h[x].reloc].slots[i] == h1[x].slots[i]
    ensures var s := Ref(h[h1[x].slots[i].addr].reloc, h1[x].slots[i].kind);
            Rebinding(roots1, h1, roots, SetSlot(h, if h[x].reloc != 0 then h[x].reloc else x, i, s), mark, live, f,
              refs, n - 1)
  {
    hide AllRebound, Forwarded, Entries, RootsRebound;
    var a := h1[x].slots[i].addr;
    FixReads(h1, h, live, f, Entries(refs[n..]), x, i);
    FixField(h1, h, live, f, Entries(refs[n..]), x, i, Ref(f[a], h1[x].slots[i].kind));
    OtherRoot(roots1, roots, Moved(live, f), Entries(refs[n..]), x, i);
    SetSlotMarks(h, Moved(live, f)[x], i, Ref(f[a], h1[x].slots[i].kind), mark);
  }

  lemma SetSlotMarks(h: Heap, y: nat, i: nat, s: Slot, mark: nat)
    requires y in h && i < |h[y].slots| && MarksUpTo(h, mark)
    ensures MarksUpTo(SetSlot(h, y, i, s), mark)
  {
  }

  // ---------------------------------------------------------------- after the collection

  // Where the reachable objects are once region k has been left.
  ghost predicate Settled(sp: Space, k: nat, cursors: seq<nat>, h0: Heap, live: set<nat>, f: map<nat, nat>) {
    var g := Moved(live, f);
    && (forall x :: x in live ==> x in h0 && Allocated(sp, cursors, g[x], h0[x].size))
    && (forall x, y :: x in live && y in live && x != y ==> Apart(g[x], h0[x].size, g[y], h0[y].size))
  }

  lemma SettledAfter(sp: Space, k: nat, cursors0: seq<nat>, cursors: seq<nat>, h0: Heap, h: Heap, live: set<nat>,
                     f: map<nat, nat>)
    requires InPlace(sp, cursors0, h0, live) && k + 1 < |sp.starts| == |cursors0| == |cursors|
    requires cursors0[k + 1] <= cursors[k + 1] <= sp.sizes[k + 1]
    requires cursors == cursors0[k + 1 := cursors[k + 1]]
    requires Copied(h0, h, live, f, sp.starts[k + 1] + cursors0[k + 1], sp.starts[k + 1] + cursors[k + 1])
    requires forall a: nat :: a in f <==> a in live && sp.Contains(k, a)
    ensures Settled(sp, k, cursors[k := CURSOR_SIZE], h0, live, f) && CursorsOk(sp, cursors[k := CURSOR_SIZE])
  {
    hide Copied, Outside, AllApart, Allocated, Apart;
    var lo, hi, lim := sp.starts[k + 1] + cursors0[k + 1], sp.starts[k + 1] + cursors[k + 1],
      sp.starts[k + 1] + sp.sizes[k + 1];
    FreeOutside(sp, cursors0, h0, live, k + 1);
    var g := Moved(live, f);
    forall x | x in live ensures Allocated(sp, cursors[k := CURSOR_SIZE], g[x], h0[x].size) {
      if x in f {
        CopyAllocated(sp, k, cursors0, cursors, h0, h, live, f, x);
      } else {
        StayAllocated(sp, k, cursors0, cursors, x, h0[x].size);
      }
    }
    forall x, y | x in live && y in live && x != y ensures Apart(g[x], h0[x].size, g[y], h0[y].size) {
      MovedApart(h0, h, live, f, lo, hi, lim, x, y);
    }
  }

  lemma CopyAllocated(sp: Space, k: nat, cursors0: seq<nat>, cursors: seq<nat>, h0: Heap, h: Heap, live: set<nat>,
                      f: map<nat, nat>, x: nat)
    requires sp.Valid() && CursorsOk(sp, cursors0) && k + 1 < |sp.starts| == |cursors|
    requires Copied(h0, h, live, f, sp.starts[k + 1] + cursors0[k + 1], sp.starts[k + 1] + cursors[k + 1])
    requires x in f && x in live && x in h0 && h0[x].size > 0
    ensures Allocated(sp, cursors[k := CURSOR_SIZE], f[x], h0[x].size)
  {
    assert Forwards(h0, h, f, x, sp.starts[k + 1] + cursors0[k + 1], sp.starts[k + 1] + cursors[k + 1]);
    assert LiesIn(sp, cursors[k := CURSOR_SIZE], k + 1, f[x], h0[x].size);
  }

  lemma StayAllocated(sp: Space, k: nat, cursors0: seq<nat>, cursors: seq<nat>, x: nat, size: nat)
    requires sp.Valid() && CursorsOk(sp, cursors0) && k + 1 < |sp.starts| == |cursors|
    requires cursors0[k + 1] <= cursors[k + 1] && cursors == cursors0[k + 1 := cursors[k + 1]]
    requires Allocated(sp, cursors0, x, size) && !sp.Contains(k, x)
    ensures Allocated(sp, cursors[k := CURSOR_SIZE], x, size)
  {
    var j: nat :| LiesIn(sp, cursors0, j, x, size);
    LiesInContains(sp, cursors0, j, x, size);
    assert LiesIn(sp, cursors[k := CURSOR_SIZE], j, x, size);
  }

  lemma MovedApart(h0: Heap, h: Heap, live: set<nat>, f: map<nat, nat>, lo: nat, hi: nat, lim: nat, x: nat, y: nat)
    requires AllApart(h0, live) && Outside(h0, live, lo, lim) && hi <= lim && Copied(h0, h, live, f, lo, hi)
    requires x in live && y in live && x != y && x in h0 && y in h0
    ensures Apart(Moved(live, f)[x], h0[x].size, Moved(live, f)[y], h0[y].size)
  {
    assert x in f ==> Forwards(h0, h, f, x, lo, hi);
    assert y in f ==> Forwards(h0, h, f, y, lo, hi);
  }

  // The heap after the last fix and the reset is sound, and the old one renamed.
  lemma SoundAfter(sp: Space, k: nat, cursors: seq<nat>, roots1: seq<Slot>, h0: Heap, h1: Heap, roots: seq<Slot>,
                   h: Heap, mark: nat, live: set<nat>, f: map<nat, nat>, refs: seq<Entry>)
    requires sp.Valid() && CursorsOk(sp, cursors) && k < |sp.starts| && Settled(sp, k, cursors, h0, live, f)
    requires IsLive(roots1, h1, live) && RefsExact(sp, k, roots1, h1, live, refs)
    requires Rebinding(roots1, h1, roots, h, mark, live, f, refs, 0) && Relocation(live, f)
    requires forall x :: x in live ==> x in h0 && x in h1 && h1[x].size == h0[x].size
    requires forall a: nat :: a in f <==> a in live && sp.Contains(k, a)
    ensures Renamed(Moved(live, f), roots1, h1, roots, h)
    ensures Sound(sp, cursors, roots, h, mark, Image(Moved(live, f), live))
  {
    hide IsLive, Settled, AllRebound, RootsRebound, Relocation, MarksUpTo, Moved, Renamed;
    var g := Moved(live, f);
    assert refs[0..] == refs;
    AllReboundRenamed(sp, k, roots1, h1, roots, h, live, f, Entries(refs));
    RenamedLive(g, roots1, h1, roots, h, live);
    InPlaceAfter(sp, k, cursors, h0, h1, h, live, f, Entries(refs));
  }

  lemma InPlaceAfter(sp: Space, k: nat, cursors: seq<nat>, h0: Heap, h1: Heap, h: Heap, live: set<nat>,
                     f: map<nat, nat>, done: set<Entry>)
    requires sp.Valid() && CursorsOk(sp, cursors) && Settled(sp, k, cursors, h0, live, f)
    requires AllRebound(h1, h, live, f, done) && Relocation(live, f)
    requires forall x :: x in live ==> x in h0 && x in h1 && h1[x].size == h0[x].size
    ensures InPlace(sp, cursors, h, Image(Moved(live, f), live))
  {
    hide Allocated, Apart, Relocation, ObjRebound;
    var g := Moved(live, f);
    forall x | x in live ensures g[x] in h && h[g[x]].reloc == 0 && h[g[x]].size == h0[x].size {
      assert Rebound(h1, h, live, f, done, x);
      ReboundHeader(g, done, x, h1[x], h[g[x]]);
    }
  }

  lemma ReboundHeader(g: map<nat, nat>, done: set<Entry>, x: nat, was: Obj, o: Obj)
    requires ObjRebound(g, done, x, was, o)
    ensures o.reloc == 0 && o.size == was.size
  {
  }
}
