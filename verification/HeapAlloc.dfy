// Fresh objects at the cursor of the youngest region.
module HeapAlloc {
  import opened HeapModel
  import opened HeapSpace
  import opened HeapRebind
  import opened HeapMark
  import opened HeapMove
  import opened HeapNesting

  // Reachable objects, and objects that have been created but are not reachable yet.
  ghost predicate Nursery(sp: Space, cursors: seq<nat>, roots: seq<Slot>, h: Heap, mark: nat, live: set<nat>,
                          made: set<nat>)
  {
    InPlace(sp, cursors, h, live + made) && IsLive(roots, h, live) && MarksUpTo(h, mark)
  }

  lemma NurserySound(sp: Space, cursors: seq<nat>, roots: seq<Slot>, h: Heap, mark: nat, live: set<nat>, made: set<nat>)
    requires Nursery(sp, cursors, roots, h, mark, live, made)
    ensures Sound(sp, cursors, roots, h, mark, live)
  {
    hide IsLive, MarksUpTo, Allocated, Apart;
  }

  lemma SoundNursery(sp: Space, cursors: seq<nat>, roots: seq<Slot>, h: Heap, mark: nat, live: set<nat>)
    requires Sound(sp, cursors, roots, h, mark, live)
    ensures Nursery(sp, cursors, roots, h, mark, live, {})
  {
    hide IsLive, MarksUpTo;
    assert live + {} == live;
  }

  // An object placed at the cursor leaves all others alone.
  lemma PlaceKeeps(sp: Space, cursors: seq<nat>, h: Heap, live: set<nat>, k: nat, o: Obj)
    requires InPlace(sp, cursors, h, live) && k < |cursors| && cursors[k] + o.size <= sp.sizes[k]
    requires k < |sp.starts| && o.size > 0
    ensures var c := sp.starts[k] + cursors[k];
            c !in live && forall a :: a in live ==> a in h && a in Place(h, c, o) && Place(h, c, o)[a] == h[a]
  {
    forall a | a in live
      ensures a in h && Apart(a, h[a].size, sp.starts[k] + cursors[k], o.size) && a != sp.starts[k] + cursors[k]
    {
      CursorApart(sp, cursors, k, o.size, a, h[a].size);
    }
  }

  lemma PlaceInPlace(sp: Space, cursors: seq<nat>, h: Heap, live: set<nat>, k: nat, o: Obj)
    requires InPlace(sp, cursors, h, live) && k < |cursors| && cursors[k] + o.size <= sp.sizes[k]
    requires k < |sp.starts| && o.size > 0 && o.reloc == 0
    ensures var c := sp.starts[k] + cursors[k];
            InPlace(sp, cursors[k := cursors[k] + o.size], Place(h, c, o), live + {c})
  {
    hide Place, Allocated, Apart;
    var c := sp.starts[k] + cursors[k];
    var cursors' := cursors[k := cursors[k] + o.size];
    PlaceKeeps(sp, cursors, h, live, k, o);
    PlacedThere(h, c, o);
    forall a | a in live
      ensures Allocated(sp, cursors', a, h[a].size) && Apart(a, h[a].size, c, o.size) && Apart(c, o.size, a, h[a].size)
    {
      MoreAllocated(sp, cursors, cursors', a, h[a].size);
      CursorApart(sp, cursors, k, o.size, a, h[a].size);
      ApartSymmetric(a, h[a].size, c, o.size);
    }
    NewAllocated(sp, cursors, k, o.size);
  }

  lemma ApartSymmetric(a: nat, m: nat, b: nat, n: nat)
    ensures Apart(a, m, b, n) <==> Apart(b, n, a, m)
  {
  }

  lemma PlacedThere(h: Heap, c: nat, o: Obj)
    ensures c in Place(h, c, o) && Place(h, c, o)[c] == o
  {
  }

  lemma MoreAllocated(sp: Space, cursors: seq<nat>, cursors': seq<nat>, a: nat, size: nat)
    requires Allocated(sp, cursors, a, size) && |cursors'| == |cursors|
    requires forall k :: 0 <= k < |cursors| ==> cursors[k] <= cursors'[k]
    ensures Allocated(sp, cursors', a, size)
  {
    var k: nat :| LiesIn(sp, cursors, k, a, size);
    assert LiesIn(sp, cursors', k, a, size);
  }

  lemma NewAllocated(sp: Space, cursors: seq<nat>, k: nat, size: nat)
    requires sp.Valid() && CursorsOk(sp, cursors) && k < |cursors| && size > 0
    ensures Allocated(sp, cursors[k := cursors[k] + size], sp.starts[k] + cursors[k], size)
  {
    assert LiesIn(sp, cursors[k := cursors[k] + size], k, sp.starts[k] + cursors[k], size);
  }

  // Creating an object that nothing refers to yet.
  lemma PlaceNursery(sp: Space, cursors: seq<nat>, roots: seq<Slot>, h: Heap, mark: nat, live: set<nat>, made: set<nat>,
                     k: nat, o: Obj)
    requires Nursery(sp, cursors, roots, h, mark, live, made) && k < |cursors| && cursors[k] + o.size <= sp.sizes[k]
    requires k < |sp.starts| && o.size > 0 && o.reloc == 0 && o.mark <= mark
    ensures var c := sp.starts[k] + cursors[k];
            && c !in live && c !in made && c in Place(h, c, o) && Place(h, c, o)[c] == o
            && Nursery(sp, cursors[k := cursors[k] + o.size], roots, Place(h, c, o), mark, live, made + {c})
            && (forall a :: a in live + made ==> a in h && a in Place(h, c, o) && Place(h, c, o)[a] == h[a])
            && Renamed(Identity(live), roots, h, roots, Place(h, c, o))
  {
    hide InPlace, IsLive, Place, Renamed, MarksUpTo;
    var c := sp.starts[k] + cursors[k];
    PlaceKeeps(sp, cursors, h, live + made, k, o);
    PlaceInPlace(sp, cursors, h, live + made, k, o);
    PlacedThere(h, c, o);
    assert live + made + {c} == live + (made + {c});
    KeptSameGraph(h, Place(h, c, o), live);
    SameGraphLive(h, Place(h, c, o), roots, live);
    SameGraphIdentity(h, Place(h, c, o), roots, live);
    PlaceMarks(h, c, o, mark);
  }

  lemma KeptSameGraph(h: Heap, h': Heap, live: set<nat>)
    requires forall a :: a in live ==> a in h && a in h' && h'[a] == h[a]
    ensures SameGraph(h, h', live)
  {
  }

  lemma PlaceMarks(h: Heap, c: nat, o: Obj, mark: nat)
    requires MarksUpTo(h, mark) && o.mark <= mark
    ensures MarksUpTo(Place(h, c, o), mark)
  {
  }

  // Writing a register of an object that is not reachable.
  lemma WriteNursery(sp: Space, cursors: seq<nat>, roots: seq<Slot>, h: Heap, mark: nat, live: set<nat>, made: set<nat>,
                     c: nat, i: nat, s: Slot)
    requires Nursery(sp, cursors, roots, h, mark, live, made) && c in h && c !in live && i < |h[c].slots|
    ensures Nursery(sp, cursors, roots, SetSlot(h, c, i, s), mark, live, made)
    ensures Renamed(Identity(live), roots, h, roots, SetSlot(h, c, i, s))
  {
    hide IsLive, Renamed, Allocated, Apart;
    var h' := SetSlot(h, c, i, s);
    InPlaceDomain(sp, cursors, h, live + made);
    KeptSameGraph(h, h', live);
    SameGraphLive(h, h', roots, live);
    SameGraphIdentity(h, h', roots, live);
  }

  lemma InPlaceDomain(sp: Space, cursors: seq<nat>, h: Heap, live: set<nat>)
    requires InPlace(sp, cursors, h, live)
    ensures forall a :: a in live ==> a in h
  {
  }

  // A change that leaves the reachable objects where they are, after a renaming.
  lemma ThenStay(f: map<nat, nat>, roots: seq<Slot>, h: Heap, roots1: seq<Slot>, h1: Heap, h2: Heap, live: set<nat>)
    requires f.Keys == live && Closed(roots, h, live) && Renamed(f, roots, h, roots1, h1)
    requires Renamed(Identity(Image(f, live)), roots1, h1, roots1, h2)
    ensures Renamed(f, roots, h, roots1, h2)
  {
    hide Renamed, Closed;
    var g := Identity(Image(f, live));
    ComposeRenamed(f, g, roots, h, roots1, h1, roots1, h2, live);
    assert Compose(f, g) == f by {
      forall a | a in live ensures Compose(f, g)[a] == f[a] {
        assert f[a] in Image(f, live);
      }
    }
  }

  lemma EmptyCarried(h: Heap, f: map<nat, nat>, s: seq<Stage>)
    requires StagesCarried(h, f, [], s)
    ensures s == []
  {
  }
}
