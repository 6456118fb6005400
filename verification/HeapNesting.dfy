// Putting the phases of one collection, and the collection nested in it, together.
module HeapNesting {
  import opened HeapModel
  import opened HeapSpace
  import opened HeapRebind
  import opened HeapMark
  import opened HeapSizes
  import opened HeapMove
  import opened HeapPhases

  // What a completed collection of region k has done to the reachable objects: see the clauses.
  ghost predicate Collected(sp: Space, k: nat, live: set<nat>, f: map<nat, nat>, cursors: seq<nat>, cursors': seq<nat>,
                            roots: seq<Slot>, h: Heap, roots': seq<Slot>, h': Heap, s: seq<Stage>, s': seq<Stage>)
    requires k < |sp.starts|
  {
    && f.Keys == live && Renamed(f, roots, h, roots', h')
    && Upward(sp, k, live, f) && StagesCarried(h', f, s, s')
    && |cursors'| == |cursors| == |sp.starts| && (forall j :: 0 <= j < k ==> cursors'[j] == cursors[j])
    && (if k + 1 < |sp.starts| then cursors'[k] == CURSOR_SIZE else cursors' == cursors)
  }

  // The tenured region has room for the survivors of the last region in front of it.
  ghost predicate TenuredRoom(sp: Space, cursors: seq<nat>, h: Heap, live: set<nat>) {
    && |sp.starts| == |sp.sizes| == |cursors| && |sp.starts| >= 2
    && RoomFor(sp, cursors, |sp.starts| - 2, h, live)
  }

  // ---------------------------------------------------------------- which regions a collection empties

  // Objects outside the regions from k to `last` stay where they are,
  ghost predicate StaysOutside(sp: Space, k: nat, last: nat, live: set<nat>, f: map<nat, nat>)
    requires |sp.starts| == |sp.sizes| && last < |sp.starts| && f.Keys == live
  {
    forall a :: a in live && (forall j :: k <= j <= last ==> !sp.Contains(j, a)) ==> f[a] == a
  }

  // and those inside go to the next region: behind what is there for the last one, which is not collected.
  ghost predicate MovesUp(sp: Space, k: nat, last: nat, cursors: seq<nat>, live: set<nat>, f: map<nat, nat>)
    requires |sp.starts| == |sp.sizes| == |cursors| && last + 1 < |sp.starts| && f.Keys == live
  {
    forall j: nat, a: nat :: k <= j <= last && a in live ==> GoesUp(sp, last, cursors, f, j, a)
  }

  ghost predicate GoesUp(sp: Space, last: nat, cursors: seq<nat>, f: map<nat, nat>, j: nat, a: nat)
    requires |sp.starts| == |sp.sizes| == |cursors| && j <= last && last + 1 < |sp.starts| && a in f
  {
    sp.Contains(j, a) ==>
      sp.Contains(j + 1, f[a]) && (j == last ==> f[a] >= sp.starts[j + 1] + cursors[j + 1])
  }

  // The cursors of the regions from k to last + 1 have changed, by exactly the survivors.
  ghost predicate CursorsMoved(sp: Space, k: nat, last: nat, c: seq<nat>, c': seq<nat>, h: Heap, live: set<nat>)
    requires |sp.starts| == |sp.sizes| == |c| == |c'| && k <= last && last + 1 < |sp.starts|
  {
    && (forall j :: 0 <= j < |c| && (j < k || j > last + 1) ==> c'[j] == c[j]) && c'[k] == CURSOR_SIZE
    && (forall j: nat, targets :: k <= j <= last && TargetsExact(sp, j, live, targets) ==>
          c'[j + 1] == (if j == last then c[j + 1] else CURSOR_SIZE) + Sum(h, targets))
  }

  // `last` is the first region from k on whose survivors have room in the next one.
  ghost predicate FirstRoom(sp: Space, k: nat, last: nat, c: seq<nat>, h: Heap, live: set<nat>)
    requires |sp.starts| == |sp.sizes| == |c|
  {
    && k <= last && last + 1 < |sp.starts|
    && (forall j :: k <= j < last ==> !RoomFor(sp, c, j, h, live)) && RoomFor(sp, c, last, h, live)
  }

  // A collection of region k empties the regions from k to the first one whose survivors have room, and no other.
  ghost predicate Promoted(sp: Space, k: nat, last: nat, c: seq<nat>, c': seq<nat>, h: Heap, live: set<nat>,
                           f: map<nat, nat>)
    requires |sp.starts| == |sp.sizes| == |c| == |c'|
  {
    && FirstRoom(sp, k, last, c, h, live) && f.Keys == live
    && StaysOutside(sp, k, last, live, f) && MovesUp(sp, k, last, c, live, f)
    && CursorsMoved(sp, k, last, c, c', h, live)
  }

  // When the survivors of region k have room, no other region is touched.
  lemma OnlyThis(sp: Space, k: nat, last: nat, c: seq<nat>, c': seq<nat>, h: Heap, live: set<nat>, f: map<nat, nat>)
    requires |sp.starts| == |sp.sizes| == |c| == |c'| && k + 1 < |sp.starts|
    requires Promoted(sp, k, last, c, c', h, live, f) && RoomFor(sp, c, k, h, live)
    ensures last == k && f.Keys == live
    ensures forall a :: a in live && !sp.Contains(k, a) ==> f[a] == a
    ensures forall a :: a in live && sp.Contains(k, a) ==>
              sp.Contains(k + 1, f[a]) && f[a] >= sp.starts[k + 1] + c[k + 1]
    ensures forall j :: 0 <= j < |c| && j != k && j != k + 1 ==> c'[j] == c[j]
    ensures c'[k] == CURSOR_SIZE
    ensures forall targets :: TargetsExact(sp, k, live, targets) ==> c'[k + 1] == c[k + 1] + Sum(h, targets)
  {
    hide RoomFor, TargetsExact, Sum;
    forall a | a in live && sp.Contains(k, a)
      ensures sp.Contains(k + 1, f[a]) && f[a] >= sp.starts[k + 1] + c[k + 1]
    {
      assert GoesUp(sp, last, c, f, k, a);
    }
  }

  // The objects of region k have been copied behind the cursor of the next one.
  ghost predicate CopiedUp(sp: Space, k: nat, c1: seq<nat>, live1: set<nat>, f2: map<nat, nat>)
    requires |sp.starts| == |sp.sizes| == |c1| && k + 1 < |sp.starts|
  {
    && (forall a: nat :: a in f2 <==> a in live1 && sp.Contains(k, a))
    && (forall a :: a in f2 ==> sp.Contains(k + 1, f2[a]) && f2[a] >= sp.starts[k + 1] + c1[k + 1])
  }

  lemma TwoRegions(sp: Space, j: nat, k: nat, a: nat)
    requires sp.Valid() && j < |sp.starts| && k < |sp.starts| && j != k && sp.Contains(j, a)
    ensures !sp.Contains(k, a)
  {
    if sp.Contains(k, a) {
      OneRegion(sp, j, k, a);
    }
  }

  // Without a nested collection,
  lemma PromotedOne(sp: Space, k: nat, c0: seq<nat>, c': seq<nat>, h0: Heap, live: set<nat>, f2: map<nat, nat>,
                    targets: seq<nat>)
    requires InPlace(sp, c0, h0, live) && k + 1 < |sp.starts| && |c'| == |c0| && RoomFor(sp, c0, k, h0, live)
    requires CopiedUp(sp, k, c0, live, f2) && TargetsExact(sp, k, live, targets)
    requires c' == c0[k + 1 := c0[k + 1] + Sum(h0, targets)][k := CURSOR_SIZE]
    ensures Promoted(sp, k, k, c0, c', h0, live, Compose(Identity(live), Moved(live, f2)))
  {
    hide InPlace, RoomFor, Allocated;
    IdentityImage(live);
    ThenCopied(live, Identity(live), f2);
    hide Compose, Moved, TargetsExact, Sum;
    AnyTargets(sp, k, c0, h0, live, targets);
    InPlaceValid(sp, c0, h0, live);
  }

  // and with one from the next region to `last`.
  lemma PromotedMore(sp: Space, k: nat, last: nat, c0: seq<nat>, c1: seq<nat>, c': seq<nat>, h0: Heap, live: set<nat>,
                     f1: map<nat, nat>, f2: map<nat, nat>, targets: seq<nat>)
    requires InPlace(sp, c0, h0, live) && k + 1 < |sp.starts| == |c0| == |c1| == |c'| && !RoomFor(sp, c0, k, h0, live)
    requires Promoted(sp, k + 1, last, c0, c1, h0, live, f1) && CopiedUp(sp, k, c1, Image(f1, live), f2)
    requires TargetsExact(sp, k, live, targets)
    requires c' == c1[k + 1 := c1[k + 1] + Sum(h0, targets)][k := CURSOR_SIZE]
    ensures Promoted(sp, k, last, c0, c', h0, live, Compose(f1, Moved(Image(f1, live), f2)))
  {
    hide InPlace, RoomFor, Allocated, StaysOutside, MovesUp, CopiedUp, Compose, Moved, TargetsExact, Sum;
    InPlaceValid(sp, c0, h0, live);
    PromotedMaps(sp, k, last, c0, c1, live, f1, f2);
    AnyTargets(sp, k, c0, h0, live, targets);
  }

  lemma AnyTargets(sp: Space, k: nat, c0: seq<nat>, h0: Heap, live: set<nat>, targets: seq<nat>)
    requires InPlace(sp, c0, h0, live) && k < |sp.starts| && TargetsExact(sp, k, live, targets)
    ensures forall t :: TargetsExact(sp, k, live, t) ==> Sum(h0, t) == Sum(h0, targets)
  {
    forall t | TargetsExact(sp, k, live, t) ensures Sum(h0, t) == Sum(h0, targets) {
      SumOfSame(h0, live, t, targets);
    }
  }

  lemma ThenCopied(live: set<nat>, f1: map<nat, nat>, f2: map<nat, nat>)
    requires f1.Keys == live
    ensures var f := Compose(f1, Moved(Image(f1, live), f2));
            f.Keys == live && forall a :: a in live ==> f[a] == if f1[a] in f2 then f2[f1[a]] else f1[a]
  {
    ComposeAt(f1, Moved(Image(f1, live), f2), live);
  }

  // One object of region k,
  lemma CopiedFrom(sp: Space, k: nat, last: nat, c1: seq<nat>, live: set<nat>, f1: map<nat, nat>, f2: map<nat, nat>,
                   a: nat)
    requires sp.Valid() && k + 1 <= last && last + 1 < |sp.starts| == |c1| && f1.Keys == live
    requires StaysOutside(sp, k + 1, last, live, f1) && CopiedUp(sp, k, c1, Image(f1, live), f2)
    requires a in live && sp.Contains(k, a)
    ensures f1[a] == a && a in f2 && sp.Contains(k + 1, f2[a])
  {
    forall i | k + 1 <= i <= last ensures !sp.Contains(i, a) {
      TwoRegions(sp, k, i, a);
    }
    assert a in Image(f1, live);
  }

  // and one outside it.
  lemma NotCopied(sp: Space, k: nat, c1: seq<nat>, live1: set<nat>, f2: map<nat, nat>, b: nat)
    requires |sp.starts| == |sp.sizes| == |c1| && k + 1 < |sp.starts| && CopiedUp(sp, k, c1, live1, f2)
    requires !sp.Contains(k, b)
    ensures b !in f2
  {
  }

  lemma PromotedMaps(sp: Space, k: nat, last: nat, c0: seq<nat>, c1: seq<nat>, live: set<nat>, f1: map<nat, nat>,
                     f2: map<nat, nat>)
    requires sp.Valid() && k + 1 <= last && last + 1 < |sp.starts| == |c0| == |c1| && f1.Keys == live
    requires StaysOutside(sp, k + 1, last, live, f1) && MovesUp(sp, k + 1, last, c0, live, f1)
    requires CopiedUp(sp, k, c1, Image(f1, live), f2)
    ensures var f := Compose(f1, Moved(Image(f1, live), f2));
            f.Keys == live && StaysOutside(sp, k, last, live, f) && MovesUp(sp, k, last, c0, live, f)
  {
    ThenCopied(live, f1, f2);
    var f := Compose(f1, Moved(Image(f1, live), f2));
    hide Compose, Moved, Image, CopiedUp, Space.Valid;
    forall a | a in live && (forall j :: k <= j <= last ==> !sp.Contains(j, a)) ensures f[a] == a {
      assert !sp.Contains(k, a) && f1[a] == a;
      NotCopied(sp, k, c1, Image(f1, live), f2, a);
    }
    forall j: nat, a: nat | k <= j <= last && a in live ensures GoesUp(sp, last, c0, f, j, a) {
      if !sp.Contains(j, a) {
      } else if j == k {
        CopiedFrom(sp, k, last, c1, live, f1, f2, a);
      } else {
        assert GoesUp(sp, last, c0, f1, j, a);
        TwoRegions(sp, j + 1, k, f1[a]);
        NotCopied(sp, k, c1, Image(f1, live), f2, f1[a]);
      }
    }
  }

  lemma IdentityMoved(roots: seq<Slot>, h: Heap, live: set<nat>)
    requires Closed(roots, h, live)
    ensures Renamed(Identity(live), roots, h, roots, h) && Image(Identity(live), live) == live
  {
    var f := Identity(live);
    assert SlotsMoved(f, roots, roots);
    forall a | a in f ensures a in h && f[a] in h && ObjMoved(f, h[a], h[f[a]]) {
      assert SlotsMoved(f, h[a].slots, h[a].slots);
    }
  }

  lemma IdentityStages(live: set<nat>, s: seq<Stage>)
    ensures StagesMoved(Identity(live), s, s)
  {
    forall j | 0 <= j < |s| ensures StageMoved(Identity(live), s[j], s[j]) {
    }
  }

  lemma IdentityUpward(sp: Space, k: nat, live: set<nat>)
    requires k < |sp.starts|
    requires k + 1 < |sp.starts| ==> forall a :: a in live ==> a < sp.starts[k] || a >= sp.starts[k + 1]
    ensures Upward(sp, k, live, Identity(live))
  {
  }

  // The tenured region is never collected.
  lemma TenuredStays(sp: Space, k: nat, cursors: seq<nat>, roots: seq<Slot>, h: Heap, mark: nat, live: set<nat>,
                     s: seq<Stage>)
    requires Sound(sp, cursors, roots, h, mark, live) && k + 1 == |sp.starts| && AllHoldersLive(live, s)
    ensures Collected(sp, k, live, Identity(live), cursors, cursors, roots, h, roots, h, s, s)
    ensures Image(Identity(live), live) == live
  {
    hide Closed, Renamed, Reachable, AllApart, MarksUpTo, Upward;
    IdentityMoved(roots, h, live);
    IdentityUpward(sp, k, live);
    forall j | 0 <= j < |s| ensures StageCarried(h, Identity(live), s[j], s[j]) {
      assert HoldersLive(live, s[j].refs);
    }
  }

  // Repairing the pending references after a nested collection.
  lemma RepairedMoved(h: Heap, f: map<nat, nat>, s: seq<Stage>, s1: seq<Stage>, s2: seq<Stage>)
    requires StagesCarried(h, f, s, s1) && |s2| == |s1|
    requires forall j :: 0 <= j < |s1| ==> Repaired(h, s1[j], s2[j])
    ensures StagesMoved(f, s, s2)
  {
    forall j | 0 <= j < |s| ensures StageMoved(f, s[j], s2[j]) {
      assert StageCarried(h, f, s[j], s1[j]) && Repaired(h, s1[j], s2[j]);
    }
  }

  ghost predicate Repaired(h: Heap, s: Stage, s': Stage) {
    && s'.targets == s.targets && s'.estimated == s.estimated && |s'.refs| == |s.refs|
    && (forall i :: 0 <= i < |s.refs| ==> s'.refs[i] == Resolve(h, s.refs[i]))
  }

  // Copying leaves what the renaming compares alone.
  ghost predicate SameGraph(h: Heap, h': Heap, live: set<nat>) {
    forall x :: x in live ==> x in h && x in h' && h'[x] == h[x].(mark := h'[x].mark, reloc := h'[x].reloc)
  }

  lemma SameGraphRenamed(h: Heap, h1: Heap, live: set<nat>, f: map<nat, nat>, roots: seq<Slot>, roots': seq<Slot>,
                         h': Heap)
    requires SameGraph(h, h1, live) && f.Keys == live && Renamed(f, roots, h1, roots', h')
    ensures Renamed(f, roots, h, roots', h')
  {
    forall x | x in f ensures x in h && f[x] in h' && ObjMoved(f, h[x], h'[f[x]]) {
      assert ObjMoved(f, h1[x], h'[f[x]]);
    }
  }

  lemma MarksSameGraph(h: Heap, h': Heap, mark: nat, live: set<nat>)
    requires OnlyMarks(h, h', mark) && forall a :: a in live ==> a in h
    ensures SameGraph(h, h', live)
  {
  }

  lemma CopiedSameGraph(h0: Heap, h: Heap, live: set<nat>, f: map<nat, nat>, lo: nat, hi: nat)
    requires Copied(h0, h, live, f, lo, hi)
    ensures SameGraph(h0, h, live)
  {
    forall x | x in live ensures x in h0 && x in h && h[x] == h0[x].(mark := h[x].mark, reloc := h[x].reloc) {
      assert Untouched(h0, h, f, x);
      assert x in f ==> Forwards(h0, h, f, x, lo, hi);
    }
  }

  lemma SameGraphLive(h: Heap, h': Heap, roots: seq<Slot>, live: set<nat>)
    requires SameGraph(h, h', live) && IsLive(roots, h, live)
    ensures IsLive(roots, h', live)
  {
    hide Closed, Renamed, Reachable;
    SameGraphIdentity(h, h', roots, live);
    RenamedLive(Identity(live), roots, h, roots, h', live);
    IdentityMoved(roots, h, live);
  }

  lemma SameGraphIdentity(h: Heap, h': Heap, roots: seq<Slot>, live: set<nat>)
    requires SameGraph(h, h', live)
    ensures Renamed(Identity(live), roots, h, roots, h')
  {
    var f := Identity(live);
    assert SlotsMoved(f, roots, roots);
    forall a | a in f ensures a in h && f[a] in h' && ObjMoved(f, h[a], h'[f[a]]) {
      assert SlotsMoved(f, h[a].slots, h'[a].slots);
    }
  }

  lemma SameGraphRefs(sp: Space, k: nat, h: Heap, h': Heap, roots: seq<Slot>, live: set<nat>, refs: seq<Entry>)
    requires |sp.starts| == |sp.sizes| && k < |sp.starts| && SameGraph(h, h', live)
    requires RefsExact(sp, k, roots, h, live, refs)
    ensures RefsExact(sp, k, roots, h', live, refs)
  {
    forall e: Entry ensures e in refs <==> IsRefInto(sp, k, roots, h', live, e) {
      assert IsRefInto(sp, k, roots, h, live, e) <==> IsRefInto(sp, k, roots, h', live, e);
    }
  }

  // The pending references of the outer stages, once the survivors of region k have moved.
  lemma OuterCarried(h1: Heap, h: Heap, live: set<nat>, f1: map<nat, nat>, live1: set<nat>, f2: map<nat, nat>,
                     done: set<Entry>, s: seq<Stage>, s': seq<Stage>)
    requires f1.Keys == live && live1 == Image(f1, live) && AllHoldersLive(live, s) && StagesMoved(f1, s, s')
    requires AllRebound(h1, h, live1, f2, done) && Forwarded(h1, live1, f2) && Relocation(live1, f2)
    ensures StagesCarried(h, Compose(f1, Moved(live1, f2)), s, s')
  {
    hide AllRebound, Forwarded, Relocation, Moved, Compose;
    ComposeAt(f1, Moved(live1, f2), live);
    forall j | 0 <= j < |s| ensures StageCarried(h, Compose(f1, Moved(live1, f2)), s[j], s'[j]) {
      assert StageMoved(f1, s[j], s'[j]) && HoldersLive(live, s[j].refs);
      forall i | 0 <= i < |s[j].refs|
        ensures Resolve(h, s'[j].refs[i]) == MoveEntry(Compose(f1, Moved(live1, f2)), s[j].refs[i])
      {
        if s[j].refs[i].Field? {
          var x := s[j].refs[i].holder;
          assert f1[x] in live1;
          ResolveMoved(h1, h, live1, f2, done, f1[x], s[j].refs[i].idx);
        }
      }
    }
  }

  lemma ResolveMoved(h1: Heap, h: Heap, live: set<nat>, f: map<nat, nat>, done: set<Entry>, x: nat, i: nat)
    requires AllRebound(h1, h, live, f, done) && Forwarded(h1, live, f) && Relocation(live, f) && x in live
    ensures Resolve(h, Field(x, i)) == Field(Moved(live, f)[x], i)
  {
    assert Rebound(h1, h, live, f, done, x);
  }

  lemma ComposeUpward(sp: Space, k: nat, cursors: seq<nat>, h: Heap, live: set<nat>, f1: map<nat, nat>,
                      f2: map<nat, nat>)
    requires InPlace(sp, cursors, h, live) && k + 1 < |sp.starts| && Above(sp, k + 1, live, f1)
    requires forall a: nat :: a in f2 <==> a in Image(f1, live) && sp.Contains(k, a)
    requires forall a :: a in f2 ==> f2[a] >= sp.starts[k + 1]
    ensures Upward(sp, k, live, Compose(f1, Moved(Image(f1, live), f2)))
  {
    hide InPlace;
    var g := Moved(Image(f1, live), f2);
    ComposeAt(f1, g, live);
    forall a | a in live
      ensures if a < sp.starts[k] then g[f1[a]] == a else g[f1[a]] >= sp.starts[k + 1]
    {
      NoGap(sp, k, cursors, h, live, a);
      AboveRegion(sp, k, live, f1, a);
    }
  }

  lemma NoGap(sp: Space, k: nat, cursors: seq<nat>, h: Heap, live: set<nat>, a: nat)
    requires InPlace(sp, cursors, h, live) && k + 1 < |sp.starts| && a in live
    ensures sp.Valid() && (a < sp.starts[k] || sp.Contains(k, a) || a >= sp.starts[k + 1])
    ensures sp.starts[k] + sp.sizes[k] <= sp.starts[k + 1]
    ensures k + 2 < |sp.starts| ==> sp.starts[k + 1] <= sp.starts[k + 2]
  {
    assert Allocated(sp, cursors, a, h[a].size);
    var j: nat :| LiesIn(sp, cursors, j, a, h[a].size);
    if j < k {
      assert sp.starts[j] + sp.sizes[j] <= sp.starts[k];
    } else if k + 1 < j {
      assert sp.starts[k + 1] + sp.sizes[k + 1] <= sp.starts[j];
    }
    assert k + 2 < |sp.starts| ==> sp.starts[k + 1] + sp.sizes[k + 1] <= sp.starts[k + 2];
  }

  // Pending holders are objects, old or new.
  lemma CarriedHolders(h: Heap, f: map<nat, nat>, live: set<nat>, s: seq<Stage>, s': seq<Stage>)
    requires f.Keys == live && AllHoldersLive(live, s) && StagesCarried(h, f, s, s')
    requires forall a :: a in f ==> f[a] in h
    ensures forall j, i :: 0 <= j < |s'| && 0 <= i < |s'[j].refs| && s'[j].refs[i].Field? ==> s'[j].refs[i].holder in h
  {
    forall j, i | 0 <= j < |s'| && 0 <= i < |s'[j].refs| && s'[j].refs[i].Field? ensures s'[j].refs[i].holder in h {
      assert StageCarried(h, f, s[j], s'[j]) && HoldersLive(live, s[j].refs);
      assert Resolve(h, s'[j].refs[i]) == MoveEntry(f, s[j].refs[i]);
    }
  }

  // An empty survivor region takes the survivors of the one in front of it, the tenured region may not.
  lemma RoomEnough(sp: Space, k: nat, cursors: seq<nat>, h: Heap, live: set<nat>, targets: seq<nat>)
    requires InPlace(sp, cursors, h, live) && k + 1 < |sp.starts| && TargetsExact(sp, k, live, targets)
    ensures k + 2 < |sp.starts| ==> CURSOR_SIZE + Sum(h, targets) <= sp.sizes[k + 1]
    ensures k + 2 == |sp.starts| && TenuredRoom(sp, cursors, h, live) ==>
              cursors[k + 1] + Sum(h, targets) <= sp.sizes[k + 1]
  {
    hide TargetsExact, Allocated;
    SurvivorsFit(sp, cursors, k, h, live, targets);
  }

  // ---------------------------------------------------------------- the end of a collection

  // What copying has left, gathered.
  lemma AfterCopy(sp: Space, k: nat, c1: seq<nat>, c2: seq<nat>, roots: seq<Slot>, h1: Heap, h2: Heap, mark: nat,
                  live: set<nat>, f: map<nat, nat>, targets: seq<nat>, refs: seq<Entry>)
    requires Sound(sp, c1, roots, h1, mark, live) && k + 1 < |sp.starts| == |c1| && TargetsExact(sp, k, live, targets)
    requires Copying(sp, k, c1, c2, h1, h2, mark, live, f, targets, 0) && RefsExact(sp, k, roots, h1, live, refs)
    ensures |c2| == |c1| && c2 == c1[k + 1 := c1[k + 1] + Sum(h1, targets)]
    ensures forall a: nat :: a in f <==> a in live && sp.Contains(k, a)
    ensures Relocation(live, f) && Forwarded(h2, live, f) && MarksUpTo(h2, mark)
    ensures AllRebound(h2, h2, live, f, {}) && RootsRebound(Moved(live, f), {}, roots, roots)
    ensures SameGraph(h1, h2, live) && IsLive(roots, h2, live) && RefsExact(sp, k, roots, h2, live, refs)
    ensures Settled(sp, k, c2[k := CURSOR_SIZE], h1, live, f) && CursorsOk(sp, c2[k := CURSOR_SIZE])
    ensures CopiedUp(sp, k, c1, live, f) && forall a :: a in f ==> f[a] >= sp.starts[k + 1]
  {
    hide InPlace, IsLive, MarksUpTo, TargetsExact, RefsExact, Copying, Copied, SameGraph, Settled;
    hide Relocation, Forwarded, AllRebound, RootsRebound;
    InPlaceValid(sp, c1, h1, live);
    CopyingDone(sp, k, c1, c2, h1, h2, mark, live, f, targets);
    CopyingEnd(sp, k, c1, c2, roots, h1, h2, mark, live, f, targets);
    var lo, hi := sp.starts[k + 1] + c1[k + 1], sp.starts[k + 1] + c2[k + 1];
    CopiedSameGraph(h1, h2, live, f, lo, hi);
    SameGraphLive(h1, h2, roots, live);
    SameGraphRefs(sp, k, h1, h2, roots, live, refs);
    SettledAfter(sp, k, c1, c2, h1, h2, live, f);
    LiveSized(sp, c1, h1, live);
    CopiesAbove(h1, h2, live, f, lo, hi);
  }

  lemma LiveSized(sp: Space, cursors: seq<nat>, h: Heap, live: set<nat>)
    requires InPlace(sp, cursors, h, live)
    ensures forall a :: a in live ==> a in h && h[a].size > 0
  {
  }

  lemma InPlaceValid(sp: Space, cursors: seq<nat>, h: Heap, live: set<nat>)
    requires InPlace(sp, cursors, h, live)
    ensures sp.Valid() && |cursors| == |sp.starts|
  {
  }

  lemma CopiesAbove(h0: Heap, h: Heap, live: set<nat>, f: map<nat, nat>, lo: nat, hi: nat)
    requires Copied(h0, h, live, f, lo, hi) && forall a :: a in live ==> a in h0 && h0[a].size > 0
    ensures forall a :: a in f ==> lo <= f[a] < hi
  {
    forall a | a in f ensures lo <= f[a] < hi {
      assert a in h0 && Forwards(h0, h, f, a, lo, hi);
    }
  }

  lemma SameGraphSizes(h: Heap, h': Heap, live: set<nat>)
    requires SameGraph(h, h', live)
    ensures forall x :: x in live ==> x in h && x in h' && h'[x].size == h[x].size
  {
  }

  // Rebinding and the reset complete the move: `live` are the objects before it.
  lemma MoveDone(sp: Space, k: nat, c1: seq<nat>, c2: seq<nat>, r1: seq<Slot>, h1: Heap, h2: Heap, r3: seq<Slot>,
                 h3: Heap, mark: nat, live: set<nat>, f: map<nat, nat>, targets: seq<nat>, refs: seq<Entry>)
    requires Sound(sp, c1, r1, h1, mark, live) && k + 1 < |sp.starts| == |c1| && TargetsExact(sp, k, live, targets)
    requires Copying(sp, k, c1, c2, h1, h2, mark, live, f, targets, 0) && RefsExact(sp, k, r1, h1, live, refs)
    requires Rebinding(r1, h2, r3, h3, mark, live, f, refs, 0)
    ensures |c2| == |c1| && Renamed(Moved(live, f), r1, h1, r3, h3)
    ensures Sound(sp, c2[k := CURSOR_SIZE], r3, h3, mark, Image(Moved(live, f), live))
  {
    hide InPlace, IsLive, MarksUpTo, TargetsExact, RefsExact, Copying, Copied, SameGraph, Settled;
    hide Relocation, Forwarded, AllRebound, RootsRebound, Renamed, Rebinding, Moved;
    InPlaceValid(sp, c1, h1, live);
    AfterCopy(sp, k, c1, c2, r1, h1, h2, mark, live, f, targets, refs);
    SameGraphSizes(h1, h2, live);
    SoundAfter(sp, k, c2[k := CURSOR_SIZE], r1, h1, h2, r3, h3, mark, live, f, refs);
    SameGraphRenamed(h1, h2, live, Moved(live, f), r1, r3, h3);
  }

  lemma CollectionDone(sp: Space, k: nat, c0: seq<nat>, r0: seq<Slot>, h0: Heap, hm: Heap, mark0: nat, live: set<nat>,
                       c1: seq<nat>, r1: seq<Slot>, h1: Heap, mark: nat, f1: map<nat, nat>,
                       c2: seq<nat>, h2: Heap, f2: map<nat, nat>, r3: seq<Slot>, h3: Heap,
                       targets: seq<nat>, refs: seq<Entry>, s: seq<Stage>, s': seq<Stage>)
    requires Sound(sp, c0, r0, h0, mark0, live) && k + 1 < |sp.starts| && AllHoldersLive(live, s)
    requires SameGraph(h0, hm, live)
    requires f1.Keys == live && Closed(r0, hm, live) && Renamed(f1, r0, hm, r1, h1) && Above(sp, k + 1, live, f1)
    requires Sound(sp, c1, r1, h1, mark, Image(f1, live)) && StagesMoved(f1, s, s')
    requires |c0| == |c1| == |sp.starts| && forall j :: 0 <= j <= k ==> c1[j] == c0[j]
    requires TargetsExact(sp, k, Image(f1, live), targets) && RefsExact(sp, k, r1, h1, Image(f1, live), refs)
    requires Copying(sp, k, c1, c2, h1, h2, mark, Image(f1, live), f2, targets, 0)
    requires Rebinding(r1, h2, r3, h3, mark, Image(f1, live), f2, refs, 0)
    ensures var f := Compose(f1, Moved(Image(f1, live), f2));
            && |c2| == |c1|
            && Collected(sp, k, live, f, c0, c2[k := CURSOR_SIZE], r0, h0, r3, h3, s, s')
            && Sound(sp, c2[k := CURSOR_SIZE], r3, h3, mark, Image(f, live))
  {
    hide InPlace, IsLive, MarksUpTo, TargetsExact, RefsExact, Copying, SameGraph, Settled, AllHoldersLive;
    hide Relocation, Forwarded, AllRebound, RootsRebound, Renamed, Moved, Compose, StagesMoved, StagesCarried;
    hide Above, Upward;
    var live1 := Image(f1, live);
    var g := Moved(live1, f2);
    InPlaceValid(sp, c0, h0, live);
    AfterCopy(sp, k, c1, c2, r1, h1, h2, mark, live1, f2, targets, refs);
    MoveDone(sp, k, c1, c2, r1, h1, h2, r3, h3, mark, live1, f2, targets, refs);
    ComposeRenamed(f1, g, r0, hm, r1, h1, r3, h3, live);
    SameGraphRenamed(h0, hm, live, Compose(f1, g), r0, r3, h3);
    ComposeUpward(sp, k, c0, h0, live, f1, f2);
    OuterCarried(h2, h3, live, f1, live1, f2, Entries(refs[0..]), s, s');
  }

  // Marking changes nothing about which regions have room.
  lemma RoomsKept(sp: Space, cursors: seq<nat>, h: Heap, h': Heap, live: set<nat>)
    requires SameGraph(h, h', live) && |sp.starts| == |sp.sizes| == |cursors|
    ensures forall j: nat :: j + 1 < |sp.starts| ==>
              (RoomFor(sp, cursors, j, h', live) <==> RoomFor(sp, cursors, j, h, live))
    ensures forall j: nat, t :: j < |sp.starts| && TargetsExact(sp, j, live, t) ==> Sum(h', t) == Sum(h, t)
  {
    forall j: nat, t | j < |sp.starts| && TargetsExact(sp, j, live, t) ensures Sum(h', t) == Sum(h, t) {
      SumUnmarked(sp, j, h, h', live, t);
    }
  }

  lemma PromotedSame(sp: Space, k: nat, last: nat, c: seq<nat>, c': seq<nat>, h: Heap, h': Heap, live: set<nat>,
                     f: map<nat, nat>)
    requires |sp.starts| == |sp.sizes| == |c| == |c'| && SameGraph(h, h', live)
    requires Promoted(sp, k, last, c, c', h', live, f)
    ensures Promoted(sp, k, last, c, c', h, live, f)
  {
    hide StaysOutside, MovesUp, RoomFor, SameGraph, Sum, TargetsExact;
    RoomsKept(sp, c, h, h', live);
  }

  // The whole collection: with the nested one, if there was no room, and the copies.
  lemma PromotedDone(sp: Space, k: nat, last: nat, c0: seq<nat>, h0: Heap, hm: Heap, live: set<nat>, c1: seq<nat>,
                     f1: map<nat, nat>, c': seq<nat>, f2: map<nat, nat>, targets: seq<nat>)
    requires InPlace(sp, c0, h0, live) && k + 1 < |sp.starts| == |c0| == |c1| == |c'| && SameGraph(h0, hm, live)
    requires Roomy(sp, k, last, c0, c1, hm, live, f1)
    requires CopiedUp(sp, k, c1, Image(f1, live), f2) && TargetsExact(sp, k, live, targets)
    requires c' == c1[k + 1 := c1[k + 1] + Sum(h0, targets)][k := CURSOR_SIZE]
    ensures Promoted(sp, k, last, c0, c', h0, live, Compose(f1, Moved(Image(f1, live), f2)))
  {
    hide InPlace, SameGraph, TargetsExact, Sum, CopiedUp, Promoted, RoomFor, Compose, Moved, Image, Space.Valid;
    hide Identity;
    InPlaceValid(sp, c0, h0, live);
    assert RoomFor(sp, c0, k, hm, live) <==> RoomFor(sp, c0, k, h0, live) by {
      RoomsKept(sp, c0, h0, hm, live);
    }
    if RoomFor(sp, c0, k, hm, live) {
      IdentityImage(live);
      PromotedOne(sp, k, c0, c', h0, live, f2, targets);
    } else {
      PromotedSame(sp, k + 1, last, c0, c1, h0, hm, live, f1);
      PromotedMore(sp, k, last, c0, c1, c', h0, live, f1, f2, targets);
    }
  }

  // What making room has done: nothing if there was room, and a collection of the next region otherwise.
  ghost predicate Roomy(sp: Space, k: nat, last: nat, c0: seq<nat>, c1: seq<nat>, h: Heap, live: set<nat>,
                        f1: map<nat, nat>)
    requires |sp.starts| == |sp.sizes| == |c0| == |c1| && k + 1 < |sp.starts|
  {
    if RoomFor(sp, c0, k, h, live) then last == k && f1 == Identity(live) && c1 == c0
    else Promoted(sp, k + 1, last, c0, c1, h, live, f1)
  }

  // The holders of the outer stages and those just recorded are reachable.
  lemma OuterAndOwn(sp: Space, k: nat, roots: seq<Slot>, h: Heap, live: set<nat>, own: Stage,
                    s: seq<Stage>, s': seq<Stage>)
    requires |sp.starts| == |sp.sizes| && k < |sp.starts| && AllHoldersLive(live, s)
    requires s' == s + [own] && RefsExact(sp, k, roots, h, live, own.refs)
    ensures AllHoldersLive(live, s')
  {
    forall j | 0 <= j < |s'| ensures HoldersLive(live, s'[j].refs) {
      if j == |s| {
        forall i | 0 <= i < |own.refs| && own.refs[i].Field? ensures own.refs[i].holder in live {
          assert own.refs[i] in own.refs;
        }
      } else {
        assert HoldersLive(live, s[j].refs);
      }
    }
  }

  // After the nested collection: the own stage is exact again, and so are the outer ones.
  lemma OwnStage(sp: Space, k: nat, roots: seq<Slot>, h: Heap, roots': seq<Slot>, h': Heap, live: set<nat>,
                 f: map<nat, nat>, s: seq<Stage>, own: Stage, s': seq<Stage>)
    requires sp.Valid() && k + 1 < |sp.starts| && Closed(roots, h, live)
    requires Renamed(f, roots, h, roots', h') && Above(sp, k + 1, live, f)
    requires RefsExact(sp, k, roots, h, live, own.refs) && TargetsExact(sp, k, live, own.targets)
    requires StagesMoved(f, s + [own], s')
    ensures |s'| == |s| + 1 && StagesMoved(f, s, s'[..|s|])
    ensures s'[|s|].targets == own.targets && s'[|s|].estimated == own.estimated
    ensures TargetsExact(sp, k, Image(f, live), own.targets)
    ensures RefsExact(sp, k, roots', h', Image(f, live), s'[|s|].refs)
  {
    hide Renamed, Above, RefsExact, TargetsExact, Closed, RefsMoved;
    assert StageMoved(f, (s + [own])[|s|], s'[|s|]);
    forall j | 0 <= j < |s| ensures StageMoved(f, s[j], s'[..|s|][j]) {
      assert StageMoved(f, (s + [own])[j], s'[j]);
    }
    RefsStayExact(sp, k, roots, h, roots', h', live, f, own.refs, s'[|s|].refs);
    TargetsStayExact(sp, k, live, f, own.targets);
  }

  // The estimate is not affected by the nested collection.
  lemma SameSum(h: Heap, h': Heap, roots: seq<Slot>, roots': seq<Slot>, sp: Space, k: nat, live: set<nat>,
                f: map<nat, nat>, targets: seq<nat>)
    requires sp.Valid() && k + 1 < |sp.starts| && TargetsExact(sp, k, live, targets)
    requires Renamed(f, roots, h, roots', h') && Above(sp, k + 1, live, f)
    ensures Sum(h', targets) == Sum(h, targets)
  {
    forall a | a in targets ensures a in h && a in h' && h'[a].size == h[a].size {
      AboveRegion(sp, k, live, f, a);
      assert ObjMoved(f, h[a], h'[f[a]]);
    }
    SumSame(h', h, targets);
  }

  lemma RoomKept(sp: Space, cursors: seq<nat>, h: Heap, h': Heap, live: set<nat>)
    requires SameGraph(h, h', live) && TenuredRoom(sp, cursors, h, live)
    ensures TenuredRoom(sp, cursors, h', live)
  {
    var k := |sp.starts| - 2;
    forall targets | TargetsExact(sp, k, live, targets) ensures cursors[k + 1] + Sum(h', targets) <= sp.sizes[k + 1] {
      SumSame(h', h, targets);
    }
  }

  lemma SumUnmarked(sp: Space, k: nat, h: Heap, h': Heap, live: set<nat>, targets: seq<nat>)
    requires |sp.starts| == |sp.sizes| && k < |sp.starts| && TargetsExact(sp, k, live, targets)
    requires SameGraph(h, h', live)
    ensures Sum(h', targets) == Sum(h, targets)
  {
    SumSame(h', h, targets);
  }

  // No reachable object is left in region k, so no reachable slot points into it.
  lemma RegionLeft(sp: Space, k: nat, live: set<nat>, f: map<nat, nat>, cursors: seq<nat>, cursors': seq<nat>,
                   roots: seq<Slot>, h: Heap, roots': seq<Slot>, h': Heap, s: seq<Stage>, s': seq<Stage>)
    requires sp.Valid() && k + 1 < |sp.starts| && Closed(roots', h', Image(f, live))
    requires Collected(sp, k, live, f, cursors, cursors', roots, h, roots', h', s, s')
    ensures forall b :: b in Image(f, live) ==> !sp.Contains(k, b)
    ensures forall e: Entry :: !IsRefInto(sp, k, roots', h', Image(f, live), e)
  {
    hide Renamed, StagesCarried;
    assert sp.starts[k] + sp.sizes[k] <= sp.starts[k + 1];
    forall b | b in Image(f, live) ensures !sp.Contains(k, b) {
      var a :| a in live && a in f && f[a] == b;
    }
    forall e: Entry ensures !IsRefInto(sp, k, roots', h', Image(f, live), e) {
      if e.Root? && e.idx < |roots'| {
        assert SlotOk(h', Image(f, live), roots'[e.idx]);
      } else if e.Field? && e.holder in Image(f, live) && e.idx < |h'[e.holder].slots| {
        assert SlotsOk(h', Image(f, live), h'[e.holder].slots);
      }
    }
  }
}
