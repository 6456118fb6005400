// What one collection of a region, and a collection nested in it, do to heap, cursors and pending references.
module HeapMove {
  import opened HeapModel
  import opened HeapSpace
  import opened HeapRebind
  import opened HeapMark
  import opened HeapSizes

  // GC::GCStageState
  datatype Stage = Stage(targets: seq<nat>, estimated: nat, refs: seq<Entry>)

  // The state a collection starts from and ends with: `live` are the reachable objects.
  ghost predicate Sound(sp: Space, cursors: seq<nat>, roots: seq<Slot>, h: Heap, mark: nat, live: set<nat>) {
    InPlace(sp, cursors, h, live) && IsLive(roots, h, live) && MarksUpTo(h, mark)
  }

  lemma NoneMarked(h: Heap, mark: nat)
    requires MarksUpTo(h, mark)
    ensures Marked(h, mark + 1) == {}
  {
  }

  // Marking changes nothing that matters.
  lemma SoundMarked(sp: Space, cursors: seq<nat>, roots: seq<Slot>, h: Heap, h': Heap, mark: nat, live: set<nat>)
    requires Sound(sp, cursors, roots, h, mark, live) && OnlyMarks(h, h', mark + 1)
    ensures Sound(sp, cursors, roots, h', mark + 1, live)
    ensures Renamed(Identity(live), roots, h, roots, h')
  {
    hide InPlace, Closed, Renamed, OnlyMarks, Reachable;
    MarkedRenamed(roots, h, h', mark + 1, live);
    RenamedLive(Identity(live), roots, h, roots, h', live);
    IdentityImage(live);
    MarkedInPlace(sp, cursors, h, h', mark + 1, live);
    MarkedUpTo(h, h', mark);
  }

  lemma IdentityImage(live: set<nat>)
    ensures Image(Identity(live), live) == live
  {
  }

  lemma MarkedInPlace(sp: Space, cursors: seq<nat>, h: Heap, h': Heap, mark: nat, live: set<nat>)
    requires InPlace(sp, cursors, h, live) && OnlyMarks(h, h', mark)
    ensures InPlace(sp, cursors, h', live)
  {
    forall a | a in live
      ensures a in h && a in h' && h'[a].size == h[a].size && h'[a].reloc == 0 && Allocated(sp, cursors, a, h'[a].size)
    {
      assert h'[a] == h[a] || h'[a] == h[a].(mark := mark);
    }
  }

  lemma MarkedUpTo(h: Heap, h': Heap, mark: nat)
    requires MarksUpTo(h, mark) && OnlyMarks(h, h', mark + 1)
    ensures MarksUpTo(h', mark + 1)
  {
    forall a | a in h' ensures h'[a].mark <= mark + 1 {
      assert a in h && h[a].mark <= mark;
    }
  }

  lemma MarkedRenamed(roots: seq<Slot>, h: Heap, h': Heap, mark: nat, live: set<nat>)
    requires Closed(roots, h, live) && OnlyMarks(h, h', mark)
    ensures Renamed(Identity(live), roots, h, roots, h')
  {
    var f := Identity(live);
    assert SlotsMoved(f, roots, roots);
    forall a | a in f ensures a in h && f[a] in h' && ObjMoved(f, h[a], h'[f[a]]) {
      assert h'[a].slots == h[a].slots;
    }
  }

  // ---------------------------------------------------------------- pending references of outer stages

  function MoveEntry(f: map<nat, nat>, e: Entry): Entry {
    match e
    case Root(_) => e
    case Field(x, i) => if x in f then Field(f[x], i) else e
  }

  // A holder that has been relocated is replaced by its new place.
  function Resolve(h: Heap, e: Entry): Entry {
    match e
    case Root(_) => e
    case Field(x, i) => if x in h && h[x].reloc != 0 then Field(h[x].reloc, i) else e
  }

  ghost predicate HoldersLive(live: set<nat>, refs: seq<Entry>) {
    forall i :: 0 <= i < |refs| && refs[i].Field? ==> refs[i].holder in live
  }

  ghost predicate AllHoldersLive(live: set<nat>, stages: seq<Stage>) {
    forall j :: 0 <= j < |stages| ==> HoldersLive(live, stages[j].refs)
  }

  // The pending references of a stage name the moved holders.
  ghost predicate RefsMoved(f: map<nat, nat>, refs: seq<Entry>, refs': seq<Entry>) {
    |refs| == |refs'| && forall i :: 0 <= i < |refs| ==> refs'[i] == MoveEntry(f, refs[i])
  }

  ghost predicate StageMoved(f: map<nat, nat>, s: Stage, s': Stage) {
    s'.targets == s.targets && s'.estimated == s.estimated && RefsMoved(f, s.refs, s'.refs)
  }

  ghost predicate StagesMoved(f: map<nat, nat>, s: seq<Stage>, s': seq<Stage>) {
    |s| == |s'| && forall j :: 0 <= j < |s| ==> StageMoved(f, s[j], s'[j])
  }

  // They name the moved holders, or their old places, which forward to the new ones.
  ghost predicate RefsCarried(h: Heap, f: map<nat, nat>, refs: seq<Entry>, refs': seq<Entry>) {
    |refs| == |refs'| && forall i :: 0 <= i < |refs| ==> Resolve(h, refs'[i]) == MoveEntry(f, refs[i])
  }

  ghost predicate StageCarried(h: Heap, f: map<nat, nat>, s: Stage, s': Stage) {
    s'.targets == s.targets && s'.estimated == s.estimated && RefsCarried(h, f, s.refs, s'.refs)
  }

  ghost predicate StagesCarried(h: Heap, f: map<nat, nat>, s: seq<Stage>, s': seq<Stage>) {
    |s| == |s'| && forall j :: 0 <= j < |s| ==> StageCarried(h, f, s[j], s'[j])
  }

  // Objects in front of region k stay, and no object moves in front of it.
  ghost predicate Above(sp: Space, k: nat, live: set<nat>, f: map<nat, nat>)
    requires k < |sp.starts|
  {
    && f.Keys == live
    && (forall a :: a in live && a < sp.starts[k] ==> f[a] == a)
    && (forall a :: a in live && a >= sp.starts[k] ==> f[a] >= sp.starts[k])
  }

  lemma UpwardAbove(sp: Space, k: nat, live: set<nat>, f: map<nat, nat>)
    requires sp.Valid() && k < |sp.starts| && Upward(sp, k, live, f)
    ensures Above(sp, k, live, f)
  {
    assert k + 1 < |sp.starts| ==> sp.starts[k] + sp.sizes[k] <= sp.starts[k + 1];
  }

  lemma IdentityAbove(sp: Space, k: nat, live: set<nat>)
    requires k < |sp.starts|
    ensures Above(sp, k, live, Identity(live))
  {
  }

  // Objects in front of region k stay, and the objects of a survivor region leave it upwards.
  ghost predicate Upward(sp: Space, k: nat, live: set<nat>, f: map<nat, nat>)
    requires k < |sp.starts|
  {
    && f.Keys == live
    && (forall a :: a in live && a < sp.starts[k] ==> f[a] == a)
    && (forall a :: a in live && a >= sp.starts[k] ==> f[a] >= sp.starts[if k + 1 < |sp.starts| then k + 1 else k])
  }

  lemma AboveRegion(sp: Space, k: nat, live: set<nat>, f: map<nat, nat>, a: nat)
    requires sp.Valid() && k + 1 < |sp.starts| && Above(sp, k + 1, live, f) && a in live
    ensures sp.Contains(k, f[a]) <==> sp.Contains(k, a)
    ensures sp.Contains(k, a) ==> f[a] == a
  {
    assert sp.starts[k] + sp.sizes[k] <= sp.starts[k + 1];
    assert k + 2 < |sp.starts| ==> sp.starts[k + 1] + sp.sizes[k + 1] <= sp.starts[k + 2];
  }

  lemma MoveEntryInjective(f: map<nat, nat>, live: set<nat>, e: Entry, e': Entry)
    requires Injective(f) && f.Keys == live && (e.Field? ==> e.holder in live) && (e'.Field? ==> e'.holder in live)
    requires MoveEntry(f, e) == MoveEntry(f, e')
    ensures e == e'
  {
  }

  // After a nested collection and the repair, the pending references of the outer stage are again exactly
  // the slots that point into its region.
  lemma RefsStayExact(sp: Space, k: nat, roots: seq<Slot>, h: Heap, roots': seq<Slot>, h': Heap, live: set<nat>,
                      f: map<nat, nat>, refs: seq<Entry>, refs': seq<Entry>)
    requires sp.Valid() && k + 1 < |sp.starts| && Closed(roots, h, live)
    requires RefsExact(sp, k, roots, h, live, refs) && RefsMoved(f, refs, refs')
    requires Renamed(f, roots, h, roots', h') && Above(sp, k + 1, live, f)
    ensures RefsExact(sp, k, roots', h', Image(f, live), refs')
  {
    hide Closed, Renamed, Above, MoveEntry, Reachable;
    assert f.Keys == live && Injective(f) by {
      hide MoveEntry, Closed;
      AboveKeys(sp, k + 1, live, f);
      RenamedInjective(f, roots, h, roots', h');
    }
    forall i, j | 0 <= i < j < |refs'| ensures refs'[i] != refs'[j] {
      assert refs[i] in refs && refs[j] in refs;
      if MoveEntry(f, refs[i]) == MoveEntry(f, refs[j]) {
        MoveEntryInjective(f, live, refs[i], refs[j]);
      }
    }
    forall e: Entry ensures e in refs' <==> IsRefInto(sp, k, roots', h', Image(f, live), e) {
      if e in refs' {
        var i :| 0 <= i < |refs'| && refs'[i] == e;
        assert refs[i] in refs;
        RefKept(sp, k, roots, h, roots', h', live, f, refs[i]);
      }
      if IsRefInto(sp, k, roots', h', Image(f, live), e) {
        var e0 := RefSource(sp, k, roots, h, roots', h', live, f, e);
        var i :| 0 <= i < |refs| && refs[i] == e0;
        assert refs'[i] == e;
      }
    }
  }

  lemma AboveKeys(sp: Space, k: nat, live: set<nat>, f: map<nat, nat>)
    requires k < |sp.starts| && Above(sp, k, live, f)
    ensures f.Keys == live
  {
  }

  lemma RenamedInjective(f: map<nat, nat>, roots: seq<Slot>, h: Heap, roots': seq<Slot>, h': Heap)
    requires Renamed(f, roots, h, roots', h')
    ensures Injective(f)
  {
  }

  lemma SlotRegion(sp: Space, k: nat, h: Heap, live: set<nat>, f: map<nat, nat>, s: Slot)
    requires sp.Valid() && k + 1 < |sp.starts| && Above(sp, k + 1, live, f) && SlotOk(h, live, s)
    ensures MoveSlot(f, s).Ref? <==> s.Ref?
    ensures s.Ref? ==> (sp.Contains(k, MoveSlot(f, s).addr) <==> sp.Contains(k, s.addr))
  {
    if s.Ref? {
      AboveRegion(sp, k, live, f, s.addr);
    }
  }

  lemma RefKept(sp: Space, k: nat, roots: seq<Slot>, h: Heap, roots': seq<Slot>, h': Heap, live: set<nat>,
                f: map<nat, nat>, e: Entry)
    requires sp.Valid() && k + 1 < |sp.starts| && Closed(roots, h, live)
    requires IsRefInto(sp, k, roots, h, live, e)
    requires Renamed(f, roots, h, roots', h') && Above(sp, k + 1, live, f)
    ensures IsRefInto(sp, k, roots', h', Image(f, live), MoveEntry(f, e))
  {
    match e
    case Root(i) =>
      SlotRegion(sp, k, h, live, f, roots[i]);
    case Field(x, i) =>
      assert ObjMoved(f, h[x], h'[f[x]]) && SlotsOk(h, live, h[x].slots);
      SlotRegion(sp, k, h, live, f, h[x].slots[i]);
  }

  lemma RefSource(sp: Space, k: nat, roots: seq<Slot>, h: Heap, roots': seq<Slot>, h': Heap, live: set<nat>,
                  f: map<nat, nat>, e: Entry) returns (e0: Entry)
    requires sp.Valid() && k + 1 < |sp.starts| && Closed(roots, h, live)
    requires IsRefInto(sp, k, roots', h', Image(f, live), e)
    requires Renamed(f, roots, h, roots', h') && Above(sp, k + 1, live, f)
    ensures IsRefInto(sp, k, roots, h, live, e0) && MoveEntry(f, e0) == e
  {
    match e
    case Root(i) =>
      e0 := e;
      SlotRegion(sp, k, h, live, f, roots[i]);
    case Field(y, i) =>
      var x :| x in live && x in f && f[x] == y;
      e0 := Field(x, i);
      assert ObjMoved(f, h[x], h'[f[x]]) && SlotsOk(h, live, h[x].slots);
      SlotRegion(sp, k, h, live, f, h[x].slots[i]);
  }

  // The survivors of the outer region have not moved.
  lemma TargetsStayExact(sp: Space, k: nat, live: set<nat>, f: map<nat, nat>, targets: seq<nat>)
    requires sp.Valid() && k + 1 < |sp.starts| && TargetsExact(sp, k, live, targets) && Above(sp, k + 1, live, f)
    ensures TargetsExact(sp, k, Image(f, live), targets)
  {
    forall a: nat ensures a in targets <==> a in Image(f, live) && sp.Contains(k, a) {
      if a in live {
        AboveRegion(sp, k, live, f, a);
      }
      if a in Image(f, live) {
        var b :| b in live && b in f && f[b] == a;
        AboveRegion(sp, k, live, f, b);
      }
    }
  }
}
