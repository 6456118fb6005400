// The interpreter's heap: objects at abstract addresses, what the frames reach, and renamings of addresses.
module HeapModel {

  datatype Kind = Arr | Object | Func | Str

  // A register: a number or undefined value, or a reference to an object.
  datatype Slot = Prim(value: bv64) | Ref(addr: nat, kind: Kind)

  // An object: its header, its registers (elements, fields, or this, arguments and results) and the rest of
  // its bytes. A relocated pointer of 0 is null.
  datatype Obj = Obj(kind: Kind, mark: nat, size: nat, reloc: nat, slots: seq<Slot>, payload: seq<bv8>)

  type Heap = map<nat, Obj>

  ghost predicate Points(s: Slot, a: nat) {
    s.Ref? && s.addr == a
  }

  ghost predicate RootOf(roots: seq<Slot>, a: nat) {
    exists i :: 0 <= i < |roots| && Points(roots[i], a)
  }

  ghost predicate Edge(h: Heap, a: nat, b: nat) {
    a in h && exists i :: 0 <= i < |h[a].slots| && Points(h[a].slots[i], b)
  }

  ghost predicate HeapStep(h: Heap, p: seq<nat>, i: nat)
    requires 0 < i < |p|
  {
    Edge(h, p[i - 1], p[i])
  }

  ghost predicate PathFromRoots(roots: seq<Slot>, h: Heap, p: seq<nat>) {
    |p| > 0 && RootOf(roots, p[0]) && forall i: nat :: 0 < i < |p| ==> HeapStep(h, p, i)
  }

  // a is reachable from the registers of the frames.
  ghost predicate Reachable(roots: seq<Slot>, h: Heap, a: nat) {
    exists p :: PathFromRoots(roots, h, p) && p[|p| - 1] == a
  }

  // A reference leads to an object of its kind.
  ghost predicate SlotOk(h: Heap, live: set<nat>, s: Slot) {
    s.Ref? ==> s.addr in live && s.addr in h && h[s.addr].kind == s.kind
  }

  ghost predicate SlotsOk(h: Heap, live: set<nat>, slots: seq<Slot>) {
    forall i :: 0 <= i < |slots| ==> SlotOk(h, live, slots[i])
  }

  // Strings hold no registers.
  ghost predicate Closed(roots: seq<Slot>, h: Heap, live: set<nat>) {
    && SlotsOk(h, live, roots)
    && (forall a :: a in live ==> a in h && SlotsOk(h, live, h[a].slots))
    && (forall a :: a in live && a in h && h[a].kind == Str ==> h[a].slots == [])
  }

  // `live` is exactly the set of reachable objects.
  ghost predicate IsLive(roots: seq<Slot>, h: Heap, live: set<nat>) {
    Closed(roots, h, live) && forall a :: a in live ==> Reachable(roots, h, a)
  }

  lemma {:induction false} PathStays(roots: seq<Slot>, h: Heap, live: set<nat>, p: seq<nat>, k: nat)
    requires Closed(roots, h, live) && PathFromRoots(roots, h, p) && k < |p|
    ensures p[k] in live
  {
    if k > 0 {
      PathStays(roots, h, live, p, k - 1);
      assert HeapStep(h, p, k);
      assert SlotsOk(h, live, h[p[k - 1]].slots);
    }
  }

  // What is reachable is in every closed set, so the set of reachable objects is unique.
  lemma ReachableInClosed(roots: seq<Slot>, h: Heap, live: set<nat>, a: nat)
    requires Closed(roots, h, live) && Reachable(roots, h, a)
    ensures a in live
  {
    var p :| PathFromRoots(roots, h, p) && p[|p| - 1] == a;
    PathStays(roots, h, live, p, |p| - 1);
  }

  lemma LiveUnique(roots: seq<Slot>, h: Heap, a: set<nat>, b: set<nat>)
    requires IsLive(roots, h, a) && IsLive(roots, h, b)
    ensures a == b
  {
    forall x: nat ensures x in a <==> x in b {
      if x in a {
        ReachableInClosed(roots, h, b, x);
      }
      if x in b {
        ReachableInClosed(roots, h, a, x);
      }
    }
  }

  // ---------------------------------------------------------------- renaming addresses

  function MoveSlot(f: map<nat, nat>, s: Slot): Slot {
    if s.Ref? && s.addr in f then Ref(f[s.addr], s.kind) else s
  }

  ghost predicate SlotsMoved(f: map<nat, nat>, s: seq<Slot>, s': seq<Slot>) {
    |s| == |s'| && forall i :: 0 <= i < |s| ==> s'[i] == MoveSlot(f, s[i])
  }

  ghost predicate ObjMoved(f: map<nat, nat>, o: Obj, o': Obj) {
    o'.kind == o.kind && o'.size == o.size && o'.payload == o.payload && SlotsMoved(f, o.slots, o'.slots)
  }

  ghost predicate Injective(f: map<nat, nat>) {
    forall a, b :: a in f && b in f && f[a] == f[b] ==> a == b
  }

  // The two heaps are the same graph: the objects of f move to their images, and roots, slots and payloads
  // correspond.
  ghost predicate Renamed(f: map<nat, nat>, roots: seq<Slot>, h: Heap, roots': seq<Slot>, h': Heap) {
    && Injective(f) && SlotsMoved(f, roots, roots')
    && (forall a :: a in f ==> a in h && f[a] in h' && ObjMoved(f, h[a], h'[f[a]]))
  }

  ghost function Image(f: map<nat, nat>, s: set<nat>): set<nat> {
    set a | a in s && a in f :: f[a]
  }

  ghost function Identity(s: set<nat>): (f: map<nat, nat>)
    ensures f.Keys == s
  {
    map a | a in s :: a
  }

  ghost function Compose(f: map<nat, nat>, g: map<nat, nat>): map<nat, nat> {
    map a | a in f && f[a] in g :: g[f[a]]
  }

  lemma RenamedSlotOk(f: map<nat, nat>, h: Heap, h': Heap, live: set<nat>, s: Slot)
    requires f.Keys == live && SlotOk(h, live, s)
    requires forall a :: a in f ==> a in h && f[a] in h' && ObjMoved(f, h[a], h'[f[a]])
    ensures SlotOk(h', Image(f, live), MoveSlot(f, s))
  {
  }

  lemma RenamedClosed(f: map<nat, nat>, roots: seq<Slot>, h: Heap, roots': seq<Slot>, h': Heap, live: set<nat>)
    requires f.Keys == live && Closed(roots, h, live) && Renamed(f, roots, h, roots', h')
    ensures Closed(roots', h', Image(f, live))
  {
    hide SlotOk, Injective;
    forall i | 0 <= i < |roots'| ensures SlotOk(h', Image(f, live), roots'[i]) {
      RenamedSlotOk(f, h, h', live, roots[i]);
    }
    forall b | b in Image(f, live) ensures b in h' && SlotsOk(h', Image(f, live), h'[b].slots) {
      var a :| a in live && a in f && f[a] == b;
      assert ObjMoved(f, h[a], h'[b]);
      forall i | 0 <= i < |h'[b].slots| ensures SlotOk(h', Image(f, live), h'[b].slots[i]) {
        RenamedSlotOk(f, h, h', live, h[a].slots[i]);
      }
    }
  }

  ghost function MapPath(f: map<nat, nat>, p: seq<nat>): (q: seq<nat>)
    requires forall i :: 0 <= i < |p| ==> p[i] in f
    ensures |q| == |p|
  {
    seq(|p|, i requires 0 <= i < |p| => f[p[i]])
  }

  lemma RenamedEdge(f: map<nat, nat>, roots: seq<Slot>, h: Heap, roots': seq<Slot>, h': Heap, a: nat, b: nat)
    requires Renamed(f, roots, h, roots', h') && a in f && b in f && Edge(h, a, b)
    ensures Edge(h', f[a], f[b])
  {
    var i :| 0 <= i < |h[a].slots| && Points(h[a].slots[i], b);
    assert ObjMoved(f, h[a], h'[f[a]]);
    assert Points(h'[f[a]].slots[i], f[b]);
  }

  lemma RenamedReachable(f: map<nat, nat>, roots: seq<Slot>, h: Heap, roots': seq<Slot>, h': Heap, live: set<nat>,
                         a: nat)
    requires f.Keys == live && Closed(roots, h, live) && Renamed(f, roots, h, roots', h')
    requires Reachable(roots, h, a) && a in live
    ensures Reachable(roots', h', f[a])
  {
    hide Closed, Renamed, Edge, RootOf;
    var p :| PathFromRoots(roots, h, p) && p[|p| - 1] == a;
    forall i | 0 <= i < |p| ensures p[i] in f {
      PathStays(roots, h, live, p, i);
    }
    var q := MapPath(f, p);
    forall i: nat | 0 < i < |q| ensures HeapStep(h', q, i) {
      assert HeapStep(h, p, i);
      RenamedEdge(f, roots, h, roots', h', p[i - 1], p[i]);
    }
    RenamedRoot(f, roots, h, roots', h', p[0]);
    assert PathFromRoots(roots', h', q);
  }

  lemma RenamedRoot(f: map<nat, nat>, roots: seq<Slot>, h: Heap, roots': seq<Slot>, h': Heap, a: nat)
    requires Renamed(f, roots, h, roots', h') && a in f && RootOf(roots, a)
    ensures RootOf(roots', f[a])
  {
    var j :| 0 <= j < |roots| && Points(roots[j], a);
    assert Points(roots'[j], f[a]);
  }

  // The image of the reachable objects is what is reachable afterwards.
  lemma RenamedLive(f: map<nat, nat>, roots: seq<Slot>, h: Heap, roots': seq<Slot>, h': Heap, live: set<nat>)
    requires f.Keys == live && IsLive(roots, h, live) && Renamed(f, roots, h, roots', h')
    ensures IsLive(roots', h', Image(f, live))
  {
    hide Closed, Renamed, Reachable;
    RenamedClosed(f, roots, h, roots', h', live);
    forall b | b in Image(f, live) ensures Reachable(roots', h', b) {
      var a :| a in live && a in f && f[a] == b;
      RenamedReachable(f, roots, h, roots', h', live, a);
    }
  }

  lemma ComposeSlots(f: map<nat, nat>, g: map<nat, nat>, s: seq<Slot>, t: seq<Slot>, u: seq<Slot>)
    requires SlotsMoved(f, s, t) && SlotsMoved(g, t, u)
    requires forall a :: a in f ==> f[a] in g
    requires forall i :: 0 <= i < |s| && s[i].Ref? ==> s[i].addr in f
    ensures SlotsMoved(Compose(f, g), s, u)
  {
  }

  // Two renamings in a row are one.
  lemma ComposeRenamed(f: map<nat, nat>, g: map<nat, nat>, roots: seq<Slot>, h: Heap, roots1: seq<Slot>, h1: Heap,
                       roots2: seq<Slot>, h2: Heap, live: set<nat>)
    requires f.Keys == live && Closed(roots, h, live) && Renamed(f, roots, h, roots1, h1)
    requires g.Keys == Image(f, live) && Renamed(g, roots1, h1, roots2, h2)
    ensures Compose(f, g).Keys == live && Renamed(Compose(f, g), roots, h, roots2, h2)
    ensures forall a :: a in live ==> f[a] in g && Compose(f, g)[a] == g[f[a]]
    ensures Image(Compose(f, g), live) == Image(g, Image(f, live))
  {
    hide SlotsMoved, Compose;
    ComposeAt(f, g, live);
    ComposeSlots(f, g, roots, roots1, roots2);
    forall a | a in live ensures ObjMoved(Compose(f, g), h[a], h2[g[f[a]]]) {
      assert ObjMoved(f, h[a], h1[f[a]]) && ObjMoved(g, h1[f[a]], h2[g[f[a]]]);
      ComposeSlots(f, g, h[a].slots, h1[f[a]].slots, h2[g[f[a]]].slots);
    }
  }

  lemma ComposeAt(f: map<nat, nat>, g: map<nat, nat>, live: set<nat>)
    requires f.Keys == live && g.Keys == Image(f, live)
    ensures Compose(f, g).Keys == live
    ensures forall a :: a in live ==> f[a] in g && Compose(f, g)[a] == g[f[a]]
    ensures Image(Compose(f, g), live) == Image(g, Image(f, live))
  {
    forall a | a in live ensures f[a] in g {
      assert f[a] in Image(f, live);
    }
    assert Compose(f, g).Keys == live;
    forall b: nat ensures b in Image(Compose(f, g), live) <==> b in Image(g, Image(f, live)) {
      if b in Image(g, Image(f, live)) {
        var c :| c in Image(f, live) && c in g && g[c] == b;
        var a :| a in live && a in f && f[a] == c;
        assert Compose(f, g)[a] == b;
      }
    }
  }
}
