// The regions of the heap: bump allocation, copying survivors and following forwarding pointers.
module HeapSpace {
  import opened HeapModel

  const CURSOR_SIZE: nat := 8  // a region starts with its own cursor

  // The regions in the order of their addresses: survivor regions of one size, then the tenured region.
  datatype Space = Space(starts: seq<nat>, sizes: seq<nat>) {

    ghost predicate Valid() {
      && |starts| == |sizes| > 0
      && (forall k :: 0 <= k < |starts| ==> 0 < starts[k] && CURSOR_SIZE < sizes[k])
      && (forall j, k :: 0 <= j < k < |starts| ==> starts[j] + sizes[j] <= starts[k])
      && (forall j, k :: 0 <= j < |starts| - 1 && 0 <= k < |starts| - 1 ==> sizes[j] == sizes[k])
    }

    // Region::Contains
    predicate Contains(k: nat, a: nat)
      requires |starts| == |sizes| && k < |starts|
    {
      starts[k] <= a < starts[k] + sizes[k]
    }
  }

  ghost predicate CursorsOk(sp: Space, cursors: seq<nat>) {
    && |cursors| == |sp.starts| == |sp.sizes|
    && (forall k :: 0 <= k < |cursors| ==> CURSOR_SIZE <= cursors[k] <= sp.sizes[k])
  }

  // An object lies in the allocated part of region k.
  ghost predicate LiesIn(sp: Space, cursors: seq<nat>, k: nat, a: nat, size: nat) {
    && k < |cursors| && k < |sp.starts| && size > 0
    && sp.starts[k] + CURSOR_SIZE <= a && a + size <= sp.starts[k] + cursors[k]
  }

  ghost predicate Allocated(sp: Space, cursors: seq<nat>, a: nat, size: nat) {
    exists k :: LiesIn(sp, cursors, k, a, size)
  }

  predicate Apart(a: nat, sizeA: nat, b: nat, sizeB: nat) {
    a + sizeA <= b || b + sizeB <= a
  }

  ghost predicate AllApart(h: Heap, live: set<nat>) {
    forall a, b :: a in live && b in live && a in h && b in h && a != b ==> Apart(a, h[a].size, b, h[b].size)
  }

  ghost predicate MarksUpTo(h: Heap, mark: nat) {
    forall a :: a in h ==> h[a].mark <= mark
  }

  // Every reachable object has its own place and has not been relocated.
  ghost predicate InPlace(sp: Space, cursors: seq<nat>, h: Heap, live: set<nat>) {
    && sp.Valid() && CursorsOk(sp, cursors) && AllApart(h, live)
    && (forall a :: a in live ==> a in h && h[a].reloc == 0 && Allocated(sp, cursors, a, h[a].size))
  }

  lemma OneRegion(sp: Space, j: nat, k: nat, a: nat)
    requires sp.Valid() && j < |sp.starts| && k < |sp.starts| && sp.Contains(j, a) && sp.Contains(k, a)
    ensures j == k
  {
  }

  lemma LiesInContains(sp: Space, cursors: seq<nat>, k: nat, a: nat, size: nat)
    requires sp.Valid() && CursorsOk(sp, cursors) && LiesIn(sp, cursors, k, a, size)
    ensures sp.Contains(k, a) && a > 0
  {
  }

  // The region that holds an address holds the whole object.
  lemma RegionOf(sp: Space, cursors: seq<nat>, k: nat, a: nat, size: nat)
    requires sp.Valid() && CursorsOk(sp, cursors) && k < |sp.starts| && sp.Contains(k, a)
    requires Allocated(sp, cursors, a, size)
    ensures LiesIn(sp, cursors, k, a, size)
  {
    var j: nat :| LiesIn(sp, cursors, j, a, size);
    LiesInContains(sp, cursors, j, a, size);
    OneRegion(sp, j, k, a);
  }

  // Putting an object at c overwrites whatever overlaps with it.
  function Place(h: Heap, c: nat, o: Obj): Heap {
    (map a | a in h && Apart(a, h[a].size, c, o.size) :: h[a])[c := o]
  }

  // Fresh memory at the cursor of region k is apart from everything allocated.
  lemma CursorApart(sp: Space, cursors: seq<nat>, k: nat, size: nat, a: nat, sizeA: nat)
    requires sp.Valid() && CursorsOk(sp, cursors) && k < |cursors| && cursors[k] + size <= sp.sizes[k]
    requires Allocated(sp, cursors, a, sizeA)
    ensures Apart(a, sizeA, sp.starts[k] + cursors[k], size) && (size > 0 ==> a != sp.starts[k] + cursors[k])
  {
    var j: nat :| LiesIn(sp, cursors, j, a, sizeA);
    if j < k {
      assert sp.starts[j] + sp.sizes[j] <= sp.starts[k];
    } else if k < j {
      assert sp.starts[k] + sp.sizes[k] <= sp.starts[j];
    }
  }

  // ---------------------------------------------------------------- copying survivors

  ghost predicate Distinct<T(!new)>(s: seq<T>) {
    forall i, j :: 0 <= i < j < |s| ==> s[i] != s[j]
  }

  // The reachable objects lie outside the addresses from lo to lim.
  ghost predicate Outside(h: Heap, live: set<nat>, lo: nat, lim: nat) {
    forall a :: a in live ==> a in h && h[a].size > 0 && (a + h[a].size <= lo || lim <= a)
  }

  // The unused part of a region holds no reachable object.
  lemma FreeOutside(sp: Space, cursors: seq<nat>, h: Heap, live: set<nat>, k: nat)
    requires InPlace(sp, cursors, h, live) && k < |sp.starts|
    ensures Outside(h, live, sp.starts[k] + cursors[k], sp.starts[k] + sp.sizes[k])
  {
    forall a | a in live
      ensures a in h && h[a].size > 0 && (a + h[a].size <= sp.starts[k] + cursors[k] || sp.starts[k] + sp.sizes[k] <= a)
    {
      assert Allocated(sp, cursors, a, h[a].size);
      var j: nat :| LiesIn(sp, cursors, j, a, h[a].size);
      if j < k {
        assert sp.starts[j] + sp.sizes[j] <= sp.starts[k];
      } else if k < j {
        assert sp.starts[k] + sp.sizes[k] <= sp.starts[j];
      }
    }
  }

  // A copied object keeps its contents and forwards to its copy, which lies between lo and hi.
  ghost predicate Forwards(h0: Heap, h: Heap, f: map<nat, nat>, a: nat, lo: nat, hi: nat)
    requires a in h0 && a in f
  {
    && a in h && h[a] == h0[a].(reloc := f[a])
    && f[a] in h && h[f[a]] == h0[a] && lo <= f[a] && f[a] + h0[a].size <= hi
  }

  ghost predicate CopiesApart(h0: Heap, f: map<nat, nat>) {
    forall a, b :: a in f && b in f && a in h0 && b in h0 && a != b ==> Apart(f[a], h0[a].size, f[b], h0[b].size)
  }

  ghost predicate Untouched(h0: Heap, h: Heap, f: map<nat, nat>, a: nat) {
    a !in f ==> a in h && a in h0 && h[a] == h0[a]
  }

  // The objects of f have been copied to addresses between lo and hi.
  ghost predicate Copied(h0: Heap, h: Heap, live: set<nat>, f: map<nat, nat>, lo: nat, hi: nat) {
    && CopiesApart(h0, f)
    && (forall a :: a in live ==> Untouched(h0, h, f, a))
    && (forall a :: a in f ==> a in live && a in h0 && Forwards(h0, h, f, a, lo, hi))
  }

  function CopyOf(h: Heap, a: nat, c: nat): Heap
    requires a in h
  {
    var h' := Place(h, c, h[a]);
    if a in h' then h'[a := h'[a].(reloc := c)] else h'
  }

  // AllocBytes, memcpy and SetRelocatedPtr for one object.
  lemma CopyOne(h0: Heap, h: Heap, live: set<nat>, f: map<nat, nat>, lo: nat, hi: nat, lim: nat, a: nat)
    requires Outside(h0, live, lo, lim) && Copied(h0, h, live, f, lo, hi) && lo <= hi
    requires a in live && a !in f && a in h && hi + h[a].size <= lim
    ensures h[a] == h0[a] && Copied(h0, CopyOf(h, a, hi), live, f[a := hi], lo, hi + h[a].size)
  {
    hide Forwards, Untouched, CopiesApart, Apart;
    assert Untouched(h0, h, f, a);
    CopySame(h0, h, live, f, lo, hi, lim, a);
    var h' := CopyOf(h, a, hi);
    forall b | b in live ensures Untouched(h0, h', f[a := hi], b) {
      CopyUntouched(h0, h, live, f, lo, hi, lim, a, b);
    }
    var f' := f[a := hi];
    forall b | b in f' ensures Forwards(h0, h', f', b, lo, hi + h[a].size) {
      if b == a {
        CopyForwards(h0, h, live, f, lo, hi, lim, a);
      } else {
        CopyKeepsForwards(h0, h, live, f, lo, hi, lim, a, b);
      }
    }
    CopyApart(h0, h, live, f, lo, hi, a);
  }

  lemma CopySame(h0: Heap, h: Heap, live: set<nat>, f: map<nat, nat>, lo: nat, hi: nat, lim: nat, a: nat)
    requires Copied(h0, h, live, f, lo, hi) && a in live && a !in f
    ensures a in h && a in h0 && h[a] == h0[a]
  {
    assert Untouched(h0, h, f, a);
  }

  lemma CopyUntouched(h0: Heap, h: Heap, live: set<nat>, f: map<nat, nat>, lo: nat, hi: nat, lim: nat, a: nat, b: nat)
    requires Outside(h0, live, lo, lim) && lo <= hi && a in live && a in h && h[a] == h0[a] && b in live
    requires hi + h[a].size <= lim && Untouched(h0, h, f, b)
    ensures Untouched(h0, CopyOf(h, a, hi), f[a := hi], b)
  {
  }

  lemma CopyForwards(h0: Heap, h: Heap, live: set<nat>, f: map<nat, nat>, lo: nat, hi: nat, lim: nat, a: nat)
    requires Outside(h0, live, lo, lim) && lo <= hi && a in live && a in h && h[a] == h0[a]
    requires hi + h[a].size <= lim
    ensures Forwards(h0, CopyOf(h, a, hi), f[a := hi], a, lo, hi + h[a].size)
  {
  }

  lemma CopyKeepsForwards(h0: Heap, h: Heap, live: set<nat>, f: map<nat, nat>, lo: nat, hi: nat, lim: nat, a: nat,
                          b: nat)
    requires Outside(h0, live, lo, lim) && lo <= hi && a in live && a in h && h[a] == h0[a] && a !in f
    requires hi + h[a].size <= lim && b in f && b in live && b in h0 && Forwards(h0, h, f, b, lo, hi)
    ensures Forwards(h0, CopyOf(h, a, hi), f[a := hi], b, lo, hi + h[a].size)
  {
    assert f[b] != a;
  }

  lemma CopyApart(h0: Heap, h: Heap, live: set<nat>, f: map<nat, nat>, lo: nat, hi: nat, a: nat)
    requires Copied(h0, h, live, f, lo, hi) && a in live && a !in f && a in h && a in h0
    ensures CopiesApart(h0, f[a := hi])
  {
    forall b | b in f ensures b in h0 && Apart(f[b], h0[b].size, hi, h0[a].size) {
      assert Forwards(h0, h, f, b, lo, hi);
    }
  }
}
