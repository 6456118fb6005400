// How much room survivors take.
module HeapSizes {
  import opened HeapModel
  import opened HeapSpace
  import opened HeapRebind
  import opened FiniteSets

  ghost function Sum(h: Heap, s: seq<nat>): nat {
    if s == [] then 0 else Sum(h, s[..|s| - 1]) + if s[|s| - 1] in h then h[s[|s| - 1]].size else 0
  }

  lemma SumAppend(h: Heap, s: seq<nat>, a: nat)
    ensures Sum(h, s + [a]) == Sum(h, s) + if a in h then h[a].size else 0
  {
    assert (s + [a])[..|s|] == s;
  }

  lemma {:induction false} SumSame(h: Heap, h': Heap, s: seq<nat>)
    requires forall a :: a in s ==> (a in h <==> a in h') && (a in h ==> h[a].size == h'[a].size)
    ensures Sum(h, s) == Sum(h', s)
  {
    if s != [] {
      SumSame(h, h', s[..|s| - 1]);
    }
  }

  ghost function Range(a: nat, n: nat): (r: set<nat>)
    ensures forall x: nat :: x in r <==> a <= x < a + n
    ensures |r| == n
  {
    if n == 0 then {} else Range(a, n - 1) + {a + n - 1}
  }

  ghost function Cells(h: Heap, s: seq<nat>): set<nat> {
    if s == [] then {} else
      Cells(h, s[..|s| - 1]) + if s[|s| - 1] in h then Range(s[|s| - 1], h[s[|s| - 1]].size) else {}
  }

  lemma {:induction false} CellOf(h: Heap, s: seq<nat>, x: nat)
    requires x in Cells(h, s)
    ensures exists a :: a in s && a in h && a <= x < a + h[a].size
  {
    var l := |s| - 1;
    if s[l] in h && x in Range(s[l], h[s[l]].size) {
      assert s[l] in s;
    } else {
      CellOf(h, s[..l], x);
    }
  }

  // Objects that do not overlap take as many cells as their sizes add up to.
  lemma {:induction false} CellsSize(h: Heap, live: set<nat>, s: seq<nat>)
    requires AllApart(h, live) && Distinct(s) && forall a :: a in s ==> a in live && a in h
    ensures |Cells(h, s)| == Sum(h, s)
  {
    if s != [] {
      var l := |s| - 1;
      CellsSize(h, live, s[..l]);
      var r := Range(s[l], h[s[l]].size);
      forall x | x in Cells(h, s[..l]) ensures x !in r {
        CellOf(h, s[..l], x);
        var a :| a in s[..l] && a in h && a <= x < a + h[a].size;
        assert a in s && s[l] in s && a != s[l];
      }
      assert Cells(h, s[..l]) !! r;
    }
  }

  // So they fit into any range that holds them all.
  lemma SumFits(h: Heap, live: set<nat>, s: seq<nat>, lo: nat, hi: nat)
    requires AllApart(h, live) && Distinct(s) && lo <= hi
    requires forall a :: a in s ==> a in live && a in h && lo <= a && a + h[a].size <= hi
    ensures Sum(h, s) <= hi - lo
  {
    CellsSize(h, live, s);
    forall x | x in Cells(h, s) ensures x in Range(lo, hi - lo) {
      CellOf(h, s, x);
    }
    SubsetSize(Cells(h, s), Range(lo, hi - lo));
  }

  // The survivors of region k.
  lemma SurvivorsFit(sp: Space, cursors: seq<nat>, k: nat, h: Heap, live: set<nat>, targets: seq<nat>)
    requires InPlace(sp, cursors, h, live) && k < |sp.starts| && TargetsExact(sp, k, live, targets)
    ensures Sum(h, targets) + CURSOR_SIZE <= cursors[k]
  {
    forall a | a in targets
      ensures a in live && a in h && sp.starts[k] + CURSOR_SIZE <= a && a + h[a].size <= sp.starts[k] + cursors[k]
    {
      RegionOf(sp, cursors, k, a, h[a].size);
    }
    SumFits(h, live, targets, sp.starts[k] + CURSOR_SIZE, sp.starts[k] + cursors[k]);
  }

  // The next region has room for the survivors of region k.
  ghost predicate RoomFor(sp: Space, cursors: seq<nat>, k: nat, h: Heap, live: set<nat>)
    requires |sp.starts| == |sp.sizes| == |cursors| && k + 1 < |sp.starts|
  {
    forall targets :: TargetsExact(sp, k, live, targets) ==> cursors[k + 1] + Sum(h, targets) <= sp.sizes[k + 1]
  }

  lemma {:induction false} InCells(h: Heap, s: seq<nat>, a: nat, x: nat)
    requires a in s && a in h && a <= x < a + h[a].size
    ensures x in Cells(h, s)
  {
    var l := |s| - 1;
    if s[l] != a {
      InCells(h, s[..l], a, x);
    }
  }

  // The sum does not depend on the order.
  lemma SumOfSame(h: Heap, live: set<nat>, s: seq<nat>, t: seq<nat>)
    requires AllApart(h, live) && Distinct(s) && Distinct(t)
    requires forall a: nat :: a in s <==> a in t
    requires forall a :: a in s ==> a in live && a in h
    ensures Sum(h, s) == Sum(h, t)
  {
    hide Sum, Cells;
    CellsSize(h, live, s);
    CellsSize(h, live, t);
    forall x: nat ensures x in Cells(h, s) <==> x in Cells(h, t) {
      if x in Cells(h, s) {
        CellOf(h, s, x);
        var a :| a in s && a in h && a <= x < a + h[a].size;
        InCells(h, t, a, x);
      }
      if x in Cells(h, t) {
        CellOf(h, t, x);
        var a :| a in t && a in h && a <= x < a + h[a].size;
        InCells(h, s, a, x);
      }
    }
    assert Cells(h, s) == Cells(h, t);
  }

  // Any list of the survivors tells whether there is room.
  lemma RoomIff(sp: Space, cursors: seq<nat>, k: nat, h: Heap, live: set<nat>, targets: seq<nat>)
    requires InPlace(sp, cursors, h, live) && k + 1 < |sp.starts| && TargetsExact(sp, k, live, targets)
    ensures RoomFor(sp, cursors, k, h, live) <==> cursors[k + 1] + Sum(h, targets) <= sp.sizes[k + 1]
  {
    forall t | TargetsExact(sp, k, live, t) ensures Sum(h, t) == Sum(h, targets) {
      SumOfSame(h, live, t, targets);
    }
  }
}
