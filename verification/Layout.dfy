// The doubly linked instruction lists of the blocks.
module BlockLists {
  import opened Ir
  import opened DefUse

  // Block of each instruction, links between neighbours and ends of each block's list. `lists` is the
  // sequence the links of each block spell out.
  datatype Layout = Layout(
    bb: map<nat, Option<nat>>, prev: map<nat, Option<nat>>, next: map<nat, Option<nat>>,
    first: seq<Option<nat>>, last: seq<Option<nat>>, lists: seq<seq<nat>>)

  function LastOf<T>(s: seq<T>): Option<T> {
    if s == [] then None else Some(s[|s| - 1])
  }

  function LinkBefore<T>(s: seq<T>, k: nat): Option<T> {
    if 0 < k <= |s| then Some(s[k - 1]) else None
  }

  ghost predicate NodeOk(l: Layout, b: nat, k: nat)
    requires b < |l.lists| && k < |l.lists[b]|
  {
    var x := l.lists[b][k];
    && x in l.bb && x in l.prev && x in l.next
    && l.bb[x] == Some(b) && l.prev[x] == LinkBefore(l.lists[b], k) && l.next[x] == LinkAfter(l.lists[b], k)
  }

  ghost predicate ListOk(l: Layout, b: nat)
    requires b < |l.lists| == |l.first| == |l.last|
  {
    && l.first[b] == HeadOf(l.lists[b]) && l.last[b] == LastOf(l.lists[b])
    && (forall k :: 0 <= k < |l.lists[b]| ==> NodeOk(l, b, k))
    && (forall j, k :: 0 <= j < k < |l.lists[b]| ==> l.lists[b][j] != l.lists[b][k])
  }

  ghost predicate LayoutOk(l: Layout) {
    && |l.lists| == |l.first| == |l.last|
    && (forall b :: 0 <= b < |l.lists| ==> ListOk(l, b))
  }

  // An instruction sits in one list, at one place.
  lemma OnePlace(l: Layout, b: nat, j: nat, c: nat, k: nat)
    requires LayoutOk(l) && b < |l.lists| && j < |l.lists[b]| && c < |l.lists| && k < |l.lists[c]|
    requires l.lists[b][j] == l.lists[c][k]
    ensures b == c && j == k
  {
    assert ListOk(l, b) && ListOk(l, c) && NodeOk(l, b, j) && NodeOk(l, c, k);
  }

  // The lists of other blocks do not notice changes to the nodes of block b.
  lemma OtherListOk(l: Layout, l': Layout, b: nat, c: nat)
    requires LayoutOk(l) && |l'.lists| == |l'.first| == |l'.last| == |l.lists| && b < |l.lists| && c < |l.lists|
    requires b != c
    requires l'.lists[c] == l.lists[c] && l'.first[c] == l.first[c] && l'.last[c] == l.last[c]
    requires forall x :: x in l.bb && l.bb[x] == Some(c) ==> x in l'.bb && l'.bb[x] == l.bb[x]
    requires forall x :: x in l.bb && l.bb[x] == Some(c) && x in l.prev ==> x in l'.prev && l'.prev[x] == l.prev[x]
    requires forall x :: x in l.bb && l.bb[x] == Some(c) && x in l.next ==> x in l'.next && l'.next[x] == l.next[x]
    ensures ListOk(l', c)
  {
    assert ListOk(l, c);
    forall k | 0 <= k < |l'.lists[c]| ensures NodeOk(l', c, k) {
      assert NodeOk(l, c, k);
    }
  }

  // The k-th instruction of b, unlinked.
  function Unlinked(l: Layout, b: nat, k: nat): Layout
    requires b < |l.lists| == |l.first| == |l.last| && k < |l.lists[b]|
  {
    var s := l.lists[b];
    var i := s[k];
    Layout(
      l.bb[i := None],
      (if k + 1 < |s| then l.prev[s[k + 1] := LinkBefore(s, k)] else l.prev)[i := None],
      (if k > 0 then l.next[s[k - 1] := LinkAfter(s, k)] else l.next)[i := None],
      if k == 0 then l.first[b := LinkAfter(s, k)] else l.first,
      if k + 1 == |s| then l.last[b := LinkBefore(s, k)] else l.last,
      l.lists[b := s[..k] + s[k + 1..]])
  }

  lemma UnlinkedOk(l: Layout, b: nat, k: nat)
    requires LayoutOk(l) && b < |l.lists| && k < |l.lists[b]|
    ensures LayoutOk(Unlinked(l, b, k))
  {
    var l' := Unlinked(l, b, k);
    var s, s' := l.lists[b], l'.lists[b];
    assert ListOk(l, b) && NodeOk(l, b, k);
    assert k + 1 < |s| ==> NodeOk(l, b, k + 1);
    assert k > 0 ==> NodeOk(l, b, k - 1);
    forall c | 0 <= c < |l'.lists| ensures ListOk(l', c) {
      if c == b {
        UnlinkedNodes(l, b, k);
      } else {
        OtherListOk(l, l', b, c);
      }
    }
  }

  lemma UnlinkedNodes(l: Layout, b: nat, k: nat)
    requires LayoutOk(l) && b < |l.lists| && k < |l.lists[b]|
    ensures ListOk(Unlinked(l, b, k), b)
  {
    var l' := Unlinked(l, b, k);
    var s, s' := l.lists[b], l'.lists[b];
    assert ListOk(l, b);
    forall j | 0 <= j < |s'| ensures NodeOk(l', b, j) {
      assert NodeOk(l, b, if j < k then j else j + 1);
      assert s'[j] == s[if j < k then j else j + 1];
    }
  }

  // The k-th instruction of b, between two others, with a new one in its place.
  function Replaced(l: Layout, b: nat, k: nat, x: nat): Layout
    requires b < |l.lists| == |l.first| == |l.last| && 0 < k < |l.lists[b]| - 1
  {
    var s := l.lists[b];
    var i := s[k];
    var s': seq<nat> := s[k := x];
    Layout(
      l.bb[x := Some(b)][i := None],
      l.prev[x := Some(s[k - 1])][s[k + 1] := Some(x)][i := None],
      l.next[x := Some(s[k + 1])][s[k - 1] := Some(x)][i := None],
      l.first, l.last, l.lists[b := s'])
  }

  ghost predicate Unplaced(l: Layout, x: nat) {
    x !in l.bb || l.bb[x] == None
  }

  lemma ReplacedOk(l: Layout, b: nat, k: nat, x: nat)
    requires LayoutOk(l) && b < |l.lists| && 0 < k < |l.lists[b]| - 1 && Unplaced(l, x)
    ensures LayoutOk(Replaced(l, b, k, x))
  {
    var l' := Replaced(l, b, k, x);
    assert ListOk(l, b) && NodeOk(l, b, k) && NodeOk(l, b, k + 1) && NodeOk(l, b, k - 1);
    forall c | 0 <= c < |l'.lists| ensures ListOk(l', c) {
      if c == b {
        ReplacedNodes(l, b, k, x);
      } else {
        OtherListOk(l, l', b, c);
      }
    }
  }

  lemma ReplacedNodes(l: Layout, b: nat, k: nat, x: nat)
    requires LayoutOk(l) && b < |l.lists| && 0 < k < |l.lists[b]| - 1 && Unplaced(l, x)
    ensures ListOk(Replaced(l, b, k, x), b)
  {
    hide NodeOk;
    var l' := Replaced(l, b, k, x);
    var s := l.lists[b];
    assert ListOk(l, b);
    forall j | 0 <= j < |s| ensures NodeOk(l', b, j) && s[j] != x {
      ReplacedNode(l, b, k, x, j);
    }
  }

  lemma ReplacedNode(l: Layout, b: nat, k: nat, x: nat, j: nat)
    requires |l.lists| == |l.first| == |l.last| && b < |l.lists| && ListOk(l, b)
    requires 0 < k < |l.lists[b]| - 1 && Unplaced(l, x) && j < |l.lists[b]|
    ensures NodeOk(Replaced(l, b, k, x), b, j) && l.lists[b][j] != x
  {
    assert NodeOk(l, b, j) && NodeOk(l, b, k) && NodeOk(l, b, k + 1) && NodeOk(l, b, k - 1);
  }

  // A new instruction in front of the k-th one of b.
  function Prepended(l: Layout, b: nat, k: nat, x: nat): Layout
    requires b < |l.lists| == |l.first| == |l.last| && 0 < k < |l.lists[b]|
  {
    var s := l.lists[b];
    Layout(
      l.bb[x := Some(b)], l.prev[x := Some(s[k - 1])][s[k] := Some(x)], l.next[x := Some(s[k])][s[k - 1] := Some(x)],
      l.first, l.last, l.lists[b := s[..k] + [x] + s[k..]])
  }

  lemma PrependedOk(l: Layout, b: nat, k: nat, x: nat)
    requires LayoutOk(l) && b < |l.lists| && 0 < k < |l.lists[b]| && Unplaced(l, x)
    ensures LayoutOk(Prepended(l, b, k, x))
  {
    var l' := Prepended(l, b, k, x);
    assert ListOk(l, b) && NodeOk(l, b, k) && NodeOk(l, b, k - 1);
    forall c | 0 <= c < |l'.lists| ensures ListOk(l', c) {
      if c == b {
        PrependedNodes(l, b, k, x);
      } else {
        OtherListOk(l, l', b, c);
      }
    }
  }

  lemma PrependedNodes(l: Layout, b: nat, k: nat, x: nat)
    requires LayoutOk(l) && b < |l.lists| && 0 < k < |l.lists[b]| && Unplaced(l, x)
    ensures ListOk(Prepended(l, b, k, x), b)
  {
    var l' := Prepended(l, b, k, x);
    var s, s' := l.lists[b], l'.lists[b];
    assert ListOk(l, b);
    forall j | 0 <= j < |s'| ensures NodeOk(l', b, j) {
      PrependedNode(l, b, k, x, j);
    }
    forall i, j | 0 <= i < j < |s'| ensures s'[i] != s'[j] {
      PrependedDistinct(l, b, k, x, i, j);
    }
  }

  lemma PrependedDistinct(l: Layout, b: nat, k: nat, x: nat, i: nat, j: nat)
    requires |l.lists| == |l.first| == |l.last| && b < |l.lists| && ListOk(l, b)
    requires 0 < k < |l.lists[b]| && Unplaced(l, x) && i < j <= |l.lists[b]|
    ensures Prepended(l, b, k, x).lists[b][i] != Prepended(l, b, k, x).lists[b][j]
  {
    var i', j' := if i < k then i else i - 1, if j < k then j else j - 1;
    assert i != k ==> NodeOk(l, b, i');
    assert j != k ==> NodeOk(l, b, j');
  }

  lemma PrependedNode(l: Layout, b: nat, k: nat, x: nat, j: nat)
    requires |l.lists| == |l.first| == |l.last| && b < |l.lists| && ListOk(l, b)
    requires 0 < k < |l.lists[b]| && Unplaced(l, x) && j <= |l.lists[b]|
    ensures NodeOk(Prepended(l, b, k, x), b, j)
  {
    var s, s' := l.lists[b], Prepended(l, b, k, x).lists[b];
    assert NodeOk(l, b, k) && NodeOk(l, b, k - 1);
    if j != k {
      var j' := if j < k then j else j - 1;
      assert NodeOk(l, b, j') && s'[j] == s[j'];
    }
    assert LinkBefore(s', j) == if j == k + 1 then Some(x) else if j <= k then LinkBefore(s, j)
      else LinkBefore(s, j - 1);
    assert LinkAfter(s', j) ==
           if j == k - 1 then Some(x) else if j < k then LinkAfter(s, j) else if j == k then Some(s[k])
             else LinkAfter(s, j - 1);
  }

  // A new instruction at the end of b.
  function Pushed(l: Layout, b: nat, x: nat): Layout
    requires b < |l.lists| == |l.first| == |l.last|
  {
    var s := l.lists[b];
    Layout(
      l.bb[x := Some(b)], l.prev[x := LastOf(s)],
        (if s == [] then l.next else l.next[s[|s| - 1] := Some(x)])[x := None],
      if s == [] then l.first[b := Some(x)] else l.first, l.last[b := Some(x)], l.lists[b := s + [x]])
  }

  lemma PushedOk(l: Layout, b: nat, x: nat)
    requires LayoutOk(l) && b < |l.lists| && Unplaced(l, x)
    ensures LayoutOk(Pushed(l, b, x))
  {
    var l' := Pushed(l, b, x);
    assert ListOk(l, b);
    assert l.lists[b] != [] ==> NodeOk(l, b, |l.lists[b]| - 1);
    forall c | 0 <= c < |l'.lists| ensures ListOk(l', c) {
      if c == b {
        PushedNodes(l, b, x);
      } else {
        OtherListOk(l, l', b, c);
      }
    }
  }

  lemma PushedNodes(l: Layout, b: nat, x: nat)
    requires LayoutOk(l) && b < |l.lists| && Unplaced(l, x)
    ensures ListOk(Pushed(l, b, x), b)
  {
    var l' := Pushed(l, b, x);
    var s, s' := l.lists[b], l'.lists[b];
    assert ListOk(l, b);
    forall j | 0 <= j < |s| ensures NodeOk(l', b, j) && s[j] != x {
      assert NodeOk(l, b, j) && NodeOk(l, b, |s| - 1) && s'[j] == s[j];
      assert LinkBefore(s', j) == LinkBefore(s, j);
    }
    assert NodeOk(l', b, |s|);
  }
}
