// The mutable instruction graph: operand slots with their user chains, and the instruction lists of the
// blocks, changed in place by pointer assignments.
module InstructionGraph {
  import opened Cfg
  import opened FiniteSets
  import opened Ir
  import opened DefUse
  import opened BlockLists
  import opened Rewrite
  import opened Ssa
  import opened DominatorTree
  import opened Dominance

  // The fields of an instruction that its operands do not hold.
  datatype Attr = Attr(op: Opcode, ty: Type, imm: bv64, cond: If)

  type Slots = map<nat, seq<Option<nat>>>

  function OperandIds(slots: seq<Option<nat>>): (ids: seq<nat>)
    ensures |ids| == |slots|
  {
    seq(|slots|, j requires 0 <= j < |slots| => if slots[j].Some? then slots[j].value else 0)
  }

  function AbsInst(a: Attr, slots: seq<Option<nat>>): Inst {
    Inst(a.op, a.ty, a.imm, a.cond, OperandIds(slots))
  }

  // The block of x is known; a missing entry is a null pointer.
  predicate IsPlaced(bb: map<nat, Option<nat>>, x: nat) {
    x in bb && bb[x].Some?
  }

  // The program the pointers represent.
  function AbsOf(g: Graph, phis: seq<seq<nat>>, l: Layout, attrs: map<nat, Attr>, inputs: Slots): Program {
    Program(g, phis, l.lists, map x | x in attrs && x in inputs && IsPlaced(l.bb, x) :: AbsInst(attrs[x], inputs[x]))
  }

  // Instructions in blocks are in use, and their blocks list them.
  ghost predicate PlacesOk(l: Layout, phis: seq<seq<nat>>, n: nat, active: set<nat>) {
    && |l.lists| == |phis| == n
    && (forall x: nat :: IsPlaced(l.bb, x) ==> PlaceOk(l, phis, n, active, x))
    && (forall x: nat, b: nat :: b < n && x in phis[b] ==> PhiPlaceOk(l, b, x))
  }

  ghost predicate PhiPlaceOk(l: Layout, b: nat, x: nat)
    requires b < |l.lists|
  {
    x in l.bb && l.bb[x] == Some(b) && x !in l.lists[b]
  }

  ghost predicate PlaceOk(l: Layout, phis: seq<seq<nat>>, n: nat, active: set<nat>, x: nat)
    requires |l.lists| == |phis| == n && IsPlaced(l.bb, x)
  {
    x in active && l.bb[x].value < n && (x in l.lists[l.bb[x].value] || x in phis[l.bb[x].value])
  }

  ghost predicate IdsOk(active: set<nat>, attrs: map<nat, Attr>, bb: map<nat, Option<nat>>, nextId: nat) {
    && (forall x :: x in active ==> x in attrs && x < nextId)
    && (forall x :: x in bb ==> x < nextId)
  }

  ghost predicate SlotsFilled(inputs: Slots, x: nat) {
    x in inputs && forall j :: 0 <= j < |inputs[x]| ==> inputs[x][j].Some?
  }

  // No instruction in a block has an empty operand slot.
  ghost predicate AllFilled(bb: map<nat, Option<nat>>, inputs: Slots) {
    forall x :: IsPlaced(bb, x) ==> SlotsFilled(inputs, x)
  }

  // The slots that held i hold v.
  function SlotTo(s: Option<nat>, i: nat, v: nat): Option<nat> {
    if s == Some(i) then Some(v) else s
  }

  ghost predicate SlotsTo(before: seq<Option<nat>>, after: seq<Option<nat>>, i: nat, v: nat) {
    |before| == |after| && forall j :: 0 <= j < |before| ==> after[j] == SlotTo(before[j], i, v)
  }

  ghost predicate InputsTo(before: Slots, after: Slots, active: set<nat>, i: nat, v: nat) {
    && before.Keys == after.Keys
    && (forall x :: x in before && x in active && x != i ==> SlotsTo(before[x], after[x], i, v))
  }

  // Writing v into the slots `done`.
  ghost predicate SlotsWritten(before: Slots, after: Slots, done: seq<User>, v: nat) {
    && before.Keys == after.Keys
    && (forall x :: x in before ==> |after[x]| == |before[x]|)
    && (forall x, j :: x in before && 0 <= j < |before[x]| ==>
          after[x][j] == if User(x, j) in done then Some(v) else before[x][j])
  }

  lemma WriteSlot(before: Slots, after: Slots, s: seq<User>, m: nat, v: nat)
    requires m < |s| && SlotsWritten(before, after, s[..m], v)
    requires s[m].inst in after && s[m].idx < |after[s[m].inst]|
    ensures SlotsWritten(before, after[s[m].inst := after[s[m].inst][s[m].idx := Some(v)]], s[..m + 1], v)
  {
    assert s[..m + 1] == s[..m] + [s[m]];
  }

  // The users in the slots of i below n, left out.
  function WithoutSlots(s: seq<User>, i: nat, n: nat): seq<User> {
    if s == [] then []
    else if s[0].inst == i && s[0].idx < n then WithoutSlots(s[1..], i, n)
    else [s[0]] + WithoutSlots(s[1..], i, n)
  }

  lemma {:induction false} WithoutSlotsNone(s: seq<User>, i: nat)
    ensures WithoutSlots(s, i, 0) == s
  {
    if s != [] {
      WithoutSlotsNone(s[1..], i);
    }
  }

  lemma {:induction false} WithoutSlotsStep(s: seq<User>, i: nat, n: nat)
    ensures WithoutSlots(s, i, n + 1) == Without(WithoutSlots(s, i, n), User(i, n))
  {
    if s != [] {
      WithoutSlotsStep(s[1..], i, n);
    }
  }

  lemma ConsistentMember(u: Uses, active: set<nat>, gone: set<User>, x: nat)
    requires Consistent(u, active, gone) && x in active
    ensures x in u.inputs && x in u.firstUser && x in u.chains
    ensures ChainOk(u, x) && Exact(u, active, gone, x)
  {
  }

  lemma SlotInChain(u: Uses, active: set<nat>, gone: set<User>, s: User, x: nat)
    requires Consistent(u, active, gone) && Holds(u, active, s, x) && s !in gone
    ensures x in active && x in u.chains && s in u.chains[x]
  {
    assert Exact(u, active, gone, x);
  }

  lemma NotInChain(u: Uses, active: set<nat>, gone: set<User>, s: User, x: nat, y: nat)
    requires Consistent(u, active, gone) && Holds(u, active, s, x) && y in active && y != x
    ensures y in u.chains && s !in u.chains[y]
  {
    assert Exact(u, active, gone, y);
  }

  lemma SpellsAt(next: map<User, Option<User>>, head: Option<User>, s: seq<User>, k: nat)
    requires Spells(next, head, s) && k < |s|
    ensures s[k] in next && next[s[k]] == LinkAfter(s, k)
  {
  }

  lemma MoreActive(l: Layout, phis: seq<seq<nat>>, n: nat, active: set<nat>, x: nat)
    requires PlacesOk(l, phis, n, active)
    ensures PlacesOk(l, phis, n, active + {x})
  {
    forall y: nat | IsPlaced(l.bb, y) ensures PlaceOk(l, phis, n, active + {x}, y) {
      assert PlaceOk(l, phis, n, active, y);
    }
  }

  lemma SlotsBelowStep(i: nat, j: nat)
    ensures SlotsBelow(i, j + 1) == SlotsBelow(i, j) + {User(i, j)}
  {
  }

  lemma SpellsHead(next: map<User, Option<User>>, head: Option<User>, s: seq<User>)
    requires Spells(next, head, s)
    ensures head == HeadOf(s)
  {
  }

  // A user goes from the chain of x to the front of that of y.
  function Moved(chains: map<nat, seq<User>>, user: User, x: nat, y: nat): map<nat, seq<User>>
    requires x in chains && y in chains
  {
    var rest := chains[x := Without(chains[x], user)];
    rest[y := [user] + rest[y]]
  }

  lemma HeadUser(u: Uses, x: nat)
    requires ChainOk(u, x) && u.chains[x] != []
    ensures x in u.firstUser && u.firstUser[x] == Some(u.chains[x][0]) && NoDuplicates(u.chains[x])
    ensures Spells(u.nextUser, HeadOf(u.chains[x]), u.chains[x])
    ensures forall k :: 0 <= k < |u.chains[x]| ==> u.chains[x][k] in u.nextUser
  {
  }

  lemma ChainSlot(u: Uses, active: set<nat>, gone: set<User>, x: nat, m: nat)
    requires x in u.chains && Exact(u, active, gone, x) && m < |u.chains[x]|
    ensures u.chains[x][m].inst in u.inputs && u.chains[x][m].idx < |u.inputs[u.chains[x][m].inst]|
  {
    assert u.chains[x][m] in u.chains[x];
  }

  // What the links of the k-th instruction of b and of its neighbours are.
  lemma NodeAt(l: Layout, b: nat, k: nat)
    requires LayoutOk(l) && b < |l.lists| && k < |l.lists[b]|
    ensures |l.lists| == |l.first| == |l.last|
    ensures NodeOk(l, b, k)
    ensures l.first[b] == Some(l.lists[b][k]) <==> k == 0
    ensures l.last[b] == Some(l.lists[b][k]) <==> k == |l.lists[b]| - 1
    ensures k > 0 ==> l.lists[b][k - 1] != l.lists[b][k]
    ensures k + 1 < |l.lists[b]| ==> l.lists[b][k + 1] != l.lists[b][k]
  {
    assert ListOk(l, b);
  }

  lemma InUse(l: Layout, phis: seq<seq<nat>>, n: nat, active: set<nat>, b: nat, k: nat)
    requires LayoutOk(l) && PlacesOk(l, phis, n, active) && b < |l.lists| && k < |l.lists[b]|
    ensures l.lists[b][k] in active && b < n && IsPlaced(l.bb, l.lists[b][k]) && l.bb[l.lists[b][k]] == Some(b)
    ensures |l.first| == |l.last| == |l.lists| == n
  {
    NodeAt(l, b, k);
    assert PlaceOk(l, phis, n, active, l.lists[b][k]);
  }

  // A chain that holds no slot of i is not affected when i's slots leave.
  lemma OwnSlotsOnly(u: Uses, active: set<nat>, i: nat)
    requires Consistent(u, active, {}) && i in active && i in u.inputs && Some(i) !in u.inputs[i]
    ensures i in u.chains && WithoutSlots(u.chains[i], i, |u.inputs[i]|) == u.chains[i]
  {
    ConsistentMember(u, active, {}, i);
    forall s | s in u.chains[i] ensures s.inst != i {
      assert Holds(u, active, s, i);
    }
    WithoutSlotsOther(u.chains[i], i, |u.inputs[i]|);
  }

  lemma {:induction false} WithoutSlotsOther(s: seq<User>, i: nat, n: nat)
    requires forall w :: w in s ==> w.inst != i
    ensures WithoutSlots(s, i, n) == s
  {
    if s != [] {
      WithoutSlotsOther(s[1..], i, n);
    }
  }

  lemma RedirectedInputs(u: Uses, u': Uses, active: set<nat>, i: nat, v: nat)
    requires i in active && v in active && i in u.inputs
    requires Consistent(u, active, SlotsBelow(i, |u.inputs[i]|))
    requires i in u.chains && v in u.chains && i in u.firstUser && v in u.firstUser && Redirected(u, u', i, v)
    ensures InputsTo(u.inputs, u'.inputs, active, i, v)
    ensures u'.chains == u.chains[v := u.chains[i] + u.chains[v]]
  {
    assert Exact(u, active, SlotsBelow(i, |u.inputs[i]|), i);
    forall x | x in u.inputs && x in active && x != i ensures SlotsTo(u.inputs[x], u'.inputs[x], i, v) {
      forall j | 0 <= j < |u.inputs[x]| ensures u'.inputs[x][j] == SlotTo(u.inputs[x][j], i, v) {
        assert User(x, j) in u.chains[i] <==> Holds(u, active, User(x, j), i);
      }
    }
  }

  lemma LessActive(active: set<nat>, attrs: map<nat, Attr>, bb: map<nat, Option<nat>>, bb': map<nat, Option<nat>>,
                   nextId: nat, i: nat, v: nat)
    requires IdsOk(active, attrs, bb, nextId) && v in active && bb'.Keys <= bb.Keys + {v}
    ensures IdsOk(active, attrs, bb', nextId) && IdsOk(active - {i}, attrs, bb', nextId)
  {
  }

  lemma SwappedPlaces(l: Layout, l': Layout, phis: seq<seq<nat>>, n: nat, active: set<nat>, b: nat, k: nat, v: nat)
    requires LayoutOk(l) && PlacesOk(l, phis, n, active) && b < |l.lists| && k < |l.lists[b]| && v in active
    requires |l.first| == |l.last| == |l.lists| && (IsPlaced(l.bb, v) || 0 < k < |l.lists[b]| - 1)
    requires l' == if IsPlaced(l.bb, v) then Unlinked(l, b, k) else Replaced(l, b, k, v)
    ensures LayoutOk(l') && PlacesOk(l', phis, n, active - {l.lists[b][k]})
    ensures l'.bb.Keys <= l.bb.Keys + {v}
  {
    hide LayoutOk, PlacesOk;
    InUse(l, phis, n, active, b, k);
    if IsPlaced(l.bb, v) {
      UnlinkedOk(l, b, k);
      UnlinkedPlaces(l, phis, n, active, b, k);
    } else {
      ReplacedOk(l, b, k, v);
      ReplacedPlaces(l, phis, n, active, b, k, v);
    }
  }

  lemma UnlinkedPlaces(l: Layout, phis: seq<seq<nat>>, n: nat, active: set<nat>, b: nat, k: nat)
    requires LayoutOk(l) && PlacesOk(l, phis, n, active) && b < |l.lists| && k < |l.lists[b]|
    requires |l.first| == |l.last| == |l.lists|
    ensures PlacesOk(Unlinked(l, b, k), phis, n, active - {l.lists[b][k]})
  {
    hide LayoutOk, PlaceOk, PhiPlaceOk;
    var l' := Unlinked(l, b, k);
    InUse(l, phis, n, active, b, k);
    forall x: nat, c: nat | c < n && x in phis[c] ensures PhiPlaceOk(l', c, x) {
      assert PhiPlaceOk(l, c, x);
      UnlinkedPhi(l, b, k, c, x);
    }
    forall x: nat | IsPlaced(l'.bb, x) ensures PlaceOk(l', phis, n, active - {l.lists[b][k]}, x) {
      assert IsPlaced(l.bb, x);
      UnlinkedPlace(l, phis, n, active, b, k, x);
    }
  }

  lemma UnlinkedPhi(l: Layout, b: nat, k: nat, c: nat, x: nat)
    requires b < |l.lists| && c < |l.lists| && k < |l.lists[b]| && |l.first| == |l.last| == |l.lists|
    requires PhiPlaceOk(l, c, x) && l.lists[b][k] in l.bb && l.bb[l.lists[b][k]] == Some(b)
    ensures PhiPlaceOk(Unlinked(l, b, k), c, x)
  {
    assert l.lists[b][k] in l.lists[b];
  }

  lemma UnlinkedPlace(l: Layout, phis: seq<seq<nat>>, n: nat, active: set<nat>, b: nat, k: nat, x: nat)
    requires b < |l.lists| == |phis| == n && k < |l.lists[b]| && |l.first| == |l.last| == |l.lists|
    requires IsPlaced(Unlinked(l, b, k).bb, x) && IsPlaced(l.bb, x) && PlaceOk(l, phis, n, active, x)
    ensures PlaceOk(Unlinked(l, b, k), phis, n, active - {l.lists[b][k]}, x)
  {
    if x in l.lists[b] {
      ListedWithout(l.lists[b], k, x);
    }
  }

  lemma ListedWithout(s: seq<nat>, k: nat, x: nat)
    requires k < |s| && x in s && x != s[k]
    ensures x in s[..k] + s[k + 1..]
  {
    var j :| 0 <= j < |s| && s[j] == x;
    assert (s[..k] + s[k + 1..])[if j < k then j else j - 1] == x;
  }

  lemma ListedWith(s: seq<nat>, k: nat, v: nat, x: nat)
    requires k <= |s|
    ensures x in s[..k] + [v] + s[k..] <==> x in s || x == v
  {
    assert s == s[..k] + s[k..];
  }

  lemma ReplacedPlaces(l: Layout, phis: seq<seq<nat>>, n: nat, active: set<nat>, b: nat, k: nat, v: nat)
    requires LayoutOk(l) && PlacesOk(l, phis, n, active) && b < |l.lists| && 0 < k < |l.lists[b]| - 1
    requires |l.first| == |l.last| == |l.lists| && !IsPlaced(l.bb, v) && v in active
    ensures PlacesOk(Replaced(l, b, k, v), phis, n, active - {l.lists[b][k]})
  {
    hide LayoutOk, PlaceOk, PhiPlaceOk;
    var l' := Replaced(l, b, k, v);
    InUse(l, phis, n, active, b, k);
    forall x: nat, c: nat | c < n && x in phis[c] ensures PhiPlaceOk(l', c, x) {
      assert PhiPlaceOk(l, c, x);
      ReplacedPhi(l, b, k, v, c, x);
    }
    forall x: nat | IsPlaced(l'.bb, x) ensures PlaceOk(l', phis, n, active - {l.lists[b][k]}, x) {
      assert x != v ==> IsPlaced(l.bb, x);
      ReplacedPlace(l, phis, n, active, b, k, v, x);
    }
  }

  lemma ReplacedPhi(l: Layout, b: nat, k: nat, v: nat, c: nat, x: nat)
    requires b < |l.lists| && c < |l.lists| && 0 < k < |l.lists[b]| - 1 && |l.first| == |l.last| == |l.lists|
    requires PhiPlaceOk(l, c, x) && l.lists[b][k] in l.bb && l.bb[l.lists[b][k]] == Some(b) && !IsPlaced(l.bb, v)
    ensures PhiPlaceOk(Replaced(l, b, k, v), c, x)
  {
    assert l.lists[b][k] in l.lists[b];
  }

  lemma ReplacedPlace(l: Layout, phis: seq<seq<nat>>, n: nat, active: set<nat>, b: nat, k: nat, v: nat, x: nat)
    requires b < |l.lists| == |phis| == n && 0 < k < |l.lists[b]| - 1 && |l.first| == |l.last| == |l.lists|
    requires IsPlaced(Replaced(l, b, k, v).bb, x) && v in active
    requires l.lists[b][k] in l.bb && l.bb[l.lists[b][k]] == Some(b) && !IsPlaced(l.bb, v)
    requires x != v ==> IsPlaced(l.bb, x) && PlaceOk(l, phis, n, active, x)
    ensures PlaceOk(Replaced(l, b, k, v), phis, n, active - {l.lists[b][k]}, x)
  {
    if x == v {
      assert Replaced(l, b, k, v).lists[b][k] == v;
    } else if x in l.lists[b] {
      StillListed(l.lists[b], k, v, x);
    }
  }

  lemma StillListed(s: seq<nat>, k: nat, v: nat, x: nat)
    requires k < |s| && x in s && x != s[k]
    ensures x in s[k := v]
  {
    var j :| 0 <= j < |s| && s[j] == x;
    assert s[k := v][j] == x;
  }

  lemma PrependedPlaces(l: Layout, phis: seq<seq<nat>>, n: nat, active: set<nat>, b: nat, k: nat, v: nat)
    requires LayoutOk(l) && PlacesOk(l, phis, n, active) && b < |l.lists| && 0 < k < |l.lists[b]|
    requires |l.first| == |l.last| == |l.lists| && !IsPlaced(l.bb, v) && v in active
    ensures PlacesOk(Prepended(l, b, k, v), phis, n, active)
  {
    hide LayoutOk, PlaceOk, PhiPlaceOk;
    var l' := Prepended(l, b, k, v);
    InUse(l, phis, n, active, b, k);
    forall x: nat, c: nat | c < n && x in phis[c] ensures PhiPlaceOk(l', c, x) {
      assert PhiPlaceOk(l, c, x);
      PrependedPhi(l, b, k, v, c, x);
    }
    forall x: nat | IsPlaced(l'.bb, x) ensures PlaceOk(l', phis, n, active, x) {
      assert x != v ==> IsPlaced(l.bb, x);
      PrependedPlace(l, phis, n, active, b, k, v, x);
    }
  }

  lemma PrependedPhi(l: Layout, b: nat, k: nat, v: nat, c: nat, x: nat)
    requires b < |l.lists| && c < |l.lists| && 0 < k < |l.lists[b]| && |l.first| == |l.last| == |l.lists|
    requires PhiPlaceOk(l, c, x) && !IsPlaced(l.bb, v)
    ensures PhiPlaceOk(Prepended(l, b, k, v), c, x)
  {
    ListedWith(l.lists[b], k, v, x);
  }

  lemma PrependedPlace(l: Layout, phis: seq<seq<nat>>, n: nat, active: set<nat>, b: nat, k: nat, v: nat, x: nat)
    requires b < |l.lists| == |phis| == n && 0 < k < |l.lists[b]| && |l.first| == |l.last| == |l.lists|
    requires IsPlaced(Prepended(l, b, k, v).bb, x) && v in active && !IsPlaced(l.bb, v)
    requires x != v ==> IsPlaced(l.bb, x) && PlaceOk(l, phis, n, active, x)
    ensures PlaceOk(Prepended(l, b, k, v), phis, n, active, x)
  {
    ListedWith(l.lists[b], k, v, x);
  }

  lemma PushedPlaces(l: Layout, phis: seq<seq<nat>>, n: nat, active: set<nat>, b: nat, v: nat)
    requires LayoutOk(l) && PlacesOk(l, phis, n, active) && b < n && !IsPlaced(l.bb, v) && v in active
    ensures PlacesOk(Pushed(l, b, v), phis, n, active)
  {
    hide LayoutOk;
    BlockHead(l, phis, n, active, b);
    var l' := Pushed(l, b, v);
    forall x: nat, c: nat | c < n && x in phis[c] ensures PhiPlaceOk(l', c, x) {
      assert PhiPlaceOk(l, c, x);
    }
    forall x: nat | IsPlaced(l'.bb, x) ensures PlaceOk(l', phis, n, active, x) {
      assert x != v ==> IsPlaced(l.bb, x) && PlaceOk(l, phis, n, active, x);
    }
  }

  // ---------------------------------------------------------------- the graph before instructions are added

  // The block that lists x as a phi.
  function PhiBlock(phis: seq<seq<nat>>, x: nat): (b: Option<nat>)
    ensures b.Some? ==> b.value < |phis| && x in phis[b.value]
    ensures b == None ==> forall c :: 0 <= c < |phis| ==> x !in phis[c]
  {
    if phis == [] then None
    else
      var n := |phis| - 1;
      if x in phis[n] then Some(n) else PhiBlock(phis[..n], x)
  }

  ghost predicate PhiIdsOk(phis: seq<seq<nat>>, n: nat) {
    && (forall b, x :: 0 <= b < |phis| && x in phis[b] ==> x < n)
    && (forall b, c, x :: 0 <= b < |phis| && 0 <= c < |phis| && x in phis[b] && x in phis[c] ==> b == c)
  }

  function NoInsts(phis: seq<seq<nat>>, n: nat): Layout {
    Layout(map x | x in UpTo(n) :: PhiBlock(phis, x), map[], map[],
           seq(|phis|, _ => None), seq(|phis|, _ => None), seq(|phis|, _ => []))
  }

  lemma NoInstsOk(phis: seq<seq<nat>>, n: nat, active: set<nat>)
    requires PhiIdsOk(phis, n) && forall x: nat :: x < n ==> x in active
    ensures LayoutOk(NoInsts(phis, n)) && PlacesOk(NoInsts(phis, n), phis, |phis|, active)
  {
    var l := NoInsts(phis, n);
    forall x: nat, b: nat | b < |phis| && x in phis[b] ensures PhiPlaceOk(l, b, x) {
      assert PhiBlock(phis, x).Some?;
    }
    forall x: nat | IsPlaced(l.bb, x) ensures PlaceOk(l, phis, |phis|, active, x) {
    }
  }

  // No slot holds anything yet.
  function NoUses(preds: seq<seq<nat>>, phis: seq<seq<nat>>, n: nat): Uses
    requires |preds| == |phis|
  {
    Uses(map x | x in UpTo(n) :: (var b := PhiBlock(phis, x); Nones(if b.Some? then |preds[b.value]| else 0)),
         map x | x in UpTo(n) :: None, map[], map x | x in UpTo(n) :: [])
  }

  lemma NoUsesConsistent(preds: seq<seq<nat>>, phis: seq<seq<nat>>, n: nat, active: set<nat>)
    requires |preds| == |phis| && forall x :: x in active ==> x < n
    ensures Consistent(NoUses(preds, phis, n), active, {})
  {
    var u := NoUses(preds, phis, n);
    forall x | x in active ensures x in u.inputs && ChainOk(u, x) && Exact(u, active, {}, x) {
    }
  }

  function PhiAttrs(n: nat): map<nat, Attr> {
    map x | x in UpTo(n) :: Attr(Phi, UNKNOWN, 0, EQ)
  }

  lemma PhiAttrsOk(phis: seq<seq<nat>>, n: nat)
    ensures IdsOk(UpTo(n), PhiAttrs(n), NoInsts(phis, n).bb, n)
  {
  }

  lemma StillFilled(before: Slots, after: Slots, x: nat)
    requires SlotsFilled(before, x) && x in after && after[x] == before[x]
    ensures SlotsFilled(after, x)
  {
  }

  lemma NextIdFresh(active: set<nat>, attrs: map<nat, Attr>, bb: map<nat, Option<nat>>, nextId: nat, attr: Attr)
    requires IdsOk(active, attrs, bb, nextId)
    ensures nextId !in active && nextId !in bb && IdsOk(active + {nextId}, attrs[nextId := attr], bb, nextId + 1)
  {
  }

  lemma EmptyOk(g: Graph, phis: seq<seq<nat>>, n: nat)
    requires g.Valid() && |phis| == g.Size() && PhiIdsOk(phis, n)
    ensures LayoutOk(NoInsts(phis, n)) && PlacesOk(NoInsts(phis, n), phis, g.Size(), UpTo(n))
    ensures Consistent(NoUses(g.preds, phis, n), UpTo(n), {}) && IdsOk(UpTo(n), PhiAttrs(n), NoInsts(phis, n).bb, n)
  {
    hide LayoutOk, PlacesOk, Consistent, IdsOk, NoUses, NoInsts, PhiAttrs, PhiIdsOk;
    NoUsesConsistent(g.preds, phis, n, UpTo(n));
    NoInstsOk(phis, n, UpTo(n));
    PhiAttrsOk(phis, n);
  }

  lemma BlockHead(l: Layout, phis: seq<seq<nat>>, n: nat, active: set<nat>, b: nat)
    requires LayoutOk(l) && PlacesOk(l, phis, n, active) && b < n
    ensures |l.first| == |l.last| == |l.lists| == n
    ensures l.first[b] == HeadOf(l.lists[b]) && l.last[b] == LastOf(l.lists[b])
  {
    assert ListOk(l, b);
  }

  lemma IsFilled(bb: map<nat, Option<nat>>, inputs: Slots, x: nat)
    requires AllFilled(bb, inputs) && IsPlaced(bb, x)
    ensures SlotsFilled(inputs, x)
  {
  }

  lemma ActiveAttrs(active: set<nat>, attrs: map<nat, Attr>, bb: map<nat, Option<nat>>, nextId: nat)
    requires IdsOk(active, attrs, bb, nextId)
    ensures forall x :: x in active ==> x in attrs
  {
  }

  // ---------------------------------------------------------------- what a replacement does to the program

  ghost predicate KeptInst(attrs: map<nat, Attr>, attrs': map<nat, Attr>, inputs: Slots, inputs': Slots,
                           i: nat, v: nat, x: nat)
  {
    && x in attrs && x in attrs' && attrs'[x] == attrs[x]
    && x in inputs && x in inputs' && SlotsTo(inputs[x], inputs'[x], i, v)
  }

  // The pointers changed as the edit describes.
  ghost predicate Edited(l: Layout, l': Layout, attrs: map<nat, Attr>, attrs': map<nat, Attr>,
                         inputs: Slots, inputs': Slots, e: Edit)
    requires e.b < |l.lists| && e.k < |l.lists[e.b]|
  {
    var i := l.lists[e.b][e.k];
    && l'.lists == l.lists[e.b := l.lists[e.b][..e.k] + e.added + l.lists[e.b][e.k + 1..]]
    && (forall x: nat :: IsPlaced(l'.bb, x) <==> (IsPlaced(l.bb, x) && x != i) || x in e.defs)
    && (forall x: nat :: IsPlaced(l.bb, x) && x != i ==> KeptInst(attrs, attrs', inputs, inputs', i, e.v, x))
    && (forall x: nat :: x in e.defs ==> x in attrs' && x in inputs' && e.defs[x] == AbsInst(attrs'[x], inputs'[x]))
    && (forall x: nat :: x in e.defs ==> SlotsFilled(inputs', x))
  }

  lemma IdsRedirected(before: seq<Option<nat>>, after: seq<Option<nat>>, i: nat, v: nat)
    requires SlotsTo(before, after, i, v) && forall j :: 0 <= j < |before| ==> before[j].Some?
    ensures OperandIds(after) == RedirectAll(OperandIds(before), i, v)
  {
  }

  lemma EditedAbs(g: Graph, phis: seq<seq<nat>>, l: Layout, l': Layout, attrs: map<nat, Attr>, attrs': map<nat, Attr>,
                  inputs: Slots, inputs': Slots, e: Edit)
    requires e.b < |l.lists| && e.k < |l.lists[e.b]| && Edited(l, l', attrs, attrs', inputs, inputs', e)
    requires AllFilled(l.bb, inputs) && forall x :: x in e.defs ==> !IsPlaced(l.bb, x)
    ensures AbsOf(g, phis, l', attrs', inputs') == Apply(AbsOf(g, phis, l, attrs, inputs), e)
    ensures AllFilled(l'.bb, inputs')
  {
    hide SlotsTo, OperandIds, RedirectAll;
    var i := l.lists[e.b][e.k];
    var a, a' := Apply(AbsOf(g, phis, l, attrs, inputs), e).insts, AbsOf(g, phis, l', attrs', inputs').insts;
    forall x: nat ensures x in a <==> x in a' {
      assert IsPlaced(l.bb, x) && x != i ==> KeptInst(attrs, attrs', inputs, inputs', i, e.v, x);
    }
    forall x | x in a ensures a[x] == a'[x] {
      if x !in e.defs {
        assert KeptInst(attrs, attrs', inputs, inputs', i, e.v, x) && SlotsFilled(inputs, x);
        IdsRedirected(inputs[x], inputs'[x], i, e.v);
      }
    }
    forall x: nat | IsPlaced(l'.bb, x) ensures SlotsFilled(inputs', x) {
      if x !in e.defs {
        assert KeptInst(attrs, attrs', inputs, inputs', i, e.v, x) && SlotsFilled(inputs, x);
        FilledKept(inputs, inputs', i, e.v, x);
      }
    }
  }

  lemma FilledKept(inputs: Slots, inputs': Slots, i: nat, v: nat, x: nat)
    requires SlotsFilled(inputs, x) && x in inputs' && SlotsTo(inputs[x], inputs'[x], i, v)
    ensures SlotsFilled(inputs', x)
  {
  }

  // Replacing i by an instruction that has a place already.
  lemma ValueEdited(l: Layout, phis: seq<seq<nat>>, n: nat, active: set<nat>, attrs: map<nat, Attr>,
                    inputs: Slots, inputs': Slots, b: nat, k: nat, v: nat)
    requires LayoutOk(l) && PlacesOk(l, phis, n, active) && b < |l.lists| && k < |l.lists[b]|
    requires |l.first| == |l.last| == |l.lists| && AllFilled(l.bb, inputs)
    requires InputsTo(inputs, inputs', active, l.lists[b][k], v) && forall x :: x in active ==> x in attrs
    ensures Edited(l, Unlinked(l, b, k), attrs, attrs, inputs, inputs', Edit(b, k, [], map[], v))
  {
    hide LayoutOk, SlotsTo;
    var i := l.lists[b][k];
    assert l.lists[b][..k] + [] == l.lists[b][..k];
    forall x: nat | IsPlaced(l.bb, x) && x != i ensures KeptInst(attrs, attrs, inputs, inputs', i, v, x) {
      assert PlaceOk(l, phis, n, active, x) && SlotsFilled(inputs, x);
    }
  }

  function Somes(xs: seq<nat>): (r: seq<Option<nat>>)
    ensures |r| == |xs|
  {
    seq(|xs|, j requires 0 <= j < |xs| => Some(xs[j]))
  }

  lemma SomesIds(xs: seq<nat>)
    ensures OperandIds(Somes(xs)) == xs
  {
  }

  // Replacing i, between two others, by a fresh instruction x.
  lemma FreshEdited(l: Layout, phis: seq<seq<nat>>, n: nat, active: set<nat>, attrs: map<nat, Attr>, a: Attr,
                    inputs: Slots, inputs': Slots, xs: seq<nat>, b: nat, k: nat, x: nat)
    requires LayoutOk(l) && PlacesOk(l, phis, n, active) && b < |l.lists| && 0 < k < |l.lists[b]| - 1
    requires |l.first| == |l.last| == |l.lists| && AllFilled(l.bb, inputs) && x !in active
    requires InputsTo(inputs[x := []], inputs'[x := []], active + {x}, l.lists[b][k], x) && x in inputs'
    requires inputs'[x] == Somes(xs)
    requires forall y :: y in active ==> y in attrs
    ensures Edited(l, Replaced(l, b, k, x), attrs, attrs[x := a], inputs, inputs',
                   FreshEdit(b, k, x, Inst(a.op, a.ty, a.imm, a.cond, xs)))
  {
    hide LayoutOk, SlotsTo, OperandIds;
    InUse(l, phis, n, active, b, k);
    var i := l.lists[b][k];
    assert l.lists[b][k := x] == l.lists[b][..k] + [x] + l.lists[b][k + 1..];
    forall y: nat | IsPlaced(l.bb, y) && y != i ensures KeptInst(attrs, attrs[x := a], inputs, inputs', i, x, y) {
      assert PlaceOk(l, phis, n, active, y) && SlotsFilled(inputs, y);
    }
    SomesIds(xs);
  }

  lemma FreshAbs(g: Graph, phis: seq<seq<nat>>, l: Layout, active: set<nat>, attrs: map<nat, Attr>, a: Attr,
                 inputs: Slots, inputs': Slots, xs: seq<nat>, b: nat, k: nat, x: nat)
    requires LayoutOk(l) && PlacesOk(l, phis, g.Size(), active) && b < |l.lists| && 0 < k < |l.lists[b]| - 1
    requires |l.first| == |l.last| == |l.lists| && AllFilled(l.bb, inputs) && x !in active && !IsPlaced(l.bb, x)
    requires InputsTo(inputs[x := []], inputs'[x := []], active + {x}, l.lists[b][k], x) && x in inputs'
    requires inputs'[x] == Somes(xs)
    requires forall y :: y in active ==> y in attrs
    ensures var l' := Replaced(l, b, k, x);
            && AllFilled(l'.bb, inputs')
            && AbsOf(g, phis, l', attrs[x := a], inputs') ==
               Apply(AbsOf(g, phis, l, attrs, inputs), FreshEdit(b, k, x, Inst(a.op, a.ty, a.imm, a.cond, xs)))
  {
    hide LayoutOk, PlacesOk, InputsTo, Edited, AllFilled, AbsOf, Apply, Replaced, Somes;
    FreshEdited(l, phis, g.Size(), active, attrs, a, inputs, inputs', xs, b, k, x);
    EditedAbs(g, phis, l, Replaced(l, b, k, x), attrs, attrs[x := a], inputs, inputs',
              FreshEdit(b, k, x, Inst(a.op, a.ty, a.imm, a.cond, xs)));
  }

  // Replacing i, between two others, by two fresh instructions: x in front of y, its only user.
  function PairEdit(b: nat, k: nat, x: nat, y: nat, ax: Attr, xs: seq<nat>, ay: Attr): Edit {
    Edit(b, k, [x, y], map[x := Inst(ax.op, ax.ty, ax.imm, ax.cond, xs), y := Inst(ay.op, ay.ty, ay.imm, ay.cond, [x])],
      y)
  }

  lemma PairEdited(l: Layout, phis: seq<seq<nat>>, n: nat, active: set<nat>, attrs: map<nat, Attr>, ax: Attr, ay: Attr,
                   inputs: Slots, inputs': Slots, xs: seq<nat>, b: nat, k: nat, x: nat, y: nat)
    requires LayoutOk(l) && PlacesOk(l, phis, n, active) && b < |l.lists| && 0 < k < |l.lists[b]| - 1
    requires |l.first| == |l.last| == |l.lists| && AllFilled(l.bb, inputs) && x !in active && y !in active && x != y
    requires InputsTo(inputs[x := []][y := []], inputs'[x := []][y := []], active + {x} + {y}, l.lists[b][k], y)
    requires x in inputs' && inputs'[x] == Somes(xs) && y in inputs' && inputs'[y] == Somes([x])
    requires forall z :: z in active ==> z in attrs
    ensures Edited(l, Prepended(Replaced(l, b, k, y), b, k, x), attrs, attrs[x := ax][y := ay], inputs, inputs',
                   PairEdit(b, k, x, y, ax, xs, ay))
  {
    hide LayoutOk, SlotsTo, PlacesOk, AllFilled, InputsTo, KeptInst, SlotsFilled, AbsInst;
    InUse(l, phis, n, active, b, k);
    PairListed(l.lists[b], k, x, y);
    PairKept(l, phis, n, active, attrs, ax, ay, inputs, inputs', b, k, x, y);
    PairDefined(ax, inputs', x, xs);
    PairDefined(ay, inputs', y, [x]);
  }

  lemma PairAbs(g: Graph, phis: seq<seq<nat>>, l: Layout, active: set<nat>, attrs: map<nat, Attr>, ax: Attr, ay: Attr,
                inputs: Slots, inputs': Slots, xs: seq<nat>, b: nat, k: nat, x: nat, y: nat)
    requires LayoutOk(l) && PlacesOk(l, phis, g.Size(), active) && b < |l.lists| && 0 < k < |l.lists[b]| - 1
    requires |l.first| == |l.last| == |l.lists| && AllFilled(l.bb, inputs) && x !in active && y !in active && x != y
    requires InputsTo(inputs[x := []][y := []], inputs'[x := []][y := []], active + {x} + {y}, l.lists[b][k], y)
    requires x in inputs' && inputs'[x] == Somes(xs) && y in inputs' && inputs'[y] == Somes([x])
    requires (forall z :: z in active ==> z in attrs) && !IsPlaced(l.bb, x) && !IsPlaced(l.bb, y)
    ensures var l' := Prepended(Replaced(l, b, k, y), b, k, x);
            && AllFilled(l'.bb, inputs')
            && AbsOf(g, phis, l', attrs[x := ax][y := ay], inputs') ==
               Apply(AbsOf(g, phis, l, attrs, inputs), PairEdit(b, k, x, y, ax, xs, ay))
  {
    hide LayoutOk, PlacesOk, InputsTo, Edited, AllFilled, AbsOf, Apply, Replaced, Prepended, Somes;
    PairEdited(l, phis, g.Size(), active, attrs, ax, ay, inputs, inputs', xs, b, k, x, y);
    PairPlaced(l, phis, g.Size(), active, b, k, x, y);
    EditedAbs(g, phis, l, Prepended(Replaced(l, b, k, y), b, k, x), attrs, attrs[x := ax][y := ay], inputs, inputs',
              PairEdit(b, k, x, y, ax, xs, ay));
  }

  lemma PairKept(l: Layout, phis: seq<seq<nat>>, n: nat, active: set<nat>, attrs: map<nat, Attr>, ax: Attr, ay: Attr,
                 inputs: Slots, inputs': Slots, b: nat, k: nat, x: nat, y: nat)
    requires LayoutOk(l) && PlacesOk(l, phis, n, active) && b < |l.lists| && k < |l.lists[b]|
    requires AllFilled(l.bb, inputs) && x !in active && y !in active
    requires InputsTo(inputs[x := []][y := []], inputs'[x := []][y := []], active + {x} + {y}, l.lists[b][k], y)
    requires forall z :: z in active ==> z in attrs
    ensures forall z: nat :: IsPlaced(l.bb, z) && z != l.lists[b][k] ==>
              KeptInst(attrs, attrs[x := ax][y := ay], inputs, inputs', l.lists[b][k], y, z)
  {
    hide LayoutOk, SlotsTo;
    var i := l.lists[b][k];
    forall z: nat | IsPlaced(l.bb, z) && z != i
      ensures KeptInst(attrs, attrs[x := ax][y := ay], inputs, inputs', i, y, z)
    {
      assert PlaceOk(l, phis, n, active, z) && SlotsFilled(inputs, z);
    }
  }

  lemma PairDefined(a: Attr, inputs: Slots, x: nat, xs: seq<nat>)
    requires x in inputs && inputs[x] == Somes(xs)
    ensures SlotsFilled(inputs, x) && AbsInst(a, inputs[x]) == Inst(a.op, a.ty, a.imm, a.cond, xs)
  {
    SomesIds(xs);
  }

  lemma PairListed(s: seq<nat>, k: nat, x: nat, y: nat)
    requires k < |s|
    ensures s[k := y][..k] + [x] + s[k := y][k..] == s[..k] + [x, y] + s[k + 1..]
  {
  }

  // Where the pair stands in the end, and that the replaced instruction has lost its successor.
  lemma PairPlaced(l: Layout, phis: seq<seq<nat>>, n: nat, active: set<nat>, b: nat, k: nat, x: nat, y: nat)
    requires LayoutOk(l) && PlacesOk(l, phis, n, active) && b < |l.lists| && 0 < k < |l.lists[b]| - 1
    requires x !in active && y !in active && x != y
    ensures var r := Replaced(l, b, k, y);
            && |r.first| == |r.last| == |r.lists| == n && b < n && |r.lists[b]| == |l.lists[b]| && r.lists[b][k] == y
            && (var q, i := Prepended(r, b, k, x), l.lists[b][k];
                i in q.next && q.next[i] == None && !IsPlaced(q.bb, i))
            && (IsPlaced(r.bb, x) <==> IsPlaced(l.bb, x))
  {
    hide LayoutOk, PlacesOk;
    InUse(l, phis, n, active, b, k);
    NodeAt(l, b, k);
  }

  // The slots of a fresh instruction stay empty while another one is replaced.
  lemma FreshSlots(inputs: Slots, after: Slots, active: set<nat>, i: nat, x: nat, n: nat, xs: seq<nat>)
    requires InputsTo(inputs[x := Nones(n)], after, active, i, x) && x != i && x in active
    ensures x in after && after[x] == Nones(n)
    ensures InputsTo(inputs[x := []], after[x := Somes(xs)][x := []], active, i, x)
  {
  }

  lemma PairSlots(inputs: Slots, after: Slots, active: set<nat>, i: nat, x: nat, y: nat, n: nat, xs: seq<nat>)
    requires InputsTo(inputs[x := Nones(n)][y := Nones(1)], after, active, i, y)
    requires x != i && y != i && x != y && x in active && y in active
    ensures x in after && after[x] == Nones(n) && y in after && after[y] == Nones(1)
    ensures InputsTo(inputs[x := []][y := []], after[x := Somes(xs)][y := Somes([x])][x := []][y := []], active, i, y)
  {
  }

  // The operands filled in so far.
  function SomesTo(xs: seq<nat>, j: nat): (r: seq<Option<nat>>)
    ensures |r| == |xs|
  {
    seq(|xs|, k requires 0 <= k < |xs| => if k < j then Some(xs[k]) else None)
  }

  lemma SomesStep(xs: seq<nat>, j: nat)
    requires j < |xs|
    ensures SomesTo(xs, j)[j] == None && SomesTo(xs, j)[j := Some(xs[j])] == SomesTo(xs, j + 1)
  {
  }

  lemma SomesEnds(xs: seq<nat>)
    ensures SomesTo(xs, 0) == Nones(|xs|) && SomesTo(xs, |xs|) == Somes(xs)
  {
  }

  class InstGraph {
    const g: Graph
    const phis: seq<seq<nat>>
    var nextId: nat
    var attrs: map<nat, Attr>
    var inputs: Slots
    var firstUser: map<nat, Option<User>>
    var nextUser: map<User, Option<User>>
    var bb: map<nat, Option<nat>>
    var prev: map<nat, Option<nat>>
    var next: map<nat, Option<nat>>
    var firstInst: seq<Option<nat>>
    var lastInst: seq<Option<nat>>
    ghost var chains: map<nat, seq<User>>  // what the links between users spell out
    ghost var lists: seq<seq<nat>>         // what the links between instructions spell out
    ghost var active: set<nat>             // the instructions that have not been replaced

    ghost function U(): Uses
      reads this
    {
      Uses(inputs, firstUser, nextUser, chains)
    }

    ghost function L(): Layout
      reads this
    {
      Layout(bb, prev, next, firstInst, lastInst, lists)
    }

    ghost predicate Valid()
      reads this
    {
      && g.Valid() && LayoutOk(L()) && Consistent(U(), active, {})
      && PlacesOk(L(), phis, g.Size(), active) && IdsOk(active, attrs, bb, nextId)
    }

    ghost function Abs(): Program
      reads this
    {
      AbsOf(g, phis, L(), attrs, inputs)
    }

    // A graph of empty blocks, with its phis (instructions 0 .. n-1) but without operands.
    constructor (g: Graph, phis: seq<seq<nat>>, n: nat)
      requires g.Valid() && |phis| == g.Size() && PhiIdsOk(phis, n)
      ensures this.g == g && this.phis == phis && nextId == n && Valid()
      ensures L() == NoInsts(phis, n) && U() == NoUses(g.preds, phis, n)
      ensures active == UpTo(n) && attrs == PhiAttrs(n)
    {
      this.g, this.phis := g, phis;
      nextId, attrs := n, PhiAttrs(n);
      var u, l := NoUses(g.preds, phis, n), NoInsts(phis, n);
      inputs, firstUser, nextUser, chains := u.inputs, u.firstUser, u.nextUser, u.chains;
      bb, prev, next, firstInst, lastInst, lists := l.bb, l.prev, l.next, l.first, l.last, l.lists;
      active := UpTo(n);
      new;
      EmptyOk(g, phis, n);
    }

    // The links that PushBack changes.
    method LinkLast(b: nat, x: nat)
      requires b < |firstInst| == |lastInst| == |lists| && lastInst[b] == LastOf(lists[b])
      modifies this`bb, this`prev, this`next, this`firstInst, this`lastInst, this`lists
      ensures L() == Pushed(old(L()), b, x) && x in bb && bb == old(bb)[x := Some(b)]
    {
      prev := prev[x := lastInst[b]];
      if lastInst[b] == None {
        firstInst := firstInst[b := Some(x)];
      } else {
        next := next[lastInst[b].value := Some(x)];
      }
      next := next[x := None];
      lastInst := lastInst[b := Some(x)];
      bb := bb[x := Some(b)];
      lists := lists[b := lists[b] + [x]];
    }

    // BasicBlock::PushBack, for an instruction whose links are null.
    method PushBack(b: nat, x: nat)
      requires Valid() && b < g.Size() && x in active && !IsPlaced(bb, x) && x !in prev && x !in next
      modifies this`bb, this`prev, this`next, this`firstInst, this`lastInst, this`lists
      ensures Valid() && L() == Pushed(old(L()), b, x)
    {
      hide LayoutOk, Consistent, PlacesOk, IdsOk, Graph.Valid, Pushed;
      BlockHead(L(), phis, g.Size(), active, b);
      LinkLast(b, x);
      PushedOk(old(L()), b, x);
      PushedPlaces(old(L()), phis, g.Size(), active, b, x);
      LessActive(active, attrs, old(bb), bb, nextId, nextId, x);
    }

    // Graph::New
    method New(attr: Attr, n: nat) returns (x: nat)
      requires Valid()
      modifies this`nextId, this`attrs, this`inputs, this`firstUser, this`chains, this`active
      ensures Valid() && x == old(nextId)
      ensures attrs == old(attrs)[x := attr] && active == old(active) + {x} && x !in old(active)
      ensures inputs == old(inputs)[x := Nones(n)] && !IsPlaced(bb, x)
      ensures nextId == x + 1
    {
      hide Consistent, LayoutOk, PlacesOk, IdsOk, Graph.Valid;
      NextIdFresh(active, attrs, bb, nextId, attr);
      x := nextId;
      nextId := nextId + 1;
      attrs := attrs[x := attr];
      inputs := inputs[x := Nones(n)];
      firstUser := firstUser[x := None];
      chains := chains[x := []];
      NewConsistent(old(U()), U(), active, x, n);
      MoreActive(L(), phis, g.Size(), active, x);
      active := active + {x};
    }

    // User::FindAndRemoveFromChain, called on the m-th user of the chain s to remove its k-th.
    method FindAndRemoveFromChain(from: User, user: User, ghost s: seq<User>, ghost m: nat, ghost k: nat)
      requires m < k < |s| && from == s[m] && user == s[k] && NoDuplicates(s)
      requires Spells(nextUser, HeadOf(s), s)
      modifies this`nextUser
      ensures s[k] in old(nextUser) && nextUser == old(nextUser)[s[k - 1] := old(nextUser)[s[k]]]
      decreases k - m
    {
      hide Spells;
      SpellsAt(nextUser, HeadOf(s), s, m);
      SpellsAt(nextUser, HeadOf(s), s, k);
      if nextUser[from] == Some(user) {
        assert m + 1 == k;
        nextUser := nextUser[from := nextUser[user]];
      } else {
        FindAndRemoveFromChain(nextUser[from].value, user, s, m + 1, k);
      }
    }

    // Inst::RemoveUser
    method RemoveUser(x: nat, user: User, ghost gone: set<User>)
      requires Consistent(U(), active, gone) && x in active && x in chains && user in chains[x]
      modifies this`firstUser, this`nextUser, this`chains
      ensures Consistent(U(), active, gone + {user})
      ensures chains == old(chains)[x := Without(old(chains)[x], user)]
    {
      hide Consistent, Exact;
      ghost var u := U();
      ConsistentMember(u, active, gone, x);
      ghost var s := chains[x];
      ghost var k :| 0 <= k < |s| && s[k] == user;
      if firstUser[x] == Some(user) {
        firstUser := firstUser[x := nextUser[user]];
      } else {
        FindAndRemoveFromChain(firstUser[x].value, user, s, 0, k);
      }
      WithoutAt(s, k);
      chains := chains[x := s[..k] + s[k + 1..]];
      Unlink(u, U(), active, gone, x, k);
    }

    // Inst::ClearInputs: the slots of i leave the chains of their operands.
    method ClearInputs(i: nat)
      requires Consistent(U(), active, {}) && i in active && SlotsFilled(inputs, i) && Some(i) !in inputs[i]
      modifies this`firstUser, this`nextUser, this`chains
      ensures Consistent(U(), active, SlotsBelow(i, |inputs[i]|))
      ensures chains.Keys == old(chains).Keys
      ensures forall x :: x in active && x in chains ==> chains[x] == WithoutSlots(old(chains)[x], i, |inputs[i]|)
    {
      hide Consistent, Exact, ChainOk;
      assert SlotsBelow(i, 0) == {};
      forall x | x in chains ensures WithoutSlots(chains[x], i, 0) == chains[x] {
        WithoutSlotsNone(chains[x], i);
      }
      for j := 0 to |inputs[i]|
        invariant Consistent(U(), active, SlotsBelow(i, j))
        invariant chains.Keys == old(chains).Keys
        invariant forall x :: x in active && x in chains ==> chains[x] == WithoutSlots(old(chains)[x], i, j)
      {
        ghost var u, gone := U(), SlotsBelow(i, j);
        var input := inputs[i][j].value;
        SlotInChain(u, active, gone, User(i, j), input);
        RemoveUser(input, User(i, j), gone);
        SlotsBelowStep(i, j);
        forall x | x in active && x in chains ensures chains[x] == WithoutSlots(old(chains)[x], i, j + 1) {
          WithoutSlotsStep(old(chains)[x], i, j);
          if x != input {
            NotInChain(u, active, gone, User(i, j), input, x);
            WithoutAbsent(u.chains[x], User(i, j));
          }
        }
      }
    }

    // Inst::ReplaceUsersTo, once the slots of i have left their chains.
    method ReplaceUsersTo(i: nat, v: nat)
      requires i in active && v in active && i != v && i in inputs
      requires Consistent(U(), active, SlotsBelow(i, |inputs[i]|))
      modifies this`inputs, this`firstUser, this`nextUser, this`chains
      ensures old(i in chains && v in chains && i in firstUser && v in firstUser) && Redirected(old(U()), U(), i, v)
      ensures Consistent(U(), active - {i}, {}) && InputsTo(old(inputs), inputs, active, i, v)
      ensures chains == old(chains)[v := old(chains)[i] + old(chains)[v]]
    {
      hide Consistent, Exact, Spells, NoDuplicates, InputsTo;
      ghost var u, gone := U(), SlotsBelow(i, |inputs[i]|);
      ConsistentMember(u, active, gone, i);
      ConsistentMember(u, active, gone, v);
      ghost var s := chains[i];
      SpellsHead(nextUser, firstUser[i], s);
      var user := firstUser[i];
      var prevUser: Option<User> := None;
      ghost var m: nat := 0;
      while user != None
        invariant m <= |s| && user == (if m < |s| then Some(s[m]) else None) && prevUser == LinkBefore(s, m)
        invariant SlotsWritten(old(inputs), inputs, s[..m], v)
        modifies this`inputs
        decreases |s| - m
      {
        ChainSlot(u, active, gone, i, m);
        WriteSlot(old(inputs), inputs, s, m, v);
        inputs := inputs[user.value.inst := inputs[user.value.inst][user.value.idx := Some(v)]];
        prevUser := user;
        SpellsAt(nextUser, firstUser[i], s, m);
        user := nextUser[user.value];
        m := m + 1;
      }
      assert s[..m] == s;
      if prevUser != None {
        nextUser := nextUser[prevUser.value := firstUser[v]];
        firstUser := firstUser[v := firstUser[i]];
      }
      chains := chains[v := s + chains[v]];
      RedirectConsistent(u, U(), active, i, v);
      RedirectedInputs(u, U(), active, i, v);
    }

    // Inst::ReplaceInBB: v takes the place of i, the k-th instruction of block b, or i is only removed when
    // v has a place already. At either end of the block the first form follows a null pointer.
    method ReplaceInBB(i: nat, v: nat, ghost b: nat, ghost k: nat) returns (ok: bool)
      requires LayoutOk(L()) && b < |lists| && k < |lists[b]| && lists[b][k] == i
      modifies this`bb, this`prev, this`next, this`firstInst, this`lastInst, this`lists
      ensures ok <==> IsPlaced(old(bb), v) || 0 < k < |old(lists)[b]| - 1
      ensures ok ==> L() == if IsPlaced(old(bb), v) then Unlinked(old(L()), b, k) else Replaced(old(L()), b, k, v)
    {
      hide LayoutOk;
      NodeAt(L(), b, k);
      var pi, ni, block := prev[i], next[i], bb[i].value;
      var first, last := firstInst[block] == Some(i), lastInst[block] == Some(i);
      if !IsPlaced(bb, v) {
        if first {
          firstInst := firstInst[block := Some(v)];
        }
        if last {
          lastInst := lastInst[block := Some(v)];
        }
        next := next[v := ni];
        prev := prev[v := pi];
        bb := bb[v := Some(block)];
        if ni == None || pi == None {
          return false;
        }
        prev := prev[ni.value := Some(v)];
        next := next[pi.value := Some(v)];
        bb := bb[i := None];
        next := next[i := None];
        prev := prev[i := None];
        ghost var list: seq<nat> := lists[b][k := v];
        lists := lists[b := list];
      } else {
        if first {
          firstInst := firstInst[block := ni];
        } else {
          next := next[pi.value := ni];
        }
        if last {
          lastInst := lastInst[block := pi];
        } else {
          prev := prev[ni.value := pi];
        }
        bb := bb[i := None];
        next := next[i := None];
        prev := prev[i := None];
        lists := lists[b := lists[b][..k] + lists[b][k + 1..]];
      }
      ok := true;
    }

    // Inst::ReplaceWith, for the k-th instruction i of block b.
    method ReplaceWith(i: nat, v: nat, ghost b: nat, ghost k: nat) returns (ok: bool)
      requires Valid() && b < |lists| && k < |lists[b]| && lists[b][k] == i && v in active && v != i
      requires SlotsFilled(inputs, i) && Some(i) !in inputs[i]
      modifies this`inputs, this`firstUser, this`nextUser, this`chains, this`active
      modifies this`bb, this`prev, this`next, this`firstInst, this`lastInst, this`lists
      ensures ok <==> IsPlaced(old(bb), v) || 0 < k < |old(lists)[b]| - 1
      ensures ok ==> Valid() && active == old(active) - {i}
      ensures ok ==> InputsTo(old(inputs), inputs, old(active), i, v)
      ensures ok ==> L() == if IsPlaced(old(bb), v) then Unlinked(old(L()), b, k) else Replaced(old(L()), b, k, v)
      ensures ok ==> v in chains && v in old(chains) && i in old(chains) &&
                     chains[v] == old(chains)[i] + WithoutSlots(old(chains)[v], i, |old(inputs)[i]|)
    {
      hide LayoutOk, Consistent, PlacesOk, IdsOk, InputsTo, Redirected, SlotsBelow, ChainOk, Exact;
      hide Unlinked, Replaced, WithoutSlots, SlotsTo, SlotsFilled, NodeOk, ListOk, PlaceOk, PhiPlaceOk, Graph.Valid;
      InUse(L(), phis, g.Size(), active, b, k);
      ConsistentMember(U(), active, {}, i);
      ConsistentMember(U(), active, {}, v);
      OwnSlotsOnly(U(), active, i);
      ghost var l, bb0 := L(), bb;
      ClearInputs(i);
      ok := ReplaceInBB(i, v, b, k);
      if ok {
        SwappedPlaces(l, L(), phis, g.Size(), active, b, k, v);
        LessActive(active, attrs, bb0, bb, nextId, i, v);
        ReplaceUsersTo(i, v);
        active := active - {i};
      }
    }

    // User::GetPrev: the user in front of the k-th one of the chain s.
    method GetPrev(first: User, user: User, ghost s: seq<User>, ghost k: nat) returns (prev: Option<User>)
      requires k < |s| && user == s[k] && first == s[0] && NoDuplicates(s) && Spells(nextUser, HeadOf(s), s)
      ensures prev == if k == 0 then None else Some(s[k - 1])
    {
      hide Spells;
      if first == user {
        return None;
      }
      var at := first;
      ghost var m: nat := 0;
      SpellsAt(nextUser, HeadOf(s), s, 0);
      while nextUser[at] != Some(user)
        invariant m < k && at == s[m] && at in nextUser && nextUser[at] == LinkAfter(s, m)
        decreases k - m
      {
        at := nextUser[at].value;
        m := m + 1;
        SpellsAt(nextUser, HeadOf(s), s, m);
      }
      prev := Some(at);
    }

    // User::AppendUseOf: a slot that is in no chain becomes the head of that of y.
    method AppendUse(user: User, y: nat)
      requires Consistent(U(), active, {user}) && user.inst in active && y in active
      requires user.inst in inputs && user.idx < |inputs[user.inst]|
      modifies this`firstUser, this`nextUser, this`chains
      ensures y in old(chains) && chains == old(chains)[y := [user] + old(chains)[y]]
      ensures Consistent(U().(inputs := inputs[user.inst := inputs[user.inst][user.idx := Some(y)]]), active, {})
    {
      hide Consistent;
      ghost var u := U();
      ConsistentMember(u, active, {user}, y);
      nextUser := nextUser[user := firstUser[y]];
      firstUser := firstUser[y := Some(user)];
      chains := chains[y := [user] + chains[y]];
      AppendConsistent(u, U().(inputs := inputs[user.inst := inputs[user.inst][user.idx := Some(y)]]), active, user, y);
    }

    // User::ReplaceUserWith: a slot that holds x leaves the chain of x and becomes the head of that of y. The source
    // follows a null pointer when the slot is the head of its chain.
    method ReplaceUserWith(user: User, x: nat, y: nat) returns (ok: bool)
      requires Consistent(U(), active, {}) && Holds(U(), active, user, x) && y in active
      modifies this`firstUser, this`nextUser, this`chains
      ensures x in old(firstUser) && x in old(chains) && y in old(chains)
      ensures ok <==> old(firstUser)[x] != Some(user)
      ensures ok ==> chains == Moved(old(chains), user, x, y)
      ensures ok ==> user.inst in inputs && user.idx < |inputs[user.inst]| &&
                     Consistent(U().(inputs := inputs[user.inst := inputs[user.inst][user.idx := Some(y)]]), active, {})
    {
      hide Consistent, Exact, ChainOk, Spells;
      ghost var u := U();
      SlotInChain(u, active, {}, user, x);
      ConsistentMember(u, active, {}, x);
      ConsistentMember(u, active, {}, y);
      ghost var s := chains[x];
      ghost var k :| 0 <= k < |s| && s[k] == user;
      HeadUser(u, x);
      var next := nextUser[user];
      var prev := GetPrev(firstUser[x].value, user, s, k);
      if prev == None {
        return false;
      }
      nextUser := nextUser[prev.value := next];
      WithoutAt(s, k);
      chains := chains[x := s[..k] + s[k + 1..]];
      Unlink(u, U(), active, {}, x, k);
      assert {} + {user} == {user};
      AppendUse(user, y);
      ok := true;
    }

    // FixedInputsInst::SetInput. It fails exactly when the slot is filled and the head of the chain of its operand.
    method SetInput(x: nat, idx: nat, y: nat) returns (ok: bool)
      requires Valid() && x in active && y in active && x in inputs && idx < |inputs[x]|
      modifies this`inputs, this`firstUser, this`nextUser, this`chains
      ensures y in old(chains) && (old(inputs[x][idx]).Some? ==> old(inputs[x][idx]).value in old(firstUser))
      ensures ok <==> old(inputs[x][idx]) == None || old(firstUser)[old(inputs[x][idx]).value] != Some(User(x, idx))
      ensures ok ==> Valid() && inputs == old(inputs)[x := old(inputs)[x][idx := Some(y)]]
      ensures ok && old(inputs[x][idx]) == None ==> chains == old(chains)[y := [User(x, idx)] + old(chains)[y]]
      ensures ok && old(inputs[x][idx]).Some? ==>
                old(inputs[x][idx]).value in old(chains) &&
                chains == Moved(old(chains), User(x, idx), old(inputs[x][idx]).value, y)
    {
      hide LayoutOk, Consistent, PlacesOk, IdsOk;
      ConsistentMember(U(), active, {}, y);
      var user := User(x, idx);
      if inputs[x][idx].Some? {
        assert Holds(U(), active, user, inputs[x][idx].value);
        ok := ReplaceUserWith(user, inputs[x][idx].value, y);
        if !ok {
          return;
        }
        inputs := inputs[x := inputs[x][idx := Some(y)]];
      } else {
        EmptySlot(U(), active, user);
        AppendUse(user, y);
        inputs := inputs[x := inputs[x][idx := Some(y)]];
        ok := true;
      }
    }

    // Inst::Prepend: x goes in front of i, the k-th instruction of block b. In front of the first instruction
    // the source follows a null pointer, before it looks at the head of the list.
    method Prepend(i: nat, x: nat, ghost b: nat, ghost k: nat) returns (ok: bool)
      requires Valid() && b < |lists| && k < |lists[b]| && lists[b][k] == i && x in active && !IsPlaced(bb, x)
      modifies this`bb, this`prev, this`next, this`lists
      ensures ok <==> k > 0
      ensures ok ==> Valid() && L() == Prepended(old(L()), b, k, x)
    {
      hide LayoutOk, Consistent, PlacesOk, IdsOk;
      NodeAt(L(), b, k);
      bb := bb[x := bb[i]];
      next := next[x := Some(i)];
      prev := prev[x := prev[i]];
      prev := prev[i := Some(x)];
      if prev[x] == None {
        return false;
      }
      next := next[prev[x].value := Some(x)];
      lists := lists[b := lists[b][..k] + [x] + lists[b][k..]];
      PrependedOk(old(L()), b, k, x);
      PrependedPlaces(old(L()), phis, g.Size(), active, b, k, x);
      LessActive(active, attrs, old(bb), bb, nextId, nextId, x);
      ok := true;
    }

    // ReplaceWith by an instruction of a block.
    method ReplaceByValue(i: nat, v: nat, ghost b: nat, ghost k: nat)
      requires Valid() && AllFilled(bb, inputs) && b < |lists| && k < |lists[b]| && lists[b][k] == i
      requires v in active && IsPlaced(bb, v) && v != i && i in inputs && Some(i) !in inputs[i]
      modifies this`inputs, this`firstUser, this`nextUser, this`chains, this`active
      modifies this`bb, this`prev, this`next, this`firstInst, this`lastInst, this`lists
      ensures Valid() && AllFilled(bb, inputs) && active == old(active) - {i} && L() == Unlinked(old(L()), b, k)
      ensures Abs() == Apply(old(Abs()), Edit(b, k, [], map[], v))
    {
      hide LayoutOk, PlacesOk, Consistent, InputsTo, Edited, IdsOk, AllFilled;
      InUse(L(), phis, g.Size(), active, b, k);
      IsFilled(bb, inputs, i);
      ghost var l, slots, was := L(), inputs, active;
      ActiveAttrs(active, attrs, bb, nextId);
      var ok := ReplaceWith(i, v, b, k);
      ValueEdited(l, phis, g.Size(), was, attrs, slots, inputs, b, k, v);
      EditedAbs(g, phis, l, L(), attrs, attrs, slots, inputs, Edit(b, k, [], map[], v));
    }

    method SetInputs(x: nat, xs: seq<nat>)
      requires Valid() && x in active && x in inputs && inputs[x] == Nones(|xs|)
      requires forall j :: 0 <= j < |xs| ==> xs[j] in active
      modifies this`inputs, this`firstUser, this`nextUser, this`chains
      ensures Valid() && inputs == old(inputs)[x := Somes(xs)]
    {
      hide SomesTo, Somes, Valid;
      SomesEnds(xs);
      for j := 0 to |xs|
        invariant Valid() && x in inputs && inputs == old(inputs)[x := SomesTo(xs, j)]
      {
        SomesStep(xs, j);
        var ok := SetInput(x, j, xs[j]);
      }
    }

    // Graph::New and ReplaceWith.
    method NewAndReplace(i: nat, a: Attr, n: nat, ghost b: nat, ghost k: nat) returns (ok: bool, x: nat)
      requires Valid() && b < |lists| && k < |lists[b]| && lists[b][k] == i && i in active
      requires i in inputs && SlotsFilled(inputs, i) && Some(i) !in inputs[i]
      modifies this
      ensures ok <==> 0 < k < |old(lists)[b]| - 1
      ensures x == old(nextId) && x !in old(active) && !IsPlaced(old(bb), x) && attrs == old(attrs)[x := a]
      ensures nextId == x + 1
      ensures ok ==> Valid() && active == old(active) + {x} - {i} && L() == Replaced(old(L()), b, k, x)
      ensures ok ==> InputsTo(old(inputs)[x := Nones(n)], inputs, old(active) + {x}, i, x)
    {
      hide LayoutOk, PlacesOk, Consistent, InputsTo, IdsOk, IsPlaced, Nones, Replaced, Unlinked, SlotsFilled;
      hide Graph.Valid;
      ghost var slots := inputs;
      x := New(a, n);
      StillFilled(slots, inputs, i);
      ok := ReplaceWith(i, x, b, k);
    }

    // Graph::New, ReplaceWith and SetInput for each operand, in the order of the source.
    method ReplaceByNew(i: nat, a: Attr, xs: seq<nat>, ghost b: nat, ghost k: nat) returns (ok: bool, x: nat)
      requires Valid() && AllFilled(bb, inputs) && b < |lists| && k < |lists[b]| && lists[b][k] == i
      requires i in inputs && Some(i) !in inputs[i]
      requires forall j :: 0 <= j < |xs| ==> xs[j] in active && xs[j] != i
      modifies this
      ensures ok <==> 0 < k < |old(lists)[b]| - 1
      ensures x == old(nextId)
      ensures ok ==> Valid() && AllFilled(bb, inputs) && L() == Replaced(old(L()), b, k, x)
      ensures ok ==> Abs() == Apply(old(Abs()), FreshEdit(b, k, x, Inst(a.op, a.ty, a.imm, a.cond, xs)))
    {
      hide LayoutOk, PlacesOk, Consistent, InputsTo, Edited, IdsOk, AllFilled, IsPlaced, AbsOf, Apply, Somes;
      hide Nones, FreshEdit, Replaced, NodeOk, SlotsFilled, Graph.Valid;
      InUse(L(), phis, g.Size(), active, b, k);
      IsFilled(bb, inputs, i);
      ghost var l, attrs0, slots, was := L(), attrs, inputs, active;
      ActiveAttrs(active, attrs, bb, nextId);
      ok, x := NewAndReplace(i, a, |xs|, b, k);
      if ok {
        FreshSlots(slots, inputs, was + {x}, i, x, |xs|, xs);
        SetInputs(x, xs);
        FreshAbs(g, phis, l, was, attrs0, a, slots, inputs, xs, b, k, x);
      }
    }

    // Prepend and SetInput for a fresh pair whose second one, y, has its place already.
    method FinishPair(x: nat, xs: seq<nat>, y: nat, ghost b: nat, ghost k: nat)
      requires Valid() && b < |lists| && 0 < k < |lists[b]| && lists[b][k] == y && x in active && !IsPlaced(bb, x)
      requires x != y && y in active && x in inputs && inputs[x] == Nones(|xs|) && y in inputs && inputs[y] == Nones(1)
      requires forall j :: 0 <= j < |xs| ==> xs[j] in active
      modifies this`inputs, this`firstUser, this`nextUser, this`chains, this`bb, this`prev, this`next, this`lists
      ensures Valid() && L() == Prepended(old(L()), b, k, x)
      ensures inputs == old(inputs)[x := Somes(xs)][y := Somes([x])]
    {
      hide LayoutOk, PlacesOk, Consistent, IdsOk, Somes;
      var ok := Prepend(y, x, b, k);
      SetInputs(x, xs);
      SetInputs(y, [x]);
    }

    // Two times Graph::New, ReplaceWith by the second one, Prepend of the first one, then SetInput.
    method ReplaceByPair(i: nat, ax: Attr, xs: seq<nat>, ay: Attr, ghost b: nat, ghost k: nat)
      returns (ok: bool, x: nat, y: nat)
      requires Valid() && AllFilled(bb, inputs) && b < |lists| && k < |lists[b]| && lists[b][k] == i
      requires i in inputs && Some(i) !in inputs[i]
      requires forall j :: 0 <= j < |xs| ==> xs[j] in active && xs[j] != i
      modifies this
      ensures ok <==> 0 < k < |old(lists)[b]| - 1
      ensures x == old(nextId) && y == x + 1
      ensures ok ==> Valid() && AllFilled(bb, inputs) && i in next && next[i] == None && !IsPlaced(bb, i)
      ensures ok ==> Abs() == Apply(old(Abs()), PairEdit(b, k, x, y, ax, xs, ay))
    {
      hide LayoutOk, PlacesOk, Consistent, InputsTo, Edited, IdsOk, AllFilled, Somes, Nones, NodeOk;
      hide Replaced, Prepended, AbsOf, Apply, IsPlaced, PairEdit, SlotsFilled, Graph.Valid;
      InUse(L(), phis, g.Size(), active, b, k);
      IsFilled(bb, inputs, i);
      ghost var l, attrs0, slots, was := L(), attrs, inputs, active;
      ActiveAttrs(active, attrs, bb, nextId);
      x := New(ax, |xs|);
      StillFilled(slots, inputs, i);
      ok, y := NewAndReplace(i, ay, 1, b, k);
      if ok {
        PairPlaced(l, phis, g.Size(), was, b, k, x, y);
        PairSlots(slots, inputs, was + {x} + {y}, i, x, y, |xs|, xs);
        FinishPair(x, xs, y, b, k);
        PairAbs(g, phis, l, was, attrs0, ax, ay, slots, inputs, xs, b, k, x, y);
      }
    }

    // Inst::Dominates, for i, the j-th instruction of block b, and other, the k-th of block c.
    method Dominates(i: nat, other: nat, idoms: seq<BlockRef>, ghost rank: seq<nat>,
                     ghost b: nat, ghost j: nat, ghost c: nat, ghost k: nat) returns (r: bool)
      requires Valid() && Linked(g, idoms, rank) && i != other
      requires b < |lists| && j < |lists[b]| && lists[b][j] == i
      requires c < |lists| && k < |lists[c]| && lists[c][k] == other
      ensures r <==> if b == c then j < k else OnChain(g, idoms, rank, b, c)
    {
      hide LayoutOk, PlacesOk, Consistent, Linked, IdsOk;
      InUse(L(), phis, g.Size(), active, b, j);
      InUse(L(), phis, g.Size(), active, c, k);
      if bb[i] == bb[other] {
        var o := Some(other);
        ghost var m: nat := k;
        while o != None
          invariant m <= k && (o.Some? ==> o == Some(lists[b][m]) && m != j)
          invariant j < k <==> o.Some? && j < m
          decreases if o.Some? then 1 + m else 0
        {
          NodeAt(L(), b, m);
          if Some(i) == prev[o.value] {
            if j + 1 != m {
              OnePlace(L(), b, j, b, m - 1);
            }
            return true;
          }
          o := prev[o.value];
          m := if m > 0 then m - 1 else 0;
        }
        return false;
      }
      r := BlockDominates(g, idoms, rank, bb[i].value, bb[other].value);
    }
  }

  // With the immediate dominators at hand, Dominates tells whether i is defined in front of the other one.
  lemma DominatesPoint(p: Program, idoms: seq<BlockRef>, b: nat, j: nat, c: nat, k: nat)
    requires Strict(p) && DomTreeOf(p.g, idoms) && Linked(p.g, idoms, Depths(p.g))
    requires b < p.g.Size() && j < |p.body[b]| && c < p.g.Size() && k < |p.body[c]|
    ensures (if b == c then j < k else OnChain(p.g, idoms, Depths(p.g), b, c)) <==> Before(p, p.body[b][j], c, k)
  {
    hide InputsReady, PhiReady, DomTreeOf, Linked;
    var i := p.body[b][j];
    assert InBlock(p, i, b);
    if b == c {
      NotLiveInOwnBlock(p, i, b);
    } else {
      ChainIsDominance(p.g, idoms, b, c);
      assert !InBlock(p, i, c);
      assert LiveIn(p, i, c) <==> StrictlyDominates(p.g, b, c);
    }
  }
}
