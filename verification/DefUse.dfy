// Intrusive def-use chains: every operand slot is a link in the chain of the instruction it holds.
module DefUse {
  import opened Ir

  // The idx-th operand slot of an instruction.
  datatype User = User(inst: nat, idx: nat)

  // Operand slots, heads of the user chains and links between users. `chains` is the sequence each chain
  // of links spells out.
  datatype Uses = Uses(
    inputs: map<nat, seq<Option<nat>>>,
    firstUser: map<nat, Option<User>>,
    nextUser: map<User, Option<User>>,
    chains: map<nat, seq<User>>)

  function HeadOf<T>(s: seq<T>): Option<T> {
    if s == [] then None else Some(s[0])
  }

  function LinkAfter<T>(s: seq<T>, k: nat): Option<T> {
    if k + 1 < |s| then Some(s[k + 1]) else None
  }

  // The links from `head` on spell out s.
  ghost predicate Spells(next: map<User, Option<User>>, head: Option<User>, s: seq<User>) {
    && head == HeadOf(s)
    && (forall k :: 0 <= k < |s| ==> s[k] in next && next[s[k]] == LinkAfter(s, k))
  }

  ghost predicate NoDuplicates<T(!new)>(s: seq<T>) {
    forall j, k :: 0 <= j < k < |s| ==> s[j] != s[k]
  }

  // Slot s belongs to an instruction in use and holds x.
  ghost predicate Holds(u: Uses, active: set<nat>, s: User, x: nat) {
    s.inst in active && s.inst in u.inputs && s.idx < |u.inputs[s.inst]| && u.inputs[s.inst][s.idx] == Some(x)
  }

  ghost predicate ChainOk(u: Uses, x: nat) {
    x in u.firstUser && x in u.chains && Spells(u.nextUser, u.firstUser[x], u.chains[x]) && NoDuplicates(u.chains[x])
  }

  ghost predicate Exact(u: Uses, active: set<nat>, gone: set<User>, x: nat)
    requires x in u.chains
  {
    forall s: User :: s in u.chains[x] <==> s !in gone && Holds(u, active, s, x)
  }

  // Every chain is acyclic and lists, once each, exactly the slots that hold its instruction. The slots in
  // `gone` have left their chains already.
  ghost predicate Consistent(u: Uses, active: set<nat>, gone: set<User>) {
    && (forall x :: x in active ==> x in u.inputs && ChainOk(u, x) && Exact(u, active, gone, x))
    && (forall s: User, x: nat :: Holds(u, active, s, x) ==> x in active)
  }

  function Without(s: seq<User>, x: User): (r: seq<User>)
    ensures x !in r
    ensures forall y :: y in r ==> y in s
    ensures forall y :: y in s && y != x ==> y in r
  {
    if s == [] then []
    else if s[0] == x then Without(s[1..], x)
    else [s[0]] + Without(s[1..], x)
  }

  // Removing the k-th element of a duplicate-free sequence.
  lemma {:induction false} WithoutAt(s: seq<User>, k: nat)
    requires NoDuplicates(s) && k < |s|
    ensures Without(s, s[k]) == s[..k] + s[k + 1..]
  {
    if k == 0 {
      WithoutAbsent(s[1..], s[0]);
    } else {
      WithoutAt(s[1..], k - 1);
      assert s[..k] + s[k + 1..] == [s[0]] + (s[1..][..k - 1] + s[1..][k..]);
    }
  }

  lemma {:induction false} WithoutAbsent(s: seq<User>, x: User)
    requires x !in s
    ensures Without(s, x) == s
  {
    if s != [] {
      WithoutAbsent(s[1..], x);
    }
  }

  // The slots of i below n.
  ghost function SlotsBelow(i: nat, n: nat): set<User> {
    set j: nat | j < n :: User(i, j)
  }

  // Different chains share no user.
  lemma ChainsDisjoint(u: Uses, active: set<nat>, gone: set<User>, x: nat, y: nat, s: User)
    requires Consistent(u, active, gone) && x in active && y in active && s in u.chains[x] && s in u.chains[y]
    ensures x == y
  {
    assert Exact(u, active, gone, x) && Exact(u, active, gone, y);
  }

  // Unlinking the k-th user of x's chain, as RemoveUser does, takes exactly that user out.
  lemma Unlink(u: Uses, u': Uses, active: set<nat>, gone: set<User>, x: nat, k: nat)
    requires Consistent(u, active, gone) && x in active && k < |u.chains[x]|
    requires u'.inputs == u.inputs && u'.chains == u.chains[x := u.chains[x][..k] + u.chains[x][k + 1..]]
    requires u'.firstUser == if k == 0 then u.firstUser[x := u.nextUser[u.chains[x][0]]] else u.firstUser
    requires u'.nextUser == if k == 0 then u.nextUser else u.nextUser[u.chains[x][k - 1] := u.nextUser[u.chains[x][k]]]
    ensures Consistent(u', active, gone + {u.chains[x][k]})
  {
    var s := u.chains[x];
    assert forall w: User, y: nat :: Holds(u', active, w, y) <==> Holds(u, active, w, y);
    forall y | y in active
      ensures y in u'.inputs && ChainOk(u', y) && Exact(u', active, gone + {s[k]}, y)
    {
      assert ChainOk(u, y) && Exact(u, active, gone, y);
      if y == x {
        UnlinkChain(u, u', x, k);
        UnlinkExact(u, u', active, gone, x, k);
      } else {
        UnlinkOther(u, u', active, gone, x, k, y);
      }
    }
  }

  lemma UnlinkOther(u: Uses, u': Uses, active: set<nat>, gone: set<User>, x: nat, k: nat, y: nat)
    requires Consistent(u, active, gone) && x in active && y in active && y != x && k < |u.chains[x]|
    requires u'.inputs == u.inputs && u'.chains == u.chains[x := u.chains[x][..k] + u.chains[x][k + 1..]]
    requires u'.firstUser == if k == 0 then u.firstUser[x := u.nextUser[u.chains[x][0]]] else u.firstUser
    requires u'.nextUser == if k == 0 then u.nextUser else u.nextUser[u.chains[x][k - 1] := u.nextUser[u.chains[x][k]]]
    ensures ChainOk(u', y) && Exact(u', active, gone + {u.chains[x][k]}, y)
  {
    var s := u.chains[x];
    assert ChainOk(u, y) && Exact(u, active, gone, y);
    assert s[k] in s;
    if s[k] in u.chains[y] {
      ChainsDisjoint(u, active, gone, x, y, s[k]);
    }
    if k > 0 && s[k - 1] in u.chains[y] {
      ChainsDisjoint(u, active, gone, x, y, s[k - 1]);
    }
  }

  lemma UnlinkChain(u: Uses, u': Uses, x: nat, k: nat)
    requires ChainOk(u, x) && k < |u.chains[x]|
    requires u'.chains == u.chains[x := u.chains[x][..k] + u.chains[x][k + 1..]]
    requires u'.firstUser == if k == 0 then u.firstUser[x := u.nextUser[u.chains[x][0]]] else u.firstUser
    requires u'.nextUser == if k == 0 then u.nextUser else u.nextUser[u.chains[x][k - 1] := u.nextUser[u.chains[x][k]]]
    ensures ChainOk(u', x)
  {
    var s, s' := u.chains[x], u'.chains[x];
    forall j | 0 <= j < |s'| ensures s'[j] in u'.nextUser && u'.nextUser[s'[j]] == LinkAfter(s', j) {
      assert s'[j] == if j < k then s[j] else s[j + 1];
    }
  }

  lemma UnlinkExact(u: Uses, u': Uses, active: set<nat>, gone: set<User>, x: nat, k: nat)
    requires ChainOk(u, x) && Exact(u, active, gone, x) && k < |u.chains[x]|
    requires u'.inputs == u.inputs && u'.chains == u.chains[x := u.chains[x][..k] + u.chains[x][k + 1..]]
    ensures Exact(u', active, gone + {u.chains[x][k]}, x)
  {
    WithoutAt(u.chains[x], k);
  }

  // Writing v into every slot of i's chain, and putting that chain in front of v's.
  ghost predicate Redirected(u: Uses, u': Uses, i: nat, v: nat)
    requires i in u.chains && v in u.chains && i in u.firstUser && v in u.firstUser
  {
    var s := u.chains[i];
    && u'.inputs.Keys == u.inputs.Keys
    && (forall x :: x in u.inputs ==> |u'.inputs[x]| == |u.inputs[x]|)
    && (forall x, j :: x in u.inputs && 0 <= j < |u.inputs[x]| ==>
          u'.inputs[x][j] == if User(x, j) in s then Some(v) else u.inputs[x][j])
    && u'.chains == u.chains[v := s + u.chains[v]]
    && u'.firstUser == (if s == [] then u.firstUser else u.firstUser[v := u.firstUser[i]])
    && u'.nextUser == (if s == [] then u.nextUser else u.nextUser[s[|s| - 1] := u.firstUser[v]])
  }

  // Once the replaced instruction i has left its operands' chains, redirecting its users keeps all
  // remaining chains exact, and v's chain is the concatenation of the two.
  lemma RedirectConsistent(u: Uses, u': Uses, active: set<nat>, i: nat, v: nat)
    requires i in active && v in active && i != v && i in u.inputs
    requires Consistent(u, active, SlotsBelow(i, |u.inputs[i]|)) && Redirected(u, u', i, v)
    ensures Consistent(u', active - {i}, {})
  {
    var gone := SlotsBelow(i, |u.inputs[i]|);
    assert ChainOk(u, i) && Exact(u, active, gone, i) && ChainOk(u, v) && Exact(u, active, gone, v);
    forall x | x in active - {i} ensures x in u'.inputs && ChainOk(u', x) && Exact(u', active - {i}, {}, x) {
      assert ChainOk(u, x) && Exact(u, active, gone, x);
      if x == v {
        RedirectJoin(u, u', active, i, v);
      } else {
        RedirectOther(u, u', active, i, v, x);
      }
    }
    forall s: User, x: nat | Holds(u', active - {i}, s, x) ensures x in active - {i} {
      HoldsAfter(u, u', active, i, v, s, x);
    }
  }

  lemma HoldsAfter(u: Uses, u': Uses, active: set<nat>, i: nat, v: nat, s: User, x: nat)
    requires i in active && v in active && i != v && i in u.inputs
    requires Consistent(u, active, SlotsBelow(i, |u.inputs[i]|)) && Redirected(u, u', i, v)
    ensures Holds(u', active - {i}, s, x) <==>
            s !in SlotsBelow(i, |u.inputs[i]|) && x != i
              && (Holds(u, active, s, x) || (x == v && Holds(u, active, s, i)))
  {
    assert Exact(u, active, SlotsBelow(i, |u.inputs[i]|), i);
    assert s in SlotsBelow(i, |u.inputs[i]|) <==> s.inst == i && s.idx < |u.inputs[i]|;
  }

  lemma RedirectOther(u: Uses, u': Uses, active: set<nat>, i: nat, v: nat, x: nat)
    requires i in active && v in active && i != v && i in u.inputs && x in active && x != i && x != v
    requires Consistent(u, active, SlotsBelow(i, |u.inputs[i]|)) && Redirected(u, u', i, v)
    ensures ChainOk(u', x) && Exact(u', active - {i}, {}, x)
  {
    var gone := SlotsBelow(i, |u.inputs[i]|);
    assert ChainOk(u, i) && ChainOk(u, x) && Exact(u, active, gone, x);
    var s := u.chains[i];
    if s != [] && s[|s| - 1] in u.chains[x] {
      ChainsDisjoint(u, active, gone, i, x, s[|s| - 1]);
    }
    forall w: User ensures w in u'.chains[x] <==> w !in {} && Holds(u', active - {i}, w, x) {
      HoldsAfter(u, u', active, i, v, w, x);
    }
  }

  lemma RedirectJoin(u: Uses, u': Uses, active: set<nat>, i: nat, v: nat)
    requires i in active && v in active && i != v && i in u.inputs
    requires Consistent(u, active, SlotsBelow(i, |u.inputs[i]|)) && Redirected(u, u', i, v)
    ensures ChainOk(u', v) && Exact(u', active - {i}, {}, v)
  {
    var gone := SlotsBelow(i, |u.inputs[i]|);
    assert ChainOk(u, i) && ChainOk(u, v) && Exact(u, active, gone, i) && Exact(u, active, gone, v);
    var a, b := u.chains[i], u.chains[v];
    forall w | w in a ensures w !in b {
      if w in b {
        ChainsDisjoint(u, active, gone, i, v, w);
      }
    }
    JoinSpells(u.nextUser, u.firstUser[i], a, u.firstUser[v], b);
    forall w: User ensures w in u'.chains[v] <==> w !in {} && Holds(u', active - {i}, w, v) {
      HoldsAfter(u, u', active, i, v, w, v);
    }
  }

  lemma JoinSpells(next: map<User, Option<User>>, h: Option<User>, a: seq<User>, h': Option<User>, b: seq<User>)
    requires Spells(next, h, a) && Spells(next, h', b) && NoDuplicates(a) && NoDuplicates(b)
    requires forall w :: w in a ==> w !in b
    ensures NoDuplicates(a + b)
    ensures Spells(if a == [] then next else next[a[|a| - 1] := h'], if a == [] then h' else h, a + b)
  {
    var c := a + b;
    if a == [] {
      assert c == b;
    } else {
      var next' := next[a[|a| - 1] := h'];
      forall k | 0 <= k < |c| ensures c[k] in next' && next'[c[k]] == LinkAfter(c, k) {
        if k < |a| {
          assert c[k] == a[k];
        } else {
          assert c[k] == b[k - |a|] && a[|a| - 1] in a && c[k] in b;
        }
      }
      forall j, k | 0 <= j < k < |c| ensures c[j] != c[k] {
        if j < |a| <= k {
          assert c[j] in a && c[k] in b;
        }
      }
    }
  }

  // Writing a slot that is in no chain puts it at the head of the chain of its new operand.
  lemma AppendConsistent(u: Uses, u': Uses, active: set<nat>, s: User, y: nat)
    requires Consistent(u, active, {s}) && s.inst in active && y in active && s.idx < |u.inputs[s.inst]|
    requires u' == Uses(u.inputs[s.inst := u.inputs[s.inst][s.idx := Some(y)]], u.firstUser[y := Some(s)],
                        u.nextUser[s := u.firstUser[y]], u.chains[y := [s] + u.chains[y]])
    ensures Consistent(u', active, {})
  {
    forall w: User, x: nat
      ensures Holds(u', active, w, x) <==> (w != s && Holds(u, active, w, x)) || (w == s && x == y)
    {
    }
    forall x | x in active ensures x in u'.inputs && ChainOk(u', x) && Exact(u', active, {}, x) {
      assert ChainOk(u, x) && Exact(u, active, {s}, x);
      assert s !in u.chains[x];
    }
  }

  // An empty slot is in no chain.
  lemma EmptySlot(u: Uses, active: set<nat>, s: User)
    requires Consistent(u, active, {}) && s.inst in active && s.idx < |u.inputs[s.inst]|
    requires u.inputs[s.inst][s.idx] == None
    ensures Consistent(u, active, {s})
  {
    forall x | x in active ensures Exact(u, active, {s}, x) {
      assert Exact(u, active, {}, x);
    }
  }

  // n empty slots
  function Nones(n: nat): (r: seq<Option<nat>>)
    ensures |r| == n && forall j :: 0 <= j < n ==> r[j] == None
  {
    seq(n, _ => None)
  }

  // A new instruction has no users and empty slots.
  lemma NewConsistent(u: Uses, u': Uses, active: set<nat>, x: nat, n: nat)
    requires Consistent(u, active, {}) && x !in active
    requires u' == Uses(u.inputs[x := Nones(n)], u.firstUser[x := None], u.nextUser, u.chains[x := []])
    ensures Consistent(u', active + {x}, {})
  {
    forall w: User, y: nat ensures Holds(u', active + {x}, w, y) <==> Holds(u, active, w, y) {
    }
    forall y | y in active + {x} ensures y in u'.inputs && ChainOk(u', y) && Exact(u', active + {x}, {}, y) {
      if y != x {
        assert ChainOk(u, y) && Exact(u, active, {}, y);
      }
    }
  }
}
