// Replacing one instruction by fresh ones, or by a value that is already there, and redirecting its users:
// when such an edit preserves every run and the strict SSA form.
module Rewrite {
  import opened Cfg
  import opened Ir
  import opened Ssa

  // The k-th instruction of block b makes way for the fresh instructions `defs`, in the order `added`;
  // its users read v instead.
  datatype Edit = Edit(b: nat, k: nat, added: seq<nat>, defs: map<nat, Inst>, v: nat)

  // A fresh instruction takes the place of the k-th one.
  function FreshEdit(b: nat, k: nat, x: nat, ins: Inst): Edit {
    Edit(b, k, [x], map[x := ins], x)
  }

  function Redirect(x: nat, i: nat, v: nat): nat {
    if x == i then v else x
  }

  function RedirectAll(xs: seq<nat>, i: nat, v: nat): (ys: seq<nat>)
    ensures |ys| == |xs|
  {
    seq(|xs|, k requires 0 <= k < |xs| => Redirect(xs[k], i, v))
  }

  ghost predicate InRange(p: Program, e: Edit) {
    Sized(p) && e.b < p.g.Size() && e.k < |p.body[e.b]|
  }

  // The instruction that is replaced.
  function Old(p: Program, e: Edit): nat
    requires e.b < |p.body| && e.k < |p.body[e.b]|
  {
    p.body[e.b][e.k]
  }

  function Apply(p: Program, e: Edit): Program
    requires e.b < |p.body| && e.k < |p.body[e.b]|
  {
    var i := Old(p, e);
    p.(body := p.body[e.b := p.body[e.b][..e.k] + e.added + p.body[e.b][e.k + 1..]],
       insts := (map x | x in p.insts && x != i :: p.insts[x].(inputs := RedirectAll(p.insts[x].inputs, i, e.v)))
                + e.defs)
  }

  // The fresh instructions are new and pure, and read what is defined in front of the replaced one or
  // further left among themselves. The new value is one of them or defined in front of the replaced one.
  ghost predicate WellFormed(p: Program, e: Edit) {
    && Strict(p) && InRange(p, e)
    && IsPure(p.insts[Old(p, e)].op)
    && (forall x :: x in e.added <==> x in e.defs)
    && (forall x :: x in e.defs ==> x !in p.insts && IsPure(e.defs[x].op))
    && (forall j, k :: 0 <= j < k < |e.added| ==> e.added[j] != e.added[k])
    && (forall j :: 0 <= j < |e.added| ==> FreshReady(p, e, j))
    && (e.v in e.added || Before(p, e.v, e.b, e.k))
  }

  ghost predicate FreshReady(p: Program, e: Edit, j: nat)
    requires InRange(p, e) && j < |e.added| && forall x :: x in e.added <==> x in e.defs
  {
    forall x :: x in e.defs[e.added[j]].inputs ==> Before(p, x, e.b, e.k) || x in e.added[..j]
  }

  // Where the point (c, q) of the old program lies in the new one.
  function Shift(e: Edit, c: nat, q: nat): nat {
    if c == e.b && q > e.k then q - 1 + |e.added| else q
  }

  // ---------------------------------------------------------------- the strict SSA form is kept

  lemma ApplyBody(p: Program, e: Edit)
    requires InRange(p, e)
    ensures |Apply(p, e).body| == |p.body|
    ensures forall c :: 0 <= c < |p.body| && c != e.b ==> Apply(p, e).body[c] == p.body[c]
    ensures |Apply(p, e).body[e.b]| == |p.body[e.b]| - 1 + |e.added|
    ensures forall q :: 0 <= q < e.k ==> Apply(p, e).body[e.b][q] == p.body[e.b][q]
    ensures forall j :: 0 <= j < |e.added| ==> Apply(p, e).body[e.b][e.k + j] == e.added[j]
    ensures forall q :: e.k < q < |p.body[e.b]| ==> Apply(p, e).body[e.b][q - 1 + |e.added|] == p.body[e.b][q]
  {
  }

  lemma ApplyInBlock(p: Program, e: Edit, x: nat, c: nat)
    requires WellFormed(p, e)
    ensures InBlock(Apply(p, e), x, c) <==> (InBlock(p, x, c) && x != Old(p, e)) || (c == e.b && x in e.added)
  {
    hide InputsReady, PhiReady, FreshReady, Before;
    var i := Old(p, e);
    assert InBlock(p, i, e.b);
    if c == e.b {
      assert i in p.body[c] && i !in p.phis[c];
      assert x in p.phis[c] ==> x in p.insts;
      ListReplaced(p.body[e.b], e.k, e.added, x);
    } else if c < |p.body| {
      assert Apply(p, e).body[c] == p.body[c];
      assert x in p.body[c] || x in p.phis[c] ==> InBlock(p, x, c);
    }
  }

  lemma ListReplaced(l: seq<nat>, k: nat, added: seq<nat>, x: nat)
    requires k < |l| && forall j, q :: 0 <= j < q < |l| ==> l[j] != l[q]
    requires l[k] !in added
    ensures x in l[..k] + added + l[k + 1..] <==> (x in l && x != l[k]) || x in added
  {
    assert l == l[..k] + [l[k]] + l[k + 1..];
    assert l[k] !in l[..k] && l[k] !in l[k + 1..];
  }

  lemma ApplySized(p: Program, e: Edit)
    requires WellFormed(p, e)
    ensures Sized(Apply(p, e))
  {
    hide InputsReady, PhiReady, FreshReady, Before, Unique;
    var p' := Apply(p, e);
    forall b, x | 0 <= b < p'.g.Size() && (x in p'.phis[b] || x in p'.body[b]) ensures x in p'.insts {
      ApplyInBlock(p, e, x, b);
      assert InBlock(p', x, b);
    }
  }

  lemma ApplyUnique(p: Program, e: Edit)
    requires WellFormed(p, e)
    ensures Unique(Apply(p, e))
  {
    hide InputsReady, PhiReady, FreshReady, Before;
    var p' := Apply(p, e);
    forall x, b, c | InBlock(p', x, b) && InBlock(p', x, c) ensures b == c {
      ApplyInBlock(p, e, x, b);
      ApplyInBlock(p, e, x, c);
    }
    forall b, x | 0 <= b < |p'.body| && b < |p'.phis| && x in p'.body[b] ensures x !in p'.phis[b] {
      ApplyInBlock(p, e, x, b);
    }
    forall b, j, k | 0 <= b < |p'.body| && 0 <= j < k < |p'.body[b]| ensures p'.body[b][j] != p'.body[b][k] {
      ApplyDistinct(p, e, b, j, k);
    }
  }

  lemma ApplyDistinct(p: Program, e: Edit, b: nat, j: nat, k: nat)
    requires WellFormed(p, e) && b < |p.body| && j < k < |Apply(p, e).body[b]|
    ensures Apply(p, e).body[b][j] != Apply(p, e).body[b][k]
  {
    hide InputsReady, PhiReady, FreshReady, Before;
    ApplyBody(p, e);
    if b == e.b {
      var l := p.body[b];
      assert forall q :: 0 <= q < |l| ==> l[q] in p.insts;
    }
  }

  // What was defined in front of a point still is, except for the replaced instruction.
  lemma BeforeKept(p: Program, e: Edit, x: nat, c: nat, q: nat)
    requires WellFormed(p, e) && c < p.g.Size() && q <= |p.body[c]| && Before(p, x, c, q) && x != Old(p, e)
    ensures Shift(e, c, q) <= |Apply(p, e).body[c]| && Before(Apply(p, e), x, c, Shift(e, c, q))
  {
    hide InputsReady, PhiReady, FreshReady, Unique, Apply;
    var p' := Apply(p, e);
    ApplyBody(p, e);
    SameGraph(p, e);
    if LiveIn(p, x, c) {
      var d: nat :| InBlock(p, x, d) && StrictlyDominates(p.g, d, c);
      ApplyInBlock(p, e, x, d);
    } else if x in p.body[c][..q] {
      var j :| 0 <= j < q && p.body[c][j] == x;
      assert p'.body[c][Shift(e, c, j)] == x;
      assert Shift(e, c, j) < Shift(e, c, q);
    }
  }

  // The new value is defined wherever the replaced instruction was.
  lemma ValueBefore(p: Program, e: Edit, c: nat, q: nat)
    requires WellFormed(p, e) && c < p.g.Size() && q <= |p.body[c]| && Before(p, Old(p, e), c, q)
    ensures Shift(e, c, q) <= |Apply(p, e).body[c]| && Before(Apply(p, e), e.v, c, Shift(e, c, q))
  {
    hide InputsReady, PhiReady, FreshReady;
    if e.v in e.added {
      AddedBefore(p, e, c, q);
    } else {
      ApplyBody(p, e);
      BeforeBelow(p, e.v, e.b, e.k, c, q);
      NotBeforeItself(p, e.b, e.k);
      BeforeKept(p, e, e.v, c, q);
    }
  }

  lemma AddedBefore(p: Program, e: Edit, c: nat, q: nat)
    requires WellFormed(p, e) && c < p.g.Size() && q <= |p.body[c]| && Before(p, Old(p, e), c, q) && e.v in e.added
    ensures Shift(e, c, q) <= |Apply(p, e).body[c]| && Before(Apply(p, e), e.v, c, Shift(e, c, q))
  {
    hide InputsReady, PhiReady, FreshReady, Apply;
    var i := Old(p, e);
    ApplyBody(p, e);
    SameGraph(p, e);
    assert InBlock(p, i, e.b);
    if LiveIn(p, i, c) {
      var d: nat :| InBlock(p, i, d) && StrictlyDominates(p.g, d, c);
      assert d == e.b;
      ApplyInBlock(p, e, e.v, e.b);
      assert LiveIn(Apply(p, e), e.v, c);
    } else {
      assert InBlock(p, i, c);
      assert i in p.body[c][..q];
      var j :| 0 <= j < |e.added| && e.added[j] == e.v;
      assert Apply(p, e).body[c][e.k + j] == e.v;
      assert e.k + j < Shift(e, c, q);
    }
  }

  // What is defined in front of an instruction is defined wherever the instruction is.
  lemma BeforeBelow(p: Program, x: nat, b: nat, k: nat, c: nat, q: nat)
    requires Strict(p) && b < p.g.Size() && k < |p.body[b]| && c < p.g.Size() && q <= |p.body[c]|
    requires Before(p, x, b, k) && Before(p, p.body[b][k], c, q)
    ensures Before(p, x, c, q)
  {
    hide InputsReady, PhiReady;
    var i := p.body[b][k];
    assert InBlock(p, i, b);
    if LiveIn(p, i, c) {
      var b': nat :| InBlock(p, i, b') && StrictlyDominates(p.g, b', c);
      assert b' == b;
      LiveBelow(p, x, b, k, c);
    } else {
      assert InBlock(p, i, c);
      var k' :| 0 <= k' < q && p.body[c][k'] == i;
      assert k' == k;
    }
  }

  lemma LiveBelow(p: Program, x: nat, b: nat, k: nat, c: nat)
    requires Strict(p) && b < p.g.Size() && k <= |p.body[b]| && c < p.g.Size()
    requires Before(p, x, b, k) && StrictlyDominates(p.g, b, c)
    ensures LiveIn(p, x, c)
  {
    hide InputsReady, PhiReady;
    if LiveIn(p, x, b) {
      var d: nat :| InBlock(p, x, d) && StrictlyDominates(p.g, d, b);
      DominatesTransitive(p.g, d, b, c);
      if d == c {
        DominatesAntisymmetric(p.g, b, c);
      }
    } else {
      assert InBlock(p, x, b);
    }
  }

  // An operand, redirected, is defined in front of the shifted point.
  lemma RedirectedBefore(p: Program, e: Edit, x: nat, c: nat, q: nat)
    requires WellFormed(p, e) && c < p.g.Size() && q <= |p.body[c]| && Before(p, x, c, q)
    ensures Shift(e, c, q) <= |Apply(p, e).body[c]|
    ensures Before(Apply(p, e), Redirect(x, Old(p, e), e.v), c, Shift(e, c, q))
  {
    if x == Old(p, e) {
      ValueBefore(p, e, c, q);
    } else {
      BeforeKept(p, e, x, c, q);
    }
  }

  lemma RedirectedIn(xs: seq<nat>, i: nat, v: nat, y: nat) returns (x: nat)
    requires y in RedirectAll(xs, i, v)
    ensures x in xs && y == Redirect(x, i, v)
  {
    var j :| 0 <= j < |xs| && RedirectAll(xs, i, v)[j] == y;
    x := xs[j];
  }

  // Every position of the new block comes from the old block or is one of the added instructions.
  lemma KeptInputsReady(p: Program, e: Edit, c: nat, q: nat)
    requires WellFormed(p, e) && Sized(Apply(p, e)) && c < p.g.Size() && q < |p.body[c]| && !(c == e.b && q == e.k)
    ensures Shift(e, c, q) < |Apply(p, e).body[c]| && Apply(p, e).body[c][Shift(e, c, q)] == p.body[c][q]
    ensures p.body[c][q] in Apply(p, e).insts && Apply(p, e).insts[p.body[c][q]].op == p.insts[p.body[c][q]].op
    ensures InputsReady(Apply(p, e), c, Shift(e, c, q))
  {
    hide PhiReady, FreshReady, Before;
    var p' := Apply(p, e);
    ApplyBody(p, e);
    var x := p.body[c][q];
    assert InBlock(p, x, c) && InBlock(p, Old(p, e), e.b);
    assert InputsReady(p, c, q);
    forall y | y in p'.insts[x].inputs ensures Before(p', y, c, Shift(e, c, q)) {
      var z := RedirectedIn(p.insts[x].inputs, Old(p, e), e.v, y);
      RedirectedBefore(p, e, z, c, q);
    }
  }

  lemma AddedInputsReady(p: Program, e: Edit, j: nat)
    requires WellFormed(p, e) && Sized(Apply(p, e)) && j < |e.added|
    ensures e.k + j < |Apply(p, e).body[e.b]| && InputsReady(Apply(p, e), e.b, e.k + j)
    ensures e.added[j] in Apply(p, e).insts && IsPure(Apply(p, e).insts[e.added[j]].op)
  {
    hide PhiReady, Unique;
    var p' := Apply(p, e);
    ApplyBody(p, e);
    assert FreshReady(p, e, j);
    forall y | y in p'.insts[e.added[j]].inputs ensures Before(p', y, e.b, e.k + j) {
      if y in e.added[..j] {
        var n :| 0 <= n < j && e.added[n] == y;
        assert p'.body[e.b][e.k + n] == y;
      } else {
        NotBeforeItself(p, e.b, e.k);
        BeforeKept(p, e, y, e.b, e.k);
      }
    }
  }

  lemma KeptPhiReady(p: Program, e: Edit, c: nat, x: nat)
    requires WellFormed(p, e) && Sized(Apply(p, e)) && c < p.g.Size() && x in p.phis[c]
    ensures x in p.insts && x != Old(p, e) && x !in e.defs && PhiReady(Apply(p, e), c, x)
  {
    hide InputsReady, FreshReady, Before, Apply, Unique;
    var p' := Apply(p, e);
    ApplyBody(p, e);
    SameGraph(p, e);
    PhiKept(p, e, c, x);
    forall j | 0 <= j < |p.g.preds[c]|
      ensures Before(p', p'.insts[x].inputs[j], p.g.preds[c][j], |p'.body[p.g.preds[c][j]]|)
    {
      var d := p.g.preds[c][j];
      RedirectedBefore(p, e, p.insts[x].inputs[j], d, |p.body[d]|);
    }
  }

  lemma PhiKept(p: Program, e: Edit, c: nat, x: nat)
    requires WellFormed(p, e) && c < p.g.Size() && x in p.phis[c]
    ensures x in p.insts && x != Old(p, e) && x !in e.defs && PhiReady(p, c, x)
    ensures x in Apply(p, e).insts
    ensures Apply(p, e).insts[x] == p.insts[x].(inputs := RedirectAll(p.insts[x].inputs, Old(p, e), e.v))
  {
    hide InputsReady, FreshReady, Before;
    assert InBlock(p, x, c) && InBlock(p, Old(p, e), e.b);
  }

  // Where a position of the new block comes from.
  datatype Origin = Kept(q: nat) | Added(j: nat)

  function OriginOf(e: Edit, c: nat, q': nat): Origin {
    if c == e.b && e.k <= q' < e.k + |e.added| then Added(q' - e.k)
    else Kept(if c == e.b && q' >= e.k + |e.added| then q' + 1 - |e.added| else q')
  }

  lemma OriginRange(p: Program, e: Edit, c: nat, q': nat)
    requires InRange(p, e) && c < p.g.Size() && q' < |Apply(p, e).body[c]|
    ensures match OriginOf(e, c, q')
            case Added(j) => c == e.b && j < |e.added| && Apply(p, e).body[c][q'] == e.added[j]
            case Kept(q) => q < |p.body[c]| && Shift(e, c, q) == q' && !(c == e.b && q == e.k) &&
                            Apply(p, e).body[c][q'] == p.body[c][q]
  {
    ApplyBody(p, e);
  }

  lemma ApplyReady(p: Program, e: Edit, c: nat, q': nat)
    requires WellFormed(p, e) && Sized(Apply(p, e)) && c < p.g.Size() && q' < |Apply(p, e).body[c]|
    ensures var x := Apply(p, e).body[c][q'];
            x in Apply(p, e).insts && Apply(p, e).insts[x].op != Phi &&
            (Apply(p, e).insts[x].op == Jmp ==> q' == |Apply(p, e).body[c]| - 1)
    ensures InputsReady(Apply(p, e), c, q')
  {
    hide InputsReady, PhiReady, FreshReady, Before, Unique, Apply, AllReachable;
    OriginRange(p, e, c, q');
    ApplyBody(p, e);
    match OriginOf(e, c, q')
    case Added(j) =>
      AddedInputsReady(p, e, j);
    case Kept(q) =>
      KeptInputsReady(p, e, c, q);
  }

  // An edit keeps the strict SSA form.
  lemma ApplyStrict(p: Program, e: Edit)
    requires WellFormed(p, e)
    ensures Strict(Apply(p, e))
  {
    hide InputsReady, PhiReady, FreshReady, Before, Unique;
    var p' := Apply(p, e);
    ApplySized(p, e);
    ApplyUnique(p, e);
    forall c, q' | 0 <= c < p.g.Size() && 0 <= q' < |p'.body[c]|
      ensures p'.insts[p'.body[c][q']].op != Phi && InputsReady(p', c, q')
      ensures p'.insts[p'.body[c][q']].op == Jmp ==> q' == |p'.body[c]| - 1
    {
      ApplyReady(p, e, c, q');
    }
    forall c, x | 0 <= c < p.g.Size() && x in p'.phis[c] ensures p'.insts[x].op == Phi && PhiReady(p', c, x) {
      PhiKept(p, e, c, x);
      KeptPhiReady(p, e, c, x);
    }
  }

  // ---------------------------------------------------------------- runs are kept

  // The environments agree on the instructions of the old program, and where the replaced instruction
  // dominates the point (c, q) the new value is its value.
  ghost predicate Related(p: Program, e: Edit, env: Env, env': Env, c: nat, q: nat)
    requires InRange(p, e) && c < p.g.Size() && q <= |p.body[c]|
  {
    && (forall x :: x in p.insts && x != Old(p, e) ==> Get(env', x) == Get(env, x))
    && (Before(p, Old(p, e), c, q) ==> Get(env', e.v) == Get(env, Old(p, e)))
  }

  // The added instructions cannot fail and give the new value the value of the replaced instruction,
  // which cannot fail either.
  ghost predicate SlotKeeps(p: Program, e: Edit)
    requires WellFormed(p, e)
  {
    forall m: Machine, st: State, env': Env ::
      Current(p, m, st.env, e.b, e.k) && Related(p, e, st.env, env', e.b, e.k) ==> SlotKeepsAt(p, e, m, st, env')
  }

  ghost predicate SlotKeepsAt(p: Program, e: Edit, m: Machine, st: State, env': Env)
    requires WellFormed(p, e)
  {
    var i := Old(p, e);
    var was := Eval(m, p.insts[i], Args(st.env, p.insts[i].inputs));
    var now := ExecAdded(e, m, e.added, env');
    was.Some? && now.Some? && Get(now.value, e.v) == was.value
  }

  // Runs added instructions, which are pure.
  function ExecAdded(e: Edit, m: Machine, xs: seq<nat>, env: Env): Option<Env>
    requires forall x :: x in xs ==> x in e.defs
  {
    if xs == [] then Some(env)
    else
      match Eval(m, e.defs[xs[0]], Args(env, e.defs[xs[0]].inputs))
      case None => None
      case Some(v) => ExecAdded(e, m, xs[1..], env[xs[0] := v])
  }

  lemma {:induction false} ExecAddedIsExecAll(p: Program, e: Edit, m: Machine, xs: seq<nat>, st: State)
    requires WellFormed(p, e) && (forall x :: x in xs ==> x in e.defs) && ExecAdded(e, m, xs, st.env).Some?
    ensures ExecAll(Apply(p, e), m, xs, st) == Go(State(ExecAdded(e, m, xs, st.env).value, st.trace))
    ensures forall x :: x in p.insts ==> Get(ExecAdded(e, m, xs, st.env).value, x) == Get(st.env, x)
  {
    hide Eval;
    if xs != [] {
      var v := Eval(m, e.defs[xs[0]], Args(st.env, e.defs[xs[0]].inputs)).value;
      ExecAddedIsExecAll(p, e, m, xs[1..], st.(env := st.env[xs[0] := v]));
    }
  }

  lemma {:induction false} ExecAllAppend(p: Program, m: Machine, xs: seq<nat>, ys: seq<nat>, st: State)
    requires forall x :: x in xs + ys ==> x in p.insts
    ensures forall x :: x in xs || x in ys ==> x in xs + ys
    ensures ExecAll(p, m, xs + ys, st) ==
            match ExecAll(p, m, xs, st) case Go(st') => ExecAll(p, m, ys, st') case stop => stop
  {
    hide ExecInst;
    if xs == [] {
      assert xs + ys == ys;
    } else {
      assert (xs + ys)[1..] == xs[1..] + ys;
      assert xs[0] in xs + ys;
      forall x | x in xs[1..] + ys ensures x in p.insts {
        assert x in xs + ys;
      }
      match ExecInst(m, xs[0], p.insts[xs[0]], st)
      case Go(st') =>
        ExecAllAppend(p, m, xs[1..], ys, st');
      case _ =>
    }
  }

  ghost predicate RelatedFlow(p: Program, e: Edit, f: Flow, f': Flow, c: nat, q: nat)
    requires InRange(p, e) && c < p.g.Size() && q <= |p.body[c]|
  {
    match f
    case Go(st) => f'.Go? && f'.st.trace == st.trace && Related(p, e, st.env, f'.st.env, c, q)
    case stop => f' == stop
  }

  lemma BeforeInInsts(p: Program, x: nat, c: nat, q: nat)
    requires Sized(p) && c < p.g.Size() && q <= |p.body[c]| && Before(p, x, c, q)
    ensures x in p.insts
  {
  }

  // Redirected operands have the values of the original ones.
  lemma SameArgs(p: Program, e: Edit, env: Env, env': Env, c: nat, q: nat, r: nat)
    requires WellFormed(p, e) && c < p.g.Size() && q < |p.body[c]| && q <= r <= |p.body[c]|
    requires Related(p, e, env, env', c, r)
    ensures var xs := p.insts[p.body[c][q]].inputs;
            Args(env', RedirectAll(xs, Old(p, e), e.v)) == Args(env, xs)
  {
    hide PhiReady, FreshReady, Unique, LiveIn;
    assert InputsReady(p, c, q);
    var xs := p.insts[p.body[c][q]].inputs;
    forall j | 0 <= j < |xs| ensures Get(env', Redirect(xs[j], Old(p, e), e.v)) == Get(env, xs[j]) {
      assert xs[j] in xs && Before(p, xs[j], c, q);
      BeforeInInsts(p, xs[j], c, q);
    }
  }

  // An untouched instruction.
  lemma SimInst(p: Program, e: Edit, m: Machine, c: nat, q: nat, st: State, st': State)
    requires WellFormed(p, e) && c < p.g.Size() && q < |p.body[c]| && !(c == e.b && q == e.k)
    requires Related(p, e, st.env, st'.env, c, q) && st.trace == st'.trace
    ensures var x := p.body[c][q];
            x in Apply(p, e).insts &&
            RelatedFlow(p, e, ExecInst(m, x, p.insts[x], st), ExecInst(m, x, Apply(p, e).insts[x], st'), c, q + 1)
  {
    hide ExecInst, PhiReady, FreshReady, InputsReady, Before, Unique, Apply, Args, Related, SameWrite;
    var x := p.body[c][q];
    NotSlot(p, e, c, q);
    SameArgs(p, e, st.env, st'.env, c, q, q);
    SameExec(m, x, p.insts[x], RedirectAll(p.insts[x].inputs, Old(p, e), e.v), st, st');
    var f, f' := ExecInst(m, x, p.insts[x], st), ExecInst(m, x, Apply(p, e).insts[x], st');
    if f.Go? {
      RelatedWrite(p, e, c, q, st.env, f.st.env, st'.env, f'.st.env);
    }
  }

  // Writing the same value to both environments keeps them related.
  lemma RelatedWrite(p: Program, e: Edit, c: nat, q: nat, a: Env, b: Env, a': Env, b': Env)
    requires WellFormed(p, e) && c < p.g.Size() && q < |p.body[c]| && p.body[c][q] != Old(p, e)
    requires Related(p, e, a, a', c, q) && SameWrite(p.body[c][q], a, b, a', b')
    ensures Related(p, e, b, b', c, q + 1)
  {
    hide PhiReady, FreshReady, InputsReady, Before, Unique, Get;
    BeforeStep(p, Old(p, e), c, q);
    if Before(p, Old(p, e), c, q) {
      ValueNotRedefined(p, e, c, q);
    }
  }

  lemma BeforeStep(p: Program, i: nat, c: nat, q: nat)
    requires c < |p.phis| && c < |p.body| && q < |p.body[c]| && i != p.body[c][q]
    ensures Before(p, i, c, q + 1) ==> Before(p, i, c, q)
  {
    hide LiveIn;
  }

  // An instruction only looks at the values of its operands.
  lemma SameExec(m: Machine, x: nat, ins: Inst, ys: seq<nat>, st: State, st': State)
    requires Args(st'.env, ys) == Args(st.env, ins.inputs) && st.trace == st'.trace
    ensures match ExecInst(m, x, ins, st)
            case Go(s) =>
              var f' := ExecInst(m, x, ins.(inputs := ys), st');
              f'.Go? && f'.st.trace == s.trace && SameWrite(x, st.env, s.env, st'.env, f'.st.env)
            case stop => ExecInst(m, x, ins.(inputs := ys), st') == stop
  {
    hide Eval;
    EvalIgnoresInputs(m, ins, ys, Args(st.env, ins.inputs));
  }

  // Both environments are left alone, or x is set to the same value in both.
  ghost predicate SameWrite(x: nat, a: Env, b: Env, a': Env, b': Env) {
    && (forall y: nat :: y != x ==> Get(b, y) == Get(a, y) && Get(b', y) == Get(a', y))
    && ((Get(b, x) == Get(a, x) && Get(b', x) == Get(a', x)) || Get(b, x) == Get(b', x))
  }

  lemma EvalIgnoresInputs(m: Machine, ins: Inst, ys: seq<nat>, args: seq<bv64>)
    ensures Eval(m, ins.(inputs := ys), args) == Eval(m, ins, args)
  {
  }

  lemma NotSlot(p: Program, e: Edit, c: nat, q: nat)
    requires WellFormed(p, e) && c < p.g.Size() && q < |p.body[c]| && !(c == e.b && q == e.k)
    ensures p.body[c][q] != Old(p, e) && p.body[c][q] in p.insts && p.body[c][q] !in e.defs
    ensures p.body[c][q] in Apply(p, e).insts
    ensures Apply(p, e).insts[p.body[c][q]] ==
            p.insts[p.body[c][q]].(inputs := RedirectAll(p.insts[p.body[c][q]].inputs, Old(p, e), e.v))
  {
    hide PhiReady, FreshReady, InputsReady, Before;
    assert InBlock(p, p.body[c][q], c) && InBlock(p, Old(p, e), e.b);
  }

  // Where the replaced instruction dominates, the new value is not written.
  lemma ValueNotRedefined(p: Program, e: Edit, c: nat, q: nat)
    requires WellFormed(p, e) && c < p.g.Size() && q < |p.body[c]| && Before(p, Old(p, e), c, q)
    ensures p.body[c][q] != e.v
  {
    hide PhiReady, FreshReady, InputsReady, LiveIn, Unique;
    if e.v !in e.added {
      AboveNotRedefined(p, e.b, e.k, e.v, c, q);
    }
  }

  // The replaced instruction against the added ones.
  lemma SimSlot(p: Program, e: Edit, m: Machine, st: State, st': State)
    requires WellFormed(p, e) && SlotKeeps(p, e)
    requires Current(p, m, st.env, e.b, e.k) && Related(p, e, st.env, st'.env, e.b, e.k) && st.trace == st'.trace
    ensures forall x :: x in e.added ==> x in Apply(p, e).insts
    ensures RelatedFlow(p, e, ExecInst(m, Old(p, e), p.insts[Old(p, e)], st), ExecAll(Apply(p, e), m, e.added, st'),
                        e.b, e.k + 1)
  {
    hide Eval, PhiReady, FreshReady, InputsReady, LiveIn, Unique, Current, Apply, ExecAll, ExecAdded;
    assert SlotKeepsAt(p, e, m, st, st'.env);
    AddedInInsts(p, e);
    ExecAddedIsExecAll(p, e, m, e.added, st');
    PureExec(m, Old(p, e), p.insts[Old(p, e)], st);
  }

  lemma AddedInInsts(p: Program, e: Edit)
    requires WellFormed(p, e)
    ensures forall x :: x in e.added ==> x in Apply(p, e).insts
  {
  }

  lemma PureExec(m: Machine, x: nat, ins: Inst, st: State)
    requires IsPure(ins.op) && Eval(m, ins, Args(st.env, ins.inputs)).Some?
    ensures ExecInst(m, x, ins, st) == Go(st.(env := st.env[x := Eval(m, ins, Args(st.env, ins.inputs)).value]))
  {
    hide Eval;
  }

  // The rest of a block.
  lemma {:induction false} SimTail(p: Program, e: Edit, m: Machine, c: nat, q: nat, st: State, st': State)
    requires WellFormed(p, e) && SlotKeeps(p, e) && Sized(Apply(p, e)) && c < p.g.Size() && q <= |p.body[c]|
    requires Current(p, m, st.env, c, q) && Related(p, e, st.env, st'.env, c, q) && st.trace == st'.trace
    ensures Shift(e, c, q) <= |Apply(p, e).body[c]|
    ensures RelatedFlow(p, e, ExecAll(p, m, p.body[c][q..], st),
                        ExecAll(Apply(p, e), m, Apply(p, e).body[c][Shift(e, c, q)..], st'), c, |p.body[c]|)
    decreases |p.body[c]| - q
  {
    hide PhiReady, FreshReady, InputsReady, LiveIn, Unique, Current, ExecInst, ExecAll, Related, SlotKeeps, Apply;
    ApplyBody(p, e);
    var p' := Apply(p, e);
    if q == |p.body[c]| {
      ExecNothing(p, m, p.body[c], st);
      ExecNothing(p', m, p'.body[c], st');
    } else {
      var x := p.body[c][q];
      var f := ExecInst(m, x, p.insts[x], st);
      ExecTail(p, m, p.body[c], q, st);
      if f.Go? {
        CurrentStep(p, m, c, q, st);
      }
      if c == e.b && q == e.k {
        SimSlot(p, e, m, st, st');
        SlotTail(p, e, m, st');
        if f.Go? {
          SimTail(p, e, m, c, q + 1, f.st, ExecAll(p', m, e.added, st').st);
        }
      } else {
        SimInst(p, e, m, c, q, st, st');
        ExecTail(p', m, p'.body[c], Shift(e, c, q), st');
        if f.Go? {
          SimTail(p, e, m, c, q + 1, f.st, ExecInst(m, x, p'.insts[x], st').st);
        }
      }
    }
  }

  lemma ExecTail(p: Program, m: Machine, l: seq<nat>, q: nat, st: State)
    requires q < |l| && forall x :: x in l ==> x in p.insts
    ensures ExecAll(p, m, l[q..], st) ==
            match ExecInst(m, l[q], p.insts[l[q]], st)
            case Go(st') => ExecAll(p, m, l[q + 1..], st')
            case stop => stop
  {
    hide ExecInst;
    assert l[q..][1..] == l[q + 1..];
  }

  lemma ExecNothing(p: Program, m: Machine, l: seq<nat>, st: State)
    ensures ExecAll(p, m, l[|l|..], st) == Go(st)
  {
  }

  lemma SlotTail(p: Program, e: Edit, m: Machine, st: State)
    requires WellFormed(p, e) && Sized(Apply(p, e))
    ensures forall x :: x in e.added ==> x in Apply(p, e).insts
    ensures Shift(e, e.b, e.k + 1) <= |Apply(p, e).body[e.b]|
    ensures ExecAll(Apply(p, e), m, Apply(p, e).body[e.b][e.k..], st) ==
            match ExecAll(Apply(p, e), m, e.added, st)
            case Go(st') => ExecAll(Apply(p, e), m, Apply(p, e).body[e.b][Shift(e, e.b, e.k + 1)..], st')
            case stop => stop
  {
    hide PhiReady, FreshReady, InputsReady, Before, Unique, ExecInst, ExecAll;
    var l := Apply(p, e).body[e.b];
    ApplyBody(p, e);
    assert l[e.k..] == e.added + l[e.k + |e.added|..];
    ExecAllAppend(Apply(p, e), m, e.added, l[e.k + |e.added|..], st);
  }

  // A block that does not end with the replaced instruction ends with the same one, on the same arguments.
  lemma SameLast(p: Program, e: Edit, c: nat, env: Env, env': Env)
    requires WellFormed(p, e) && Sized(Apply(p, e)) && c < p.g.Size() && p.body[c] != []
    requires Related(p, e, env, env', c, |p.body[c]|) && !(c == e.b && e.k == |p.body[c]| - 1)
    ensures var p' := Apply(p, e);
            var x := p.body[c][|p.body[c]| - 1];
            && |p'.body| == |p.body| && p'.body[c] != [] && p'.body[c][|p'.body[c]| - 1] == x && x in p.insts
            && x in p'.insts
            && p'.insts[x].op == p.insts[x].op && p'.insts[x].cond == p.insts[x].cond
            && Args(env', p'.insts[x].inputs) == Args(env, p.insts[x].inputs)
  {
    hide PhiReady, FreshReady, InputsReady, Before, Unique, Apply, Related, Args, AllReachable;
    ApplyBody(p, e);
    var last := |p.body[c]| - 1;
    NotSlot(p, e, c, last);
    SameArgs(p, e, env, env', c, last, |p.body[c]|);
  }

  // Blocks with the same last instruction on the same arguments take the same branch,
  lemma SameTarget(p: Program, p': Program, m: Machine, c: nat, env: Env, env': Env)
    requires c < |p.g.succs| && c < |p.body| && p.g.succs[c] != [] && (forall x :: x in p.body[c] ==> x in p.insts)
    requires p'.g == p.g && c < |p'.body| && (forall x :: x in p'.body[c] ==> x in p'.insts)
    requires p.body[c] != [] && p'.body[c] != []
    requires var x := p.body[c][|p.body[c]| - 1];
             && p'.body[c][|p'.body[c]| - 1] == x && x in p.insts && x in p'.insts
             && p'.insts[x].op == p.insts[x].op && p'.insts[x].cond == p.insts[x].cond
             && Args(env', p'.insts[x].inputs) == Args(env, p.insts[x].inputs)
    ensures Target(p', m, c, env') == Target(p, m, c, env)
  {
    hide Compare, Args;
  }

  // and so do blocks that end with no jump.
  lemma NoJumpTarget(p: Program, m: Machine, c: nat, env: Env)
    requires c < |p.g.succs| && c < |p.body| && p.g.succs[c] != [] && (forall x :: x in p.body[c] ==> x in p.insts)
    requires p.body[c] == [] || p.insts[p.body[c][|p.body[c]| - 1]].op != Jmp
    ensures Target(p, m, c, env) == p.g.succs[c][0]
  {
    hide Compare, Args;
  }

  // The end of a block takes the same branch.
  lemma SimTarget(p: Program, e: Edit, m: Machine, c: nat, env: Env, env': Env)
    requires WellFormed(p, e) && Sized(Apply(p, e)) && c < p.g.Size() && p.g.succs[c] != []
    requires Related(p, e, env, env', c, |p.body[c]|)
    ensures Target(Apply(p, e), m, c, env') == Target(p, m, c, env)
  {
    EditFacts(p, e);
    SameGraph(p, e);
    hide WellFormed, Apply, Related, Target;
    var p' := Apply(p, e);
    if p.body[c] != [] && !(c == e.b && e.k == |p.body[c]| - 1) {
      SameLast(p, e, c, env, env');
      SameTarget(p, p', m, c, env, env');
    } else {
      if p.body[c] != [] && p'.body[c] != [] {
        SlotNotJump(p, e);
      }
      NoJumpTarget(p, m, c, env);
      NoJumpTarget(p', m, c, env');
    }
  }

  lemma EditFacts(p: Program, e: Edit)
    requires WellFormed(p, e) && Sized(Apply(p, e))
    ensures Sized(p) && InRange(p, e) && |Apply(p, e).body| == |p.body| && IsPure(p.insts[Old(p, e)].op)
    ensures forall c :: 0 <= c < |p.body| && c != e.b ==> Apply(p, e).body[c] == p.body[c]
  {
    hide PhiReady, FreshReady, InputsReady, Before, Unique, AllReachable;
  }

  // When the replaced instruction ended its block, the block still does not end with a jump.
  lemma SlotNotJump(p: Program, e: Edit)
    requires WellFormed(p, e) && Sized(Apply(p, e)) && e.k == |p.body[e.b]| - 1
    requires Apply(p, e).body[e.b] != []
    ensures Apply(p, e).insts[Apply(p, e).body[e.b][|Apply(p, e).body[e.b]| - 1]].op != Jmp
  {
    hide PhiReady, FreshReady, InputsReady, Before;
    ApplyBody(p, e);
    var q' := |Apply(p, e).body[e.b]| - 1;
    OriginRange(p, e, e.b, q');
    match OriginOf(e, e.b, q')
    case Added(j) =>
    case Kept(q) =>
      NotSlot(p, e, e.b, q);
  }

  // Entering a successor.
  lemma SimEnter(p: Program, e: Edit, c: nat, s: nat, env: Env, env': Env)
    requires WellFormed(p, e) && Sized(Apply(p, e)) && c < p.g.Size() && s in p.g.succs[c] && s < p.g.Size()
    requires Related(p, e, env, env', c, |p.body[c]|)
    ensures Related(p, e, EnterBlock(p, s, c, env), EnterBlock(Apply(p, e), s, c, env'), s, 0)
  {
    hide PhiReady, FreshReady, InputsReady, Before, Unique, EnterBlock, Apply, PhiValue;
    SameGraph(p, e);
    var a, a' := EnterBlock(p, s, c, env), EnterBlock(Apply(p, e), s, c, env');
    EnterGets(p, s, c, env);
    EnterGets(Apply(p, e), s, c, env');
    forall x | x in p.insts && x != Old(p, e) ensures Get(a', x) == Get(a, x) {
      if x in p.phis[s] {
        SimPhi(p, e, c, s, x, env, env');
      }
    }
    if Before(p, Old(p, e), s, 0) {
      SimEnterValue(p, e, c, s);
    }
  }

  lemma EnterGets(p: Program, s: nat, c: nat, env: Env)
    requires Sized(p) && s < p.g.Size()
    ensures forall x: nat :: Get(EnterBlock(p, s, c, env), x) ==
              if x in p.phis[s] then PhiValue(p, x, PredIdx(p.g.preds[s], c), env) else Get(env, x)
  {
  }

  lemma SimPhi(p: Program, e: Edit, c: nat, s: nat, x: nat, env: Env, env': Env)
    requires WellFormed(p, e) && c < p.g.Size() && s in p.g.succs[c] && s < p.g.Size() && x in p.phis[s]
    requires Related(p, e, env, env', c, |p.body[c]|) && x in Apply(p, e).insts
    ensures PhiValue(Apply(p, e), x, PredIdx(p.g.preds[s], c), env') == PhiValue(p, x, PredIdx(p.g.preds[s], c), env)
  {
    hide FreshReady, InputsReady, Before, Unique;
    PhiKept(p, e, s, x);
    assert c in p.g.preds[s];
    var i := PredIdx(p.g.preds[s], c);
    assert Before(p, p.insts[x].inputs[i], p.g.preds[s][i], |p.body[c]|);
    BeforeInInsts(p, p.insts[x].inputs[i], c, |p.body[c]|);
  }

  // A replaced instruction that dominates the successor dominated the end of the block, and neither it
  // nor the new value is a phi of the successor.
  lemma SimEnterValue(p: Program, e: Edit, c: nat, s: nat)
    requires WellFormed(p, e) && c < p.g.Size() && s in p.g.succs[c] && s < p.g.Size()
    requires Before(p, Old(p, e), s, 0)
    ensures Before(p, Old(p, e), c, |p.body[c]|)
    ensures Old(p, e) !in p.phis[s] && e.v !in p.phis[s]
  {
    hide PhiReady, FreshReady, InputsReady;
    assert InBlock(p, Old(p, e), e.b);
    var d := PureLiveIn(p, Old(p, e), s);
    assert InBlock(p, Old(p, e), d);
    CarriedOver(p, Old(p, e), d, c, s);
    if e.v !in e.added {
      AboveNotBelow(p, e.v, e.b, e.k, s);
    }
  }

  ghost predicate RelatedConfig(p: Program, e: Edit, m: Machine, c: Config, c': Config)
    requires InRange(p, e)
  {
    match c
    case At(b, st) =>
      && b < p.g.Size() && c'.At? && c'.b == b && c'.st.trace == st.trace
      && Current(p, m, st.env, b, 0) && Related(p, e, st.env, c'.st.env, b, 0)
    case Halted(f) => c' == c
  }

  lemma SimNext(p: Program, e: Edit, m: Machine, c: Config, c': Config)
    requires WellFormed(p, e) && SlotKeeps(p, e) && Sized(Apply(p, e)) && RelatedConfig(p, e, m, c, c')
    ensures RelatedConfig(p, e, m, Next(p, m, c), Next(Apply(p, e), m, c'))
  {
    hide PhiReady, FreshReady, InputsReady, Before, Unique, Apply, SlotKeeps, Related, Current, Target, EnterBlock;
    hide ExecAll;
    if c.At? {
      ApplyBody(p, e);
      var b := c.b;
      var f := ExecAll(p, m, p.body[b], c.st);
      var f' := ExecAll(Apply(p, e), m, Apply(p, e).body[b], c'.st);
      assert p.body[b][0..] == p.body[b] && Apply(p, e).body[b][0..] == Apply(p, e).body[b];
      SimTail(p, e, m, b, 0, c.st, c'.st);
      CurrentNext(p, m, c);
      SameGraph(p, e);
      if f.Go? && p.g.succs[b] != [] {
        SimTarget(p, e, m, b, f.st.env, f'.st.env);
        SimEnter(p, e, b, Target(p, m, b, f.st.env), f.st.env, f'.st.env);
      }
    }
  }

  lemma SameGraph(p: Program, e: Edit)
    requires InRange(p, e)
    ensures Apply(p, e).g == p.g && Apply(p, e).phis == p.phis
  {
  }

  lemma {:induction false} SimRun(p: Program, e: Edit, m: Machine, n: nat)
    requires WellFormed(p, e) && SlotKeeps(p, e) && Sized(Apply(p, e))
    ensures RelatedConfig(p, e, m, Run(p, m, n), Run(Apply(p, e), m, n))
  {
    hide SlotKeeps, Next, PhiReady, FreshReady, InputsReady, Unique, Apply;
    if n == 0 {
      NothingAboveEntry(p, m);
      NotBeforeEntry(p, e);
    } else {
      SimRun(p, e, m, n - 1);
      SimNext(p, e, m, Run(p, m, n - 1), Run(Apply(p, e), m, n - 1));
    }
  }

  lemma NotBeforeEntry(p: Program, e: Edit)
    requires WellFormed(p, e)
    ensures !Before(p, Old(p, e), ENTRY, 0)
  {
    hide PhiReady, FreshReady, InputsReady;
    assert InBlock(p, Old(p, e), e.b);
    if LiveIn(p, Old(p, e), ENTRY) {
      var d := PureLiveIn(p, Old(p, e), ENTRY);
      OnlyEntryDominatesEntry(p.g, d);
    }
  }

  // An edit whose added instructions keep the value of the replaced one keeps every run.
  lemma ApplySound(p: Program, e: Edit)
    requires WellFormed(p, e) && SlotKeeps(p, e)
    ensures Strict(Apply(p, e)) && SameRuns(p, Apply(p, e))
  {
    hide SlotKeeps, InputsReady, PhiReady, Unique, Apply, Run, FreshReady;
    ApplyStrict(p, e);
    ApplySized(p, e);
    forall m: Machine, n: nat ensures Observe(Run(p, m, n)) == Observe(Run(Apply(p, e), m, n)) {
      SimRun(p, e, m, n);
    }
  }
}
