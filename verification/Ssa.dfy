// In strict SSA form every pure instruction that dominates a point is up to date there, loops included.
module Ssa {
  import opened Cfg
  import opened Ir

  // x cannot be defined strictly above its own block, nor in front of itself.
  lemma NotLiveInOwnBlock(p: Program, x: nat, b: nat)
    requires Unique(p) && InBlock(p, x, b)
    ensures !LiveIn(p, x, b)
  {
  }

  lemma NotBeforeItself(p: Program, b: nat, k: nat)
    requires Unique(p) && b < |p.phis| && b < |p.body| && k < |p.body[b]|
    ensures !Before(p, p.body[b][k], b, k)
  {
    NotLiveInOwnBlock(p, p.body[b][k], b);
  }

  // What is defined in front of a point of c, a strict dominator of b, is not defined in b.
  lemma AboveNotBelow(p: Program, x: nat, c: nat, j: nat, b: nat)
    requires Strict(p) && b < p.g.Size() && c < p.g.Size() && StrictlyDominates(p.g, c, b)
    requires j <= |p.body[c]| && Before(p, x, c, j)
    ensures !InBlock(p, x, b)
  {
    if LiveIn(p, x, c) {
      var d: nat :| InBlock(p, x, d) && StrictlyDominates(p.g, d, c);
      if Dominates(p.g, b, c) {
        DominatesAntisymmetric(p.g, c, b);
      }
    } else {
      assert InBlock(p, x, c);
    }
  }

  // A pure instruction that is live into b sits in the body of a strict dominator.
  lemma PureLiveIn(p: Program, i: nat, b: nat) returns (c: nat)
    requires Strict(p) && b < p.g.Size() && LiveIn(p, i, b) && i in p.insts && IsPure(p.insts[i].op)
    ensures c < p.g.Size() && i in p.body[c] && StrictlyDominates(p.g, c, b)
  {
    c :| InBlock(p, i, c) && StrictlyDominates(p.g, c, b);
    DominatorInRange(p.g, c, b);
  }

  lemma Located(p: Program, i: nat, c: nat) returns (j: nat)
    requires Strict(p) && c < p.g.Size() && i in p.body[c]
    ensures j < |p.body[c]| && p.body[c][j] == i
    ensures forall x :: x in p.insts[i].inputs ==> Before(p, x, c, j)
  {
    j :| 0 <= j < |p.body[c]| && p.body[c][j] == i;
    assert InputsReady(p, c, j);
  }

  // What is defined above an instruction i is not defined anew by the k-th instruction of b when i
  // dominates the point (b, k).
  lemma AboveNotRedefined(p: Program, c: nat, j: nat, x: nat, b: nat, k: nat)
    requires Strict(p) && b < p.g.Size() && k < |p.body[b]| && c < p.g.Size() && j < |p.body[c]|
    requires Before(p, p.body[c][j], b, k) && Before(p, x, c, j)
    ensures x != p.body[b][k]
  {
    NotBeforeItself(p, b, k);
    if LiveIn(p, p.body[c][j], b) {
      var d: nat :| InBlock(p, p.body[c][j], d) && StrictlyDominates(p.g, d, b);
      assert InBlock(p, p.body[c][j], c);
      AboveNotBelow(p, x, c, j, b);
    } else {
      assert InBlock(p, p.body[c][j], b) && InBlock(p, p.body[c][j], c);
      var j' :| 0 <= j' < k && p.body[b][j'] == p.body[c][j];
      assert j' == j;
    }
  }

  lemma OperandNotRedefined(p: Program, i: nat, x: nat, b: nat, k: nat)
    requires Strict(p) && b < p.g.Size() && k < |p.body[b]|
    requires i in p.insts && IsPure(p.insts[i].op) && Before(p, i, b, k) && x in p.insts[i].inputs
    ensures x != p.body[b][k]
  {
    var c: nat := b;
    if LiveIn(p, i, b) {
      c := PureLiveIn(p, i, b);
    }
    var j := Located(p, i, c);
    AboveNotRedefined(p, c, j, x, b, k);
  }

  lemma ArgsAgree(e: Env, e': Env, xs: seq<nat>)
    requires forall x :: x in xs ==> Get(e, x) == Get(e', x)
    ensures Args(e, xs) == Args(e', xs)
  {
  }

  // Writing a value that neither i nor its operands read keeps i up to date.
  lemma UpToDateKept(p: Program, m: Machine, e: Env, e': Env, i: nat)
    requires i in p.insts && UpToDate(p, m, e, i)
    requires Get(e, i) == Get(e', i) && forall x :: x in p.insts[i].inputs ==> Get(e, x) == Get(e', x)
    ensures UpToDate(p, m, e', i)
  {
    hide Eval;
    ArgsAgree(e, e', p.insts[i].inputs);
  }

  // One instruction: everything that was up to date stays so, and the instruction joins it.
  lemma CurrentStep(p: Program, m: Machine, b: nat, k: nat, st: State)
    requires Strict(p) && b < p.g.Size() && k < |p.body[b]| && Current(p, m, st.env, b, k)
    requires ExecInst(m, p.body[b][k], p.insts[p.body[b][k]], st).Go?
    ensures Current(p, m, ExecInst(m, p.body[b][k], p.insts[p.body[b][k]], st).st.env, b, k + 1)
  {
    hide Eval, UpToDate, LiveIn, InputsReady, PhiReady, Unique;
    var j := p.body[b][k];
    var env' := ExecInst(m, j, p.insts[j], st).st.env;
    StepWrites(m, j, p.insts[j], st);
    forall i | i in p.insts && IsPure(p.insts[i].op) && Before(p, i, b, k + 1) ensures UpToDate(p, m, env', i) {
      if i == j {
        SelfUpToDate(p, m, b, k, st);
      } else {
        assert Before(p, i, b, k);
        forall x | x in p.insts[i].inputs ensures Get(st.env, x) == Get(env', x) {
          OperandNotRedefined(p, i, x, b, k);
        }
        UpToDateKept(p, m, st.env, env', i);
      }
    }
  }

  // An instruction writes at most its own value.
  lemma StepWrites(m: Machine, j: nat, ins: Inst, st: State)
    requires ExecInst(m, j, ins, st).Go?
    ensures forall x: nat :: x != j ==> Get(ExecInst(m, j, ins, st).st.env, x) == Get(st.env, x)
  {
    hide Eval;
  }

  lemma SelfUpToDate(p: Program, m: Machine, b: nat, k: nat, st: State)
    requires Strict(p) && b < p.g.Size() && k < |p.body[b]|
    requires IsPure(p.insts[p.body[b][k]].op) && ExecInst(m, p.body[b][k], p.insts[p.body[b][k]], st).Go?
    ensures UpToDate(p, m, ExecInst(m, p.body[b][k], p.insts[p.body[b][k]], st).st.env, p.body[b][k])
  {
    hide Eval, LiveIn;
    var j := p.body[b][k];
    var env' := ExecInst(m, j, p.insts[j], st).st.env;
    NotBeforeItself(p, b, k);
    assert InputsReady(p, b, k);
    assert j !in p.insts[j].inputs;
    ArgsAgree(st.env, env', p.insts[j].inputs);
  }

  // Entering a successor: what dominates the successor dominated the end of b, and the phis of the
  // successor are not among its operands.
  lemma CurrentEdge(p: Program, m: Machine, b: nat, s: nat, env: Env)
    requires Strict(p) && b < p.g.Size() && s in p.g.succs[b] && s < p.g.Size()
    requires Current(p, m, env, b, |p.body[b]|)
    ensures Current(p, m, EnterBlock(p, s, b, env), s, 0)
  {
    hide Eval, UpToDate;
    var env' := EnterBlock(p, s, b, env);
    forall i | i in p.insts && IsPure(p.insts[i].op) && Before(p, i, s, 0) ensures UpToDate(p, m, env', i) {
      var c := PureLiveIn(p, i, s);
      CarriedOver(p, i, c, b, s);
      assert i !in p.phis[s] && Get(env, i) == Get(env', i);
      var j := Located(p, i, c);
      forall x | x in p.insts[i].inputs ensures Get(env, x) == Get(env', x) {
        AboveNotBelow(p, x, c, j, s);
      }
      UpToDateKept(p, m, env, env', i);
    }
  }

  lemma CarriedOver(p: Program, i: nat, c: nat, b: nat, s: nat)
    requires Sized(p) && b < p.g.Size() && s in p.g.succs[b] && s < p.g.Size()
    requires InBlock(p, i, c) && StrictlyDominates(p.g, c, s)
    ensures Before(p, i, b, |p.body[b]|)
  {
    DominatesPredecessor(p.g, c, b, s);
    assert p.body[b][..|p.body[b]|] == p.body[b];
    if c != b {
      assert StrictlyDominates(p.g, c, b);
    }
  }

  // The rest of a block.
  lemma {:induction false} CurrentBody(p: Program, m: Machine, b: nat, k: nat, st: State)
    requires Strict(p) && b < p.g.Size() && k <= |p.body[b]| && Current(p, m, st.env, b, k)
    requires ExecAll(p, m, p.body[b][k..], st).Go?
    ensures Current(p, m, ExecAll(p, m, p.body[b][k..], st).st.env, b, |p.body[b]|)
    decreases |p.body[b]| - k
  {
    hide Current, ExecInst, InputsReady, PhiReady, Unique;
    if k < |p.body[b]| {
      CurrentStep(p, m, b, k, st);
      assert p.body[b][k..][1..] == p.body[b][k + 1..];
      CurrentBody(p, m, b, k + 1, ExecInst(m, p.body[b][k], p.insts[p.body[b][k]], st).st);
    }
  }

  // At every point of every run, the latest value of a dominating pure instruction is its operation
  // applied to the latest values of its operands.
  lemma {:induction false} RunIsCurrent(p: Program, m: Machine, n: nat)
    requires Strict(p)
    ensures var c := Run(p, m, n); c.At? ==> Current(p, m, c.st.env, c.b, 0)
  {
    hide Current, InputsReady, PhiReady, Unique;
    if n == 0 {
      NothingAboveEntry(p, m);
    } else {
      RunIsCurrent(p, m, n - 1);
      var c := Run(p, m, n - 1);
      if c.At? {
        CurrentNext(p, m, c);
      }
    }
  }

  lemma CurrentNext(p: Program, m: Machine, c: Config)
    requires Strict(p) && c.At? && c.b < p.g.Size() && Current(p, m, c.st.env, c.b, 0)
    ensures var c' := Next(p, m, c); c'.At? ==> Current(p, m, c'.st.env, c'.b, 0)
  {
    hide Current, InputsReady, PhiReady, Unique, ExecAll, EnterBlock, Target;
    var flow := ExecAll(p, m, p.body[c.b], c.st);
    if flow.Go? && p.g.succs[c.b] != [] {
      assert p.body[c.b][0..] == p.body[c.b];
      CurrentBody(p, m, c.b, 0, c.st);
      CurrentEdge(p, m, c.b, Target(p, m, c.b, flow.st.env), flow.st.env);
    }
  }

  lemma NothingAboveEntry(p: Program, m: Machine)
    requires Strict(p)
    ensures Current(p, m, map[], ENTRY, 0)
  {
    forall i | i in p.insts && IsPure(p.insts[i].op) ensures !Before(p, i, ENTRY, 0) {
      if LiveIn(p, i, ENTRY) {
        var c := PureLiveIn(p, i, ENTRY);
        OnlyEntryDominatesEntry(p.g, c);
      }
    }
  }
}
