// The peephole on a pair of shifts by 32 changes what a program on unsigned values returns.
module UnsignedShift {
  import opened Cfg
  import opened Ir
  import opened Rewrite
  import opened PeepholeRules
  import opened PeepholePatterns

  // The parameter is shifted left and right by 32 and returned.
  const GRAPH := Graph([[], [0]], [[1], []])
  const BODY: seq<nat> := [0, 1, 2, 3, 4]
  const INSTS: map<nat, Inst> := map[
    0 := Inst(Parameter, UINT64, 0, EQ, []),
    1 := Inst(Const, UINT64, 32, EQ, []),
    2 := Inst(Shl, UINT64, 0, EQ, [0, 1]),
    3 := Inst(Ashr, UINT64, 0, EQ, [2, 1]),
    4 := Inst(Return, UINT64, 0, EQ, [3])]
  const PAIR := Program(GRAPH, [[], []], [[], BODY], INSTS)

  // What the pass makes of it, if the new instruction gets the id x.
  function CastAs(x: nat): Program {
    Apply(PAIR, FreshEdit(1, 3, x, UnaryInst(Cast, UINT32, 0)))
  }

  const MACHINE := Machine(map[], _ => 0x8000_0000, _ => 0, (x, y) => false)

  lemma PairSized()
    ensures Ir.Sized(PAIR) && Unique(PAIR) && AllReachable(GRAPH)
  {
    EntryReachable(GRAPH);
    PathExtend(GRAPH, [ENTRY], ENTRY, ENTRY, 0);
    hide PathTo;
  }

  lemma OperandsReady(k: nat)
    requires k < |BODY| && Ir.Sized(PAIR)
    ensures InputsReady(PAIR, 1, k)
  {
    hide LiveIn, Ir.Sized;
    assert k > 1 ==> BODY[..k][0] == 0 && BODY[..k][1] == 1;
    assert k > 2 ==> BODY[..k][2] == 2;
    assert k > 3 ==> BODY[..k][3] == 3;
  }

  lemma PairStrict()
    ensures Strict(PAIR)
  {
    PairSized();
    hide AllReachable, Unique, InputsReady, PhiReady;
    forall b, k | 0 <= b < PAIR.g.Size() && 0 <= k < |PAIR.body[b]| ensures InputsReady(PAIR, b, k) {
      OperandsReady(k);
    }
  }

  // The pass comes to its end on the program.
  lemma PairCalm()
    ensures Calm(PAIR)
  {
    assert ShiftSafe(PAIR, 3);
  }

  // It replaces the second shift.
  lemma PairMatches()
    ensures AritiesOk(PAIR) && UnsignedPair(PAIR, 3) && FirstMatch(PAIR, 1, 3) && !CrashesAt(PAIR, 1, 3)
  {
  }

  lemma ShiftedUp()
    ensures ShiftLeft(0x8000_0000, 32) == 0x8000_0000_0000_0000
    ensures AShr(0x8000_0000_0000_0000, 32) == 0xFFFF_FFFF_8000_0000
    ensures CastTo(UINT32, 0x8000_0000) == 0x8000_0000
  {
  }

  lemma ExecStep(p: Program, m: Machine, ids: seq<nat>, st: State, rest: seq<nat>, env: Env)
    requires (forall x :: x in ids ==> x in p.insts) && ids != [] && ids[1..] == rest
    requires ExecInst(m, ids[0], p.insts[ids[0]], st) == Go(State(env, st.trace))
    ensures ExecAll(p, m, ids, st) == ExecAll(p, m, rest, State(env, st.trace))
  {
  }

  const ENV1: Env := map[0 := 0x8000_0000]
  const ENV2: Env := ENV1[1 := 32]
  const ENV3: Env := ENV2[2 := 0x8000_0000_0000_0000]

  // The first three instructions are the same in both programs.
  lemma FirstThree(p: Program, trace: seq<Event>, i: nat)
    requires p.insts.Keys == {0, 1, 2, i, 4} && i > 2 && p.insts[0] == INSTS[0] && p.insts[1] == INSTS[1]
    requires p.insts[2] == INSTS[2]
    ensures ExecAll(p, MACHINE, [0, 1, 2, i, 4], State(map[], trace)) == ExecAll(p, MACHINE, [i, 4], State(ENV3, trace))
  {
    ShiftedUp();
    hide ShiftLeft, AShr, CastTo, ExecAll;
    assert Args(ENV2, [0, 1]) == [0x8000_0000, 32];
    ExecStep(p, MACHINE, [0, 1, 2, i, 4], State(map[], trace), [1, 2, i, 4], ENV1);
    ExecStep(p, MACHINE, [1, 2, i, 4], State(ENV1, trace), [2, i, 4], ENV2);
    ExecStep(p, MACHINE, [2, i, 4], State(ENV2, trace), [i, 4], ENV3);
  }

  // The last two: the replaced instruction gives v, which is returned.
  lemma LastTwo(p: Program, trace: seq<Event>, i: nat, v: bv64)
    requires p.insts.Keys == {0, 1, 2, i, 4} && i > 2 && i != 4 && p.insts[4] == Inst(Return, UINT64, 0, EQ, [i])
    requires IsPure(p.insts[i].op) && Eval(MACHINE, p.insts[i], Args(ENV3, p.insts[i].inputs)) == Some(v)
    ensures ExecAll(p, MACHINE, [i, 4], State(ENV3, trace)) == Ret(trace, Some(v))
  {
    hide ShiftLeft, AShr, CastTo, Eval;
    ExecStep(p, MACHINE, [i, 4], State(ENV3, trace), [4], ENV3[i := v]);
    assert Args(ENV3[i := v], [i]) == [v];
  }

  lemma SecondShift()
    ensures Eval(MACHINE, INSTS[3], Args(ENV3, [2, 1])) == Some(0xFFFF_FFFF_8000_0000)
  {
    ShiftedUp();
    hide ShiftLeft, AShr, CastTo;
    assert Args(ENV3, [2, 1]) == [0x8000_0000_0000_0000, 32];
  }

  // Before the replacement the sign fills the high word.
  lemma PairReturns(trace: seq<Event>)
    requires Ir.Sized(PAIR)
    ensures ExecAll(PAIR, MACHINE, BODY, State(map[], trace)) == Ret(trace, Some(0xFFFF_FFFF_8000_0000))
  {
    hide ShiftLeft, AShr, CastTo, ExecAll, Apply;
    FirstThree(PAIR, trace, 3);
    SecondShift();
    hide Eval;
    LastTwo(PAIR, trace, 3, 0xFFFF_FFFF_8000_0000);
  }

  lemma CastBody(x: nat)
    ensures |CastAs(x).body| == 2 && CastAs(x).body[0] == [] && CastAs(x).body[1] == [0, 1, 2, x, 4]
    ensures CastAs(x).g == GRAPH
  {
    assert BODY[..3] + [x] + BODY[4..] == [0, 1, 2, x, 4];
    hide RedirectAll;
  }

  lemma CastKeys(x: nat)
    requires x > 4
    ensures CastAs(x).insts.Keys == {0, 1, 2, x, 4} && CastAs(x).insts[x] == UnaryInst(Cast, UINT32, 0)
  {
    hide RedirectAll;
  }

  lemma CastInst(x: nat, j: nat)
    requires x > 4 && j in {0, 1, 2, 4}
    ensures j in CastAs(x).insts && CastAs(x).insts[j] == INSTS[j].(inputs := RedirectAll(INSTS[j].inputs, 3, x))
  {
    hide RedirectAll;
  }

  lemma CastInsts(x: nat)
    requires x > 4
    ensures CastAs(x).insts.Keys == {0, 1, 2, x, 4}
    ensures CastAs(x).insts[0] == INSTS[0] && CastAs(x).insts[1] == INSTS[1] && CastAs(x).insts[2] == INSTS[2]
    ensures CastAs(x).insts[x] == UnaryInst(Cast, UINT32, 0)
    ensures CastAs(x).insts[4] == Inst(Return, UINT64, 0, EQ, [x])
  {
    assert RedirectAll([], 3, x) == [] && RedirectAll([0, 1], 3, x) == [0, 1] && RedirectAll([3], 3, x) == [x];
    CastKeys(x);
    CastInst(x, 0);
    CastInst(x, 1);
    CastInst(x, 2);
    CastInst(x, 4);
    hide RedirectAll, CastAs;
  }

  // After it the high word is clear.
  lemma CastReturns(x: nat, trace: seq<Event>)
    requires x > 4 && Ir.Sized(CastAs(x))
    ensures ExecAll(CastAs(x), MACHINE, CastAs(x).body[1], State(map[], trace)) == Ret(trace, Some(0x8000_0000))
  {
    CastBody(x);
    CastInsts(x);
    ShiftedUp();
    FirstThree(CastAs(x), trace, x);
    hide ShiftLeft, AShr, CastTo, ExecAll, Apply;
    assert Args(ENV3, [0]) == [0x8000_0000];
    LastTwo(CastAs(x), trace, x, 0x8000_0000);
  }

  lemma CastStrict(x: nat)
    requires x > 4
    ensures Strict(CastAs(x))
  {
    PairStrict();
    hide Strict, Apply, AllReachable;
    assert 0 in PAIR.body[1][..3] by {
      assert PAIR.body[1][..3][0] == 0;
    }
    FreshWellFormed(PAIR, 1, 3, x, UnaryInst(Cast, UINT32, 0));
    hide WellFormed;
    ApplyStrict(PAIR, FreshEdit(1, 3, x, UnaryInst(Cast, UINT32, 0)));
  }

  // Both programs are in strict SSA form, and they return different values.
  lemma RunsDiffer(x: nat)
    requires x > 4
    ensures Strict(PAIR) && Strict(CastAs(x)) && !SameRuns(PAIR, CastAs(x))
  {
    PairStrict();
    CastStrict(x);
    CastBody(x);
    CastInsts(x);
    PairReturns([Visited(ENTRY)]);
    CastReturns(x, [Visited(ENTRY)]);
    hide AllReachable, Unique, InputsReady, PhiReady, ExecAll, Apply, CastAs;
    assert Observe(Run(PAIR, MACHINE, 1)) == Ended(Ret([Visited(ENTRY)], Some(0xFFFF_FFFF_8000_0000)));
    assert Observe(Run(CastAs(x), MACHINE, 1)) == Ended(Ret([Visited(ENTRY)], Some(0x8000_0000)));
  }
}
