// A small program that meets the assumptions of the theorems about passes and allocation: one block checks the
// same parameter twice and returns it.
module Example {
  import opened Cfg
  import opened Ir
  import opened LinearOrdering
  import opened LivenessSpec
  import opened Liveness
  import opened LiveCoverage
  import AllocationInput
  import Backend
  import ChecksElimination
  import RegAllocState

  const GRAPH := Graph([[], [0]], [[1], []])
  const BODY: seq<nat> := [0, 1, 2, 3]
  const INSTS: map<nat, Inst> := map[
    0 := Inst(Parameter, ARRAY, 0, EQ, []),
    1 := Inst(CheckNull, ARRAY, 0, EQ, [0]),
    2 := Inst(CheckNull, ARRAY, 0, EQ, [0]),
    3 := Inst(Return, ARRAY, 0, EQ, [2])]
  const PROGRAM := Program(GRAPH, [[], []], [[], BODY], INSTS)
  const ORDER := [Elem(1, 0), Elem(0, 10)]
  const NUMBERS: map<nat, nat> := map[0 := 2, 1 := 4, 2 := 6, 3 := 8]

  lemma GraphReachable()
    ensures GRAPH.Valid() && AllReachable(GRAPH)
  {
    EntryReachable(GRAPH);
    PathExtend(GRAPH, [ENTRY], ENTRY, ENTRY, 0);
  }

  lemma ProgramSized()
    ensures Ir.Sized(PROGRAM) && Unique(PROGRAM)
  {
    GraphReachable();
    hide AllReachable, Reachable;
  }

  lemma OperandsReady(k: nat)
    requires k < |BODY| && Ir.Sized(PROGRAM)
    ensures InputsReady(PROGRAM, 1, k)
  {
    hide LiveIn, Ir.Sized;
    var b := PROGRAM.body[1];
    assert b == BODY;
    assert k > 0 ==> BODY[..k][0] == 0;
    assert k == 3 ==> BODY[..k][2] == 2;
  }

  lemma ProgramStrict()
    ensures Strict(PROGRAM)
  {
    GraphReachable();
    ProgramSized();
    hide AllReachable, Unique, InputsReady, PhiReady;
    forall b, k | 0 <= b < PROGRAM.g.Size() && 0 <= k < |PROGRAM.body[b]| ensures InputsReady(PROGRAM, b, k) {
      OperandsReady(k);
    }
  }

  // The second check is redundant.
  lemma SecondCheckRedundant()
    ensures Ir.Sized(PROGRAM) && ChecksElimination.Redundant(PROGRAM, 1, 1, 2)
  {
    ProgramSized();
    assert PROGRAM.body[1][..2][1] == 1;
  }

  // The analysis and the allocation can process the program.
  lemma ProgramNumbered()
    ensures InRange(PROGRAM, ORDER) && Numbered(PROGRAM, ORDER, NUMBERS, 12)
  {
    ProgramSized();
    assert Start(PROGRAM, ORDER, 1) == 10;
    assert Start(PROGRAM, ORDER, 2) == 12;
  }

  lemma ProgramOrdered()
    ensures Topological(GRAPH, ORDER) && PhisDistinct(PROGRAM)
  {
    assert ORDER[..1][0].block == 1;
    assert 1 in BlocksOf(ORDER[..1]);
    assert ORDER[0].block in BlocksOf(ORDER) && ORDER[1].block in BlocksOf(ORDER);
  }

  lemma ProgramFits()
    ensures Strict(PROGRAM) && SingleEdges(GRAPH) && AllPlaced(PROGRAM) && UsersFit(PROGRAM)
  {
    ProgramStrict();
    hide Strict;
    forall y | y in PROGRAM.insts ensures InBlock(PROGRAM, y, 1) {
      assert BODY[y] == y;
    }
  }

  lemma ProgramAccepted(regs: nat)
    ensures Strict(PROGRAM) && AllPlaced(PROGRAM) && InRange(PROGRAM, ORDER)
    ensures AllocationInput.AllBlocksOk(PROGRAM) && AllocationInput.PhisFit(PROGRAM, ORDER, NUMBERS, regs)
  {
    ProgramFits();
    ProgramNumbered();
    BlocksOkIff(PROGRAM);
    hide Strict, UsersFit, BlockOk, AllPlaced;
    assert PROGRAM.phis[ORDER[0].block] == [] && PROGRAM.phis[ORDER[1].block] == [];
  }

  // The allocation succeeds with any number of registers.
  method Allocate(regs: nat) returns (ok: bool, places: RegAllocState.Intervals)
    requires regs > 0
    ensures ok && InRange(PROGRAM, ORDER) && Backend.Sound(PROGRAM, ORDER, places)
  {
    ProgramAccepted(regs);
    ProgramNumbered();
    ProgramOrdered();
    hide Strict, AllPlaced, Numbered, Topological, AllocationInput.AllBlocksOk, AllocationInput.PhisFit, Backend.Sound;
    ghost var spills;
    ok, places, spills := Backend.AllocateRegisters(PROGRAM, ORDER, NUMBERS, regs, 12);
  }
}
