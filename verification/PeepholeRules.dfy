// The arithmetic peepholes: what each pattern is replaced by, and why that keeps every run.
module PeepholeRules {
  import opened Cfg
  import opened Ir
  import opened Ssa
  import opened Rewrite
  import Bits

  // Inst::INPUTS_COUNT_ARRAY
  function Arity(op: Opcode): Option<nat> {
    match op
    case Const | Parameter | ReturnVoid => Some(0)
    case Cast | Return | CheckNull | Neg | Not => Some(1)
    case CheckBounds | GetElem | Add | Sub | Mul | Xor | Ashr | Shl | Jmp => Some(2)
    case Call | Phi => None
  }

  ghost predicate ArityOk(ins: Inst) {
    Arity(ins.op).Some? ==> |ins.inputs| == Arity(ins.op).value
  }

  ghost predicate AritiesOk(p: Program) {
    forall x :: x in p.insts ==> ArityOk(p.insts[x])
  }

  // The k-th instruction of b has this opcode and is a binary one.
  ghost predicate IsBinary(p: Program, b: nat, k: nat, op: Opcode) {
    && Strict(p) && Sized(p) && AritiesOk(p) && b < p.g.Size() && k < |p.body[b]|
    && op in {Sub, Xor, Ashr} && p.insts[p.body[b][k]].op == op && |p.insts[p.body[b][k]].inputs| == 2
  }

  function Input(p: Program, x: nat, j: nat): nat
    requires x in p.insts && j < |p.insts[x].inputs|
  {
    p.insts[x].inputs[j]
  }

  // On the current values, ins computes what the k-th instruction of b computes, which cannot fail.
  ghost predicate SameValue(p: Program, b: nat, k: nat, ins: Inst)
    requires Sized(p) && b < p.g.Size() && k < |p.body[b]|
  {
    forall m: Machine, env: Env :: Current(p, m, env, b, k) ==> SameValueAt(p, b, k, m, env, ins)
  }

  ghost predicate SameValueAt(p: Program, b: nat, k: nat, m: Machine, env: Env, ins: Inst)
    requires Sized(p) && b < p.g.Size() && k < |p.body[b]|
  {
    var old' := p.insts[p.body[b][k]];
    var was := Eval(m, old', Args(env, old'.inputs));
    was.Some? && Eval(m, ins, Args(env, ins.inputs)) == was
  }

  function ValueEdit(b: nat, k: nat, v: nat): Edit {
    Edit(b, k, [], map[], v)
  }

  // ---------------------------------------------------------------- replacing by one fresh instruction

  ghost predicate CanReplace(p: Program, b: nat, k: nat) {
    Strict(p) && b < p.g.Size() && k < |p.body[b]| && IsPure(p.insts[p.body[b][k]].op)
  }

  lemma FreshWellFormed(p: Program, b: nat, k: nat, x: nat, ins: Inst)
    requires CanReplace(p, b, k) && x !in p.insts && IsPure(ins.op)
    requires forall y :: y in ins.inputs ==> Before(p, y, b, k)
    ensures WellFormed(p, FreshEdit(b, k, x, ins))
  {
    hide Before;
    var e := FreshEdit(b, k, x, ins);
    assert FreshReady(p, e, 0);
  }

  lemma FreshSound(p: Program, b: nat, k: nat, x: nat, ins: Inst)
    requires CanReplace(p, b, k) && x !in p.insts && IsPure(ins.op)
    requires forall y :: y in ins.inputs ==> Before(p, y, b, k)
    requires SameValue(p, b, k, ins)
    ensures Strict(Apply(p, FreshEdit(b, k, x, ins))) && SameRuns(p, Apply(p, FreshEdit(b, k, x, ins)))
  {
    hide WellFormed, Before, Apply, SameRuns, Current, SameValueAt, Related, SlotKeepsAt;
    var e := FreshEdit(b, k, x, ins);
    FreshWellFormed(p, b, k, x, ins);
    forall m: Machine, st: State, env': Env | Current(p, m, st.env, b, k) && Related(p, e, st.env, env', b, k)
      ensures SlotKeepsAt(p, e, m, st, env')
    {
      assert SameValueAt(p, b, k, m, st.env, ins);
      FreshKeeps(p, b, k, x, ins, m, st, env');
    }
    ApplySound(p, e);
  }

  lemma FreshKeeps(p: Program, b: nat, k: nat, x: nat, ins: Inst, m: Machine, st: State, env': Env)
    requires WellFormed(p, FreshEdit(b, k, x, ins)) && SameValueAt(p, b, k, m, st.env, ins)
    requires forall y :: y in ins.inputs ==> Before(p, y, b, k)
    requires Related(p, FreshEdit(b, k, x, ins), st.env, env', b, k)
    ensures SlotKeepsAt(p, FreshEdit(b, k, x, ins), m, st, env')
  {
    hide Before, InputsReady, PhiReady, FreshReady, Eval;
    OperandsAgree(p, FreshEdit(b, k, x, ins), st.env, env', ins.inputs);
    ArgsAgree(st.env, env', ins.inputs);
    ExecOne(FreshEdit(b, k, x, ins), m, x, env');
  }

  lemma ExecOne(e: Edit, m: Machine, x: nat, env: Env)
    requires x in e.defs
    ensures ExecAdded(e, m, [x], env) ==
            match Eval(m, e.defs[x], Args(env, e.defs[x].inputs))
            case None => None
            case Some(v) => Some(env[x := v])
  {
    hide Eval;
    assert [x][1..] == [];
  }

  // What is defined in front of the replaced instruction has the same value in both programs.
  lemma OperandsAgree(p: Program, e: Edit, env: Env, env': Env, xs: seq<nat>)
    requires WellFormed(p, e) && Related(p, e, env, env', e.b, e.k)
    requires forall x :: x in xs ==> Before(p, x, e.b, e.k)
    ensures forall x :: x in xs ==> Get(env, x) == Get(env', x)
  {
    hide InputsReady, PhiReady, FreshReady, Before;
    forall x | x in xs ensures Get(env, x) == Get(env', x) {
      BeforeInInsts(p, x, e.b, e.k);
      NotBeforeItself(p, e.b, e.k);
    }
  }

  // ---------------------------------------------------------------- replacing by a value that is there

  ghost predicate IsValue(p: Program, b: nat, k: nat, v: nat)
    requires Sized(p) && b < p.g.Size() && k < |p.body[b]|
  {
    forall m: Machine, env: Env :: Current(p, m, env, b, k) ==> IsValueAt(p, b, k, m, env, v)
  }

  ghost predicate IsValueAt(p: Program, b: nat, k: nat, m: Machine, env: Env, v: nat)
    requires Sized(p) && b < p.g.Size() && k < |p.body[b]|
  {
    var old' := p.insts[p.body[b][k]];
    Eval(m, old', Args(env, old'.inputs)) == Some(Get(env, v))
  }

  lemma ValueSound(p: Program, b: nat, k: nat, v: nat)
    requires CanReplace(p, b, k) && Before(p, v, b, k) && IsValue(p, b, k, v)
    ensures Strict(Apply(p, ValueEdit(b, k, v))) && SameRuns(p, Apply(p, ValueEdit(b, k, v)))
  {
    hide Before, Apply, SameRuns, Current, Related, SlotKeepsAt, IsValueAt;
    var e := ValueEdit(b, k, v);
    assert WellFormed(p, e);
    forall m: Machine, st: State, env': Env | Current(p, m, st.env, b, k) && Related(p, e, st.env, env', b, k)
      ensures SlotKeepsAt(p, e, m, st, env')
    {
      assert IsValueAt(p, b, k, m, st.env, v);
      ValueKeeps(p, b, k, v, m, st, env');
    }
    ApplySound(p, e);
  }

  lemma ValueKeeps(p: Program, b: nat, k: nat, v: nat, m: Machine, st: State, env': Env)
    requires WellFormed(p, ValueEdit(b, k, v)) && IsValueAt(p, b, k, m, st.env, v) && Before(p, v, b, k)
    requires Related(p, ValueEdit(b, k, v), st.env, env', b, k)
    ensures SlotKeepsAt(p, ValueEdit(b, k, v), m, st, env')
  {
    hide Before, InputsReady, PhiReady, FreshReady, Eval;
    OperandsAgree(p, ValueEdit(b, k, v), st.env, env', [v]);
    assert v in [v];
  }

  // ---------------------------------------------------------------- the operands

  // An operand is defined in front of the instruction that uses it.
  lemma OperandBefore(p: Program, b: nat, k: nat, j: nat)
    requires Strict(p) && b < p.g.Size() && k < |p.body[b]| && j < |p.insts[p.body[b][k]].inputs|
    ensures var x := Input(p, p.body[b][k], j); x in p.insts && Before(p, x, b, k) && x != p.body[b][k]
  {
    hide PhiReady, Before;
    assert InputsReady(p, b, k);
    BeforeInInsts(p, Input(p, p.body[b][k], j), b, k);
    NotBeforeItself(p, b, k);
  }

  // So are the operands of a pure operand.
  lemma InnerBefore(p: Program, b: nat, k: nat, y: nat, j: nat)
    requires Strict(p) && b < p.g.Size() && k < |p.body[b]| && Before(p, y, b, k)
    requires y in p.insts && IsPure(p.insts[y].op) && j < |p.insts[y].inputs|
    ensures var x := Input(p, y, j); x in p.insts && Before(p, x, b, k) && x != p.body[b][k]
  {
    hide PhiReady, InputsReady, Unique;
    var x := Input(p, y, j);
    var c: nat := b;
    if LiveIn(p, y, b) {
      c := PureLiveIn(p, y, b);
    }
    var n := Located(p, y, c);
    BeforeBelow(p, x, c, n, b, k);
    BeforeInInsts(p, x, b, k);
    NotBeforeItself(p, b, k);
  }

  // The latest value of a pure operand is its operation on the latest values of its own operands.
  lemma OperandValue(p: Program, b: nat, k: nat, m: Machine, env: Env, y: nat)
    requires Sized(p) && b < p.g.Size() && k < |p.body[b]| && Current(p, m, env, b, k)
    requires y in p.insts && IsPure(p.insts[y].op) && Before(p, y, b, k)
    ensures Eval(m, p.insts[y], Args(env, p.insts[y].inputs)) == Some(Get(env, y))
  {
    hide Before, Eval;
    assert UpToDate(p, m, env, y);
  }

  lemma Args2(env: Env, xs: seq<nat>)
    requires |xs| == 2
    ensures Arg(Args(env, xs), 0) == Get(env, xs[0]) && Arg(Args(env, xs), 1) == Get(env, xs[1])
  {
  }

  lemma Args1(env: Env, xs: seq<nat>)
    requires |xs| == 1
    ensures Arg(Args(env, xs), 0) == Get(env, xs[0])
  {
  }

  // ---------------------------------------------------------------- the values the patterns look at

  function Fold(op: Opcode, x: bv64, y: bv64): bv64 {
    match op
    case Xor => x ^ y
    case Ashr => AShr(x, y)
    case _ => x - y
  }

  function Negate(x: bv64): bv64 {
    0 - x
  }

  function Invert(x: bv64): bv64 {
    !x
  }

  function Plus(x: bv64, y: bv64): bv64 {
    x + y
  }

  lemma BinaryValue(p: Program, b: nat, k: nat, op: Opcode, m: Machine, env: Env)
    requires IsBinary(p, b, k, op)
    ensures var i := p.body[b][k];
            Eval(m, p.insts[i], Args(env, p.insts[i].inputs)) ==
            Some(Fold(op, Get(env, Input(p, i, 0)), Get(env, Input(p, i, 1))))
  {
    hide Strict, AritiesOk, Args, Fold, Eval;
    var i := p.body[b][k];
    Args2(env, p.insts[i].inputs);
    EvalBinary(m, p.insts[i], Args(env, p.insts[i].inputs));
  }

  lemma EvalBinary(m: Machine, ins: Inst, args: seq<bv64>)
    requires ins.op in {Sub, Xor, Ashr}
    ensures Eval(m, ins, args) == Some(Fold(ins.op, Arg(args, 0), Arg(args, 1)))
  {
    hide AShr, ShiftLeft, CastTo, InBounds, Arg;
    match ins.op
    case Sub =>
    case Xor =>
    case Ashr =>
  }

  // y is defined in front of the point and has this opcode.
  ghost predicate IsOperand(p: Program, b: nat, k: nat, y: nat, op: Opcode)
    requires Sized(p) && b < p.g.Size() && k < |p.body[b]|
  {
    y in p.insts && p.insts[y].op == op && Before(p, y, b, k) && ArityOk(p.insts[y])
  }

  lemma ConstValue(p: Program, b: nat, k: nat, m: Machine, env: Env, y: nat)
    requires Sized(p) && b < p.g.Size() && k < |p.body[b]| && Current(p, m, env, b, k) && IsOperand(p, b, k, y, Const)
    ensures Get(env, y) == p.insts[y].imm
  {
    hide Before, Args;
    OperandValue(p, b, k, m, env, y);
  }

  lemma UnaryValue(p: Program, b: nat, k: nat, m: Machine, env: Env, y: nat, op: Opcode)
    requires Sized(p) && b < p.g.Size() && k < |p.body[b]| && Current(p, m, env, b, k)
    requires op in {Neg, Not} && IsOperand(p, b, k, y, op)
    ensures Get(env, y) == if op == Neg then Negate(Get(env, Input(p, y, 0))) else Invert(Get(env, Input(p, y, 0)))
  {
    hide Before, Args, Eval, Negate, Invert;
    OperandValue(p, b, k, m, env, y);
    Args1(env, p.insts[y].inputs);
    EvalUnary(m, p.insts[y], Args(env, p.insts[y].inputs));
  }

  lemma EvalUnary(m: Machine, ins: Inst, args: seq<bv64>)
    requires ins.op in {Neg, Not, Cast}
    ensures Eval(m, ins, args) ==
            Some(match ins.op
                 case Neg => Negate(Arg(args, 0))
                 case Not => Invert(Arg(args, 0))
                 case _ => CastTo(ins.ty, Arg(args, 0)))
  {
    hide AShr, ShiftLeft, CastTo, InBounds, Arg;
  }

  lemma ShlValue(p: Program, b: nat, k: nat, m: Machine, env: Env, y: nat)
    requires Sized(p) && b < p.g.Size() && k < |p.body[b]| && Current(p, m, env, b, k) && IsOperand(p, b, k, y, Shl)
    ensures Get(env, y) == ShiftLeft(Get(env, Input(p, y, 0)), Get(env, Input(p, y, 1)))
  {
    hide Before, Args;
    OperandValue(p, b, k, m, env, y);
    Args2(env, p.insts[y].inputs);
  }

  // ---------------------------------------------------------------- the patterns

  function ConstInst(ty: Type, imm: bv64): Inst {
    Inst(Const, ty, imm, EQ, [])
  }

  function UnaryInst(op: Opcode, ty: Type, x: nat): Inst {
    Inst(op, ty, 0, EQ, [x])
  }

  function BinaryInst(op: Opcode, ty: Type, x: nat, y: nat): Inst {
    Inst(op, ty, 0, EQ, [x, y])
  }

  // The operands of the k-th instruction of b, and that they are defined in front of it.
  ghost predicate Operands(p: Program, b: nat, k: nat, op: Opcode, i0: nat, i1: nat) {
    && IsBinary(p, b, k, op)
    && i0 == Input(p, p.body[b][k], 0) && i1 == Input(p, p.body[b][k], 1)
    && i0 in p.insts && i1 in p.insts && Before(p, i0, b, k) && Before(p, i1, b, k)
  }

  lemma FoldRule(p: Program, b: nat, k: nat, op: Opcode, i0: nat, i1: nat, ty: Type)
    requires Operands(p, b, k, op, i0, i1) && IsOperand(p, b, k, i0, Const) && IsOperand(p, b, k, i1, Const)
    ensures SameValue(p, b, k, ConstInst(ty, Fold(op, p.insts[i0].imm, p.insts[i1].imm)))
  {
    hide Strict, Before, AritiesOk, Current, Args, Fold;
    forall m: Machine, env: Env | Current(p, m, env, b, k)
      ensures SameValueAt(p, b, k, m, env, ConstInst(ty, Fold(op, p.insts[i0].imm, p.insts[i1].imm)))
    {
      BinaryValue(p, b, k, op, m, env);
      ConstValue(p, b, k, m, env, i0);
      ConstValue(p, b, k, m, env, i1);
    }
  }

  lemma EvalConst(m: Machine, ty: Type, imm: bv64, args: seq<bv64>)
    ensures Eval(m, ConstInst(ty, imm), args) == Some(imm)
  {
  }

  lemma EvalAdd(m: Machine, ins: Inst, args: seq<bv64>)
    requires ins.op == Add
    ensures Eval(m, ins, args) == Some(Plus(Arg(args, 0), Arg(args, 1)))
  {
    hide AShr, ShiftLeft, CastTo, InBounds, Arg;
  }

  lemma SubOfEqual(x: bv64)
    ensures Fold(Sub, x, x) == 0
  {
    hide AShr;
  }

  lemma SubOfZero(x: bv64, y: bv64)
    ensures Fold(Sub, x, 0) == x && Fold(Sub, 0, y) == Negate(y)
  {
    hide AShr;
  }

  lemma NegateIs(x: bv64)
    ensures Negate(x) == 0 - x
  {
  }

  lemma PlusIs(x: bv64, y: bv64)
    ensures Plus(x, y) == x + y
  {
  }

  lemma NegLaws(x: bv64, y: bv64)
    ensures Fold(Sub, x, 0 - y) == Plus(x, y)
    ensures Fold(Sub, 0 - x, y) == Negate(x + y)
  {
    hide AShr;
  }

  lemma SubOfNeg(x: bv64, y: bv64)
    ensures Fold(Sub, x, Negate(y)) == Plus(x, y)
  {
    hide Fold, Negate, Plus;
    NegateIs(y);
    NegLaws(x, y);
  }

  lemma NegSub(x: bv64, y: bv64)
    ensures Fold(Sub, Negate(x), y) == Negate(Plus(x, y))
  {
    hide Fold, Negate, Plus;
    NegateIs(x);
    PlusIs(x, y);
    NegLaws(x, y);
  }

  lemma XorFacts(x: bv64, y: bv64)
    ensures Fold(Xor, x, x) == 0 && Fold(Xor, 0, y) == y
    ensures Fold(Xor, Invert(x), x) == 0xFFFF_FFFF_FFFF_FFFF && Fold(Xor, x, Invert(x)) == 0xFFFF_FFFF_FFFF_FFFF
  {
    hide AShr;
    Bits.XorOfNot(x);
    Bits.XorZeros(x);
    Bits.XorZeros(y);
  }

  // Equal operands cancel.
  lemma EqualRule(p: Program, b: nat, k: nat, op: Opcode, i0: nat, ty: Type)
    requires Operands(p, b, k, op, i0, i0) && op in {Sub, Xor}
    ensures SameValue(p, b, k, ConstInst(ty, 0))
  {
    hide Strict, Before, AritiesOk, Current, Args, Eval, Fold;
    forall m: Machine, env: Env | Current(p, m, env, b, k) ensures SameValueAt(p, b, k, m, env, ConstInst(ty, 0)) {
      BinaryValue(p, b, k, op, m, env);
      EvalConst(m, ty, 0, Args(env, []));
      SubOfEqual(Get(env, i0));
      XorFacts(Get(env, i0), 0);
    }
  }

  // x - -y is x + y.
  lemma SubNegRightRule(p: Program, b: nat, k: nat, i0: nat, i1: nat, ty: Type)
    requires Operands(p, b, k, Sub, i0, i1) && IsOperand(p, b, k, i1, Neg)
    ensures SameValue(p, b, k, BinaryInst(Add, ty, i0, Input(p, i1, 0)))
  {
    var x := Input(p, i1, 0);
    hide Strict, Before, AritiesOk, Current, Args, Eval, IsOperand, Fold, Negate, Plus;
    var ins := BinaryInst(Add, ty, i0, x);
    forall m: Machine, env: Env | Current(p, m, env, b, k) ensures SameValueAt(p, b, k, m, env, ins) {
      BinaryValue(p, b, k, Sub, m, env);
      UnaryValue(p, b, k, m, env, i1, Neg);
      Args2(env, [i0, x]);
      EvalAdd(m, ins, Args(env, [i0, x]));
      SubOfNeg(Get(env, i0), Get(env, x));
    }
  }

  // x - 0 is x.
  lemma SubZeroRightRule(p: Program, b: nat, k: nat, i0: nat, i1: nat)
    requires Operands(p, b, k, Sub, i0, i1) && IsOperand(p, b, k, i1, Const) && p.insts[i1].imm == 0
    ensures IsValue(p, b, k, i0)
  {
    hide Strict, Before, AritiesOk, Current, Args, Eval, Fold;
    forall m: Machine, env: Env | Current(p, m, env, b, k) ensures IsValueAt(p, b, k, m, env, i0) {
      BinaryValue(p, b, k, Sub, m, env);
      ConstValue(p, b, k, m, env, i1);
      SubOfZero(Get(env, i0), 0);
    }
  }

  // 0 - y is -y.
  lemma SubZeroLeftRule(p: Program, b: nat, k: nat, i0: nat, i1: nat, ty: Type)
    requires Operands(p, b, k, Sub, i0, i1) && IsOperand(p, b, k, i0, Const) && p.insts[i0].imm == 0
    ensures SameValue(p, b, k, UnaryInst(Neg, ty, i1))
  {
    hide Strict, Before, AritiesOk, Current, Args, Eval, Fold, Negate;
    var ins := UnaryInst(Neg, ty, i1);
    forall m: Machine, env: Env | Current(p, m, env, b, k) ensures SameValueAt(p, b, k, m, env, ins) {
      BinaryValue(p, b, k, Sub, m, env);
      ConstValue(p, b, k, m, env, i0);
      Args1(env, [i1]);
      EvalUnary(m, ins, Args(env, [i1]));
      SubOfZero(0, Get(env, i1));
    }
  }

  // A value and its complement have no bit in common.
  lemma XorNotRule(p: Program, b: nat, k: nat, i0: nat, i1: nat, ty: Type)
    requires Operands(p, b, k, Xor, i0, i1)
    requires (IsOperand(p, b, k, i0, Not) && Input(p, i0, 0) == i1)
              || (IsOperand(p, b, k, i1, Not) && Input(p, i1, 0) == i0)
    ensures SameValue(p, b, k, ConstInst(ty, 0xFFFF_FFFF_FFFF_FFFF))
  {
    var left := IsOperand(p, b, k, i0, Not) && Input(p, i0, 0) == i1;
    hide Strict, Before, AritiesOk, Current, Args, Eval, Fold, Invert;
    var ins := ConstInst(ty, 0xFFFF_FFFF_FFFF_FFFF);
    forall m: Machine, env: Env | Current(p, m, env, b, k) ensures SameValueAt(p, b, k, m, env, ins) {
      BinaryValue(p, b, k, Xor, m, env);
      EvalConst(m, ty, 0xFFFF_FFFF_FFFF_FFFF, Args(env, []));
      if left {
        UnaryValue(p, b, k, m, env, i0, Not);
        XorFacts(Get(env, i1), 0);
      } else {
        UnaryValue(p, b, k, m, env, i1, Not);
        XorFacts(Get(env, i0), 0);
      }
    }
  }

  // 0 ^ y is y.
  lemma XorZeroRule(p: Program, b: nat, k: nat, i0: nat, i1: nat)
    requires Operands(p, b, k, Xor, i0, i1) && IsOperand(p, b, k, i0, Const) && p.insts[i0].imm == 0
    ensures IsValue(p, b, k, i1)
  {
    hide Strict, Before, AritiesOk, Current, Args, Eval, Fold;
    forall m: Machine, env: Env | Current(p, m, env, b, k) ensures IsValueAt(p, b, k, m, env, i1) {
      BinaryValue(p, b, k, Xor, m, env);
      ConstValue(p, b, k, m, env, i0);
      XorFacts(0, Get(env, i1));
    }
  }

  // Shifting by nothing.
  lemma AshrZeroRule(p: Program, b: nat, k: nat, i0: nat, i1: nat)
    requires Operands(p, b, k, Ashr, i0, i1) && IsOperand(p, b, k, i1, Const) && p.insts[i1].imm == 0
    ensures IsValue(p, b, k, i0)
  {
    hide Strict, Before, AritiesOk, Current, Args, Eval, AShr;
    forall m: Machine, env: Env | Current(p, m, env, b, k) ensures IsValueAt(p, b, k, m, env, i0) {
      BinaryValue(p, b, k, Ashr, m, env);
      ConstValue(p, b, k, m, env, i1);
      Bits.AShrByZero(Get(env, i0));
    }
  }

  // The pair of shifts that AshrInst's Cast looks for.
  ghost predicate IsShiftPair(p: Program, b: nat, k: nat, i0: nat, i1: nat) {
    && Operands(p, b, k, Ashr, i0, i1) && IsOperand(p, b, k, i1, Const) && p.insts[i1].imm == 32
    && IsOperand(p, b, k, i0, Shl) && Input(p, i0, 1) == i1
  }

  // The value of a pair of shifts.
  lemma ShiftPairValue(p: Program, b: nat, k: nat, i0: nat, i1: nat, m: Machine, env: Env)
    requires IsShiftPair(p, b, k, i0, i1) && Current(p, m, env, b, k)
    ensures var i := p.body[b][k];
            Eval(m, p.insts[i], Args(env, p.insts[i].inputs)) ==
            Some(AShr(ShiftLeft(Get(env, Input(p, i0, 0)), 32), 32))
  {
    hide Strict, Before, AritiesOk, Current, Args, Eval, AShr, ShiftLeft;
    BinaryValue(p, b, k, Ashr, m, env);
    ConstValue(p, b, k, m, env, i1);
    ShlValue(p, b, k, m, env, i0);
  }

  // On INT64 the pair of shifts is a cast to INT32.
  lemma CastRule(p: Program, b: nat, k: nat, i0: nat, i1: nat)
    requires IsShiftPair(p, b, k, i0, i1)
    ensures SameValue(p, b, k, UnaryInst(Cast, INT32, Input(p, i0, 0)))
  {
    var x := Input(p, i0, 0);
    hide Strict, Before, AritiesOk, Current, Args, Eval, AShr, ShiftLeft, CastTo, IsShiftPair;
    var ins := UnaryInst(Cast, INT32, x);
    forall m: Machine, env: Env | Current(p, m, env, b, k) ensures SameValueAt(p, b, k, m, env, ins) {
      ShiftPairValue(p, b, k, i0, i1, m, env);
      Args1(env, [x]);
      EvalUnary(m, ins, Args(env, [x]));
      Bits.ShiftPair(Get(env, x));
    }
  }

  // On UINT64 the rewrite clears the high word instead of extending the sign: it gives the right value
  // exactly when the low word of the shifted value is not negative.
  lemma CastUnsignedExact(p: Program, b: nat, k: nat, i0: nat, i1: nat, m: Machine, env: Env)
    requires IsShiftPair(p, b, k, i0, i1) && Current(p, m, env, b, k)
    ensures SameValueAt(p, b, k, m, env, UnaryInst(Cast, UINT32, Input(p, i0, 0))) <==>
            Get(env, Input(p, i0, 0)) & 0x8000_0000 == 0
  {
    var x := Input(p, i0, 0);
    hide Strict, Before, AritiesOk, Current, Args, Eval, AShr, ShiftLeft, CastTo, IsShiftPair;
    var ins := UnaryInst(Cast, UINT32, x);
    ShiftPairValue(p, b, k, i0, i1, m, env);
    Args1(env, [x]);
    EvalUnary(m, ins, Args(env, [x]));
    Bits.ShiftPairUnsigned(Get(env, x));
  }

  // What it gives is the low word of the value shifted.
  lemma CastUnsignedLow(p: Program, b: nat, k: nat, i0: nat, i1: nat, m: Machine, env: Env)
    requires IsShiftPair(p, b, k, i0, i1)
    ensures var x := Input(p, i0, 0);
            Eval(m, UnaryInst(Cast, UINT32, x), Args(env, [x])) == Some(Get(env, x) & 0xFFFF_FFFF)
  {
    var x := Input(p, i0, 0);
    hide Strict, Before, AritiesOk, Current, Args, Eval, CastTo, IsShiftPair, Get;
    CastGives(m, env, x);
  }

  lemma CastGives(m: Machine, env: Env, x: nat)
    ensures Eval(m, UnaryInst(Cast, UINT32, x), Args(env, [x])) == Some(Get(env, x) & 0xFFFF_FFFF)
  {
    hide Args, Eval, CastTo, Get;
    Args1(env, [x]);
    EvalUnary(m, UnaryInst(Cast, UINT32, x), Args(env, [x]));
    CastLow(Get(env, x));
  }

  lemma CastLow(v: bv64)
    ensures CastTo(UINT32, v) == v & 0xFFFF_FFFF
  {
  }

  // The low word of z is never negative in front of the k-th instruction of b.
  ghost predicate NeverNegative(p: Program, b: nat, k: nat, z: nat)
    requires Sized(p) && b < p.g.Size() && k <= |p.body[b]|
  {
    forall m: Machine, env: Env :: Current(p, m, env, b, k) ==> Get(env, z) & 0x8000_0000 == 0
  }

  // So every run is kept where the low words shifted are never negative.
  lemma CastUnsignedSound(p: Program, b: nat, k: nat, i0: nat, i1: nat, x: nat)
    requires IsShiftPair(p, b, k, i0, i1) && x !in p.insts
    requires NeverNegative(p, b, k, Input(p, i0, 0))
    ensures var e := FreshEdit(b, k, x, UnaryInst(Cast, UINT32, Input(p, i0, 0)));
            Strict(Apply(p, e)) && SameRuns(p, Apply(p, e))
  {
    var z := Input(p, i0, 0);
    InnerBefore(p, b, k, i0, 0);
    hide Strict, Before, AritiesOk, Current, IsShiftPair, SameValueAt, Apply, SameRuns;
    var ins := UnaryInst(Cast, UINT32, z);
    forall m: Machine, env: Env | Current(p, m, env, b, k) ensures SameValueAt(p, b, k, m, env, ins) {
      CastUnsignedExact(p, b, k, i0, i1, m, env);
    }
    FreshSound(p, b, k, x, ins);
  }

  // ---------------------------------------------------------------- the pattern that takes two instructions

  // -z - y is -(z + y): an addition, then its negation.
  function NegAddEdit(b: nat, k: nat, x: nat, y: nat, ty: Type, z: nat, i1: nat): Edit {
    Edit(b, k, [x, y], map[x := BinaryInst(Add, ty, z, i1), y := UnaryInst(Neg, ty, x)], y)
  }

  lemma NegAddWellFormed(p: Program, b: nat, k: nat, x: nat, y: nat, ty: Type, z: nat, i1: nat)
    requires CanReplace(p, b, k) && x !in p.insts && y !in p.insts && x != y
    requires Before(p, z, b, k) && Before(p, i1, b, k)
    ensures WellFormed(p, NegAddEdit(b, k, x, y, ty, z, i1))
  {
    hide Before;
    var e := NegAddEdit(b, k, x, y, ty, z, i1);
    assert FreshReady(p, e, 0);
    assert x in e.added[..1];
    assert FreshReady(p, e, 1);
  }

  lemma ExecNegAdd(e: Edit, m: Machine, x: nat, y: nat, ty: Type, z: nat, i1: nat, b: nat, k: nat, env: Env)
    requires e == NegAddEdit(b, k, x, y, ty, z, i1) && x != y
    ensures var s := Plus(Get(env, z), Get(env, i1));
            ExecAdded(e, m, [x, y], env) == Some(env[x := s][y := Negate(s)])
  {
    hide Eval, Args, Negate, Plus;
    var s := Plus(Get(env, z), Get(env, i1));
    Args2(env, [z, i1]);
    EvalAdd(m, e.defs[x], Args(env, [z, i1]));
    var env' := env[x := s];
    Args1(env', [x]);
    EvalUnary(m, e.defs[y], Args(env', [x]));
    assert [x, y][1..] == [y];
    ExecOne(e, m, y, env');
  }

  lemma SubNegLeftSound(p: Program, b: nat, k: nat, i0: nat, i1: nat, ty: Type, x: nat, y: nat)
    requires Operands(p, b, k, Sub, i0, i1) && IsOperand(p, b, k, i0, Neg)
    requires x !in p.insts && y !in p.insts && x != y && Before(p, Input(p, i0, 0), b, k)
    ensures var e := NegAddEdit(b, k, x, y, ty, Input(p, i0, 0), i1);
            Strict(Apply(p, e)) && SameRuns(p, Apply(p, e))
  {
    var z := Input(p, i0, 0);
    var e := NegAddEdit(b, k, x, y, ty, z, i1);
    hide WellFormed, Before, Apply, SameRuns, Current, Related, SlotKeepsAt, Strict, IsOperand, AritiesOk;
    assert CanReplace(p, b, k) by { hide IsOperand; }
    NegAddWellFormed(p, b, k, x, y, ty, z, i1);
    forall m: Machine, st: State, env': Env | Current(p, m, st.env, b, k) && Related(p, e, st.env, env', b, k)
      ensures SlotKeepsAt(p, e, m, st, env')
    {
      NegAddValue(p, b, k, i0, i1, m, st.env);
      NegAddKeeps(p, b, k, z, i1, ty, x, y, m, st, env');
    }
    ApplySound(p, e);
  }

  lemma NegAddKeeps(p: Program, b: nat, k: nat, z: nat, i1: nat, ty: Type, x: nat, y: nat, m: Machine, st: State,
                    env': Env)
    requires WellFormed(p, NegAddEdit(b, k, x, y, ty, z, i1)) && x != y
    requires Sized(p) && b < p.g.Size() && k < |p.body[b]| && Before(p, z, b, k) && Before(p, i1, b, k)
    requires Related(p, NegAddEdit(b, k, x, y, ty, z, i1), st.env, env', b, k)
    requires var i := p.body[b][k];
             Eval(m, p.insts[i], Args(st.env, p.insts[i].inputs)) == Some(Negate(Plus(Get(st.env, z), Get(st.env, i1))))
    ensures SlotKeepsAt(p, NegAddEdit(b, k, x, y, ty, z, i1), m, st, env')
  {
    hide Before, Args, Eval, Negate, Plus, WellFormed, Related, ExecAdded;
    var e := NegAddEdit(b, k, x, y, ty, z, i1);
    OperandsAgree(p, e, st.env, env', [z, i1]);
    assert z in [z, i1] && i1 in [z, i1];
    ExecNegAdd(e, m, x, y, ty, z, i1, b, k, env');
  }

  lemma NegAddValue(p: Program, b: nat, k: nat, i0: nat, i1: nat, m: Machine, env: Env)
    requires Operands(p, b, k, Sub, i0, i1) && IsOperand(p, b, k, i0, Neg) && Current(p, m, env, b, k)
    ensures var i := p.body[b][k];
            Eval(m, p.insts[i], Args(env, p.insts[i].inputs)) ==
            Some(Negate(Plus(Get(env, Input(p, i0, 0)), Get(env, i1))))
  {
    var z := Input(p, i0, 0);
    hide Strict, Before, AritiesOk, Current, Args, Eval, IsOperand, Fold, Negate, Plus;
    BinaryValue(p, b, k, Sub, m, env);
    UnaryValue(p, b, k, m, env, i0, Neg);
    NegSub(Get(env, z), Get(env, i1));
  }
}
