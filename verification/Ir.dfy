// The intermediate representation: instructions in blocks, an executor for it, and strict SSA form.
module Ir {
  import opened Cfg

  datatype Option<+T> = None | Some(value: T)

  datatype Opcode =
    | Const | Parameter | Cast | Call | Return | ReturnVoid | CheckNull | CheckBounds | GetElem
    | Add | Sub | Mul | Neg | Not | Xor | Ashr | Shl | Phi | Jmp

  // Inst::HasDst
  predicate HasDst(op: Opcode) {
    op !in {Return, ReturnVoid, Jmp}
  }

  datatype Type = UNKNOWN | FLOAT64 | INT64 | INT32 | UINT64 | UINT32 | ARRAY

  datatype If = EQ | NE | GT | GE

  datatype Inst = Inst(op: Opcode, ty: Type, imm: bv64, cond: If, inputs: seq<nat>)

  // Instructions are named by their ids. A block lists its phis and the rest of its instructions.
  datatype Program = Program(g: Graph, phis: seq<seq<nat>>, body: seq<seq<nat>>, insts: map<nat, Inst>)

  // ---------------------------------------------------------------- execution

  type Env = map<nat, bv64>

  // What a run does not compute itself: the arrays in memory (by address, 0 is null), the parameters, the
  // results of calls and the order used by conditional jumps.
  datatype Machine = Machine(
    arrays: map<bv64, seq<bv64>>, params: nat -> bv64, results: nat -> bv64, greater: (bv64, bv64) -> bool)

  datatype Event = Visited(block: nat) | Called(args: seq<bv64>)

  datatype State = State(env: Env, trace: seq<Event>)

  // How a piece of straight-line code ends: it falls through, a check or access fails, or it returns.
  datatype Flow = Go(st: State) | Trap(trace: seq<Event>, at: nat) | Ret(trace: seq<Event>, value: Option<bv64>)

  function Get(env: Env, x: nat): bv64 {
    if x in env then env[x] else 0
  }

  function Args(env: Env, inputs: seq<nat>): (args: seq<bv64>)
    ensures |args| == |inputs|
  {
    seq(|inputs|, k requires 0 <= k < |inputs| => Get(env, inputs[k]))
  }

  function Arg(args: seq<bv64>, k: nat): bv64 {
    if k < |args| then args[k] else 0
  }

  // Arithmetic shift right: the sign bit fills the vacated positions.
  function AShr(x: bv64, s: bv64): bv64 {
    if x & 0x8000_0000_0000_0000 == 0 then ShiftRight(x, s) else !ShiftRight(!x, s)
  }

  function ShiftRight(x: bv64, s: bv64): bv64 {
    if s >= 64 then 0 else x >> s
  }

  function ShiftLeft(x: bv64, s: bv64): bv64 {
    if s >= 64 then 0 else x << s
  }

  // CAST keeps the low word: signed types extend its sign, unsigned ones clear the high word.
  function CastTo(ty: Type, x: bv64): bv64 {
    match ty
    case INT32 => if x & 0x8000_0000 == 0 then x & 0xFFFF_FFFF else x | 0xFFFF_FFFF_0000_0000
    case UINT32 => x & 0xFFFF_FFFF
    case _ => x
  }

  predicate InBounds(m: Machine, a: bv64, i: bv64) {
    a in m.arrays && i as int < |m.arrays[a]|
  }

  // The instructions whose result depends on their operands only.
  predicate IsPure(op: Opcode) {
    op !in {Parameter, Call, Return, ReturnVoid, Phi, Jmp}
  }

  // The value of a pure instruction; None when a check or an array access fails. Checks pass their
  // last operand through.
  function Eval(m: Machine, ins: Inst, args: seq<bv64>): Option<bv64> {
    var x, y := Arg(args, 0), Arg(args, 1);
    match ins.op
    case Const => Some(ins.imm)
    case Cast => Some(CastTo(ins.ty, x))
    case CheckNull => if x == 0 then None else Some(x)
    case CheckBounds => if InBounds(m, x, y) then Some(y) else None
    case GetElem => if InBounds(m, x, y) then Some(m.arrays[x][y as int]) else None
    case Add => Some(x + y)
    case Sub => Some(x - y)
    case Mul => Some(x * y)
    case Neg => Some(0 - x)
    case Not => Some(!x)
    case Xor => Some(x ^ y)
    case Ashr => Some(AShr(x, y))
    case Shl => Some(ShiftLeft(x, y))
    case _ => None
  }

  function ExecInst(m: Machine, j: nat, ins: Inst, st: State): Flow {
    var args := Args(st.env, ins.inputs);
    if IsPure(ins.op) then
      match Eval(m, ins, args)
      case None => Trap(st.trace, j)
      case Some(v) => Go(st.(env := st.env[j := v]))
    else
      match ins.op
      case Parameter => Go(st.(env := st.env[j := m.params(j)]))
      case Call => Go(State(st.env[j := m.results(|st.trace|)], st.trace + [Called(args)]))
      case Return => Ret(st.trace, Some(Arg(args, 0)))
      case ReturnVoid => Ret(st.trace, None)
      case _ => Go(st)
  }

  // Runs the instructions in order until one traps or returns.
  function ExecAll(p: Program, m: Machine, ids: seq<nat>, st: State): Flow
    requires forall x :: x in ids ==> x in p.insts
  {
    if ids == [] then Go(st)
    else
      match ExecInst(m, ids[0], p.insts[ids[0]], st)
      case Go(st') => ExecAll(p, m, ids[1..], st')
      case stop => stop
  }

  // BasicBlock::GetPredIdx
  function PredIdx(preds: seq<nat>, b: nat): (i: nat)
    ensures i <= |preds| && (i < |preds| ==> preds[i] == b) && (i == |preds| ==> b !in preds)
  {
    if preds == [] then 0 else if preds[0] == b then 0 else 1 + PredIdx(preds[1..], b)
  }

  function PhiValue(p: Program, phi: nat, i: nat, env: Env): bv64
    requires phi in p.insts
  {
    if i < |p.insts[phi].inputs| then Get(env, p.insts[phi].inputs[i]) else 0
  }

  // The phis of b take their operands for the edge from pred, all at once.
  function EnterBlock(p: Program, b: nat, pred: nat, env: Env): (env': Env)
    requires b < |p.phis| && b < |p.g.preds|
    requires forall x :: x in p.phis[b] ==> x in p.insts
  {
    env + map x | x in p.phis[b] :: PhiValue(p, x, PredIdx(p.g.preds[b], pred), env)
  }

  function Compare(m: Machine, cond: If, x: bv64, y: bv64): bool {
    match cond
    case EQ => x == y
    case NE => x != y
    case GT => m.greater(x, y)
    case GE => m.greater(x, y) || x == y
  }

  // The block a finished block continues with: a final JMP that fails takes the second successor.
  function Target(p: Program, m: Machine, b: nat, env: Env): (s: nat)
    requires b < |p.g.succs| && b < |p.body| && p.g.succs[b] != []
    requires forall x :: x in p.body[b] ==> x in p.insts
    ensures s in p.g.succs[b]
  {
    if |p.g.succs[b]| == 2 && p.body[b] != [] then
      var j := p.insts[p.body[b][|p.body[b]| - 1]];
      var args := Args(env, j.inputs);
      if j.op == Jmp && !Compare(m, j.cond, Arg(args, 0), Arg(args, 1)) then p.g.succs[b][1] else p.g.succs[b][0]
    else
      p.g.succs[b][0]
  }

  // A run is in front of the body of a block, or it has ended.
  datatype Config = At(b: nat, st: State) | Halted(end: Flow)

  ghost predicate Sized(p: Program) {
    && p.g.Valid()
    && |p.phis| == |p.body| == p.g.Size()
    && (forall b, x :: 0 <= b < p.g.Size() && (x in p.phis[b] || x in p.body[b]) ==> x in p.insts)
  }

  function Next(p: Program, m: Machine, c: Config): (c': Config)
    requires Sized(p) && (c.At? ==> c.b < p.g.Size())
    ensures c'.At? ==> c'.b < p.g.Size()
  {
    match c
    case Halted(_) => c
    case At(b, st) =>
      match ExecAll(p, m, p.body[b], st)
      case Go(st') =>
        if p.g.succs[b] == [] then Halted(Go(State(map[], st'.trace)))
        else
          var s := Target(p, m, b, st'.env);
          At(s, State(EnterBlock(p, s, b, st'.env), st'.trace + [Visited(s)]))
      case stop => Halted(stop)
  }

  // The run after n blocks.
  function Run(p: Program, m: Machine, n: nat): (c: Config)
    requires Sized(p)
    ensures c.At? ==> c.b < p.g.Size()
  {
    if n == 0 then At(ENTRY, State(map[], [Visited(ENTRY)])) else Next(p, m, Run(p, m, n - 1))
  }

  // What can be seen of a run: the blocks and calls so far, and how it ended.
  datatype Observation = Running(block: nat, trace: seq<Event>) | Ended(flow: Flow)

  function Observe(c: Config): Observation {
    match c
    case At(b, st) => Running(b, st.trace)
    case Halted(f) => Ended(f)
  }

  // Both programs behave alike on every machine for any number of blocks.
  ghost predicate SameRuns(p: Program, q: Program)
    requires Sized(p) && Sized(q)
  {
    forall m: Machine, n: nat :: Observe(Run(p, m, n)) == Observe(Run(q, m, n))
  }

  lemma SameRunsTransitive(p: Program, q: Program, r: Program)
    requires Sized(p) && Sized(q) && Sized(r) && SameRuns(p, q) && SameRuns(q, r)
    ensures SameRuns(p, r)
  {
  }

  lemma SameRunsReflexive(p: Program)
    requires Sized(p)
    ensures SameRuns(p, p)
  {
  }

  // ---------------------------------------------------------------- strict SSA form

  ghost predicate InBlock(p: Program, x: nat, b: nat) {
    b < |p.phis| && b < |p.body| && (x in p.phis[b] || x in p.body[b])
  }

  // x is defined in a strict dominator of b.
  ghost predicate LiveIn(p: Program, x: nat, b: nat) {
    exists c: nat :: InBlock(p, x, c) && StrictlyDominates(p.g, c, b)
  }

  // x is defined in front of the k-th instruction of b, whatever path led there.
  ghost predicate Before(p: Program, x: nat, b: nat, k: nat)
    requires b < |p.phis| && b < |p.body| && k <= |p.body[b]|
  {
    LiveIn(p, x, b) || x in p.phis[b] || x in p.body[b][..k]
  }

  ghost predicate InputsReady(p: Program, b: nat, k: nat)
    requires Sized(p) && b < p.g.Size() && k < |p.body[b]|
  {
    forall x :: x in p.insts[p.body[b][k]].inputs ==> Before(p, x, b, k)
  }

  ghost predicate PhiReady(p: Program, b: nat, phi: nat)
    requires Sized(p) && b < p.g.Size() && phi in p.insts
  {
    && |p.insts[phi].inputs| == |p.g.preds[b]|
    && (forall j :: 0 <= j < |p.g.preds[b]| ==>
          Before(p, p.insts[phi].inputs[j], p.g.preds[b][j], |p.body[p.g.preds[b][j]]|))
  }

  // Every instruction has one place.
  ghost predicate Unique(p: Program) {
    && (forall x, b, c :: InBlock(p, x, b) && InBlock(p, x, c) ==> b == c)
    && (forall b, j, k :: 0 <= b < |p.body| && 0 <= j < k < |p.body[b]| ==> p.body[b][j] != p.body[b][k])
    && (forall b, x :: 0 <= b < |p.body| && b < |p.phis| && x in p.body[b] ==> x !in p.phis[b])
  }

  ghost predicate Strict(p: Program) {
    && Sized(p) && AllReachable(p.g) && Unique(p)
    && (forall b, x :: 0 <= b < p.g.Size() && x in p.body[b] ==> p.insts[x].op != Phi)
    && (forall b, x :: 0 <= b < p.g.Size() && x in p.phis[b] ==> p.insts[x].op == Phi)
    && (forall b, k :: 0 <= b < p.g.Size() && 0 <= k < |p.body[b]| && p.insts[p.body[b][k]].op == Jmp ==>
          k == |p.body[b]| - 1)
    && (forall b, k :: 0 <= b < p.g.Size() && 0 <= k < |p.body[b]| ==> InputsReady(p, b, k))
    && (forall b, x :: 0 <= b < p.g.Size() && x in p.phis[b] ==> PhiReady(p, b, x))
  }

  // ---------------------------------------------------------------- the latest values

  // The latest value of i is its operation applied to the latest values of its operands.
  ghost predicate UpToDate(p: Program, m: Machine, env: Env, i: nat)
    requires i in p.insts
  {
    Eval(m, p.insts[i], Args(env, p.insts[i].inputs)) == Some(Get(env, i))
  }

  // This holds of every pure instruction that dominates the point in front of the k-th instruction of b.
  ghost predicate Current(p: Program, m: Machine, env: Env, b: nat, k: nat)
    requires Sized(p) && b < p.g.Size() && k <= |p.body[b]|
  {
    forall i :: i in p.insts && IsPure(p.insts[i].op) && Before(p, i, b, k) ==> UpToDate(p, m, env, i)
  }
}
