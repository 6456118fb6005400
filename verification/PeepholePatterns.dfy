// The patterns of the peephole pass: when one applies, when replacing it fails, and which programs stay clear of both
// the failures and the pattern that is not a sign extension.
module PeepholePatterns {
  import opened Cfg
  import opened Ir
  import opened Ssa
  import opened Rewrite
  import opened PeepholeRules
  import DominatorTree

  // TypedMixin::GetSizeInBits
  function SizeInBits(ty: Type): Option<bv64> {
    match ty
    case FLOAT64 | INT64 | UINT64 => Some(64)
    case INT32 => Some(32)
    case ARRAY => Some(8)
    case _ => None
  }

  ghost predicate IsConst(p: Program, y: nat) {
    y in p.insts && p.insts[y].op == Const
  }

  ghost predicate IsConstOf(p: Program, y: nat, imm: bv64) {
    IsConst(p, y) && p.insts[y].imm == imm
  }

  ghost predicate Has(p: Program, y: nat, op: Opcode, j: nat, x: nat) {
    y in p.insts && p.insts[y].op == op && j < |p.insts[y].inputs| && Input(p, y, j) == x
  }

  // One of the patterns of the visitor for this opcode applies to operands i0 and i1.
  ghost predicate SubMatches(p: Program, i0: nat, i1: nat) {
    || i0 == i1 || IsConstOf(p, i0, 0) || IsConstOf(p, i1, 0)
    || (IsConst(p, i0) && IsConst(p, i1))
    || (i0 in p.insts && p.insts[i0].op == Neg) || (i1 in p.insts && p.insts[i1].op == Neg)
  }

  ghost predicate XorMatches(p: Program, i0: nat, i1: nat) {
    || i0 == i1 || IsConstOf(p, i0, 0)
    || (IsConst(p, i0) && IsConst(p, i1))
    || Has(p, i0, Not, 0, i1) || Has(p, i1, Not, 0, i0)
  }

  ghost predicate AshrMatches(p: Program, i0: nat, i1: nat) {
    IsConst(p, i1) && (IsConst(p, i0) || IsConstOf(p, i1, 0) || Has(p, i0, Shl, 1, i1))
  }

  // One of the patterns of the visitor for this opcode applies to instruction i.
  ghost predicate Matches(p: Program, i: nat, op: Opcode) {
    i in p.insts && |p.insts[i].inputs| == 2 &&
    match op
    case Sub => SubMatches(p, Input(p, i, 0), Input(p, i, 1))
    case Xor => XorMatches(p, Input(p, i, 0), Input(p, i, 1))
    case Ashr => AshrMatches(p, Input(p, i, 0), Input(p, i, 1))
    case _ => false
  }

  // The pattern that is not a sign extension: a pair of shifts by 32 on UINT64.
  ghost predicate UnsignedPair(p: Program, i: nat) {
    && i in p.insts && p.insts[i].op == Ashr && p.insts[i].ty == UINT64 && |p.insts[i].inputs| == 2
    && IsConstOf(p, Input(p, i, 1), 32) && Has(p, Input(p, i, 0), Shl, 1, Input(p, i, 1))
  }

  // The patterns fit the k-th instruction of b, and none in front of it.
  ghost predicate FirstMatch(p: Program, b: nat, k: nat) {
    && b < |p.body| && k < |p.body[b]| && MatchesAt(p, p.body[b][k])
    && (forall j :: 0 <= j < k ==> !MatchesAt(p, p.body[b][j]))
  }

  // The first match in b is a pair of unsigned shifts.
  ghost predicate PairFirst(p: Program, b: nat) {
    exists k: nat :: FirstMatch(p, b, k) && UnsignedPair(p, p.body[b][k])
  }

  lemma NotPairFirst(p: Program, b: nat, k: nat)
    requires FirstMatch(p, b, k) && !PairFirst(p, b)
    ensures !UnsignedPair(p, p.body[b][k])
  {
    hide FirstMatch, UnsignedPair;
  }

  ghost predicate NoMatch(p: Program, b: DominatorTree.BlockRef) {
    b.Ref? && b.id < |p.body| && forall i :: i in p.body[b.id] ==> !MatchesAt(p, i)
  }

  ghost predicate MatchesAt(p: Program, i: nat) {
    i in p.insts && Matches(p, i, p.insts[i].op)
  }

  // What ConstFold of ASHR asserts: the amount fits the type. A shift by 64 passes the assertion but is undefined in
  // the source.
  predicate ShiftFits(ty: Type, shift: bv64) {
    var size := SizeInBits(ty);
    size.Some? && size.value >= shift && shift != 64
  }

  // The shift amounts and types the visitor of ASHR is meant for.
  ghost predicate FoldLegal(p: Program, i0: nat, i1: nat) {
    IsConst(p, i0) && IsConst(p, i1) && ShiftFits(p.insts[i0].ty, p.insts[i1].imm)
  }

  ghost predicate CastLegal(p: Program, i: nat, i1: nat) {
    i in p.insts && p.insts[i].ty in {INT64, UINT64} && IsConstOf(p, i1, 32)
  }

  ghost predicate AshrLegal(p: Program, i: nat) {
    i in p.insts && |p.insts[i].inputs| == 2 &&
    var i0, i1 := Input(p, i, 0), Input(p, i, 1);
    if IsConst(p, i0) && IsConst(p, i1) then FoldLegal(p, i0, i1)
    else !IsConstOf(p, i1, 0) && AshrMatches(p, i0, i1) ==> CastLegal(p, i, i1)
  }

  // ---------------------------------------------------------------- what an instruction is replaced by

  ghost predicate InputsKnown(p: Program) {
    forall i, y :: i in p.insts && y in p.insts[i].inputs ==> y in p.insts
  }

  ghost function TypeOf(p: Program, i: nat): Type {
    if i in p.insts then p.insts[i].ty else UNKNOWN
  }

  ghost function ImmOf(p: Program, i: nat): bv64 {
    if i in p.insts then p.insts[i].imm else 0
  }

  ghost function OperandOf(p: Program, i: nat, j: nat): nat {
    if i in p.insts && j < |p.insts[i].inputs| then p.insts[i].inputs[j] else i
  }

  ghost predicate HasOp(p: Program, i: nat, op: Opcode) {
    i in p.insts && p.insts[i].op == op
  }

  // The instruction i, the k-th of b, is replaced by a constant, which gets the id x,
  function ConstEdit(b: nat, k: nat, x: nat, ty: Type, imm: bv64): Edit {
    FreshEdit(b, k, x, ConstInst(ty, imm))
  }

  // by the result on constants,
  ghost function FoldEdit(p: Program, b: nat, k: nat, i: nat, x: nat, op: Opcode, i0: nat, i1: nat): Edit {
    ConstEdit(b, k, x, TypeOf(p, i), Fold(op, ImmOf(p, i0), ImmOf(p, i1)))
  }

  // by an addition, behind which a negation gets the id x + 1,
  ghost function SubNegEdit(p: Program, b: nat, k: nat, i: nat, x: nat, i0: nat, i1: nat): Edit {
    if HasOp(p, i1, Neg) then FreshEdit(b, k, x, BinaryInst(Add, TypeOf(p, i), i0, OperandOf(p, i1, 0)))
    else NegAddEdit(b, k, x, x + 1, TypeOf(p, i), OperandOf(p, i0, 0), i1)
  }

  // by an operand or its negation,
  ghost function SubZeroEdit(p: Program, b: nat, k: nat, x: nat, i0: nat, i1: nat): Edit {
    if IsConstOf(p, i1, 0) then ValueEdit(b, k, i0) else FreshEdit(b, k, x, UnaryInst(Neg, UNKNOWN, i1))
  }

  // or by a cast.
  ghost function CastEdit(p: Program, b: nat, k: nat, i: nat, x: nat, i0: nat): Edit {
    FreshEdit(b, k, x, UnaryInst(Cast, if TypeOf(p, i) == UINT64 then UINT32 else INT32, OperandOf(p, i0, 0)))
  }

  // The first pattern that applies decides.
  ghost function SubEdit(p: Program, b: nat, k: nat, i: nat, x: nat, i0: nat, i1: nat): Edit {
    if IsConst(p, i0) && IsConst(p, i1) then FoldEdit(p, b, k, i, x, Sub, i0, i1)
    else if i0 == i1 then ConstEdit(b, k, x, TypeOf(p, i), 0)
    else if HasOp(p, i0, Neg) || HasOp(p, i1, Neg) then SubNegEdit(p, b, k, i, x, i0, i1)
    else SubZeroEdit(p, b, k, x, i0, i1)
  }

  ghost function XorEdit(p: Program, b: nat, k: nat, i: nat, x: nat, i0: nat, i1: nat): Edit {
    if IsConst(p, i0) && IsConst(p, i1) then FoldEdit(p, b, k, i, x, Xor, i0, i1)
    else if i0 == i1 then ConstEdit(b, k, x, TypeOf(p, i), 0)
    else if Has(p, i0, Not, 0, i1) || Has(p, i1, Not, 0, i0) then
      ConstEdit(b, k, x, TypeOf(p, i), 0xFFFF_FFFF_FFFF_FFFF)
    else ValueEdit(b, k, i1)
  }

  ghost function AshrEdit(p: Program, b: nat, k: nat, i: nat, x: nat, i0: nat, i1: nat): Edit {
    if IsConst(p, i0) && IsConst(p, i1) then FoldEdit(p, b, k, i, x, Ashr, i0, i1)
    else if IsConstOf(p, i1, 0) then ValueEdit(b, k, i0)
    else CastEdit(p, b, k, i, x, i0)
  }

  ghost function Rewriting(p: Program, b: nat, k: nat, i: nat, x: nat): Edit {
    var i0, i1 := OperandOf(p, i, 0), OperandOf(p, i, 1);
    if HasOp(p, i, Sub) then SubEdit(p, b, k, i, x, i0, i1)
    else if HasOp(p, i, Xor) then XorEdit(p, b, k, i, x, i0, i1)
    else AshrEdit(p, b, k, i, x, i0, i1)
  }

  ghost predicate IsApplied(p: Program, e: Edit, q: Program) {
    e.b < |p.body| && e.k < |p.body[e.b]| && q == Apply(p, e)
  }

  // q is p with the instruction i replaced, the k-th of b.
  ghost predicate RewritesTo(p: Program, b: nat, k: nat, i: nat, q: Program) {
    exists x: nat :: x !in p.insts && x + 1 !in p.insts && IsApplied(p, Rewriting(p, b, k, i, x), q)
  }

  lemma SubNegEdits(p: Program, b: nat, k: nat, i: nat, x: nat, i0: nat, i1: nat)
    requires i in p.insts && i0 in p.insts && i1 in p.insts && AritiesOk(p)
    ensures var e, ty := SubNegEdit(p, b, k, i, x, i0, i1), p.insts[i].ty;
            && (p.insts[i1].op == Neg ==>
                  |p.insts[i1].inputs| == 1 && e == FreshEdit(b, k, x, BinaryInst(Add, ty, i0, Input(p, i1, 0))))
            && (p.insts[i1].op != Neg && p.insts[i0].op == Neg ==>
                  |p.insts[i0].inputs| == 1 && e == NegAddEdit(b, k, x, x + 1, ty, Input(p, i0, 0), i1))
  {
    hide FreshEdit, NegAddEdit;
    assert ArityOk(p.insts[i0]) && ArityOk(p.insts[i1]);
  }

  lemma RewritingIs(p: Program, b: nat, k: nat, i: nat, x: nat)
    requires i in p.insts && |p.insts[i].inputs| == 2
    ensures p.insts[i].op == Sub ==>
              Rewriting(p, b, k, i, x) == SubEdit(p, b, k, i, x, Input(p, i, 0), Input(p, i, 1))
    ensures p.insts[i].op == Xor ==>
              Rewriting(p, b, k, i, x) == XorEdit(p, b, k, i, x, Input(p, i, 0), Input(p, i, 1))
    ensures p.insts[i].op == Ashr ==>
              Rewriting(p, b, k, i, x) == AshrEdit(p, b, k, i, x, Input(p, i, 0), Input(p, i, 1))
  {
    hide SubEdit, XorEdit, AshrEdit;
  }

  lemma Rewritten(p: Program, b: nat, k: nat, i: nat, x: nat, q: Program)
    requires x !in p.insts && x + 1 !in p.insts && IsApplied(p, Rewriting(p, b, k, i, x), q)
    ensures RewritesTo(p, b, k, i, q)
  {
    hide Rewriting, IsApplied;
  }

  // The edits in the order in which the visitors try the patterns.
  lemma SubEdits(p: Program, b: nat, k: nat, i: nat, x: nat, i0: nat, i1: nat)
    ensures var e := SubEdit(p, b, k, i, x, i0, i1);
            if IsConst(p, i0) && IsConst(p, i1) then e == FoldEdit(p, b, k, i, x, Sub, i0, i1)
            else if i0 == i1 then e == ConstEdit(b, k, x, TypeOf(p, i), 0)
            else if HasOp(p, i0, Neg) || HasOp(p, i1, Neg) then e == SubNegEdit(p, b, k, i, x, i0, i1)
            else e == SubZeroEdit(p, b, k, x, i0, i1)
  {
    hide FoldEdit, ConstEdit, SubNegEdit, SubZeroEdit;
  }

  lemma XorEdits(p: Program, b: nat, k: nat, i: nat, x: nat, i0: nat, i1: nat)
    ensures var e := XorEdit(p, b, k, i, x, i0, i1);
            if IsConst(p, i0) && IsConst(p, i1) then e == FoldEdit(p, b, k, i, x, Xor, i0, i1)
            else if i0 == i1 then e == ConstEdit(b, k, x, TypeOf(p, i), 0)
            else if Has(p, i0, Not, 0, i1) || Has(p, i1, Not, 0, i0) then
              e == ConstEdit(b, k, x, TypeOf(p, i), 0xFFFF_FFFF_FFFF_FFFF)
            else e == ValueEdit(b, k, i1)
  {
    hide FoldEdit, ConstEdit;
  }

  lemma AshrEdits(p: Program, b: nat, k: nat, i: nat, x: nat, i0: nat, i1: nat)
    ensures var e := AshrEdit(p, b, k, i, x, i0, i1);
            if IsConst(p, i0) && IsConst(p, i1) then e == FoldEdit(p, b, k, i, x, Ashr, i0, i1)
            else if IsConstOf(p, i1, 0) then e == ValueEdit(b, k, i0)
            else e == CastEdit(p, b, k, i, x, i0)
  {
    hide FoldEdit, CastEdit;
  }

  // ---------------------------------------------------------------- when a visitor fails

  // The pattern that applies is replaced by an operand, not by a fresh instruction.
  ghost predicate SubKeeps(p: Program, i0: nat, i1: nat) {
    IsConstOf(p, i1, 0) && !IsConst(p, i0) && !(i0 in p.insts && p.insts[i0].op == Neg)
  }

  ghost predicate XorKeeps(p: Program, i0: nat, i1: nat) {
    IsConstOf(p, i0, 0) && !IsConst(p, i1) && !Has(p, i1, Not, 0, i0)
  }

  ghost predicate AshrKeeps(p: Program, i0: nat, i1: nat) {
    IsConstOf(p, i1, 0) && !IsConst(p, i0)
  }

  ghost predicate KeepsOperand(p: Program, i: nat) {
    i in p.insts && |p.insts[i].inputs| == 2 &&
    match p.insts[i].op
    case Sub => SubKeeps(p, Input(p, i, 0), Input(p, i, 1))
    case Xor => XorKeeps(p, Input(p, i, 0), Input(p, i, 1))
    case Ashr => AshrKeeps(p, Input(p, i, 0), Input(p, i, 1))
    case _ => false
  }

  ghost predicate AtEnd(p: Program, b: nat, k: nat)
    requires b < |p.body|
  {
    !(0 < k < |p.body[b]| - 1)
  }

  // The visitor of the k-th instruction of b fails: a pattern applies, and a fresh instruction would stand at an end of
  // the block, or the shift is not one the visitor is meant for.
  ghost predicate CrashesAt(p: Program, b: nat, k: nat) {
    && b < |p.body| && k < |p.body[b]| && MatchesAt(p, p.body[b][k])
    && ((AtEnd(p, b, k) && !KeepsOperand(p, p.body[b][k])) ||
        (p.insts[p.body[b][k]].op == Ashr && !AshrLegal(p, p.body[b][k])))
  }

  // The patterns in the order in which the visitors try them.
  lemma SubStages(p: Program, i0: nat, i1: nat)
    requires i0 in p.insts && i1 in p.insts
    ensures (IsConst(p, i0) && IsConst(p, i1)) || i0 == i1 || HasOp(p, i0, Neg) || HasOp(p, i1, Neg) ==>
              SubMatches(p, i0, i1) && !SubKeeps(p, i0, i1)
    ensures !(IsConst(p, i0) && IsConst(p, i1)) && i0 != i1 && !HasOp(p, i0, Neg) && !HasOp(p, i1, Neg) ==>
              (SubMatches(p, i0, i1) <==> IsConstOf(p, i0, 0) || IsConstOf(p, i1, 0)) &&
              (SubKeeps(p, i0, i1) <==> IsConstOf(p, i1, 0))
  {
  }

  lemma XorStages(p: Program, i0: nat, i1: nat)
    ensures (IsConst(p, i0) && IsConst(p, i1)) || i0 == i1 || Has(p, i0, Not, 0, i1) || Has(p, i1, Not, 0, i0) ==>
              XorMatches(p, i0, i1) && !XorKeeps(p, i0, i1)
    ensures !(IsConst(p, i0) && IsConst(p, i1)) && i0 != i1 && !Has(p, i0, Not, 0, i1) && !Has(p, i1, Not, 0, i0) ==>
              (XorMatches(p, i0, i1) <==> IsConstOf(p, i0, 0)) && (XorKeeps(p, i0, i1) <==> IsConstOf(p, i0, 0))
  {
  }

  lemma AshrStages(p: Program, i: nat)
    requires i in p.insts && |p.insts[i].inputs| == 2
    ensures var i0, i1 := Input(p, i, 0), Input(p, i, 1);
            IsConst(p, i0) && IsConst(p, i1) ==>
              AshrMatches(p, i0, i1) && !AshrKeeps(p, i0, i1) && (AshrLegal(p, i) <==> FoldLegal(p, i0, i1))
    ensures var i0, i1 := Input(p, i, 0), Input(p, i, 1);
            !IsConst(p, i0) && IsConstOf(p, i1, 0) ==>
              AshrMatches(p, i0, i1) && AshrKeeps(p, i0, i1) && AshrLegal(p, i)
    ensures var i0, i1 := Input(p, i, 0), Input(p, i, 1);
            !(IsConst(p, i0) && IsConst(p, i1)) && !IsConstOf(p, i1, 0) ==>
              && (AshrMatches(p, i0, i1) <==> IsConst(p, i1) && Has(p, i0, Shl, 1, i1)) && !AshrKeeps(p, i0, i1)
              && (AshrMatches(p, i0, i1) ==> (AshrLegal(p, i) <==> CastLegal(p, i, i1)))
  {
  }

  // The walk over b fails: its first match does.
  ghost predicate Stuck(p: Program, b: nat) {
    exists k: nat :: FirstMatch(p, b, k) && CrashesAt(p, b, k)
  }

  // The walk over b comes to its end and turns p into q: it does nothing if nothing matches, and otherwise replaces the
  // first match.
  ghost predicate Walks(p: Program, b: nat, q: Program) {
    && Ir.Sized(p) && Ir.Sized(q) && !Stuck(p, b)
    && (if exists k: nat :: FirstMatch(p, b, k) then
          exists k: nat :: FirstMatch(p, b, k) && RewritesTo(p, b, k, p.body[b][k], q)
        else q == p)
    && (!PairFirst(p, b) ==> SameRuns(p, q))
  }

  // The walks over the first blocks of the order turn the first of the programs into the last.
  ghost predicate WalksAlong(progs: seq<Program>, order: seq<DominatorTree.BlockRef>) {
    && 0 < |progs| <= |order| + 1
    && forall j: nat :: j + 1 < |progs| ==> order[j].Ref? && Walks(progs[j], order[j].id, progs[j + 1])
  }

  // None of the walks replaces a pair of unsigned shifts.
  ghost predicate NoPairFirst(progs: seq<Program>, order: seq<DominatorTree.BlockRef>) {
    forall j: nat :: j + 1 < |progs| && j < |order| && order[j].Ref? ==> !PairFirst(progs[j], order[j].id)
  }

  lemma WalksOn(progs: seq<Program>, order: seq<DominatorTree.BlockRef>, q: Program)
    requires WalksAlong(progs, order) && |progs| <= |order|
    requires order[|progs| - 1].Ref? && Walks(progs[|progs| - 1], order[|progs| - 1].id, q)
    ensures WalksAlong(progs + [q], order)
  {
    hide Walks;
  }

  lemma WalkKeepsRuns(p: Program, b: nat, q: Program)
    requires Walks(p, b, q) && !PairFirst(p, b)
    ensures Ir.Sized(p) && Ir.Sized(q) && SameRuns(p, q)
  {
    hide SameRuns, PairFirst, Stuck, FirstMatch, RewritesTo;
  }

  lemma {:induction false} WalksKeepRuns(progs: seq<Program>, order: seq<DominatorTree.BlockRef>)
    requires WalksAlong(progs, order) && NoPairFirst(progs, order) && Ir.Sized(progs[0])
    ensures Ir.Sized(progs[|progs| - 1]) && SameRuns(progs[0], progs[|progs| - 1])
    decreases |progs|
  {
    hide SameRuns, PairFirst, Walks;
    var n := |progs| - 1;
    if n == 0 {
      SameRunsReflexive(progs[0]);
    } else {
      WalkKeepsRuns(progs[n - 1], order[n - 1].id, progs[n]);
      assert forall j: nat :: j < n ==> progs[..n][j] == progs[j];
      WalksKeepRuns(progs[..n], order);
      SameRunsTransitive(progs[0], progs[n - 1], progs[n]);
    }
  }

  // The walk over the blocks stops at the j-th one: nothing matches in front of it, and its first match fails.
  ghost predicate StopsAt(p: Program, order: seq<DominatorTree.BlockRef>, j: nat) {
    && j < |order| && order[j].Ref? && (forall i :: 0 <= i < j ==> NoMatch(p, order[i]))
    && Stuck(p, order[j].id)
  }

  // ---------------------------------------------------------------- programs on which it does not

  // y is an instruction the pass may replace.
  ghost predicate Rewritable(p: Program, y: nat) {
    y in p.insts && p.insts[y].op in {Sub, Xor, Ashr}
  }

  // An ASHR that is legal and stays so whatever other instructions are replaced by: its amount is not constant and not
  // replaced, or its operands are not replaced, nor the amount of a SHL that it might be paired with.
  ghost predicate ShiftSafe(p: Program, i: nat) {
    i in p.insts && |p.insts[i].inputs| == 2 &&
    var i0, i1 := Input(p, i, 0), Input(p, i, 1);
    !Rewritable(p, i1) && (IsConst(p, i1) ==> !Rewritable(p, i0) && AshrLegal(p, i) && PairFixed(p, i, i0, i1))
  }

  ghost predicate PairFixed(p: Program, i: nat, i0: nat, i1: nat) {
    i0 in p.insts && p.insts[i0].op == Shl && |p.insts[i0].inputs| == 2 ==>
      CastLegal(p, i, i1) || !Rewritable(p, Input(p, i0, 1))
  }

  // What the pass may replace is neither first nor last in its block, and all arithmetic shifts are safe.
  ghost predicate Calm(p: Program) {
    && (forall b, k: nat :: 0 <= b < |p.body| && k < |p.body[b]| && Rewritable(p, p.body[b][k]) ==> !AtEnd(p, b, k))
    && (forall i :: i in p.insts && p.insts[i].op == Ashr ==> ShiftSafe(p, i))
  }

  lemma CalmNoCrash(p: Program, b: nat, k: nat)
    requires Calm(p)
    ensures !CrashesAt(p, b, k)
  {
    if b < |p.body| && k < |p.body[b]| && MatchesAt(p, p.body[b][k]) {
      var i := p.body[b][k];
      assert Rewritable(p, i);
      assert p.insts[i].op == Ashr ==> ShiftSafe(p, i);
    }
  }

  // An ASHR on UINT64 that is a pair of shifts by 32, or may become one when others are replaced.
  ghost predicate PairLike(p: Program, i: nat) {
    i in p.insts && p.insts[i].op == Ashr && p.insts[i].ty == UINT64 && |p.insts[i].inputs| == 2 &&
    var i0, i1 := Input(p, i, 0), Input(p, i, 1);
    (Rewritable(p, i1) || IsConstOf(p, i1, 32)) && (Rewritable(p, i0) || ShiftedBy(p, i0, i1))
  }

  ghost predicate ShiftedBy(p: Program, i0: nat, i1: nat) {
    && i0 in p.insts && p.insts[i0].op == Shl && |p.insts[i0].inputs| == 2
    && (Input(p, i0, 1) == i1 || Rewritable(p, Input(p, i0, 1)) || Rewritable(p, i1))
  }

  ghost predicate NoPairLike(p: Program) {
    forall i :: i in p.insts ==> !PairLike(p, i)
  }

  lemma PairIsLike(p: Program, i: nat)
    requires AritiesOk(p)
    ensures UnsignedPair(p, i) ==> PairLike(p, i)
  {
    if UnsignedPair(p, i) {
      assert ArityOk(p.insts[Input(p, i, 0)]);
    }
  }

  lemma NoPairHere(p: Program, i: nat)
    requires AritiesOk(p) && NoPairLike(p)
    ensures !UnsignedPair(p, i)
  {
    PairIsLike(p, i);
    hide PairLike;
  }

  // Both conditions are kept.
  ghost predicate Carried(p: Program, p': Program) {
    (NoPairLike(p) ==> NoPairLike(p')) && (Calm(p) ==> Calm(p'))
  }

  // ---------------------------------------------------------------- replacing keeps both

  // The pass replaces one instruction by what it never replaces again.
  ghost predicate IsRewrite(p: Program, e: Edit) {
    && e.b < |p.body| && e.k < |p.body[e.b]| && Rewritable(p, Old(p, e)) && InputsKnown(p) && AritiesOk(p)
    && (forall x :: x in e.added <==> x in e.defs)
    && (forall x :: x in e.defs ==> x !in p.insts && e.defs[x].op !in {Sub, Xor, Ashr})
  }

  lemma RewriteInst(p: Program, e: Edit, y: nat)
    requires IsRewrite(p, e)
    ensures y in p.insts && y != Old(p, e) ==>
              y in Apply(p, e).insts &&
              Apply(p, e).insts[y] == p.insts[y].(inputs := RedirectAll(p.insts[y].inputs, Old(p, e), e.v))
    ensures y in p.insts && y in Apply(p, e).insts ==> y != Old(p, e)
    ensures Rewritable(Apply(p, e), y) ==> Rewritable(p, y) && y != Old(p, e)
  {
  }

  // What is not replaced stays an operand.
  lemma OperandStays(p: Program, e: Edit, i: nat, j: nat)
    requires IsRewrite(p, e) && i in p.insts && i != Old(p, e) && j < |p.insts[i].inputs|
    ensures i in Apply(p, e).insts && j < |Apply(p, e).insts[i].inputs| && Input(p, i, j) in p.insts
    ensures Input(Apply(p, e), i, j) == Redirect(Input(p, i, j), Old(p, e), e.v)
    ensures !Rewritable(p, Input(p, i, j)) ==> Input(Apply(p, e), i, j) == Input(p, i, j)
  {
    RewriteInst(p, e, i);
    assert Input(p, i, j) in p.insts[i].inputs;
  }

  // Operands that are not replaced stay what they are.
  lemma OperandSame(p: Program, e: Edit, y: nat)
    requires IsRewrite(p, e) && y in p.insts && y != Old(p, e)
    ensures var p' := Apply(p, e);
            && y in p'.insts && p'.insts[y].op == p.insts[y].op && p'.insts[y].ty == p.insts[y].ty
            && p'.insts[y].imm == p.insts[y].imm && |p'.insts[y].inputs| == |p.insts[y].inputs|
            && (Rewritable(p', y) <==> Rewritable(p, y))
  {
    RewriteInst(p, e, y);
  }

  lemma OldRewritable(p: Program, e: Edit)
    requires IsRewrite(p, e)
    ensures Rewritable(p, Old(p, e))
  {
  }

  lemma PairLikeBack(p: Program, e: Edit, i: nat)
    requires IsRewrite(p, e) && PairLike(Apply(p, e), i)
    ensures i in p.insts && PairLike(p, i)
  {
    RewriteInst(p, e, i);
    OldRewritable(p, e);
    hide IsRewrite, Apply;
    OperandSame(p, e, i);
    OperandStays(p, e, i, 0);
    OperandStays(p, e, i, 1);
    var i0, i1, r := Input(p, i, 0), Input(p, i, 1), Old(p, e);
    if i1 != r {
      OperandSame(p, e, i1);
    }
    if i0 != r {
      OperandSame(p, e, i0);
      if p.insts[i0].op == Shl && |p.insts[i0].inputs| == 2 {
        OperandStays(p, e, i0, 1);
        if Input(p, i0, 1) != r {
          OperandSame(p, e, Input(p, i0, 1));
        }
      }
    }
  }

  lemma NoPairKept(p: Program, e: Edit)
    requires IsRewrite(p, e) && NoPairLike(p)
    ensures NoPairLike(Apply(p, e))
  {
    var p' := Apply(p, e);
    hide IsRewrite, Apply, PairLike;
    forall i | i in p'.insts ensures !PairLike(p', i) {
      if PairLike(p', i) {
        PairLikeBack(p, e, i);
      }
    }
  }

  lemma ShiftSafeKept(p: Program, e: Edit, i: nat)
    requires IsRewrite(p, e) && ShiftSafe(p, i) && i != Old(p, e)
    ensures ShiftSafe(Apply(p, e), i)
  {
    OldRewritable(p, e);
    hide IsRewrite, Apply, AshrLegal, PairFixed;
    OperandSame(p, e, i);
    OperandStays(p, e, i, 0);
    OperandStays(p, e, i, 1);
    OperandSame(p, e, Input(p, i, 1));
    if IsConst(p, Input(p, i, 1)) {
      OperandSame(p, e, Input(p, i, 0));
      LegalKept(p, e, i);
    }
  }

  // An instruction is the same in both programs but for its operands.
  ghost predicate Same(p: Program, p': Program, y: nat) {
    && y in p.insts && y in p'.insts && p'.insts[y].op == p.insts[y].op && p'.insts[y].ty == p.insts[y].ty
    && p'.insts[y].imm == p.insts[y].imm && |p'.insts[y].inputs| == |p.insts[y].inputs|
  }

  ghost predicate SameAmount(p: Program, p': Program, i0: nat) {
    && i0 in p.insts && i0 in p'.insts
    && (p.insts[i0].op == Shl ==>
          && |p.insts[i0].inputs| == |p'.insts[i0].inputs| == 2
          && (!Rewritable(p, Input(p, i0, 1)) ==>
                Input(p', i0, 1) == Input(p, i0, 1) && !Rewritable(p', Input(p', i0, 1))))
  }

  lemma LegalAgain(p: Program, p': Program, i: nat, i0: nat, i1: nat)
    requires Same(p, p', i) && Same(p, p', i0) && Same(p, p', i1) && SameAmount(p, p', i0) && |p.insts[i].inputs| == 2
    requires Input(p, i, 0) == Input(p', i, 0) == i0 && Input(p, i, 1) == Input(p', i, 1) == i1
    requires AshrLegal(p, i) && PairFixed(p, i, i0, i1)
    ensures AshrLegal(p', i) && PairFixed(p', i, i0, i1)
  {
    hide Rewritable;
  }

  lemma LegalKept(p: Program, e: Edit, i: nat)
    requires IsRewrite(p, e) && ShiftSafe(p, i) && i != Old(p, e) && IsConst(p, Input(p, i, 1))
    ensures var p' := Apply(p, e);
            && i in p'.insts && |p'.insts[i].inputs| == 2 && AshrLegal(p', i)
            && PairFixed(p', i, Input(p', i, 0), Input(p', i, 1))
  {
    OldRewritable(p, e);
    var p', i0, i1 := Apply(p, e), Input(p, i, 0), Input(p, i, 1);
    hide IsRewrite, Apply, AshrLegal, PairFixed;
    OperandStays(p, e, i, 0);
    OperandStays(p, e, i, 1);
    ShlKept(p, e, i0);
    OperandSame(p, e, i);
    OperandSame(p, e, i0);
    OperandSame(p, e, i1);
    LegalAgain(p, p', i, i0, i1);
  }

  // The amount of a SHL stays unless it is replaced.
  lemma ShlKept(p: Program, e: Edit, i0: nat)
    requires IsRewrite(p, e) && i0 in p.insts && i0 != Old(p, e)
    ensures SameAmount(p, Apply(p, e), i0)
  {
    OldRewritable(p, e);
    ShlOperands(p, e, i0);
    hide IsRewrite, Apply;
    OperandSame(p, e, i0);
    if p.insts[i0].op == Shl {
      OperandStays(p, e, i0, 1);
      if !Rewritable(p, Input(p, i0, 1)) {
        OperandSame(p, e, Input(p, i0, 1));
      }
    }
  }

  lemma ShlOperands(p: Program, e: Edit, y: nat)
    requires IsRewrite(p, e) && y in p.insts
    ensures p.insts[y].op == Shl ==> |p.insts[y].inputs| == 2
  {
    assert ArityOk(p.insts[y]);
  }

  // Positions inside a block stay inside.
  lemma InsideKept(p: Program, e: Edit, c: nat, q: nat)
    requires IsRewrite(p, e) && Calm(p) && c < |p.body| && q < |Apply(p, e).body[c]|
    requires Rewritable(Apply(p, e), Apply(p, e).body[c][q])
    ensures !AtEnd(Apply(p, e), c, q)
  {
    RewriteInst(p, e, Apply(p, e).body[c][q]);
    AddedNot(p, e);
    hide ShiftSafe, Rewritable;
    if c == e.b {
      assert Apply(p, e).body[c] == p.body[c][..e.k] + e.added + p.body[c][e.k + 1..];
      OldInside(p, e);
      if q < e.k {
        assert !AtEnd(p, c, q);
      } else if q >= e.k + |e.added| {
        assert !AtEnd(p, c, q - |e.added| + 1);
      }
    } else {
      assert !AtEnd(p, c, q);
    }
  }

  lemma OldInside(p: Program, e: Edit)
    requires IsRewrite(p, e) && Calm(p)
    ensures !AtEnd(p, e.b, e.k)
  {
  }

  lemma AddedNot(p: Program, e: Edit)
    requires IsRewrite(p, e)
    ensures forall j :: 0 <= j < |e.added| ==> !Rewritable(p, e.added[j])
  {
  }

  lemma CalmKept(p: Program, e: Edit)
    requires IsRewrite(p, e) && Calm(p)
    ensures Calm(Apply(p, e))
  {
    var p' := Apply(p, e);
    hide IsRewrite, ShiftSafe, AtEnd, Rewritable;
    forall c, q: nat | 0 <= c < |p'.body| && q < |p'.body[c]| && Rewritable(p', p'.body[c][q])
      ensures !AtEnd(p', c, q)
    {
      InsideKept(p, e, c, q);
    }
    forall i | i in p'.insts && p'.insts[i].op == Ashr ensures ShiftSafe(p', i) {
      ShiftBack(p, e, i);
      ShiftSafeKept(p, e, i);
    }
  }

  lemma ShiftBack(p: Program, e: Edit, i: nat)
    requires IsRewrite(p, e) && i in Apply(p, e).insts && Apply(p, e).insts[i].op == Ashr
    ensures i in p.insts && p.insts[i].op == Ashr && i != Old(p, e)
  {
    assert Rewritable(Apply(p, e), i);
    RewriteInst(p, e, i);
    OperandSame(p, e, i);
  }

  lemma RewriteCarries(p: Program, e: Edit)
    requires IsRewrite(p, e)
    ensures Carried(p, Apply(p, e))
  {
    hide IsRewrite, Apply, Calm, NoPairLike;
    if NoPairLike(p) {
      NoPairKept(p, e);
    }
    if Calm(p) {
      CalmKept(p, e);
    }
  }

  lemma CarriedOn(p: Program, p1: Program, p2: Program)
    requires Carried(p, p1) && Carried(p1, p2)
    ensures Carried(p, p2)
  {
    hide Calm, NoPairLike;
  }

  // ---------------------------------------------------------------- operands are in the program

  lemma BeforeKnown(p: Program, y: nat, b: nat, k: nat)
    requires Sized(p) && b < p.g.Size() && k <= |p.body[b]| && Before(p, y, b, k)
    ensures y in p.insts
  {
    if LiveIn(p, y, b) {
      var c: nat :| InBlock(p, y, c) && StrictlyDominates(p.g, c, b);
    }
  }

  lemma OperandsKnown(p: Program, i: nat, b: nat)
    requires Strict(p) && i in p.insts && b < p.g.Size() && InBlock(p, i, b)
    ensures forall y :: y in p.insts[i].inputs ==> y in p.insts
  {
    hide Before, Unique, AllReachable;
    forall y | y in p.insts[i].inputs ensures y in p.insts {
      if i in p.body[b] {
        var k :| 0 <= k < |p.body[b]| && p.body[b][k] == i;
        assert InputsReady(p, b, k);
        BeforeKnown(p, y, b, k);
      } else {
        assert PhiReady(p, b, i);
        var j :| 0 <= j < |p.insts[i].inputs| && p.insts[i].inputs[j] == y;
        var c := p.g.preds[b][j];
        BeforeKnown(p, y, c, |p.body[c]|);
      }
    }
  }

  lemma AllOperandsKnown(p: Program)
    requires Strict(p) && forall i :: i in p.insts ==> exists b: nat :: b < p.g.Size() && InBlock(p, i, b)
    ensures InputsKnown(p)
  {
    hide Strict, InBlock;
    forall i | i in p.insts ensures forall y :: y in p.insts[i].inputs ==> y in p.insts {
      var b: nat :| b < p.g.Size() && InBlock(p, i, b);
      OperandsKnown(p, i, b);
    }
  }
}
