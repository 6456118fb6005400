// The peephole pass over the instruction graph.
module Peepholes {
  import opened Cfg
  import opened Ir
  import opened Ssa
  import opened Rewrite
  import opened DefUse
  import opened BlockLists
  import opened InstructionGraph
  import opened PeepholeRules
  import opened PeepholePatterns
  import DominatorTree
  import opened Strictness

  // What a visitor does: no pattern applies, it replaces the instruction, or the process ends in a failed
  // assertion or a null dereference.
  datatype Outcome = Skipped | Done | Crashed

  // What the pointers say about an instruction of the program.
  lemma InstAt(g: Graph, phis: seq<seq<nat>>, l: Layout, attrs: map<nat, Attr>, inputs: Slots, active: set<nat>, y: nat)
    requires PlacesOk(l, phis, g.Size(), active) && AllFilled(l.bb, inputs)
    requires y in AbsOf(g, phis, l, attrs, inputs).insts
    ensures y in active && y in attrs && y in inputs && IsPlaced(l.bb, y) && SlotsFilled(inputs, y)
    ensures AbsOf(g, phis, l, attrs, inputs).insts[y] == AbsInst(attrs[y], inputs[y])
    ensures |AbsOf(g, phis, l, attrs, inputs).insts[y].inputs| == |inputs[y]|
    ensures forall j :: 0 <= j < |inputs[y]| ==>
              inputs[y][j] == Some(AbsOf(g, phis, l, attrs, inputs).insts[y].inputs[j])
  {
    hide PlaceOk;
    PlacedActive(l, phis, g.Size(), active, y);
  }

  lemma PlacedInBlock(g: Graph, phis: seq<seq<nat>>, l: Layout, attrs: map<nat, Attr>, inputs: Slots, active: set<nat>,
                      y: nat)
    requires PlacesOk(l, phis, g.Size(), active) && y in AbsOf(g, phis, l, attrs, inputs).insts
    ensures exists b: nat :: b < g.Size() && InBlock(AbsOf(g, phis, l, attrs, inputs), y, b)
  {
    assert PlaceOk(l, phis, g.Size(), active, y);
    assert InBlock(AbsOf(g, phis, l, attrs, inputs), y, l.bb[y].value);
  }

  lemma PlacedActive(l: Layout, phis: seq<seq<nat>>, n: nat, active: set<nat>, y: nat)
    requires PlacesOk(l, phis, n, active) && IsPlaced(l.bb, y)
    ensures y in active
  {
    assert PlaceOk(l, phis, n, active, y);
  }

  // The next id is not in the program.
  lemma NextIdFree(g: Graph, phis: seq<seq<nat>>, l: Layout, attrs: map<nat, Attr>, inputs: Slots, active: set<nat>,
                   nextId: nat)
    requires PlacesOk(l, phis, g.Size(), active) && IdsOk(active, attrs, l.bb, nextId)
    ensures nextId !in AbsOf(g, phis, l, attrs, inputs).insts
    ensures nextId + 1 !in AbsOf(g, phis, l, attrs, inputs).insts
  {
  }

  // An edit keeps the arities.
  lemma ArityKept(p: Program, e: Edit)
    requires e.b < |p.body| && e.k < |p.body[e.b]| && AritiesOk(p) && forall x :: x in e.defs ==> ArityOk(e.defs[x])
    ensures AritiesOk(Apply(p, e))
  {
  }

  // A replaced instruction has left its block and is linked to nothing, so that a walk that stands at it ends.
  ghost predicate IsReplaced(l: Layout, i: nat) {
    !IsPlaced(l.bb, i) && i in l.next && l.next[i] == None
  }

  // The k-th instruction of b may be replaced.
  ghost predicate Target(p: Program, b: nat, k: nat) {
    CanReplace(p, b, k) && Sized(p) && AritiesOk(p) && InputsKnown(p) && Rewritable(p, p.body[b][k])
  }

  // A fresh instruction keeps the invariants of the program, and its runs if it computes the same value.
  lemma FreshKept(p: Program, b: nat, k: nat, x: nat, ins: Inst)
    requires Target(p, b, k) && x !in p.insts && IsPure(ins.op)
    requires ins.op !in {Sub, Xor, Ashr} && ArityOk(ins)
    requires forall y :: y in ins.inputs ==> Before(p, y, b, k)
    ensures var p' := Apply(p, FreshEdit(b, k, x, ins));
            && Strict(p') && Sized(p') && AritiesOk(p') && Carried(p, p')
            && (SameValue(p, b, k, ins) ==> SameRuns(p, p'))
  {
    hide Strict, Before, AritiesOk, SameRuns, SameValue, Apply, Carried, WellFormed, InputsKnown;
    var e := FreshEdit(b, k, x, ins);
    FreshWellFormed(p, b, k, x, ins);
    ApplyStrict(p, e);
    StrictSized(Apply(p, e));
    ArityKept(p, e);
    RewriteCarries(p, e);
    if SameValue(p, b, k, ins) {
      FreshSound(p, b, k, x, ins);
    }
  }

  lemma ExistingKept(p: Program, b: nat, k: nat, v: nat)
    requires Target(p, b, k) && Before(p, v, b, k)
    ensures var p' := Apply(p, ValueEdit(b, k, v));
            && Strict(p') && Sized(p') && AritiesOk(p') && Carried(p, p')
            && (IsValue(p, b, k, v) ==> SameRuns(p, p'))
  {
    hide Before, AritiesOk, SameRuns, IsValue, Apply, Carried, InputsKnown;
    var e := ValueEdit(b, k, v);
    assert WellFormed(p, e);
    ApplyStrict(p, e);
    StrictSized(Apply(p, e));
    ArityKept(p, e);
    RewriteCarries(p, e);
    if IsValue(p, b, k, v) {
      ValueSound(p, b, k, v);
    }
  }

  lemma NegAddDefs(b: nat, k: nat, x: nat, y: nat, ty: Type, z: nat, i1: nat)
    ensures var e := NegAddEdit(b, k, x, y, ty, z, i1);
            && e.b == b && e.k == k && (forall i :: i in e.defs ==> i == x || i == y)
            && (forall i :: i in e.added <==> i in e.defs)
            && (forall i :: i in e.defs ==> ArityOk(e.defs[i]) && e.defs[i].op !in {Sub, Xor, Ashr})
  {
  }

  lemma NegAddRewrite(p: Program, b: nat, k: nat, x: nat, y: nat, ty: Type, z: nat, i1: nat)
    requires Target(p, b, k) && x !in p.insts && y !in p.insts
    ensures IsRewrite(p, NegAddEdit(b, k, x, y, ty, z, i1))
  {
    hide Strict, AritiesOk, InputsKnown, NegAddEdit;
    NegAddDefs(b, k, x, y, ty, z, i1);
  }

  lemma NegAddKept(p: Program, b: nat, k: nat, i0: nat, i1: nat, ty: Type, x: nat, y: nat)
    requires Target(p, b, k) && Operands(p, b, k, Sub, i0, i1) && IsOperand(p, b, k, i0, Neg)
    requires x !in p.insts && y !in p.insts && x != y && Before(p, Input(p, i0, 0), b, k)
    ensures var p' := Apply(p, NegAddEdit(b, k, x, y, ty, Input(p, i0, 0), i1));
            && Strict(p') && Sized(p') && AritiesOk(p') && Carried(p, p') && SameRuns(p, p')
  {
    var z := Input(p, i0, 0);
    hide Strict, Before, AritiesOk, SameRuns, Apply, Carried, WellFormed, IsOperand, NegAddEdit, ArityOk, InputsKnown;
    var e := NegAddEdit(b, k, x, y, ty, z, i1);
    SubNegLeftSound(p, b, k, i0, i1, ty, x, y);
    NegAddDefs(b, k, x, y, ty, z, i1);
    NegAddRewrite(p, b, k, x, y, ty, z, i1);
    hide IsRewrite, Target, Operands;
    StrictSized(Apply(p, e));
    ArityKept(p, e);
    RewriteCarries(p, e);
  }

  lemma OtherUnmatched(p: Program, i: nat)
    requires i in p.insts && p.insts[i].op !in {Sub, Xor, Ashr}
    ensures !Matches(p, i, p.insts[i].op)
  {
  }

  class Pass {
    const graph: InstGraph
    const order: seq<DominatorTree.BlockRef>  // the reverse postorder

    constructor (graph: InstGraph, order: seq<DominatorTree.BlockRef>)
      ensures this.graph == graph && this.order == order
    {
      this.graph, this.order := graph, order;
    }

    ghost predicate Ready()
      reads graph
    {
      && graph.Valid() && AllFilled(graph.bb, graph.inputs)
      && Strict(graph.Abs()) && Sized(graph.Abs()) && AritiesOk(graph.Abs())
    }

    // inst is the k-th instruction of b, and a pure one.
    ghost predicate Here(inst: nat, b: nat, k: nat)
      reads graph
    {
      && Ready() && b < graph.g.Size() && b < |graph.lists| && k < |graph.lists[b]| && graph.lists[b][k] == inst
      && CanReplace(graph.Abs(), b, k)
    }

    // x is defined in front of the k-th instruction of b.
    ghost predicate Usable(b: nat, k: nat, x: nat)
      reads graph
    {
      && Sized(graph.Abs()) && b < graph.g.Size() && b < |graph.lists| && k < |graph.lists[b]|
      && x in graph.active && x != graph.lists[b][k] && IsPlaced(graph.bb, x) && Before(graph.Abs(), x, b, k)
    }

    // The operands of the program are in the program.
    lemma Known()
      requires Ready()
      ensures InputsKnown(graph.Abs())
    {
      hide Strict, Consistent, LayoutOk, IdsOk, AllFilled, InputsKnown;
      ghost var p := graph.Abs();
      forall i | i in p.insts ensures exists b: nat :: b < p.g.Size() && InBlock(p, i, b) {
        PlacedInBlock(graph.g, graph.phis, graph.L(), graph.attrs, graph.inputs, graph.active, i);
      }
      AllOperandsKnown(p);
    }

    // The program has been changed by the edit.
    twostate predicate Became(r: Outcome, e: Edit)
      reads graph
    {
      r.Done? ==> IsApplied(old(graph.Abs()), e, graph.Abs())
    }

    // New<...>, ReplaceWith, SetInput.
    method Fresh(inst: nat, a: Attr, xs: seq<nat>, ghost b: nat, ghost k: nat) returns (r: Outcome)
      requires Here(inst, b, k) && Rewritable(graph.Abs(), inst)
      requires IsPure(a.op) && a.op !in {Sub, Xor, Ashr} && ArityOk(Inst(a.op, a.ty, a.imm, a.cond, xs))
      requires forall j :: 0 <= j < |xs| ==> Usable(b, k, xs[j])
      modifies graph
      ensures r.Crashed? <==> !(0 < k < |old(graph.lists)[b]| - 1)
      ensures !r.Skipped?
      ensures r.Done? ==> Ready() && IsReplaced(graph.L(), inst)
      ensures r.Done? && SameValue(old(graph.Abs()), b, k, Inst(a.op, a.ty, a.imm, a.cond, xs)) ==>
                SameRuns(old(graph.Abs()), graph.Abs())
      ensures r.Done? ==> Carried(old(graph.Abs()), graph.Abs())
      ensures Became(r, FreshEdit(b, k, old(graph.nextId), Inst(a.op, a.ty, a.imm, a.cond, xs)))
    {
      hide Strict, Before, AritiesOk, SameRuns, SameValue, Apply, Carried, LayoutOk, PlacesOk, Consistent;
      hide IdsOk, AllFilled;
      ghost var p, ins := graph.Abs(), Inst(a.op, a.ty, a.imm, a.cond, xs);
      NextIdFree(graph.g, graph.phis, graph.L(), graph.attrs, graph.inputs, graph.active, graph.nextId);
      InstAt(graph.g, graph.phis, graph.L(), graph.attrs, graph.inputs, graph.active, inst);
      NotOwnOperand(p, b, k, graph.inputs[inst]);
      Known();
      var ok, x := graph.ReplaceByNew(inst, a, xs, b, k);
      if ok {
        FreshKept(p, b, k, x, ins);
        r := Done;
      } else {
        r := Crashed;
      }
    }

    // ReplaceWith an instruction of a block.
    method Existing(inst: nat, v: nat, ghost b: nat, ghost k: nat) returns (r: Outcome)
      requires Here(inst, b, k) && Rewritable(graph.Abs(), inst) && Usable(b, k, v)
      modifies graph
      ensures r.Done? && Ready() && IsReplaced(graph.L(), inst)
      ensures IsValue(old(graph.Abs()), b, k, v) ==> SameRuns(old(graph.Abs()), graph.Abs())
      ensures Carried(old(graph.Abs()), graph.Abs()) && Became(r, ValueEdit(b, k, v))
    {
      hide Strict, Before, AritiesOk, SameRuns, IsValue, Apply, Carried, LayoutOk, PlacesOk, Consistent;
      hide IdsOk, AllFilled;
      ghost var p := graph.Abs();
      InstAt(graph.g, graph.phis, graph.L(), graph.attrs, graph.inputs, graph.active, inst);
      NotOwnOperand(p, b, k, graph.inputs[inst]);
      Known();
      graph.ReplaceByValue(inst, v, b, k);
      ExistingKept(p, b, k, v);
      r := Done;
    }

    // i0 and i1 are the operands of inst, the k-th instruction of b, which has opcode op.
    ghost predicate Reads(inst: nat, op: Opcode, i0: nat, i1: nat, b: nat, k: nat)
      reads graph
    {
      && Here(inst, b, k) && Operands(graph.Abs(), b, k, op, i0, i1)
      && Usable(b, k, i0) && Usable(b, k, i1) && inst in graph.attrs
      && inst in graph.inputs && graph.inputs[inst] == [Some(i0), Some(i1)]
    }

    lemma ReadsOperands(inst: nat, op: Opcode, b: nat, k: nat)
      requires Here(inst, b, k) && inst in graph.attrs && graph.attrs[inst].op == op && op in {Sub, Xor, Ashr}
      ensures inst in graph.inputs && |graph.inputs[inst]| == 2 && graph.inputs[inst][0].Some?
      ensures graph.inputs[inst][1].Some?
      ensures Reads(inst, op, graph.inputs[inst][0].value, graph.inputs[inst][1].value, b, k)
      ensures inst in graph.Abs().insts && |graph.Abs().insts[inst].inputs| == 2
      ensures Input(graph.Abs(), inst, 0) == graph.inputs[inst][0].value
      ensures Input(graph.Abs(), inst, 1) == graph.inputs[inst][1].value
    {
      hide Before, PlacesOk, Consistent, LayoutOk, IdsOk, AllFilled, InputsReady, PhiReady, Unique, AllReachable;
      ghost var p := graph.Abs();
      InstAt(graph.g, graph.phis, graph.L(), graph.attrs, graph.inputs, graph.active, inst);
      assert ArityOk(p.insts[inst]);
      OperandBefore(p, b, k, 0);
      OperandBefore(p, b, k, 1);
      InstAt(graph.g, graph.phis, graph.L(), graph.attrs, graph.inputs, graph.active, p.insts[inst].inputs[0]);
      InstAt(graph.g, graph.phis, graph.L(), graph.attrs, graph.inputs, graph.active, p.insts[inst].inputs[1]);
      assert graph.inputs[inst] == [graph.inputs[inst][0], graph.inputs[inst][1]];
    }

    lemma OperandsIn(inst: nat, op: Opcode, i0: nat, i1: nat, b: nat, k: nat)
      requires Reads(inst, op, i0, i1, b, k)
      ensures inst in graph.Abs().insts && |graph.Abs().insts[inst].inputs| == 2
      ensures Input(graph.Abs(), inst, 0) == i0 && Input(graph.Abs(), inst, 1) == i1
      ensures i0 in graph.Abs().insts && i1 in graph.Abs().insts && graph.Abs().insts[inst].op == op
    {
      hide Strict, AritiesOk, Before, PlacesOk, Consistent, LayoutOk, IdsOk, AllFilled;
    }

    // The pointers of an operand agree with the program, and its own operands can be used too.
    lemma OperandAt(b: nat, k: nat, y: nat)
      requires Ready() && Usable(b, k, y) && y in graph.Abs().insts
      ensures y in graph.attrs && y in graph.inputs
      ensures IsOperand(graph.Abs(), b, k, y, graph.attrs[y].op) && graph.attrs[y].imm == graph.Abs().insts[y].imm
      ensures graph.attrs[y].ty == graph.Abs().insts[y].ty
      ensures |graph.Abs().insts[y].inputs| == |graph.inputs[y]|
      ensures forall j :: 0 <= j < |graph.inputs[y]| ==> graph.inputs[y][j] == Some(Input(graph.Abs(), y, j))
      ensures IsPure(graph.attrs[y].op) ==> forall j :: 0 <= j < |graph.inputs[y]| ==>
                Usable(b, k, Input(graph.Abs(), y, j))
    {
      hide Before, PlacesOk, Consistent, LayoutOk, IdsOk, AllFilled, Strict;
      ghost var p := graph.Abs();
      InstAt(graph.g, graph.phis, graph.L(), graph.attrs, graph.inputs, graph.active, y);
      if IsPure(graph.attrs[y].op) {
        forall j | 0 <= j < |graph.inputs[y]| ensures Usable(b, k, Input(p, y, j)) {
          InnerBefore(p, b, k, y, j);
          InstAt(graph.g, graph.phis, graph.L(), graph.attrs, graph.inputs, graph.active, Input(p, y, j));
        }
      }
    }

    // What every visitor keeps. `sound` tells whether the value it leaves is the one it found.
    twostate predicate Kept(r: Outcome, inst: nat, sound: bool)
      reads graph
    {
      && (r.Skipped? ==> unchanged(graph))
      && (r.Done? ==> Ready() && IsReplaced(graph.L(), inst))
      && (r.Done? && old(Ready()) && sound ==> SameRuns(old(graph.Abs()), graph.Abs()))
      && (r.Done? ==> Carried(old(graph.Abs()), graph.Abs()))
    }

    method FoldConstants(inst: nat, op: Opcode, i0: nat, i1: nat, ghost b: nat, ghost k: nat) returns (r: Outcome)
      requires Reads(inst, op, i0, i1, b, k) && op in {Sub, Xor, Ashr}
      requires IsConst(graph.Abs(), i0) && IsConst(graph.Abs(), i1) && i0 in graph.attrs && i1 in graph.attrs
      modifies graph
      ensures Kept(r, inst, true) && !r.Skipped?
      ensures r.Crashed? <==> !(0 < k < |old(graph.lists)[b]| - 1)
      ensures Became(r, FoldEdit(old(graph.Abs()), b, k, inst, old(graph.nextId), op, i0, i1))
    {
      hide Strict, Before, AritiesOk, SameRuns, SameValue, Fold, Carried, LayoutOk, PlacesOk, Consistent;
      hide IdsOk, AllFilled, IsReplaced;
      OperandAt(b, k, i0);
      OperandAt(b, k, i1);
      var c := Fold(op, graph.attrs[i0].imm, graph.attrs[i1].imm);
      FoldRule(graph.Abs(), b, k, op, i0, i1, graph.attrs[inst].ty);
      r := Fresh(inst, Attr(Const, graph.attrs[inst].ty, c, EQ), [], b, k);
    }

    // ConstFold of SUB and XOR
    method ConstFold(inst: nat, op: Opcode, i0: nat, i1: nat, ghost b: nat, ghost k: nat) returns (r: Outcome)
      requires Reads(inst, op, i0, i1, b, k) && op in {Sub, Xor}
      modifies graph
      ensures Kept(r, inst, true)
      ensures r.Skipped? <==> !(IsConst(old(graph.Abs()), i0) && IsConst(old(graph.Abs()), i1))
      ensures !r.Skipped? ==> (r.Crashed? <==> !(0 < k < |old(graph.lists)[b]| - 1))
      ensures Became(r, FoldEdit(old(graph.Abs()), b, k, inst, old(graph.nextId), op, i0, i1))
    {
      hide Strict, Before, AritiesOk, SameRuns, SameValue, Fold, Carried, LayoutOk, PlacesOk, Consistent;
      hide IdsOk, AllFilled, IsReplaced;
      OperandAt(b, k, i0);
      OperandAt(b, k, i1);
      if graph.attrs[i0].op == Const && graph.attrs[i1].op == Const {
        r := FoldConstants(inst, op, i0, i1, b, k);
      } else {
        r := Skipped;
      }
    }

    // Equal operands of SUB and XOR cancel.
    method Cancel(inst: nat, op: Opcode, i0: nat, i1: nat, ghost b: nat, ghost k: nat) returns (r: Outcome)
      requires Reads(inst, op, i0, i1, b, k) && op in {Sub, Xor}
      modifies graph
      ensures Kept(r, inst, true)
      ensures r.Skipped? <==> i0 != i1
      ensures !r.Skipped? ==> (r.Crashed? <==> !(0 < k < |old(graph.lists)[b]| - 1))
      ensures Became(r, ConstEdit(b, k, old(graph.nextId), TypeOf(old(graph.Abs()), inst), 0))
    {
      hide Strict, Before, AritiesOk, SameRuns, SameValue, IsValue, Fold, Carried, LayoutOk, PlacesOk;
      hide Consistent, IdsOk, AllFilled, IsReplaced;
      if i0 == i1 {
        EqualRule(graph.Abs(), b, k, op, i0, graph.attrs[inst].ty);
        r := Fresh(inst, Attr(Const, graph.attrs[inst].ty, 0, EQ), [], b, k);
      } else {
        r := Skipped;
      }
    }

    // SubNeg: x - -y is x + y, and -x - y is -(x + y).
    method SubNeg(inst: nat, i0: nat, i1: nat, ghost b: nat, ghost k: nat) returns (r: Outcome)
      requires Reads(inst, Sub, i0, i1, b, k)
      modifies graph
      ensures Kept(r, inst, true)
      ensures r.Skipped? <==>
              old(graph.Abs()).insts[i0].op != Neg && old(graph.Abs()).insts[i1].op != Neg
      ensures !r.Skipped? ==> (r.Crashed? <==> !(0 < k < |old(graph.lists)[b]| - 1))
      ensures Became(r, SubNegEdit(old(graph.Abs()), b, k, inst, old(graph.nextId), i0, i1))
    {
      hide Strict, Before, AritiesOk, SameRuns, SameValue, IsValue, Fold, Carried, LayoutOk, PlacesOk;
      hide Consistent, IdsOk, AllFilled, IsReplaced, Operands, Usable, IsApplied;
      OperandsIn(inst, Sub, i0, i1, b, k);
      SubNegEdits(graph.Abs(), b, k, inst, graph.nextId, i0, i1);
      hide SubNegEdit, NegAddEdit, FreshEdit;
      OperandAt(b, k, i0);
      OperandAt(b, k, i1);
      var ty := graph.attrs[inst].ty;
      if graph.attrs[i1].op == Neg {
        var x := graph.inputs[i1][0].value;
        r := SumOfNegated(inst, i0, i1, x, ty, b, k);
      } else if graph.attrs[i0].op == Neg {
        var x := graph.inputs[i0][0].value;
        r := NegatedSum(inst, i0, x, i1, ty, b, k);
      } else {
        r := Skipped;
      }
    }

    // The first form of SubNeg, where z is the operand of i1.
    method SumOfNegated(inst: nat, i0: nat, ghost i1: nat, z: nat, ty: Type, ghost b: nat, ghost k: nat)
      returns (r: Outcome)
      requires Reads(inst, Sub, i0, i1, b, k) && Usable(b, k, z)
      requires IsOperand(graph.Abs(), b, k, i1, Neg) && Has(graph.Abs(), i1, Neg, 0, z)
      modifies graph
      ensures Kept(r, inst, true) && !r.Skipped?
      ensures !r.Skipped? ==> (r.Crashed? <==> !(0 < k < |old(graph.lists)[b]| - 1))
      ensures Became(r, FreshEdit(b, k, old(graph.nextId), BinaryInst(Add, ty, i0, z)))
    {
      hide Strict, Before, AritiesOk, SameRuns, SameValue, IsValue, Fold, Carried, LayoutOk, PlacesOk;
      hide Consistent, IdsOk, AllFilled, IsReplaced;
      SubNegRightRule(graph.Abs(), b, k, i0, i1, ty);
      r := Fresh(inst, Attr(Add, ty, 0, EQ), [i0, z], b, k);
    }

    // The second form of SubNeg, where z is the operand of i0.
    method NegatedSum(inst: nat, ghost i0: nat, z: nat, i1: nat, ty: Type, ghost b: nat, ghost k: nat)
      returns (r: Outcome)
      requires Reads(inst, Sub, i0, i1, b, k) && Usable(b, k, z)
      requires IsOperand(graph.Abs(), b, k, i0, Neg) && Has(graph.Abs(), i0, Neg, 0, z)
      modifies graph
      ensures Kept(r, inst, true) && !r.Skipped?
      ensures !r.Skipped? ==> (r.Crashed? <==> !(0 < k < |old(graph.lists)[b]| - 1))
      ensures Became(r, NegAddEdit(b, k, old(graph.nextId), old(graph.nextId) + 1, ty, z, i1))
    {
      hide Strict, Before, AritiesOk, SameRuns, SameValue, IsValue, Fold, Carried, LayoutOk, PlacesOk;
      hide Consistent, IdsOk, AllFilled;
      ghost var p := graph.Abs();
      NextIdFree(graph.g, graph.phis, graph.L(), graph.attrs, graph.inputs, graph.active, graph.nextId);
      InstAt(graph.g, graph.phis, graph.L(), graph.attrs, graph.inputs, graph.active, inst);
      NotOwnOperand(p, b, k, graph.inputs[inst]);
      Known();
      var ok, x, y := graph.ReplaceByPair(inst, Attr(Add, ty, 0, EQ), [z, i1], Attr(Neg, ty, 0, EQ), b, k);
      if ok {
        NegAddKept(p, b, k, i0, i1, ty, x, y);
        r := Done;
      } else {
        r := Crashed;
      }
    }

    // SubZero: x - 0 is x, and 0 - y is -y.
    method SubZero(inst: nat, i0: nat, i1: nat, ghost b: nat, ghost k: nat) returns (r: Outcome)
      requires Reads(inst, Sub, i0, i1, b, k)
      modifies graph
      ensures Kept(r, inst, true)
      ensures r.Skipped? <==> !IsConstOf(old(graph.Abs()), i0, 0) && !IsConstOf(old(graph.Abs()), i1, 0)
      ensures !r.Skipped? ==> (r.Crashed? <==>
                !(0 < k < |old(graph.lists)[b]| - 1) && !IsConstOf(old(graph.Abs()), i1, 0))
      ensures Became(r, SubZeroEdit(old(graph.Abs()), b, k, old(graph.nextId), i0, i1))
    {
      hide Strict, Before, AritiesOk, SameRuns, SameValue, IsValue, Fold, Carried, LayoutOk, PlacesOk;
      hide Consistent, IdsOk, AllFilled, IsReplaced, Operands, Usable;
      OperandsIn(inst, Sub, i0, i1, b, k);
      OperandAt(b, k, i0);
      OperandAt(b, k, i1);
      if graph.attrs[i1].op == Const && graph.attrs[i1].imm == 0 {
        SubZeroRightRule(graph.Abs(), b, k, i0, i1);
        r := Existing(inst, i0, b, k);
      } else if graph.attrs[i0].op == Const && graph.attrs[i0].imm == 0 {
        SubZeroLeftRule(graph.Abs(), b, k, i0, i1, UNKNOWN);
        r := Fresh(inst, Attr(Neg, UNKNOWN, 0, EQ), [i1], b, k);
      } else {
        r := Skipped;
      }
    }

    // Visit<SUB>
    method VisitSub(inst: nat, ghost b: nat, ghost k: nat) returns (r: Outcome)
      requires Here(inst, b, k) && inst in graph.attrs && graph.attrs[inst].op == Sub
      modifies graph
      ensures Kept(r, inst, true)
      ensures r.Skipped? <==> !Matches(old(graph.Abs()), inst, Sub)
      ensures r.Crashed? <==> CrashesAt(old(graph.Abs()), b, k)
      ensures Became(r, Rewriting(old(graph.Abs()), b, k, inst, old(graph.nextId)))
    {
      hide Strict, Before, AritiesOk, SameRuns, Carried, LayoutOk, PlacesOk, Consistent, IdsOk, AllFilled, IsReplaced;
      hide Usable, Operands, SubMatches, SubKeeps, AshrLegal, Rewriting, SubEdit;
      hide IsApplied;
      ReadsOperands(inst, Sub, b, k);
      var i0, i1 := graph.inputs[inst][0].value, graph.inputs[inst][1].value;
      RewritingIs(graph.Abs(), b, k, inst, graph.nextId);
      r := SubPatterns(inst, i0, i1, b, k);
    }

    // The patterns of Visit<SUB> in the order of the source.
    method SubPatterns(inst: nat, i0: nat, i1: nat, ghost b: nat, ghost k: nat) returns (r: Outcome)
      requires Reads(inst, Sub, i0, i1, b, k)
      modifies graph
      ensures Kept(r, inst, true)
      ensures r.Skipped? <==> !SubMatches(old(graph.Abs()), i0, i1)
      ensures !r.Skipped? ==> (r.Crashed? <==>
                (!(0 < k < |old(graph.lists)[b]| - 1) && !SubKeeps(old(graph.Abs()), i0, i1)))
      ensures Became(r, SubEdit(old(graph.Abs()), b, k, inst, old(graph.nextId), i0, i1))
    {
      hide Strict, Before, AritiesOk, SameRuns, Carried, LayoutOk, PlacesOk, Consistent, IdsOk, AllFilled, IsReplaced;
      hide Usable, Operands, Reads;
      OperandsIn(inst, Sub, i0, i1, b, k);
      SubStages(graph.Abs(), i0, i1);
      SubEdits(graph.Abs(), b, k, inst, graph.nextId, i0, i1);
      hide SubEdit, FoldEdit, ConstEdit, SubNegEdit, SubZeroEdit, IsApplied, TypeOf;
      hide SubMatches, SubKeeps, IsConst, IsConstOf, HasOp;
      r := ConstFold(inst, Sub, i0, i1, b, k);
      if r.Skipped? {
        r := Cancel(inst, Sub, i0, i1, b, k);
      }
      if r.Skipped? {
        r := SubNegZero(inst, i0, i1, b, k);
      }
    }

    method SubNegZero(inst: nat, i0: nat, i1: nat, ghost b: nat, ghost k: nat) returns (r: Outcome)
      requires Reads(inst, Sub, i0, i1, b, k)
      modifies graph
      ensures Kept(r, inst, true)
      ensures var p := old(graph.Abs());
              var neg := HasOp(p, i0, Neg) || HasOp(p, i1, Neg);
              && (r.Skipped? <==> !neg && !IsConstOf(p, i0, 0) && !IsConstOf(p, i1, 0))
              && Became(r, if neg then SubNegEdit(p, b, k, inst, old(graph.nextId), i0, i1)
                           else SubZeroEdit(p, b, k, old(graph.nextId), i0, i1))
              && (!r.Skipped? ==>
                    (r.Crashed? <==> !(0 < k < |old(graph.lists)[b]| - 1) && (neg || !IsConstOf(p, i1, 0))))
    {
      hide Strict, Before, AritiesOk, SameRuns, Carried, LayoutOk, PlacesOk, Consistent, IdsOk, AllFilled, IsReplaced;
      hide Usable, Operands, Reads, SubNegEdit, SubZeroEdit, IsApplied;
      OperandsIn(inst, Sub, i0, i1, b, k);
      r := SubNeg(inst, i0, i1, b, k);
      if r.Skipped? {
        r := SubZero(inst, i0, i1, b, k);
      }
    }

    // XorNot: a value and its complement, in this order.
    method XorNot(inst: nat, i0: nat, i1: nat, ghost j0: nat, ghost j1: nat, ghost b: nat, ghost k: nat)
      returns (r: Outcome)
      requires Reads(inst, Xor, j0, j1, b, k) && ((i0 == j0 && i1 == j1) || (i0 == j1 && i1 == j0))
      modifies graph
      ensures Kept(r, inst, true)
      ensures r.Skipped? <==> !Has(old(graph.Abs()), i0, Not, 0, i1)
      ensures !r.Skipped? ==> (r.Crashed? <==> !(0 < k < |old(graph.lists)[b]| - 1))
      ensures Became(r, ConstEdit(b, k, old(graph.nextId), TypeOf(old(graph.Abs()), inst), 0xFFFF_FFFF_FFFF_FFFF))
    {
      hide Strict, Before, AritiesOk, SameRuns, SameValue, IsValue, Fold, Carried, LayoutOk, PlacesOk;
      hide Consistent, IdsOk, AllFilled, IsReplaced;
      OperandAt(b, k, i0);
      if graph.attrs[i0].op == Not && graph.inputs[i0][0] == Some(i1) {
        XorNotRule(graph.Abs(), b, k, j0, j1, graph.attrs[inst].ty);
        r := Fresh(inst, Attr(Const, graph.attrs[inst].ty, 0xFFFF_FFFF_FFFF_FFFF, EQ), [], b, k);
      } else {
        r := Skipped;
      }
    }

    // XorZero: 0 ^ y is y.
    method XorZero(inst: nat, i0: nat, i1: nat, ghost b: nat, ghost k: nat) returns (r: Outcome)
      requires Reads(inst, Xor, i0, i1, b, k)
      modifies graph
      ensures Kept(r, inst, true) && !r.Crashed?
      ensures r.Skipped? <==> !IsConstOf(old(graph.Abs()), i0, 0)
      ensures Became(r, ValueEdit(b, k, i1))
    {
      hide Strict, Before, AritiesOk, SameRuns, SameValue, IsValue, Fold, Carried, LayoutOk, PlacesOk;
      hide Consistent, IdsOk, AllFilled, IsReplaced;
      OperandAt(b, k, i0);
      if graph.attrs[i0].op == Const && graph.attrs[i0].imm == 0 {
        XorZeroRule(graph.Abs(), b, k, i0, i1);
        r := Existing(inst, i1, b, k);
      } else {
        r := Skipped;
      }
    }

    // Visit<XOR>
    method VisitXor(inst: nat, ghost b: nat, ghost k: nat) returns (r: Outcome)
      requires Here(inst, b, k) && inst in graph.attrs && graph.attrs[inst].op == Xor
      modifies graph
      ensures Kept(r, inst, true)
      ensures r.Skipped? <==> !Matches(old(graph.Abs()), inst, Xor)
      ensures r.Crashed? <==> CrashesAt(old(graph.Abs()), b, k)
      ensures Became(r, Rewriting(old(graph.Abs()), b, k, inst, old(graph.nextId)))
    {
      hide Strict, Before, AritiesOk, SameRuns, Carried, LayoutOk, PlacesOk, Consistent, IdsOk, AllFilled, IsReplaced;
      hide Usable, Operands, XorMatches, XorKeeps, AshrLegal, Rewriting, XorEdit;
      hide IsApplied;
      ReadsOperands(inst, Xor, b, k);
      var i0, i1 := graph.inputs[inst][0].value, graph.inputs[inst][1].value;
      RewritingIs(graph.Abs(), b, k, inst, graph.nextId);
      r := XorPatterns(inst, i0, i1, b, k);
    }

    // The patterns of Visit<XOR> in the order of the source.
    method XorPatterns(inst: nat, i0: nat, i1: nat, ghost b: nat, ghost k: nat) returns (r: Outcome)
      requires Reads(inst, Xor, i0, i1, b, k)
      modifies graph
      ensures Kept(r, inst, true)
      ensures r.Skipped? <==> !XorMatches(old(graph.Abs()), i0, i1)
      ensures !r.Skipped? ==> (r.Crashed? <==>
                (!(0 < k < |old(graph.lists)[b]| - 1) && !XorKeeps(old(graph.Abs()), i0, i1)))
      ensures Became(r, XorEdit(old(graph.Abs()), b, k, inst, old(graph.nextId), i0, i1))
    {
      hide Strict, Before, AritiesOk, SameRuns, Carried, LayoutOk, PlacesOk, Consistent, IdsOk, AllFilled, IsReplaced;
      hide Usable, Operands, Reads;
      OperandsIn(inst, Xor, i0, i1, b, k);
      XorStages(graph.Abs(), i0, i1);
      XorEdits(graph.Abs(), b, k, inst, graph.nextId, i0, i1);
      hide XorEdit, FoldEdit, ConstEdit, IsApplied, TypeOf;
      hide XorMatches, XorKeeps;
      r := ConstFold(inst, Xor, i0, i1, b, k);
      if r.Skipped? {
        r := Cancel(inst, Xor, i0, i1, b, k);
      }
      if r.Skipped? {
        r := XorNots(inst, i0, i1, b, k);
      }
      if r.Skipped? {
        r := XorZero(inst, i0, i1, b, k);
      }
    }

    method XorNots(inst: nat, i0: nat, i1: nat, ghost b: nat, ghost k: nat) returns (r: Outcome)
      requires Reads(inst, Xor, i0, i1, b, k)
      modifies graph
      ensures Kept(r, inst, true)
      ensures r.Skipped? <==> !Has(old(graph.Abs()), i0, Not, 0, i1) && !Has(old(graph.Abs()), i1, Not, 0, i0)
      ensures !r.Skipped? ==> (r.Crashed? <==> !(0 < k < |old(graph.lists)[b]| - 1))
      ensures Became(r, ConstEdit(b, k, old(graph.nextId), TypeOf(old(graph.Abs()), inst), 0xFFFF_FFFF_FFFF_FFFF))
    {
      hide Strict, Before, AritiesOk, SameRuns, Carried, LayoutOk, PlacesOk, Consistent, IdsOk, AllFilled;
      hide IsReplaced, Usable, Operands;
      r := XorNot(inst, i0, i1, i0, i1, b, k);
      if r.Skipped? {
        r := XorNot(inst, i1, i0, i0, i1, b, k);
      }
    }

    // ConstFold of ASHR, which asserts that the shift amount fits the type.
    method AshrConstFold(inst: nat, i0: nat, i1: nat, ghost b: nat, ghost k: nat) returns (r: Outcome)
      requires Reads(inst, Ashr, i0, i1, b, k)
      modifies graph
      ensures Kept(r, inst, true)
      ensures r.Skipped? <==> !(IsConst(old(graph.Abs()), i0) && IsConst(old(graph.Abs()), i1))
      ensures !r.Skipped? ==> (r.Crashed? <==>
                !(0 < k < |old(graph.lists)[b]| - 1) || !FoldLegal(old(graph.Abs()), i0, i1))
      ensures Became(r, FoldEdit(old(graph.Abs()), b, k, inst, old(graph.nextId), Ashr, i0, i1))
    {
      hide Strict, Before, AritiesOk, SameRuns, SameValue, IsValue, Fold, Carried, LayoutOk, PlacesOk;
      hide Consistent, IdsOk, AllFilled, IsReplaced, ShiftFits;
      OperandAt(b, k, i0);
      OperandAt(b, k, i1);
      if graph.attrs[i0].op == Const && graph.attrs[i1].op == Const {
        if !ShiftFits(graph.attrs[i0].ty, graph.attrs[i1].imm) {
          return Crashed;
        }
        r := FoldConstants(inst, Ashr, i0, i1, b, k);
      } else {
        r := Skipped;
      }
    }

    // AshrZero: shifting by nothing.
    method AshrZero(inst: nat, i0: nat, i1: nat, ghost b: nat, ghost k: nat) returns (r: Outcome)
      requires Reads(inst, Ashr, i0, i1, b, k)
      modifies graph
      ensures Kept(r, inst, true) && !r.Crashed?
      ensures r.Skipped? <==> !IsConstOf(old(graph.Abs()), i1, 0)
      ensures Became(r, ValueEdit(b, k, i0))
    {
      hide Strict, Before, AritiesOk, SameRuns, SameValue, IsValue, Fold, Carried, LayoutOk, PlacesOk;
      hide Consistent, IdsOk, AllFilled, IsReplaced;
      OperandAt(b, k, i1);
      if graph.attrs[i1].op == Const && graph.attrs[i1].imm == 0 {
        AshrZeroRule(graph.Abs(), b, k, i0, i1);
        r := Existing(inst, i0, b, k);
      } else {
        r := Skipped;
      }
    }

    // Cast: shifting up and down by 32 is a cast to the narrower type (TypedMixin::GetDownCastType).
    method CastPair(inst: nat, i0: nat, i1: nat, ghost b: nat, ghost k: nat) returns (r: Outcome)
      requires Reads(inst, Ashr, i0, i1, b, k)
      modifies graph
      ensures Kept(r, inst, !UnsignedPair(old(graph.Abs()), inst))
      ensures r.Skipped? <==> !(IsConst(old(graph.Abs()), i1) && Has(old(graph.Abs()), i0, Shl, 1, i1))
      ensures !r.Skipped? ==> (r.Crashed? <==>
                !(0 < k < |old(graph.lists)[b]| - 1) || !CastLegal(old(graph.Abs()), inst, i1))
      ensures Became(r, CastEdit(old(graph.Abs()), b, k, inst, old(graph.nextId), i0))
    {
      hide Strict, Before, AritiesOk, SameRuns, SameValue, IsValue, Fold, Carried, LayoutOk, PlacesOk;
      hide Consistent, IdsOk, AllFilled, IsReplaced;
      OperandAt(b, k, i0);
      OperandAt(b, k, i1);
      InstAt(graph.g, graph.phis, graph.L(), graph.attrs, graph.inputs, graph.active, inst);
      if graph.attrs[i1].op != Const || graph.attrs[i0].op != Shl || graph.inputs[i0][1] != Some(i1) {
        return Skipped;
      }
      var ty, shift := graph.attrs[inst].ty, graph.attrs[i1].imm;
      var x := graph.inputs[i0][0].value;
      if shift == 32 && ty == INT64 {
        CastRule(graph.Abs(), b, k, i0, i1);
        r := Fresh(inst, Attr(Cast, INT32, 0, EQ), [x], b, k);
      } else if shift == 32 && ty == UINT64 {
        r := Fresh(inst, Attr(Cast, UINT32, 0, EQ), [x], b, k);
      } else {
        r := Crashed;
      }
    }

    // Visit<ASHR>
    method VisitAshr(inst: nat, ghost b: nat, ghost k: nat) returns (r: Outcome)
      requires Here(inst, b, k) && inst in graph.attrs && graph.attrs[inst].op == Ashr
      modifies graph
      ensures Kept(r, inst, !UnsignedPair(old(graph.Abs()), inst))
      ensures r.Skipped? <==> !Matches(old(graph.Abs()), inst, Ashr)
      ensures r.Crashed? <==> CrashesAt(old(graph.Abs()), b, k)
      ensures Became(r, Rewriting(old(graph.Abs()), b, k, inst, old(graph.nextId)))
    {
      hide Strict, Before, AritiesOk, SameRuns, Carried, LayoutOk, PlacesOk, Consistent, IdsOk, AllFilled, IsReplaced;
      hide Usable, Operands, Reads, AshrMatches, AshrKeeps, AshrLegal, UnsignedPair, Rewriting, AshrEdit;
      hide IsApplied;
      ReadsOperands(inst, Ashr, b, k);
      var i0, i1 := graph.inputs[inst][0].value, graph.inputs[inst][1].value;
      RewritingIs(graph.Abs(), b, k, inst, graph.nextId);
      r := AshrPatterns(inst, i0, i1, b, k);
    }

    // The patterns of Visit<ASHR> in the order of the source.
    method AshrPatterns(inst: nat, i0: nat, i1: nat, ghost b: nat, ghost k: nat) returns (r: Outcome)
      requires Reads(inst, Ashr, i0, i1, b, k)
      modifies graph
      ensures Kept(r, inst, !UnsignedPair(old(graph.Abs()), inst))
      ensures r.Skipped? <==> !AshrMatches(old(graph.Abs()), i0, i1)
      ensures !r.Skipped? ==> (r.Crashed? <==>
                (!(0 < k < |old(graph.lists)[b]| - 1) && !AshrKeeps(old(graph.Abs()), i0, i1)) ||
                                               !AshrLegal(old(graph.Abs()), inst))
      ensures Became(r, AshrEdit(old(graph.Abs()), b, k, inst, old(graph.nextId), i0, i1))
    {
      hide Strict, Before, AritiesOk, SameRuns, Carried, LayoutOk, PlacesOk, Consistent, IdsOk, AllFilled, IsReplaced;
      hide Usable, Operands, Reads;
      OperandsIn(inst, Ashr, i0, i1, b, k);
      AshrStages(graph.Abs(), inst);
      AshrEdits(graph.Abs(), b, k, inst, graph.nextId, i0, i1);
      hide AshrEdit, FoldEdit, ConstEdit, CastEdit, IsApplied, TypeOf;
      hide AshrMatches, AshrKeeps, AshrLegal, FoldLegal, CastLegal, UnsignedPair;
      r := AshrConstFold(inst, i0, i1, b, k);
      if r.Skipped? {
        r := AshrZeroCast(inst, i0, i1, b, k);
      }
    }

    method AshrZeroCast(inst: nat, i0: nat, i1: nat, ghost b: nat, ghost k: nat) returns (r: Outcome)
      requires Reads(inst, Ashr, i0, i1, b, k)
      modifies graph
      ensures Kept(r, inst, !UnsignedPair(old(graph.Abs()), inst))
      ensures var p := old(graph.Abs());
              && (r.Skipped? <==> !IsConstOf(p, i1, 0) && !(IsConst(p, i1) && Has(p, i0, Shl, 1, i1)))
              && Became(r, if IsConstOf(p, i1, 0) then ValueEdit(b, k, i0)
                           else CastEdit(p, b, k, inst, old(graph.nextId), i0))
              && (r.Crashed? <==> !r.Skipped? && !IsConstOf(p, i1, 0) &&
                                  (!(0 < k < |old(graph.lists)[b]| - 1) || !CastLegal(p, inst, i1)))
    {
      hide Strict, Before, AritiesOk, SameRuns, Carried, LayoutOk, PlacesOk, Consistent, IdsOk, AllFilled, IsReplaced;
      hide Usable, Operands, Reads, CastLegal, UnsignedPair, CastEdit, IsApplied;
      r := AshrZero(inst, i0, i1, b, k);
      if r.Skipped? {
        r := CastPair(inst, i0, i1, b, k);
      }
    }

    // TryApply
    method TryApply(inst: nat, ghost b: nat, ghost k: nat) returns (r: Outcome)
      requires Ready() && b < graph.g.Size() && b < |graph.lists| && k < |graph.lists[b]| && graph.lists[b][k] == inst
      modifies graph
      ensures Kept(r, inst, !UnsignedPair(old(graph.Abs()), inst))
      ensures r.Skipped? <==> !MatchesAt(old(graph.Abs()), inst)
      ensures r.Crashed? <==> CrashesAt(old(graph.Abs()), b, k)
      ensures r.Done? ==> RewritesTo(old(graph.Abs()), b, k, inst, graph.Abs())
    {
      hide Strict, Before, AritiesOk, SameRuns, Carried, LayoutOk, PlacesOk, Consistent, IdsOk, AllFilled, Matches;
      hide KeepsOperand, AshrLegal, UnsignedPair, Rewriting, IsApplied, RewritesTo;
      ghost var p, x := graph.Abs(), graph.nextId;
      NextIdFree(graph.g, graph.phis, graph.L(), graph.attrs, graph.inputs, graph.active, graph.nextId);
      InstAt(graph.g, graph.phis, graph.L(), graph.attrs, graph.inputs, graph.active, inst);
      var op := graph.attrs[inst].op;
      match op {
        case Xor =>
          PureHere(inst, b, k);
          r := VisitXor(inst, b, k);
        case Sub =>
          PureHere(inst, b, k);
          r := VisitSub(inst, b, k);
        case Ashr =>
          PureHere(inst, b, k);
          r := VisitAshr(inst, b, k);
        case _ =>
          OtherUnmatched(graph.Abs(), inst);
          r := Skipped;
      }
      if r.Done? {
        Rewritten(p, b, k, inst, x, graph.Abs());
      }
    }

    lemma PureHere(inst: nat, b: nat, k: nat)
      requires Ready() && b < graph.g.Size() && b < |graph.lists| && k < |graph.lists[b]| && graph.lists[b][k] == inst
      requires inst in graph.Abs().insts && graph.Abs().insts[inst].op in {Sub, Xor, Ashr}
      ensures Here(inst, b, k)
    {
    }

    // What has been kept since the pass began on p0.
    ghost predicate Since(p0: Program)
      requires Sized(p0)
      reads graph
    {
      Ready() && Carried(p0, graph.Abs()) && (NoPairLike(p0) ==> SameRuns(p0, graph.Abs()))
    }

    // The walk over one block. The links of a replaced instruction are null, so that the walk ends after the
    // first replacement: the first instruction that matches is replaced, and no other. It fails exactly when this
    // replacement does, and keeps the runs unless it replaces a pair of unsigned shifts.
    method VisitBlock(ghost p0: Program, b: nat) returns (ok: bool)
      requires Sized(p0) && Since(p0) && b < graph.g.Size()
      modifies graph
      ensures ok ==> Since(p0) && Walked(b) && Walks(old(graph.Abs()), b, graph.Abs())
      ensures ok <==> !Stuck(old(graph.Abs()), b)
    {
      hide Strict, AritiesOk, SameRuns, Carried, NoPairLike, LayoutOk, PlacesOk, Consistent, IdsOk, AllFilled;
      hide MatchesAt;
      hide CrashesAt, UnsignedPair, RewritesTo, PairFirst, Walks;
      BlockHead(graph.L(), graph.phis, graph.g.Size(), graph.active, b);
      SameRunsReflexive(graph.Abs());
      var inst := graph.firstInst[b];
      ghost var k: nat := 0;
      while inst != None
        invariant Since(p0)
        invariant inst.Some? ==> b < |graph.lists| && k < |graph.lists[b]| && graph.lists[b][k] == inst.value
        invariant inst.Some? ==> unchanged(graph) && forall j :: 0 <= j < k ==>
                  !MatchesAt(graph.Abs(), graph.lists[b][j])
        invariant inst == None ==>
                  Walked(b) &&
                  (!PairFirst(old(graph.Abs()), b) ==> SameRuns(old(graph.Abs()), graph.Abs()))
        invariant inst == None ==> !Stuck(old(graph.Abs()), b)
        decreases if inst.Some? then |graph.lists[b]| - k else 0
      {
        NodeAt(graph.L(), b, k);
        ghost var p := graph.Abs();
        SameRunsReflexive(p);
        var r := Step(p0, inst.value, b, k);
        if r.Crashed? {
          assert FirstMatch(p, b, k);
          return false;
        }
        assert r.Done? ==> FirstMatch(p, b, k);
        if r.Done? && !PairFirst(p, b) {
          NotPairFirst(p, b, k);
        }
        inst := graph.next[inst.value];
        k := k + 1;
      }
      ok := true;
      WalkedWalks(b);
    }

    twostate lemma WalkedWalks(b: nat)
      requires Walked(b) && !Stuck(old(graph.Abs()), b) && Ir.Sized(old(graph.Abs())) && Ir.Sized(graph.Abs())
      requires !PairFirst(old(graph.Abs()), b) ==> SameRuns(old(graph.Abs()), graph.Abs())
      ensures Walks(old(graph.Abs()), b, graph.Abs())
    {
      hide SameRuns, PairFirst, Stuck, Ir.Sized, RewritesTo, FirstMatch;
      ghost var p := old(graph.Abs());
      if !exists k: nat :: FirstMatch(p, b, k) {
        assert graph.Abs() == p;
      }
    }

    method Step(ghost p0: Program, inst: nat, ghost b: nat, ghost k: nat) returns (r: Outcome)
      requires Sized(p0) && Since(p0)
      requires b < graph.g.Size() && b < |graph.lists| && k < |graph.lists[b]| && graph.lists[b][k] == inst
      modifies graph
      ensures r.Skipped? ==> unchanged(graph)
      ensures r.Skipped? <==> !MatchesAt(old(graph.Abs()), inst)
      ensures r.Crashed? <==> CrashesAt(old(graph.Abs()), b, k)
      ensures r.Done? ==> Since(p0) && IsReplaced(graph.L(), inst)
      ensures r.Done? && !UnsignedPair(old(graph.Abs()), inst) ==> SameRuns(old(graph.Abs()), graph.Abs())
      ensures r.Done? ==> RewritesTo(old(graph.Abs()), b, k, inst, graph.Abs())
    {
      hide Strict, AritiesOk, SameRuns, Carried, NoPairLike, LayoutOk, PlacesOk, Consistent, IdsOk, AllFilled;
      hide MatchesAt;
      hide CrashesAt, UnsignedPair, RewritesTo;
      ghost var p := graph.Abs();
      r := TryApply(inst, b, k);
      if r.Done? {
        CarriedOn(p0, p, graph.Abs());
        if NoPairLike(p0) {
          CarriedPairs(p0, p);
          NoPairHere(p, inst);
          SameRunsTransitive(p0, p, graph.Abs());
        }
      }
    }

    // What the walk over b has done: nothing, if nothing matched, or replaced the first match.
    twostate predicate Walked(b: nat)
      reads graph
    {
      var p := old(graph.Abs());
      if exists k: nat :: FirstMatch(p, b, k) then
        exists k: nat :: FirstMatch(p, b, k) && IsReplaced(graph.L(), p.body[b][k]) &&
                         RewritesTo(p, b, k, p.body[b][k], graph.Abs())
      else unchanged(graph)
    }

    // The constructor of the source: the whole pass. `ok` tells that it came to its end. It walks over the blocks in
    // their order; `progs` are the programs between the walks. It ends early exactly at a block whose first match fails
    // in the program it finds there: never on a calm program, and always when that is the first block with a match.
    method Run() returns (ok: bool, ghost progs: seq<Program>)
      requires Ready() && forall j :: 0 <= j < |order| ==> order[j].Ref? && order[j].id < graph.g.Size()
      modifies graph
      ensures WalksAlong(progs, order) && progs[0] == old(graph.Abs())
      ensures ok ==> |progs| == |order| + 1 && progs[|order|] == graph.Abs() && Ready()
      ensures !ok ==> |progs| <= |order| && Stuck(progs[|progs| - 1], order[|progs| - 1].id)
      ensures Calm(old(graph.Abs())) ==> ok
      ensures (exists j: nat :: StopsAt(old(graph.Abs()), order, j)) ==> !ok
      ensures ok && (NoPairFirst(progs, order) || NoPairLike(old(graph.Abs()))) ==>
                SameRuns(old(graph.Abs()), graph.Abs())
      ensures ok && (forall j :: 0 <= j < |order| ==> NoMatch(old(graph.Abs()), order[j])) ==> unchanged(graph)
    {
      hide Strict, AritiesOk, SameRuns, Carried, NoPairLike, Calm, LayoutOk, PlacesOk, Consistent, IdsOk, AllFilled;
      hide Stuck, FirstMatch, NoMatch, Walks, WalksAlong, NoPairFirst;
      ghost var p0 := graph.Abs();
      Starting(p0);
      progs := [p0];
      StartsAlone(p0, order);
      for j := 0 to |order|
        invariant Since(p0) && WalksAlong(progs, order) && |progs| == j + 1 && progs[0] == p0 && progs[j] == graph.Abs()
        invariant (forall i :: 0 <= i < j ==> NoMatch(p0, order[i])) ==> unchanged(graph)
        invariant !exists i: nat :: i < j && StopsAt(p0, order, i)
      {
        ghost var p := graph.Abs();
        NothingFirst(p, order[j]);
        ok := VisitBlock(p0, order[j].id);
        if !ok {
          NotCalm(p0, p, order[j].id);
          return;
        }
        WalksOn(progs, order, graph.Abs());
        progs := progs + [graph.Abs()];
      }
      ok := true;
      if NoPairFirst(progs, order) {
        WalksKeepRuns(progs, order);
      }
    }
  }

  lemma Starting(p: Program)
    requires Sized(p)
    ensures Carried(p, p) && SameRuns(p, p)
  {
    SameRunsReflexive(p);
  }

  lemma CarriedPairs(p: Program, p': Program)
    requires Carried(p, p') && NoPairLike(p)
    ensures NoPairLike(p')
  {
  }

  lemma NothingFirst(p: Program, b: DominatorTree.BlockRef)
    ensures NoMatch(p, b) ==> !exists k: nat :: FirstMatch(p, b.id, k)
  {
  }

  lemma StartsAlone(p: Program, order: seq<DominatorTree.BlockRef>)
    ensures WalksAlong([p], order)
  {
  }

  lemma NotCalm(p0: Program, p: Program, b: nat)
    requires Carried(p0, p) && Stuck(p, b)
    ensures !Calm(p0)
  {
    var k: nat :| FirstMatch(p, b, k) && CrashesAt(p, b, k);
    hide Calm, FirstMatch, CrashesAt;
    if Calm(p) {
      CalmNoCrash(p, b, k);
    }
  }
}
