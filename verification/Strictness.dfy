// Small facts shared by the passes.
module Strictness {
  import opened Ir
  import opened Ssa
  import opened InstructionGraph

  lemma StrictSized(p: Program)
    requires Strict(p)
    ensures Ir.Sized(p)
  {
  }

  lemma SlotListed(slots: seq<Option<nat>>, i: nat)
    requires Some(i) in slots
    ensures i in OperandIds(slots)
  {
    var j :| 0 <= j < |slots| && slots[j] == Some(i);
    assert OperandIds(slots)[j] == i;
  }

  lemma NotOwnOperand(p: Program, b: nat, k: nat, slots: seq<Option<nat>>)
    requires Strict(p) && b < p.g.Size() && k < |p.body[b]| && p.insts[p.body[b][k]].inputs == OperandIds(slots)
    ensures Some(p.body[b][k]) !in slots
  {
    hide PhiReady, Before;
    var i := p.body[b][k];
    NotBeforeItself(p, b, k);
    assert InputsReady(p, b, k);
    if Some(i) in slots {
      SlotListed(slots, i);
    }
  }
}
