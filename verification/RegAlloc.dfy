// Linear scan register allocation with interval splitting.
module RegAlloc {
  import opened Ir
  import opened FiniteSets
  import opened LiveIntervals
  import opened RegAllocState
  import opened RegAllocPlaces
  import opened SpillChoice
  import opened Reloads
  import opened SpillLog
  import opened LinearOrdering

  // The visited instructions that have a result.
  ghost function Results(p: Program, done: set<nat>): set<nat> {
    set x | x in done && x in p.insts && HasDst(p.insts[x].op)
  }

  lemma OneMoreResult(p: Program, done: set<nat>, x: nat)
    requires x in p.insts
    ensures Results(p, done + {x}) == if HasDst(p.insts[x].op) then Results(p, done) + {x} else Results(p, done)
  {
  }

  lemma InvLater(regs: nat, iv: Intervals, active: seq<nat>, busy: seq<bool>, t: nat, t': nat)
    requires Inv(regs, iv, active, busy, t) && t <= t'
    ensures Inv(regs, iv, active, busy, t')
  {
    hide Holds;
    LaterFuture(iv, active, t, t');
  }

  lemma TakeFacts(regs: nat, iv: Intervals, active: seq<nat>, busy: seq<bool>, t: nat, i: nat, now: seq<LiveRange>,
                  point: nat, k: nat, r: nat)
    requires Inv(regs, iv, active, busy, t) && i in iv && i !in active && Resplit(iv[i].ranges, now, point, k)
    ensures k < |now| && SortedActive(Relocated(iv, i, now, k, Reg(r)), active)
  {
    hide NoConflict, Future, ActiveOk;
    RelocatedOthers(iv, i, now, point, k, Reg(r));
    SortedElsewhere(iv, Relocated(iv, i, now, k, Reg(r)), active, i);
  }

  // The active intervals never outnumber the registers.
  lemma FewerActive(regs: nat, iv: Intervals, active: seq<nat>, busy: seq<bool>, t: nat)
    requires Inv(regs, iv, active, busy, t)
    ensures |active| <= regs
  {
    hide NoConflict, Future, SortedActive;
    ActiveCount(regs, iv, active);
  }

  // Behind an active interval that ends later all do.
  lemma RestLater(iv: Intervals, active: seq<nat>, point: nat)
    requires SortedActive(iv, active) && (active == [] || End(iv, active[0]) > point)
    ensures forall i: nat :: i in active ==> End(iv, i) > point
  {
    forall i: nat | i in active ensures End(iv, i) > point {
      var k :| 0 <= k < |active| && active[k] == i;
      assert k > 0 ==> End(iv, active[0]) <= End(iv, active[k]);
    }
  }

  // What has a location has been visited.
  lemma DoneIfLocated(iv0: Intervals, iv: Intervals, done: set<nat>, i: nat)
    requires Blank(iv0) && Untouched(iv0, iv, done) && CurrentLocation(iv, i) != Nowhere
    ensures i in done
  {
  }

  lemma ActiveFacts(regs: nat, iv: Intervals, active: seq<nat>, busy: seq<bool>, t: nat, k: nat)
    requires Inv(regs, iv, active, busy, t) && k < |active|
    ensures active[k] in iv && CurrentLocation(iv, active[k]).Reg?
    ensures CurrentLocation(iv, active[k]).idx < regs == |busy|
    ensures busy[CurrentLocation(iv, active[k]).idx]
    ensures IntervalsOk(iv) && forall j :: 0 <= j < |active| ==> active[j] in iv
    ensures forall i, j :: 0 <= i < j < |active| ==> active[i] != active[j]
  {
    hide NoConflict, Future, SortedActive;
  }

  lemma ActiveKnown(regs: nat, iv0: Intervals, iv: Intervals, active: seq<nat>, busy: seq<bool>, t: nat,
                    lns: map<nat, nat>, res: set<nat>)
    requires Inv(regs, iv, active, busy, t) && Settlement(iv0, iv, lns, res)
    ensures forall i: nat :: i in active ==> i in iv0
  {
    hide NoConflict, Future, SortedActive, Settled, CoversAll, IntervalsOk;
  }

  lemma RemovedUsed(active: seq<nat>, k: nat, used: nat)
    requires k < |active| && used !in active
    ensures used !in Remove(active, k) && used != active[k]
  {
  }

  lemma FreshDst(regs: nat, iv0: Intervals, iv: Intervals, active: seq<nat>, busy: seq<bool>, done: set<nat>, x: nat)
    requires Blank(iv0) && Untouched(iv0, iv, done) && x !in done && x in iv && ActiveOk(regs, iv, active, busy)
    ensures x !in active && iv[x].ranges == iv0[x].ranges
  {
    NotActive(regs, iv, active, busy, x);
  }

  lemma SameRangesUntouched(iv0: Intervals, iv: Intervals, iv': Intervals, done: set<nat>)
    requires Untouched(iv0, iv, done) && SameRanges(iv, iv')
    ensures Untouched(iv0, iv', done)
  {
  }

  lemma UntouchedOther(iv0: Intervals, iv: Intervals, i: nat, now: seq<LiveRange>, k: nat, loc: Location,
                       done: set<nat>)
    requires Untouched(iv0, iv, done) && i in iv && k <= |now| && i in done
    ensures Untouched(iv0, Relocated(iv, i, now, k, loc), done)
  {
  }

  // ---------------------------------------------------------------- the order of the visits

  ghost predicate OrderOk(p: Program, order: seq<Elem>, lns: map<nat, nat>, life: nat) {
    && InRange(p, order) && Numbered(p, order, lns, life) && Unique(p)
    && (forall i, j :: 0 <= i < j < |order| ==> order[i].block != order[j].block)
    && (forall b, j, k :: 0 <= b < |p.phis| && 0 <= j < k < |p.phis[b]| ==> p.phis[b][j] != p.phis[b][k])
    && (forall b, x :: 0 <= b < p.g.Size() && x in p.phis[b] ==> p.insts[x].op == Phi)
    && (forall b, x :: 0 <= b < p.g.Size() && x in p.body[b] ==> p.insts[x].op != Phi)
  }

  // v has been visited when the k-th instruction of the j-th block is.
  ghost predicate InFront(p: Program, order: seq<Elem>, j: nat, k: nat, v: nat)
    requires InRange(p, order) && j < |order| && k < |p.body[order[j].block]|
  {
    || (exists i :: 0 <= i < j && InBlock(p, v, order[i].block))
    || v in p.phis[order[j].block] || v in p.body[order[j].block][..k]
  }

  // What FillInputs looks up: the operands of the k-th instruction of the j-th block are results visited before, and
  // their intervals reach the instruction.
  ghost predicate OperandsReach(p: Program, order: seq<Elem>, lns: map<nat, nat>, iv: Intervals, j: nat, k: nat)
    requires InRange(p, order) && j < |order| && k < |p.body[order[j].block]|
  {
    var x := p.body[order[j].block][k];
    forall v :: v in p.insts[x].inputs ==>
      v in p.insts && HasDst(p.insts[v].op) && v in iv && x in lns && End(iv, v) >= lns[x] && InFront(p, order, j, k, v)
  }

  // Every result has an interval that begins at it, and every operand's interval reaches its use.
  ghost predicate IntervalsFit(p: Program, order: seq<Elem>, lns: map<nat, nat>, iv: Intervals)
    requires InRange(p, order)
  {
    && IntervalsOk(iv)
    && (forall j, x :: 0 <= j < |order| && InBlock(p, x, order[j].block) && x in p.insts && HasDst(p.insts[x].op) ==>
          x in iv && x in lns && IntervalBegins(iv, x, lns[x]))
    && (forall j, k :: 0 <= j < |order| && 0 <= k < |p.body[order[j].block]| ==> OperandsReach(p, order, lns, iv, j, k))
  }

  ghost predicate IntervalBegins(iv: Intervals, x: nat, ln: nat) {
    x in iv && iv[x].ranges != [] && Startpoint(iv[x].ranges) == ln
  }

  // The results that live across the start of a block at ln, its phis included.
  ghost function Crossing(p: Program, lns: map<nat, nat>, iv: Intervals, ln: nat): set<nat> {
    set x | x in p.insts && HasDst(p.insts[x].op) && x in lns && lns[x] <= ln && End(iv, x) > ln
  }

  // The j-th block has one phi at most, or the registers take everything that lives across its start.
  ghost predicate PhisFit(p: Program, order: seq<Elem>, lns: map<nat, nat>, iv: Intervals, regs: nat, j: nat)
    requires InRange(p, order) && j < |order|
  {
    |p.phis[order[j].block]| <= 1 || |Crossing(p, lns, iv, order[j].ln)| <= regs
  }

  // No instruction of the j-th block or a later one has been visited.
  ghost predicate Ahead(p: Program, order: seq<Elem>, done: set<nat>, j: nat) {
    forall i, x :: j <= i < |order| && InBlock(p, x, order[i].block) ==> x !in done
  }

  // All instructions of the first j blocks have been visited.
  ghost predicate Behind(p: Program, order: seq<Elem>, done: set<nat>, j: nat) {
    forall i, x :: 0 <= i < j && i < |order| && InBlock(p, x, order[i].block) ==> x in done
  }

  // Every result has an interval that begins at its definition, in a register, and every range of it has a place.
  ghost predicate AllPlaced(p: Program, order: seq<Elem>, lns: map<nat, nat>, iv: Intervals) {
    forall i, x :: 0 <= i < |order| && InBlock(p, x, order[i].block) && x in p.insts && HasDst(p.insts[x].op) ==>
      x in iv && x in lns && Settled(iv[x].ranges, lns[x])
  }

  lemma PlacedNow(p: Program, order: seq<Elem>, lns: map<nat, nat>, iv0: Intervals, iv: Intervals, done: set<nat>)
    requires Behind(p, order, done, |order|) && Settlement(iv0, iv, lns, Results(p, done))
    ensures AllPlaced(p, order, lns, iv)
  {
    hide Settled, InBlock;
  }

  lemma BlockDone(p: Program, b: nat, done: set<nat>)
    requires b < |p.phis| && b < |p.body| && (forall x :: x in p.phis[b] ==> x in done)
    requires forall i :: 0 <= i < |p.body[b]| ==> p.body[b][i] in done
    ensures forall x: nat :: InBlock(p, x, b) ==> x in done
  {
  }

  lemma NoResults(p: Program)
    ensures Results(p, {}) == {}
  {
  }

  // The block at hand: its first k phis, or all phis and its first k instructions, have been visited.
  ghost predicate PhisAhead(p: Program, b: nat, done: set<nat>, k: nat)
    requires b < |p.phis| && b < |p.body|
  {
    && (forall i :: k <= i < |p.phis[b]| ==> p.phis[b][i] !in done)
    && (forall x :: x in p.body[b] ==> x !in done)
  }

  ghost predicate BodyAhead(p: Program, b: nat, done: set<nat>, k: nat)
    requires b < |p.body|
  {
    forall i :: k <= i < |p.body[b]| ==> p.body[b][i] !in done
  }

  lemma BlockAhead(p: Program, order: seq<Elem>, lns: map<nat, nat>, life: nat, done: set<nat>, j: nat)
    requires OrderOk(p, order, lns, life) && Ahead(p, order, done, j) && j < |order|
    ensures order[j].block < p.g.Size() && order[j].block < |p.phis| && order[j].block < |p.body|
    ensures PhisAhead(p, order[j].block, done, 0) && Ahead(p, order, done, j + 1)
    ensures order[j].ln % 2 == 0
  {
    hide Start;
    StartEven(p, order, j);
    var b := order[j].block;
    forall i | 0 <= i < |p.phis[b]| ensures p.phis[b][i] !in done {
      assert InBlock(p, p.phis[b][i], b);
    }
    forall x | x in p.body[b] ensures x !in done {
      assert InBlock(p, x, b);
    }
  }

  lemma DifferentBlocks(p: Program, x: nat, b: nat, y: nat, c: nat)
    requires Unique(p) && InBlock(p, x, b) && InBlock(p, y, c) && b != c
    ensures x != y
  {
  }

  // Visiting an instruction of the j-th block.
  lemma VisitAhead(p: Program, order: seq<Elem>, lns: map<nat, nat>, life: nat, done: set<nat>, j: nat, x: nat)
    requires OrderOk(p, order, lns, life) && Ahead(p, order, done, j + 1) && j < |order|
    requires InBlock(p, x, order[j].block)
    ensures Ahead(p, order, done + {x}, j + 1)
  {
    forall i, y | j + 1 <= i < |order| && InBlock(p, y, order[i].block) ensures y !in done + {x} {
      DifferentBlocks(p, y, order[i].block, x, order[j].block);
    }
  }

  lemma PhiHere(p: Program, order: seq<Elem>, lns: map<nat, nat>, life: nat, done: set<nat>, j: nat, k: nat)
    requires OrderOk(p, order, lns, life) && j < |order| && order[j].block < |p.phis| && order[j].block < |p.body|
    requires PhisAhead(p, order[j].block, done, k) && k < |p.phis[order[j].block]|
    ensures var x := p.phis[order[j].block][k];
            && x in p.insts && x in lns && lns[x] == order[j].ln && InBlock(p, x, order[j].block) && x !in done
            && PhisAhead(p, order[j].block, done + {x}, k + 1)
  {
    hide Start;
    assert BlockNumbered(p, order[j].block, order[j].ln, lns);
    assert p.phis[order[j].block][k] in p.phis[order[j].block];
  }

  lemma InstHere(p: Program, order: seq<Elem>, lns: map<nat, nat>, life: nat, done: set<nat>, j: nat, k: nat)
    requires OrderOk(p, order, lns, life) && j < |order| && order[j].block < |p.body|
    requires BodyAhead(p, order[j].block, done, k) && k < |p.body[order[j].block]|
    ensures var x := p.body[order[j].block][k];
            && x in p.insts && x in lns && lns[x] == order[j].ln + 2 + 2 * k && InBlock(p, x, order[j].block)
            && x !in done
            && BodyAhead(p, order[j].block, done + {x}, k + 1)
  {
    hide Start;
    assert BlockNumbered(p, order[j].block, order[j].ln, lns);
    assert p.body[order[j].block][k] in p.body[order[j].block];
  }

  lemma NothingDone(p: Program, order: seq<Elem>, iv: Intervals)
    ensures Untouched(iv, iv, {}) && Ahead(p, order, {}, 0)
  {
  }

  lemma NoConflictNow(regs: nat, iv: Intervals, active: seq<nat>, busy: seq<bool>, t: nat)
    requires Inv(regs, iv, active, busy, t)
    ensures NoConflict(iv)
  {
  }

  lemma PhisDone(p: Program, b: nat, done: set<nat>)
    requires b < |p.phis| && b < |p.body| && PhisAhead(p, b, done, |p.phis[b]|)
    ensures BodyAhead(p, b, done, 0)
  {
  }

  lemma ResultBegins(p: Program, order: seq<Elem>, lns: map<nat, nat>, iv0: Intervals, j: nat, x: nat)
    requires InRange(p, order) && IntervalsFit(p, order, lns, iv0) && j < |order| && InBlock(p, x, order[j].block)
    requires x in p.insts && HasDst(p.insts[x].op)
    ensures x in iv0 && x in lns && IntervalBegins(iv0, x, lns[x]) && WellFormed(iv0[x].ranges)
  {
  }

  lemma NextBlock(p: Program, order: seq<Elem>, lns: map<nat, nat>, life: nat, j: nat)
    requires OrderOk(p, order, lns, life) && j + 1 < |order| && order[j].block < |p.body|
    ensures order[j + 1].ln == order[j].ln + 2 + 2 * |p.body[order[j].block]|
  {
  }

  // The operands of the instruction at hand have been visited.
  ghost predicate OperandsDone(p: Program, iv0: Intervals, res: set<nat>, x: nat, ln: nat)
    requires x in p.insts
  {
    forall v :: v in p.insts[x].inputs ==> v in res && v in iv0 && WellFormed(iv0[v].ranges) && End(iv0, v) >= ln
  }

  lemma OperandsVisited(p: Program, order: seq<Elem>, lns: map<nat, nat>, life: nat, iv0: Intervals, done: set<nat>,
                        j: nat, k: nat)
    requires OrderOk(p, order, lns, life) && IntervalsFit(p, order, lns, iv0) && j < |order|
    requires k < |p.body[order[j].block]|
    requires Behind(p, order, done, j) && (forall x :: x in p.phis[order[j].block] ==> x in done)
    requires forall i :: 0 <= i < k ==> p.body[order[j].block][i] in done
    requires p.body[order[j].block][k] in lns
    ensures var x := p.body[order[j].block][k];
            x in p.insts && OperandsDone(p, iv0, Results(p, done), x, lns[x])
  {
    hide Numbered, Unique;
    var x := p.body[order[j].block][k];
    assert OperandsReach(p, order, lns, iv0, j, k);
    forall v | v in p.insts[x].inputs
      ensures v in Results(p, done) && v in iv0 && WellFormed(iv0[v].ranges) && End(iv0, v) >= lns[x]
    {
      assert InFront(p, order, j, k, v);
    }
  }

  lemma OperandDone(p: Program, iv0: Intervals, res: set<nat>, x: nat, ln: nat, v: nat)
    requires x in p.insts && OperandsDone(p, iv0, res, x, ln) && v in p.insts[x].inputs
    ensures v in res && v in iv0 && WellFormed(iv0[v].ranges) && End(iv0, v) >= ln
  {
  }

  lemma ExpiredNow(iv: Intervals, active: seq<nat>, active': seq<nat>, t: nat, point: nat)
    requires Expired(iv, active, t) && t <= point
    requires forall i: nat :: i in active' <==> i in active && End(iv, i) > point
    ensures Expired(iv, active', point) && Reaching(iv, active', point)
  {
  }

  lemma EarlierMore(lns: map<nat, nat>, res: set<nat>, n: nat, n': nat, x: nat)
    requires Earlier(lns, res, n) && x in lns && lns[x] < n' && n <= n'
    ensures Earlier(lns, res + {x}, n') && Earlier(lns, res, n')
  {
  }

  // With all registers taken behind ln, more values live on there than there are registers.
  lemma TooMany(p: Program, lns: map<nat, nat>, iv0: Intervals, iv: Intervals, active: seq<nat>, res: set<nat>, x: nat,
                ln: nat, regs: nat)
    requires |active| == regs && (forall i, j :: 0 <= i < j < |active| ==> active[i] != active[j]) && x !in active
    requires forall k :: 0 <= k < |active| ==> active[k] in res && End(iv, active[k]) > ln
    requires Stretch(iv0, iv, ln) && Earlier(lns, res, ln + 1) && End(iv0, x) > ln && x in lns && lns[x] <= ln
    requires (forall i :: i in res ==> i in p.insts && HasDst(p.insts[i].op)) && x in p.insts && HasDst(p.insts[x].op)
    ensures |Crossing(p, lns, iv0, ln)| > regs
  {
    var s := active + [x];
    MembersSize(s, Crossing(p, lns, iv0, ln));
  }

  lemma ResultsAre(p: Program, done: set<nat>)
    ensures forall i :: i in Results(p, done) ==> i in p.insts && HasDst(p.insts[i].op) && i in done
  {
  }

  // An active interval is a visited result.
  lemma ActiveVisited(regs: nat, iv0: Intervals, iv: Intervals, active: seq<nat>, busy: seq<bool>, t: nat,
                      done: set<nat>)
    requires Inv(regs, iv, active, busy, t) && Blank(iv0) && Untouched(iv0, iv, done)
    ensures forall k :: 0 <= k < |active| ==> active[k] in done && active[k] in iv
    ensures forall i, j :: 0 <= i < j < |active| ==> active[i] != active[j]
  {
    hide Blank, Untouched, Inv, CurrentLocation;
    forall k | 0 <= k < |active| ensures active[k] in done && active[k] in iv {
      ActiveFacts(regs, iv, active, busy, t, k);
      DoneIfLocated(iv0, iv, done, active[k]);
    }
    if active != [] {
      ActiveFacts(regs, iv, active, busy, t, 0);
    }
  }

  // The interval to be spilled is that of a visited result, and reaches the spill point.
  lemma VictimFacts(regs: nat, iv0: Intervals, iv: Intervals, active: seq<nat>, busy: seq<bool>, point: nat,
                    done: set<nat>, res: set<nat>, lns: map<nat, nat>, used: nat, k: nat)
    requires Inv(regs, iv, active, busy, point) && Blank(iv0) && Untouched(iv0, iv, done) && done <= res + {used}
    requires Settlement(iv0, iv, lns, res) && used !in active && k < |active| && Reaching(iv, active, point)
    requires Earlier(lns, res, point + 1) && used in iv
    ensures active[k] in res && active[k] in iv && active[k] in lns && lns[active[k]] <= point <= End(iv, active[k])
    ensures WellFormed(iv[active[k]].ranges) && Startpoint(iv[active[k]].ranges) == lns[active[k]]
    ensures lns[active[k]] % 2 == 0 && WellFormed(iv[used].ranges) && iv[used].ranges != []
    ensures iv[active[k]].ranges != []
  {
    hide Settlement, Blank, Untouched, NoConflict, Future, ActiveOk, SortedActive;
    ActiveVisited(regs, iv0, iv, active, busy, point, done);
    SettledFacts(iv0, iv, lns, res, active[k]);
  }

  lemma SameRangesSwapped(iv: Intervals, iv1: Intervals, active: seq<nat>, iv': Intervals, active': seq<nat>, u: nat,
                          slot: nat, i: nat, point: nat)
    requires SameRanges(iv, iv1) && Swapped(iv1, active, iv', active', u, slot, i, point)
    ensures Swapped(iv, active, iv', active', u, slot, i, point)
  {
    SameRangesNow(iv, iv1);
    hide CurrentLocation, End;
  }

  lemma EarlierLater(lns: map<nat, nat>, res: set<nat>, n: nat, n': nat)
    requires Earlier(lns, res, n) && n <= n'
    ensures Earlier(lns, res, n')
  {
  }

  lemma StretchMore(iv0: Intervals, iv: Intervals, lim: nat, lim': nat)
    requires Stretch(iv0, iv, lim) && lim <= lim'
    ensures Stretch(iv0, iv, lim')
  {
    hide End;
  }

  // Without a result that begins behind u, all begin in front of n.
  lemma LastEarlier(lns: map<nat, nat>, res: set<nat>, n: nat, u: nat)
    requires u in res && u in lns && lns[u] >= n
    ensures !Earlier(lns, res, n)
  {
  }

  lemma MoreVisited(iv0: Intervals, iv: Intervals, res: set<nat>, x: nat)
    requires Untouched(iv0, iv, res)
    ensures Untouched(iv0, iv, res + {x})
  {
  }

  lemma EndBehind(iv: Intervals, x: nat)
    requires x in iv && WellFormed(iv[x].ranges)
    ensures Startpoint(iv[x].ranges) < End(iv, x)
  {
    var now := iv[x].ranges;
    assert |now| > 1 ==> now[0].e <= now[|now| - 1].b;
  }

  // A result has not ended at its own number.
  lemma StillActive(iv0: Intervals, iv: Intervals, lns: map<nat, nat>, res: set<nat>, active: seq<nat>,
                    active': seq<nat>, ln: nat)
    requires Settlement(iv0, iv, lns, res)
    requires forall i: nat :: i in active' <==> i in active && End(iv, i) > ln
    ensures forall i :: i in res && i in active && i in lns && lns[i] == ln ==> i in active'
  {
    hide Settlement, End, CurrentLocation;
    forall i | i in res && i in active && i in lns && lns[i] == ln ensures i in active' {
      SettledFacts(iv0, iv, lns, res, i);
    }
  }

  // What reaches the point, has a place and is no register is in a slot.
  lemma Inactive(iv: Intervals, active: seq<nat>, i: nat, ln: nat)
    requires Expired(iv, active, ln) && End(iv, i) >= ln && !HasRegister(iv, active, i, ln)
    ensures !CurrentLocation(iv, i).Reg?
  {
  }

  lemma ReloadedMore(regs: nat, trace: seq<Snap>, inputs: seq<nat>, j: nat, s: Snap, ln: nat)
    requires j < |inputs| && Reloaded(regs, trace, inputs[..j], ln) && Reload(regs, trace[j], s, inputs[j], ln)
    ensures Reloaded(regs, trace + [s], inputs[..j + 1], ln)
  {
    hide Reload;
    var t, xs := trace + [s], inputs[..j + 1];
    forall i: nat | i < |xs| ensures Reload(regs, t[i], t[i + 1], xs[i], ln) {
      if i < j {
        assert Reload(regs, trace[i], trace[i + 1], inputs[..j][i], ln);
      }
    }
  }

  lemma AllLostIff(regs: nat, trace: seq<Snap>, inputs: seq<nat>, ln: nat)
    requires Reloaded(regs, trace, inputs, ln)
    ensures forall v :: v in inputs ==>
              (InReg(trace[|inputs|], v) <==> !exists j: nat :: LostAt(regs, trace, inputs, ln, v, j))
  {
    hide Reload, InReg, LostAt;
    forall v | v in inputs
      ensures InReg(trace[|inputs|], v) <==> !exists j: nat :: LostAt(regs, trace, inputs, ln, v, j)
    {
      LostIff(regs, trace, inputs, ln, v);
    }
  }

  lemma ListedNow(regs: nat, s: Snap, busy: seq<bool>, t: nat)
    requires Inv(regs, s.iv, s.active, busy, t)
    ensures Listed(s)
  {
    hide NoConflict, Future;
  }

  // Where no slot has been taken, what is served is in a register.
  lemma ServedAll(iv: Intervals, active: seq<nat>, inputs: seq<nat>, ln: nat, s: nat)
    requires forall m :: 0 <= m < |inputs| ==> Served(iv, active, inputs[m], ln, s, s)
    ensures forall v :: v in inputs ==> HasRegister(iv, active, v, ln)
  {
  }

  // Whether the one interval to be spilled begins at the same number.
  lemma BlockedIff(regs: nat, lns: map<nat, nat>, s: Snap, u: nat, ln: nat)
    requires |s.active| >= regs && u in lns && exists k: nat :: Victim(s, k, ln) && s.active[k] == u
    ensures Blocked(regs, lns, s, ln) <==> lns[u] >= ln
  {
    hide Victim;
    forall j: nat, k: nat | Victim(s, j, ln) && Victim(s, k, ln) ensures j == k {
      OneVictim(s, j, k, ln);
    }
    VictimsListed(s, ln);
  }

  lemma VictimsListed(s: Snap, ln: nat)
    ensures forall k: nat :: Victim(s, k, ln) ==> k < |s.active|
  {
    hide Chosen;
  }

  lemma RegisterServes(iv: Intervals, active: seq<nat>, v: nat, ln: nat, s0: nat, s1: nat)
    requires HasRegister(iv, active, v, ln)
    ensures Served(iv, active, v, ln, s0, s1)
  {
  }

  lemma PhisNumbered(p: Program, order: seq<Elem>, lns: map<nat, nat>, life: nat, j: nat)
    requires OrderOk(p, order, lns, life) && j < |order| && order[j].block < |p.phis|
    ensures forall i :: 0 <= i < |p.phis[order[j].block]| ==>
              p.phis[order[j].block][i] in lns && lns[p.phis[order[j].block][i]] == order[j].ln
  {
    hide Start;
    assert BlockNumbered(p, order[j].block, order[j].ln, lns);
  }

  lemma PhisDistinct(p: Program, order: seq<Elem>, lns: map<nat, nat>, life: nat, j: nat)
    requires OrderOk(p, order, lns, life) && j < |order| && order[j].block < |p.phis|
    ensures forall i, k :: 0 <= i < k < |p.phis[order[j].block]| ==>
              p.phis[order[j].block][i] != p.phis[order[j].block][k]
  {
  }

  lemma PhiBegins(p: Program, order: seq<Elem>, lns: map<nat, nat>, life: nat, iv0: Intervals, j: nat, x: nat)
    requires OrderOk(p, order, lns, life) && IntervalsFit(p, order, lns, iv0) && j < |order|
    requires order[j].block < |p.phis|
    requires x in p.phis[order[j].block] && x in lns
    ensures x in p.insts && p.insts[x].op == Phi && x in iv0 && IntervalBegins(iv0, x, lns[x])
    ensures WellFormed(iv0[x].ranges)
  {
    hide Numbered, Unique;
    assert order[j].block < p.g.Size();
    ResultBegins(p, order, lns, iv0, j, x);
  }

  lemma BodyBegins(p: Program, order: seq<Elem>, lns: map<nat, nat>, life: nat, iv0: Intervals, j: nat, x: nat)
    requires OrderOk(p, order, lns, life) && IntervalsFit(p, order, lns, iv0) && j < |order|
    requires order[j].block < |p.body|
    requires x in p.body[order[j].block] && x in lns && x in p.insts
    ensures p.insts[x].op != Phi
    ensures HasDst(p.insts[x].op) ==> x in iv0 && IntervalBegins(iv0, x, lns[x]) && WellFormed(iv0[x].ranges)
  {
    hide Numbered, Unique;
    assert order[j].block < p.g.Size();
    if HasDst(p.insts[x].op) {
      ResultBegins(p, order, lns, iv0, j, x);
    }
  }

  function NextLn(p: Program, order: seq<Elem>, j: nat): nat
    requires j < |order| && order[j].block < |p.body|
  {
    order[j].ln + 2 + 2 * |p.body[order[j].block]|
  }

  lemma BehindMore(p: Program, order: seq<Elem>, done: set<nat>, done': set<nat>, j: nat)
    requires Behind(p, order, done, j) && done <= done'
    ensures Behind(p, order, done', j)
  {
    hide InBlock;
  }

  lemma BehindNext(p: Program, order: seq<Elem>, done: set<nat>, done': set<nat>, j: nat)
    requires Behind(p, order, done, j) && done <= done' && j < |order|
    requires forall x :: InBlock(p, x, order[j].block) ==> x in done'
    ensures Behind(p, order, done', j + 1)
  {
    hide InBlock;
  }

  lemma {:induction false} MembersCount(phis: seq<nat>, active: seq<nat>)
    requires forall i, k :: 0 <= i < k < |phis| ==> phis[i] != phis[k]
    requires forall i :: 0 <= i < |phis| ==> phis[i] in active
    ensures |phis| <= |active|
  {
    MembersSize(phis, Members(active));
    MembersBound(active);
  }

  lemma {:induction false} MembersBound(active: seq<nat>)
    ensures |Members(active)| <= |active|
  {
    if active != [] {
      var last, rest := active[|active| - 1], active[..|active| - 1];
      MembersBound(rest);
      assert active == rest + [last];
      assert Members(active) == Members(rest) + {last};
    }
  }

  // The first n blocks have no more phis than there are registers.
  ghost predicate PhisFew(p: Program, order: seq<Elem>, regs: nat, n: nat) {
    forall j :: 0 <= j < n && j < |order| && order[j].block < |p.phis| ==> |p.phis[order[j].block]| <= regs
  }

  // Nothing has been visited.
  lemma Beginning(p: Program, order: seq<Elem>, lns: map<nat, nat>, life: nat, regs: nat, iv: Intervals)
    requires OrderOk(p, order, lns, life) && IntervalsFit(p, order, lns, iv) && Blank(iv)
    ensures IntervalsOk(iv) && Inv(regs, iv, [], seq(regs, _ => false), 0) && Results(p, {}) == {}
    ensures Untouched(iv, iv, {}) && Ahead(p, order, {}, 0) && Behind(p, order, {}, 0)
    ensures Settlement(iv, iv, lns, {}) && SlotsOwned(iv, 0) && Expired(iv, [], 0) && Reaching(iv, [], 0)
    ensures forall lim: nat :: Stretch(iv, iv, lim) && Earlier(lns, {}, lim)
  {
    NothingHeld(regs, iv);
    NothingDone(p, order, iv);
    NothingSettled(iv, lns);
    NoResults(p);
  }

  class RegAlloc {
    const p: Program
    const order: seq<Elem>
    const lns: map<nat, nat>
    const regs: nat                // REGS_COUNT
    var intervals: Intervals       // insts_live_intervals_, with the entries of locations_
    var active: seq<nat>           // active_
    var busy: seq<bool>            // busy_regs_
    var slotsUsed: nat             // slots_used_
    ghost var spills: seq<Spill>   // what has been spilled, slot by slot

    // locations_ is empty at the start.
    constructor (p: Program, order: seq<Elem>, lns: map<nat, nat>, regs: nat, intervals: Intervals)
      ensures this.p == p && this.order == order && this.lns == lns && this.regs == regs
      ensures this.intervals == Unplaced(intervals) && active == [] && busy == seq(regs, _ => false) && slotsUsed == 0
      ensures spills == []
    {
      this.p, this.order, this.lns, this.regs := p, order, lns, regs;
      this.intervals := Unplaced(intervals);
      active, busy, slotsUsed, spills := [], seq(regs, _ => false), 0, [];
    }

    ghost predicate At(t: nat)
      reads this
    {
      t % 2 == 0 && Inv(regs, intervals, active, busy, t)
    }

    ghost function Now(): Snap
      reads this
    {
      Snap(intervals, active, slotsUsed)
    }

    // The intervals of `res` are settled, nothing live has been lost, and no two intervals share a slot.
    ghost predicate Good(iv0: Intervals, res: set<nat>)
      reads this
    {
      Settlement(iv0, intervals, lns, res) && SlotsOwned(intervals, slotsUsed)
    }

    // RegAlloc::ExpireOldIntervals and Recycle
    method ExpireOldIntervals(point: nat, ghost t: nat)
      requires At(t) && t <= point && point % 2 == 0
      modifies this`active, this`busy
      ensures At(point)
      ensures forall i: nat :: i in active <==> i in old(active) && End(intervals, i) > point
    {
      hide IntervalsOk, NoConflict, Future, ActiveOk;
      InvLater(regs, intervals, active, busy, t, point);
      while active != [] && End(intervals, active[0]) <= point
        invariant At(point)
        invariant forall i: nat :: i in active ==> i in old(active)
        invariant forall i: nat :: i in old(active) && End(intervals, i) > point ==> i in active
        decreases |active|
      {
        ExpireFirst(regs, intervals, active, busy, point);
        var loc := CurrentLocation(intervals, active[0]);
        assert busy[loc.idx];
        busy := busy[loc.idx := false];
        assert active == [active[0]] + active[1..];
        active := active[1..];
      }
      RestLater(intervals, active, point);
    }

    // RegAlloc::AllocateFreeReg, whose end is never reached.
    method AllocateFreeReg() returns (r: nat)
      requires ActiveOk(regs, intervals, active, busy) && |active| < regs
      modifies this`busy
      ensures r < regs == |old(busy)| && !old(busy)[r] && busy == old(busy)[r := true]
      ensures forall q :: 0 <= q < r ==> old(busy)[q]
    {
      ghost var free := FreeRegister(regs, intervals, active, busy);
      r := 0;
      while busy[r]
        invariant r <= free && forall q :: 0 <= q < r ==> busy[q]
        decreases free - r
      {
        r := r + 1;
      }
      busy := busy[r := true];
    }

    // RegAlloc::InsertActive
    method InsertActive(i: nat) returns (ghost m: nat)
      requires SortedActive(intervals, active)
      modifies this`active
      ensures m <= |old(active)| && active == Insert(old(active), m, i)
      ensures forall k :: 0 <= k < m ==> End(intervals, old(active)[k]) <= End(intervals, i)
      ensures forall k :: m <= k < |old(active)| ==> End(intervals, i) <= End(intervals, old(active)[k])
    {
      var n: nat := |active|;
      while n > 0 && !(End(intervals, i) >= End(intervals, active[n - 1]))
        invariant n <= |active|
        invariant forall k :: n <= k < |active| ==> End(intervals, i) <= End(intervals, active[k])
      {
        n := n - 1;
      }
      m := n;
      active := active[..n] + [i] + active[n..];
    }

    // RegAlloc::GetUnusedIntervalToSpill; expired use points go.
    method GetUnusedIntervalToSpill(point: nat) returns (k: nat)
      requires active != [] && forall j :: 0 <= j < |active| ==> active[j] in intervals
      requires forall i, j :: 0 <= i < j < |active| ==> active[i] != active[j]
      modifies this`intervals
      ensures k < |active| && SameRanges(old(intervals), intervals)
      ensures Chosen(NextUses(old(intervals), active, point), k)
      ensures UsesDropped(old(intervals), intervals, active, point)
    {
      hide Chosen, Searched, UsesDropped, SameRanges, NextUse, DropExpired;
      ghost var iv := intervals;
      ghost var next := NextUses(iv, active, point);
      k := 0;
      var furthest := 0;
      NothingDropped(iv, active, point);
      SearchNone(next);
      for j := 0 to |active|
        invariant SameRanges(iv, intervals) && Searched(next, j, k, furthest)
        invariant UsesDropped(iv, intervals, active[..j], point)
        invariant intervals.Keys == iv.Keys
      {
        var u := active[j];
        DropStep(iv, intervals, active, j, point);
        var uses := DropUses(intervals[u].usePoints, point);
        intervals := intervals[u := intervals[u].(usePoints := uses)];
        SearchOne(next, j, k, furthest);
        if uses == [] {
          k := j;
        } else if uses[0] >= furthest {
          k := j;
          furthest := uses[0];
        }
      }
      assert active[..|active|] == active;
      SearchDone(next, k, furthest);
      ChosenBound(next, k);
    }

    // Set<Location::REG> from the k-th range on, and InsertActive, once register r is taken.
    method Take(i: nat, now: seq<LiveRange>, k: nat, r: nat, ghost point: nat, ghost busy0: seq<bool>, ghost t: nat,
                ghost iv0: Intervals, ghost done: set<nat>, ghost res: set<nat>)
      requires t % 2 == 0 && Inv(regs, intervals, active, busy0, t) && !HeldBy(intervals, active, r)
      requires i in intervals && i !in active && t <= point + 1 && r < regs == |busy0| && busy == busy0[r := true]
      requires IsSplit(intervals[i].ranges, now, point, k) && WellFormed(now) && WellFormed(intervals[i].ranges)
      requires Startpoint(now) == Startpoint(intervals[i].ranges) <= point
      requires Untouched(iv0, intervals, done) && i in done && Good(iv0, res)
      modifies this`intervals, this`active
      ensures At(t) && Untouched(iv0, intervals, done) && Good(iv0, res)
      ensures CurrentLocation(intervals, i) == Reg(r) && intervals.Keys == old(intervals).Keys
      ensures Endpoint(now) == EndAfter(old(intervals), i, point) ==>
                Took(old(intervals), old(active), intervals, active, i, point)
      ensures |active| == |old(active)| + 1 && SameUses(old(intervals), intervals, point)
      ensures SlotsKept(old(intervals), intervals)
      ensures i in intervals && (old(Startpoint(intervals[i].ranges)) == point ==> Settled(intervals[i].ranges, point))
    {
      hide IntervalsOk, NoConflict, Future, ActiveOk, SortedActive, Resplit, HeldBy, Settlement, SlotsOwned;
      hide IsSplit, Sorted;
      hide Settled;
      SplitResplit(intervals[i].ranges, now, point, k);
      TakeFacts(regs, intervals, active, busy0, t, i, now, point, k, r);
      Replaced(iv0, intervals, lns, res, i, now, point, k, Reg(r));
      RegisterSlots(intervals, i, now, point, k, r, slotsUsed);
      UntouchedOther(iv0, intervals, i, now, k, Reg(r), done);
      RelocatedFacts(intervals, i, now, point, k, Reg(r));
      if Startpoint(intervals[i].ranges) == point {
        WholeSettled(intervals[i].ranges, now, k, r);
      }
      intervals := intervals[i := LiveInterval(SetFrom(now, k, Reg(r)), intervals[i].usePoints)];
      KeptUses(old(intervals), intervals, point);
      ghost var m := InsertActive(i);
      Activate(regs, old(intervals), old(active), busy0, t, i, now, point, k, r, m);
      InsertMembers(old(active), m, i);
    }

    // RegAlloc::SpillUnusedAndActivate. It spills the chosen interval u, and fails exactly when u begins at the spill
    // point, which SplitAt asserts it does not.
    method SpillUnusedAndActivate(used: nat, point: nat, ghost iv0: Intervals, ghost done: set<nat>,
                                  ghost res: set<nat>) returns (ok: bool, ghost u: nat)
      requires At(point) && active != [] && used in intervals && used !in active
      requires Blank(iv0) && Untouched(iv0, intervals, done) && used in done && done <= res + {used} && Good(iv0, res)
      requires Earlier(lns, res, point + 1) && WellFormed(intervals[used].ranges)
      requires Startpoint(intervals[used].ranges) <= point
      requires Reaching(intervals, active, point)
      modifies this`intervals, this`active, this`slotsUsed
      ensures u in res && u in lns && u in old(active) && (ok <==> lns[u] < point)
      ensures exists k: nat :: k < |old(active)| && Chosen(NextUses(old(intervals), old(active), point), k)
                && old(active)[k] == u
      ensures ok ==> At(point) && Untouched(iv0, intervals, done) && Good(iv0, res) && slotsUsed == old(slotsUsed) + 1
      ensures ok ==> Swapped(old(intervals), old(active), intervals, active, u, old(slotsUsed), used, point)
      ensures ok ==> exists k: nat ::
                Swaps(old(Now()), Now(), k, used, point) && k < |old(active)| && old(active)[k] == u
      ensures ok ==> SlotsFrom(old(intervals), intervals, u, old(slotsUsed))
      ensures ok ==> used in intervals &&
                     (old(Startpoint(intervals[used].ranges)) == point ==> Settled(intervals[used].ranges, point))
    {
      hide IntervalsOk, NoConflict, Future, ActiveOk, SortedActive, Resplit, HeldBy, Blank, Settlement, SlotsOwned;
      hide IsSplit, Settled, WellFormed, Chosen, NextUses, Untouched, Swapped, SameUses, SlotsKept, SlotsFrom;
      var k := ChooseVictim(point, iv0, done, res);
      u := active[k];
      VictimFacts(regs, iv0, intervals, active, busy, point, done, res, lns, used, k);
      if point == 0 {
        return false, u;
      }
      var unused, used', a, b;
      ok, unused, a := SplitAt(intervals[active[k]].ranges, point - 1);
      if !ok {
        return;
      }
      ok, used', b := SplitAt(intervals[used].ranges, point);
      ghost var iv1 := intervals;
      HandOver(k, unused, a, used, used', b, point, iv0, done, res);
      SameRangesSlots(intervals, intervals);
      SlotsThen(old(intervals), iv1, intervals, intervals, u, old(slotsUsed));
      SameRangesSwapped(old(intervals), iv1, old(active), intervals, active, u, old(slotsUsed), used, point);
      SameUsesOn(old(intervals), iv1, intervals, point, point);
      assert Swaps(old(Now()), Now(), k, used, point);
    }

    // The register of the k-th active interval goes to `used`, once both have been split.
    method HandOver(k: nat, unused: seq<LiveRange>, a: nat, used: nat, used': seq<LiveRange>, b: nat, point: nat,
                    ghost iv0: Intervals, ghost done: set<nat>, ghost res: set<nat>)
      requires At(point) && point > 0 && k < |active| && active[k] in intervals && used in intervals && used !in active
      requires Blank(iv0) && Untouched(iv0, intervals, done) && used in done && Good(iv0, res)
      requires Splits(active[k], unused, a, point - 1) && Splits(used, used', b, point)
      requires Endpoint(unused) == End(intervals, active[k]) && Endpoint(used') == EndAfter(intervals, used, point)
      modifies this`intervals, this`active, this`slotsUsed
      ensures At(point) && Untouched(iv0, intervals, done) && Good(iv0, res)
      ensures slotsUsed == old(slotsUsed) + 1 && used in intervals
      ensures Swapped(old(intervals), old(active), intervals, active, old(active[k]), old(slotsUsed), used, point)
      ensures |active| == |old(active)| && SameUses(old(intervals), intervals, point)
      ensures SlotsFrom(old(intervals), intervals, old(active[k]), old(slotsUsed))
      ensures old(Startpoint(intervals[used].ranges)) == point ==> Settled(intervals[used].ranges, point)
    {
      hide IntervalsOk, NoConflict, Future, ActiveOk, SortedActive, Resplit, HeldBy, Blank, Settlement, SlotsOwned;
      hide IsSplit;
      hide Settled, Sorted, Untouched, Relocated, CurrentLocation, Took, Swapped, SlotsKept, SlotsFrom;
      var reg := Spill(k, point, unused, a, iv0, done, res);
      RemovedUsed(old(active), k, used);
      ghost var iv1, active1 := intervals, active;
      Take(used, used', b, reg, point, busy[reg := false], point, iv0, done, res);
      SameRangesSlots(old(intervals), old(intervals));
      SlotsThen(old(intervals), old(intervals), iv1, intervals, old(active[k]), old(slotsUsed));
      SpillThenTake(old(intervals), old(active), iv1, active1, intervals, active, old(active[k]), old(slotsUsed), used,
        point);
      SameUsesOn(old(intervals), iv1, intervals, point, point);
    }

    ghost predicate Splits(i: nat, now: seq<LiveRange>, k: nat, point: nat)
      reads this
    {
      && i in intervals && IsSplit(intervals[i].ranges, now, point, k) && WellFormed(now)
      && WellFormed(intervals[i].ranges)
      && Startpoint(now) == Startpoint(intervals[i].ranges) <= point
    }

    // Choosing the interval to spill changes nothing but use points.
    method ChooseVictim(point: nat, ghost iv0: Intervals, ghost done: set<nat>, ghost res: set<nat>) returns (k: nat)
      requires At(point) && active != [] && Untouched(iv0, intervals, done) && Good(iv0, res)
      modifies this`intervals
      ensures At(point) && Untouched(iv0, intervals, done) && Good(iv0, res) && SameRanges(old(intervals), intervals)
      ensures k < |active| && active[k] in intervals && Chosen(NextUses(old(intervals), active, point), k)
      ensures SameUses(old(intervals), intervals, point) && SlotsKept(old(intervals), intervals)
    {
      hide IntervalsOk, NoConflict, Future, ActiveOk, SortedActive, Settlement, SlotsOwned, Chosen, UsesDropped;
      hide SameUses;
      hide NextUses, Untouched;
      ActiveFacts(regs, intervals, active, busy, point, 0);
      k := GetUnusedIntervalToSpill(point);
      DroppedSame(old(intervals), intervals, active, point);
      SameRangesInv(regs, old(intervals), intervals, active, busy, point);
      SameRangesSettled(iv0, old(intervals), intervals, lns, res, slotsUsed);
      SameRangesUntouched(iv0, old(intervals), intervals, done);
      SameRangesSlots(old(intervals), intervals);
    }

    // The k-th active interval moves to the next slot, and its register is handed on.
    method Spill(k: nat, point: nat, unused: seq<LiveRange>, a: nat, ghost iv0: Intervals, ghost done: set<nat>,
                 ghost res: set<nat>) returns (reg: nat)
      requires At(point) && point > 0 && k < |active| && active[k] in intervals
      requires Blank(iv0) && Untouched(iv0, intervals, done) && Good(iv0, res)
      requires IsSplit(intervals[active[k]].ranges, unused, point - 1, a) && WellFormed(unused)
      requires WellFormed(intervals[active[k]].ranges)
      requires Startpoint(unused) == Startpoint(intervals[active[k]].ranges) <= point - 1
      modifies this`intervals, this`active, this`slotsUsed
      ensures old(CurrentLocation(intervals, active[k])) == Reg(reg) && reg < regs == |busy| && busy[reg]
      ensures Inv(regs, intervals, active, busy[reg := false], point) && !HeldBy(intervals, active, reg)
      ensures Untouched(iv0, intervals, done) && Good(iv0, res) && slotsUsed == old(slotsUsed) + 1
      ensures active == Remove(old(active), k) && a <= |unused| && SameUses(old(intervals), intervals, point)
      ensures intervals == Relocated(old(intervals), old(active[k]), unused, a, Slot(old(slotsUsed)))
      ensures SlotsFrom(old(intervals), intervals, old(active[k]), old(slotsUsed))
      ensures intervals.Keys == old(intervals).Keys
      ensures forall i :: i in intervals && i != old(active[k]) ==> intervals[i] == old(intervals)[i]
      ensures CurrentLocation(intervals, old(active[k])) == Slot(old(slotsUsed)) && old(active[k]) in old(active)
      ensures forall j: nat :: j != old(active[k]) ==>
                CurrentLocation(intervals, j) == CurrentLocation(old(intervals), j)
      ensures Endpoint(unused) == End(old(intervals), old(active[k])) ==>
                forall j: nat :: End(intervals, j) == End(old(intervals), j)
      ensures forall j: nat :: j in active <==> j in old(active) && j != old(active[k])
    {
      hide IntervalsOk, NoConflict, Future, ActiveOk, SortedActive, Resplit, HeldBy, Blank, Settlement, SlotsOwned;
      hide IsSplit;
      hide WellFormed;
      var u := active[k];
      ActiveFacts(regs, intervals, active, busy, point, k);
      DoneIfLocated(iv0, intervals, done, u);
      reg := CurrentLocation(intervals, u).idx;
      SplitResplit(intervals[u].ranges, unused, point - 1, a);
      Deactivate(regs, intervals, active, busy, point, k, unused, a, slotsUsed);
      Replaced(iv0, intervals, lns, res, u, unused, point - 1, a, Slot(slotsUsed));
      NextSlot(intervals, u, unused, point - 1, a, slotsUsed);
      UntouchedOther(iv0, intervals, u, unused, a, Slot(slotsUsed), done);
      RelocatedFacts(intervals, u, unused, point - 1, a, Slot(slotsUsed));
      RemoveMembers(active, k);
      active := active[..k] + active[k + 1..];
      intervals := intervals[u := LiveInterval(SetFrom(unused, a, Slot(slotsUsed)), intervals[u].usePoints)];
      slotsUsed := slotsUsed + 1;
      KeptUses(old(intervals), intervals, point);
    }

    // RegAlloc::IsActive, with its assertion: what has a register is active, or ends at this number.
    method IsActive(i: nat, ln: nat) returns (isReg: bool)
      requires At(ln) && Expired(intervals, active, ln) && End(intervals, i) >= ln
      ensures isReg <==> HasRegister(intervals, active, i, ln)
      ensures isReg <==> InReg(Now(), i)
    {
      hide IntervalsOk, NoConflict, Future, SortedActive;
      isReg := CurrentLocation(intervals, i).Reg?;
      var foundInActive := i in active;
      var isExpiring := End(intervals, i) == ln;
      if !isReg {
        NotActive(regs, intervals, active, busy, i);
      }
      assert foundInActive == isReg || (isExpiring && isReg && !foundInActive);
    }

    // What is known of ends: intervals in registers are active or have ended, active ones reach t, and splitting has
    // prolonged none beyond `lim`. And of spills: they are logged.
    ghost predicate Bounded(iv0: Intervals, t: nat, lim: nat)
      reads this
    {
      && Expired(intervals, active, t) && Reaching(intervals, active, t) && Stretch(iv0, intervals, lim)
      && Logged(regs, iv0, intervals, slotsUsed, spills, t)
    }

    // RegAlloc::FillInputs: operands that have been spilled are reloaded. Afterwards every operand is in a register,
    // unless the reload of a later one has moved it to one of the slots taken here.
    method FillInputs(x: nat, ln: nat, ghost iv0: Intervals, ghost res: set<nat>, ghost lim: nat)
      returns (ghost trace: seq<Snap>)
      requires At(ln) && x in p.insts && regs > 0 && Blank(iv0) && Untouched(iv0, intervals, res) && Good(iv0, res)
      requires Bounded(iv0, ln, lim)
      requires p.insts[x].op != Phi ==> Earlier(lns, res, ln) && OperandsDone(p, iv0, res, x, ln) && ln + 2 <= lim
      modifies this
      ensures At(ln) && Untouched(iv0, intervals, res) && Good(iv0, res) && Bounded(iv0, ln, lim)
      ensures slotsUsed >= old(slotsUsed)
      ensures p.insts[x].op != Phi ==>
                forall v :: v in p.insts[x].inputs ==> Served(intervals, active, v, ln, old(slotsUsed), slotsUsed)
      ensures p.insts[x].op != Phi ==>
                Reloaded(regs, trace, p.insts[x].inputs, ln) && trace[0] == old(Now()) && Now() == trace[|trace| - 1]
      ensures p.insts[x].op != Phi && |old(active)| + |Missing(old(Now()), p.insts[x].inputs)| <= regs ==>
                slotsUsed == old(slotsUsed) && forall v :: v in p.insts[x].inputs ==>
                  HasRegister(intervals, active, v, ln)
      ensures p.insts[x].op != Phi ==>
                forall v :: v in p.insts[x].inputs ==>
                  (InReg(Now(), v) <==> !exists j: nat :: LostAt(regs, trace, p.insts[x].inputs, ln, v, j))
      ensures p.insts[x].op == Phi ==> unchanged(this) && trace == [Now()]
      ensures forall j: nat :: j < |trace| ==> Listed(trace[j])
    {
      hide IntervalsOk, NoConflict, Future, ActiveOk, SortedActive, Blank, Untouched, Settlement, SlotsOwned;
      hide Served, Expired;
      hide Stretch, Reaching, OperandsDone, Earlier, Reload, Missing, HasRegister, Listed, LostAt, InReg;
      trace := [Now()];
      ListedNow(regs, Now(), busy, ln);
      if p.insts[x].op == Phi {
        return;
      }
      var inputs := p.insts[x].inputs;
      FewerActive(regs, intervals, active, busy, ln);
      assert inputs[..0] == [];
      for j := 0 to |inputs|
        invariant At(ln) && Untouched(iv0, intervals, res) && Good(iv0, res) && slotsUsed >= old(slotsUsed)
        invariant Bounded(iv0, ln, lim)
        invariant forall m :: 0 <= m < j ==> Served(intervals, active, inputs[m], ln, old(slotsUsed), slotsUsed)
        invariant Reloaded(regs, trace, inputs[..j], ln) && trace[0] == old(Now()) && trace[j] == Now()
        invariant forall j: nat :: j < |trace| ==> Listed(trace[j])
      {
        OperandDone(p, iv0, res, x, ln, inputs[j]);
        FillInput(inputs[j], ln, iv0, res, lim, old(slotsUsed));
        RegisterServes(intervals, active, inputs[j], ln, old(slotsUsed), slotsUsed);
        ReloadedMore(regs, trace, inputs, j, Now(), ln);
        ListedNow(regs, Now(), busy, ln);
        trace := trace + [Now()];
      }
      assert inputs[..|inputs|] == inputs;
      AllLostIff(regs, trace, inputs, ln);
      if |trace[0].active| + |Missing(trace[0], inputs)| <= regs {
        SpillsIff(regs, trace, inputs, ln);
        ServedAll(intervals, active, inputs, ln, slotsUsed);
      }
    }

    // A spill is logged.
    ghost method LogSpill(iv0: Intervals, was: Snap, u: nat, used: nat, point: nat)
      requires Logged(regs, iv0, was.iv, was.slots, spills, point) && |was.active| == regs
      requires exists k: nat :: Swaps(was, Now(), k, used, point) && k < |was.active| && was.active[k] == u
      requires SlotsFrom(was.iv, intervals, u, was.slots) && forall i: nat :: i in was.active ==> i in iv0
      modifies this`spills
      ensures Logged(regs, iv0, intervals, slotsUsed, spills, point)
    {
      hide Swaps, Logged, SlotsFrom;
      var k: nat :| Swaps(was, Now(), k, used, point) && k < |was.active| && was.active[k] == u;
      LogSwap(regs, iv0, was, Now(), spills, k, used, point);
      spills := spills + [Spilled(was, k, point)];
    }

    // One operand: it is in a register afterwards. Its interval and its location are found.
    method FillInput(ii: nat, ln: nat, ghost iv0: Intervals, ghost res: set<nat>, ghost lim: nat, ghost s0: nat)
      requires At(ln) && regs > 0 && Blank(iv0) && Untouched(iv0, intervals, res) && Good(iv0, res)
      requires Bounded(iv0, ln, lim)
      requires Earlier(lns, res, ln) && ii in res && ii in iv0 && WellFormed(iv0[ii].ranges) && End(iv0, ii) >= ln
      requires ln + 2 <= lim && s0 <= slotsUsed
      modifies this
      ensures At(ln) && Untouched(iv0, intervals, res) && Good(iv0, res) && Bounded(iv0, ln, lim)
      ensures HasRegister(intervals, active, ii, ln) && old(slotsUsed) <= slotsUsed <= old(slotsUsed) + 1
      ensures Reload(regs, old(Now()), Now(), ii, ln)
      ensures forall v: nat :: old(Served(intervals, active, v, ln, s0, slotsUsed)) ==>
                Served(intervals, active, v, ln, s0, slotsUsed)
    {
      hide IntervalsOk, NoConflict, Future, SortedActive, Blank, HeldBy, Resplit, Settlement, SlotsOwned, IsSplit;
      hide WellFormed, Untouched, Took, Swapped, Served, HasRegister, Expired, Reaching, Stretch, SameUses, Swaps;
      SettledFacts(iv0, intervals, lns, res, ii);
      EndsGrow(iv0, intervals, lns, res, ii);
      assert ii in intervals && CurrentLocation(intervals, ii) != Nowhere && lns[ii] < ln;
      var isReg := IsActive(ii, ln);
      if isReg {
        return;
      }
      Inactive(intervals, active, ii, ln);
      NotActive(regs, intervals, active, busy, ii);
      ghost var iv, act, slots := intervals, active, slotsUsed;
      if |active| == regs {
        ActiveKnown(regs, iv0, intervals, active, busy, ln, lns, res);
        EarlierMore(lns, res, ln, ln + 1, ii);
        var ok: bool;
        ghost var u: nat;
        ok, u := SpillUnusedAndActivate(ii, ln, iv0, res, res);
        assert ok;
        LogSpill(iv0, Snap(iv, act, slots), u, ii, ln);
        SwappedServes(iv, act, intervals, active, u, slots, ii, ln, ln, s0);
        SwappedBounds(iv0, iv, act, intervals, active, u, slots, ii, ln, ln, lim);
      } else {
        FewerActive(regs, intervals, active, busy, ln);
        ghost var busy0 := busy;
        var r := AllocateFreeReg();
        NotHeld(regs, intervals, active, busy0, r);
        var ok, now, k := SplitAt(intervals[ii].ranges, ln - 1);
        assert ok;
        Take(ii, now, k, r, ln - 1, busy0, ln, iv0, res, res);
        LogKept(regs, iv0, iv, slots, spills, intervals, ln - 1, ln);
        TookServes(iv, act, intervals, active, ii, ln - 1, ln, s0, slots);
        TookBounds(iv0, iv, act, intervals, active, ii, ln - 1, ln, lim);
      }
    }

    // The result of an instruction: its interval gets a free register as a whole, or that of a spilled one.
    method PlaceResult(x: nat, ln: nat, ghost iv0: Intervals, ghost res: set<nat>, ghost lim: nat) returns (ok: bool)
      requires At(ln) && x in lns && lns[x] == ln && x !in res && regs > 0 && Blank(iv0)
      requires Untouched(iv0, intervals, res) && Good(iv0, res) && Bounded(iv0, ln, lim) && Earlier(lns, res, ln + 1)
      requires IntervalBegins(iv0, x, ln) && WellFormed(iv0[x].ranges)
      modifies this
      ensures ok ==> At(ln) && Untouched(iv0, intervals, res + {x}) && Good(iv0, res + {x}) && Bounded(iv0, ln, lim)
      ensures Earlier(lns, res, ln) || |old(active)| < regs ==> ok
      ensures ok ==> x in active && forall i :: i in old(active) && i in lns && lns[i] == ln ==> i in active
      ensures ok ==> Place(regs, old(Now()), Now(), x, ln)
      ensures ok <==> !Blocked(regs, lns, old(Now()), ln)
    {
      hide IntervalsOk, NoConflict, Future, SortedActive, Blank, HeldBy, Resplit, Settlement, SlotsOwned, IsSplit;
      hide WellFormed, Settled, Expired, Reaching, Stretch, Chosen;
      FreshDst(regs, iv0, intervals, active, busy, res, x);
      FewerActive(regs, intervals, active, busy, ln);
      MoreVisited(iv0, intervals, res, x);
      EndBehind(intervals, x);
      ghost var iv, act, slots := intervals, active, slotsUsed;
      if |active| == regs {
        ActiveKnown(regs, iv0, intervals, active, busy, ln, lns, res);
        ghost var u: nat;
        ok, u := SpillUnusedAndActivate(x, Startpoint(intervals[x].ranges), iv0, res + {x}, res);
        BlockedIff(regs, lns, old(Now()), u, ln);
        if !ok {
          LastEarlier(lns, res, ln, u);
          return;
        }
        LogSpill(iv0, Snap(iv, act, slots), u, x, ln);
        SwappedBounds(iv0, iv, act, intervals, active, u, slots, x, ln, ln, lim);
      } else {
        ghost var busy0 := busy;
        var was := intervals[x].ranges;
        var r := AllocateFreeReg();
        NotHeld(regs, intervals, active, busy0, r);
        WholeSplit(was);
        Take(x, was, 0, r, ln, busy0, ln, iv0, res + {x}, res);
        LogKept(regs, iv0, iv, slots, spills, intervals, ln, ln);
        TookBounds(iv0, iv, act, intervals, active, x, ln, ln, lim);
        ok := true;
      }
      OneMoreSettled(iv0, intervals, lns, res, x);
    }

    // One instruction, visited at its life number: its result gets a register. This fails exactly when that means
    // spilling a result defined at the same number, another phi of the block.
    method Visit(x: nat, ln: nat, ghost iv0: Intervals, ghost done: set<nat>, ghost t: nat, ghost lim: nat)
      returns (ok: bool, ghost fills: seq<Snap>)
      requires At(t) && t <= ln && ln % 2 == 0 && x in p.insts && regs > 0 && x !in done && x in lns && lns[x] == ln
      requires Blank(iv0) && Untouched(iv0, intervals, Results(p, done)) && Good(iv0, Results(p, done))
      requires Bounded(iv0, t, lim) && Earlier(lns, Results(p, done), ln + 1)
      requires p.insts[x].op != Phi ==>
                 Earlier(lns, Results(p, done), ln) && OperandsDone(p, iv0, Results(p, done), x, ln) && ln + 2 <= lim
      requires HasDst(p.insts[x].op) ==> IntervalBegins(iv0, x, ln) && WellFormed(iv0[x].ranges)
      modifies this
      ensures ok ==> At(ln) && Untouched(iv0, intervals, Results(p, done + {x})) && Good(iv0, Results(p, done + {x}))
      ensures ok ==> Bounded(iv0, ln, lim)
      ensures Earlier(lns, Results(p, done), ln) ==> ok
      ensures lim <= ln && |Crossing(p, lns, iv0, ln)| <= regs ==> ok
      ensures |fills| > 0 && fills[0].iv == old(intervals) && fills[0].slots == old(slotsUsed)
      ensures forall i: nat :: i in fills[0].active <==> i in old(active) && End(old(intervals), i) > ln
      ensures if p.insts[x].op == Phi then |fills| == 1 else Reloaded(regs, fills, p.insts[x].inputs, ln)
      ensures forall j: nat :: j < |fills| ==> Listed(fills[j])
      ensures ok <==> !(HasDst(p.insts[x].op) && Blocked(regs, lns, fills[|fills| - 1], ln))
      ensures ok ==> if HasDst(p.insts[x].op) then Place(regs, fills[|fills| - 1], Now(), x, ln)
                else fills[|fills| - 1] == Now()
      ensures ok && HasDst(p.insts[x].op) ==> x in active
      ensures ok && p.insts[x].op == Phi ==>
                forall i :: i in Results(p, done) && i in old(active) && i in lns && lns[i] == ln ==> i in active
    {
      hide IntervalsOk, NoConflict, Future, ActiveOk, SortedActive, Blank, Settlement, SlotsOwned;
      hide WellFormed, Settled, Results, Untouched, Expired, Reaching, Stretch, Earlier, Crossing, OperandsDone, Served;
      hide IntervalBegins, Reload, Place, Missing, HasRegister, Listed, LostAt, Blocked;
      ghost var res := Results(p, done);
      OneMoreResult(p, done, x);
      ResultsAre(p, done);
      ExpireOldIntervals(ln, t);
      ExpiredNow(intervals, old(active), active, t, ln);
      StillActive(iv0, intervals, lns, res, old(active), active, ln);
      fills := FillInputs(x, ln, iv0, res, lim);
      if !HasDst(p.insts[x].op) {
        return true, fills;
      }
      if p.insts[x].op == Phi {
        RoomEnough(iv0, res, x, ln, lim);
      }
      ok := PlaceResult(x, ln, iv0, res, lim);
    }

    // When the registers can take all that lives across the start of a block, its phis never find them all taken.
    lemma RoomEnough(iv0: Intervals, res: set<nat>, x: nat, ln: nat, lim: nat)
      requires At(ln) && Blank(iv0) && Untouched(iv0, intervals, res) && Bounded(iv0, ln, lim)
      requires Earlier(lns, res, ln + 1)
      requires x in p.insts && HasDst(p.insts[x].op) && x in lns && lns[x] == ln && x !in res
      requires forall i :: i in res ==> i in p.insts && HasDst(p.insts[i].op)
      requires IntervalBegins(iv0, x, ln) && WellFormed(iv0[x].ranges)
      requires forall i: nat :: i in active ==> End(intervals, i) > ln
      ensures lim <= ln && |Crossing(p, lns, iv0, ln)| <= regs ==> |active| < regs
    {
      hide Blank, Untouched, Inv, Crossing, Earlier, CurrentLocation, End, WellFormed;
      ActiveVisited(regs, iv0, intervals, active, busy, ln, res);
      FewerActive(regs, intervals, active, busy, ln);
      EndBehind(iv0, x);
      if lim <= ln && |active| == regs {
        StretchMore(iv0, intervals, lim, ln);
        TooMany(p, lns, iv0, intervals, active, res, x, ln, regs);
      }
    }

    // The loop over the phis of a block.
    method VisitPhis(j: nat, ghost life: nat, ghost iv0: Intervals, ghost done0: set<nat>, ghost t0: nat)
      returns (ok: bool, ghost done: set<nat>, ghost t: nat)
      requires OrderOk(p, order, lns, life) && IntervalsFit(p, order, lns, iv0) && Blank(iv0) && regs > 0 && j < |order|
      requires order[j].block < |p.phis| && order[j].block < |p.body| && order[j].ln % 2 == 0
      requires At(t0) && t0 <= order[j].ln && Untouched(iv0, intervals, Results(p, done0))
      requires Good(iv0, Results(p, done0))
      requires Bounded(iv0, t0, order[j].ln) && Earlier(lns, Results(p, done0), order[j].ln)
      requires PhisAhead(p, order[j].block, done0, 0) && Ahead(p, order, done0, j + 1)
      modifies this
      ensures ok ==>
                At(t) && t <= order[j].ln && Untouched(iv0, intervals, Results(p, done)) &&
                Good(iv0, Results(p, done))
      ensures ok ==> Bounded(iv0, t, order[j].ln) && Earlier(lns, Results(p, done), order[j].ln + 1)
      ensures ok ==> done0 <= done && (forall x :: x in p.phis[order[j].block] ==> x in done)
      ensures ok ==> BodyAhead(p, order[j].block, done, 0) && Ahead(p, order, done, j + 1)
      ensures PhisFit(p, order, lns, iv0, regs, j) ==> ok
      ensures ok ==> |p.phis[order[j].block]| <= regs
    {
      hide OrderOk, IntervalsFit, Ahead, PhisAhead, BodyAhead, Inv, Blank, Untouched, InBlock, Bounded, Earlier, Good;
      hide WellFormed, IntervalBegins, Crossing, Results;
      ghost var b, ln := order[j].block, order[j].ln;
      done, t := done0, t0;
      var phis := p.phis[order[j].block];
      for k := 0 to |phis|
        invariant At(t) && t <= ln && Untouched(iv0, intervals, Results(p, done)) && Good(iv0, Results(p, done))
        invariant Bounded(iv0, t, ln) && Earlier(lns, Results(p, done), if k == 0 then ln else ln + 1)
        invariant done0 <= done && forall i :: 0 <= i < k ==> phis[i] in done
        invariant PhisAhead(p, b, done, k) && Ahead(p, order, done, j + 1)
        invariant forall i :: 0 <= i < k ==> phis[i] in active && phis[i] in Results(p, done)
      {
        PhiHere(p, order, lns, life, done, j, k);
        var x := phis[k];
        VisitAhead(p, order, lns, life, done, j, x);
        PhiBegins(p, order, lns, life, iv0, j, x);
        EarlierMore(lns, Results(p, done), if k == 0 then ln else ln + 1, ln + 1, x);
        OneMoreResult(p, done, x);
        PhisNumbered(p, order, lns, life, j);
        ghost var fills: seq<Snap>;
        ok, fills := Visit(x, lns[x], iv0, done, t, ln);
        if !ok {
          return;
        }
        done, t := done + {x}, lns[x];
      }
      PhisDone(p, b, done);
      EarlierLater(lns, Results(p, done), if phis == [] then ln else ln + 1, ln + 1);
      PhisDistinct(p, order, lns, life, j);
      MembersCount(phis, active);
      FewerActive(regs, intervals, active, busy, t);
      ok := true;
    }

    // The loop over the instructions of one block: phis first. It fails at a phi only.
    method VisitBlock(j: nat, ghost life: nat, ghost iv0: Intervals, ghost done0: set<nat>, ghost t0: nat)
      returns (ok: bool, ghost done: set<nat>, ghost t: nat)
      requires OrderOk(p, order, lns, life) && IntervalsFit(p, order, lns, iv0) && Blank(iv0) && regs > 0 && j < |order|
      requires order[j].block < |p.phis| && order[j].block < |p.body| && order[j].ln % 2 == 0
      requires At(t0) && t0 <= order[j].ln && Untouched(iv0, intervals, Results(p, done0))
      requires Good(iv0, Results(p, done0))
      requires Bounded(iv0, t0, order[j].ln) && Earlier(lns, Results(p, done0), order[j].ln)
      requires PhisAhead(p, order[j].block, done0, 0) && Ahead(p, order, done0, j + 1) && Behind(p, order, done0, j)
      modifies this
      ensures ok ==>
                At(t) && t <= NextLn(p, order, j) && Untouched(iv0, intervals, Results(p, done)) &&
                Good(iv0, Results(p, done))
      ensures ok ==> Bounded(iv0, t, NextLn(p, order, j)) && Earlier(lns, Results(p, done), NextLn(p, order, j))
      ensures ok ==> done0 <= done && Ahead(p, order, done, j + 1) && forall x :: InBlock(p, x, order[j].block) ==>
                x in done
      ensures PhisFit(p, order, lns, iv0, regs, j) ==> ok
      ensures ok ==> |p.phis[order[j].block]| <= regs
    {
      hide OrderOk, IntervalsFit, Ahead, Behind, PhisAhead, BodyAhead, Inv, Blank, Untouched, InBlock, Bounded;
      hide Earlier, Good;
      hide WellFormed, IntervalBegins, PhisFit, Results, OperandsDone, Crossing;
      ghost var b, ln := order[j].block, order[j].ln;
      var body := p.body[order[j].block];
      ok, done, t := VisitPhis(j, life, iv0, done0, t0);
      if !ok {
        return;
      }
      BoundedMore(iv0, t, ln, ln + 2);
      EarlierLater(lns, Results(p, done), ln + 1, ln + 2);
      for k := 0 to |body|
        invariant At(t) && t <= ln + 2 * k && Untouched(iv0, intervals, Results(p, done)) && Good(iv0, Results(p, done))
        invariant Bounded(iv0, t, ln + 2 + 2 * k) && Earlier(lns, Results(p, done), ln + 2 + 2 * k)
        invariant done0 <= done && (forall x :: x in p.phis[b] ==> x in done)
        invariant forall i :: 0 <= i < k ==> body[i] in done
        invariant ok && BodyAhead(p, b, done, k) && Ahead(p, order, done, j + 1)
      {
        InstHere(p, order, lns, life, done, j, k);
        var x := body[k];
        VisitAhead(p, order, lns, life, done, j, x);
        BodyBegins(p, order, lns, life, iv0, j, x);
        BehindMore(p, order, done0, done, j);
        OperandsVisited(p, order, lns, life, iv0, done, j, k);
        EarlierMore(lns, Results(p, done), lns[x], lns[x] + 2, x);
        EarlierLater(lns, Results(p, done), lns[x], lns[x] + 1);
        OneMoreResult(p, done, x);
        BoundedMore(iv0, t, lns[x], lns[x] + 2);
        ghost var fills: seq<Snap>;
        ok, fills := Visit(x, lns[x], iv0, done, t, lns[x] + 2);
        done, t := done + {x}, lns[x];
      }
      BlockDone(p, b, done);
    }

    lemma BoundedMore(iv0: Intervals, t: nat, lim: nat, lim': nat)
      requires Bounded(iv0, t, lim) && lim <= lim'
      ensures Bounded(iv0, t, lim')
    {
      StretchMore(iv0, intervals, lim, lim');
    }

    // RegAlloc::AllocateRegisters: when it comes to its end, no two intervals share a register at an even life
    // number, nor a slot; every result begins in a register and has a place wherever it is live. It does come to its
    // end when each block has one phi at most, or registers for everything that lives across its start, and never when
    // a block has more phis than there are registers.
    method AllocateRegisters(ghost life: nat) returns (ok: bool)
      requires OrderOk(p, order, lns, life) && IntervalsFit(p, order, lns, intervals) && regs > 0 && slotsUsed == 0
      requires Blank(intervals) && active == [] && busy == seq(regs, _ => false) && spills == []
      modifies this
      ensures ok ==> NoConflict(intervals) && SlotsOwned(intervals, slotsUsed)
      ensures ok ==> intervals.Keys == old(intervals).Keys &&
                     forall i :: i in intervals ==> CoversAll(old(intervals)[i].ranges, intervals[i].ranges)
      ensures ok ==> AllPlaced(p, order, lns, intervals)
      ensures (forall j :: 0 <= j < |order| ==> PhisFit(p, order, lns, old(intervals), regs, j)) ==> ok
      ensures ok ==> PhisFew(p, order, regs, |order|)
      ensures ok ==> |spills| == slotsUsed && SlotsLogged(intervals, spills)
      ensures ok ==> forall s: nat :: s < |spills| ==> SpillOk(regs, old(intervals), spills[s], s)
    {
      hide OrderOk, Ahead, Behind, PhisAhead, BodyAhead, Inv, Blank, Untouched, NoConflict, CoversAll;
      hide SlotsOwned, Settled;
      hide Results, IntervalsFit, Earlier, PhisFit, Expired, Reaching, Stretch, Logged, SlotsLogged, SpillOk;
      ghost var iv0, done := intervals, {};
      ghost var t: nat := 0;
      Beginning(p, order, lns, life, regs, intervals);
      NothingLogged(regs, intervals, 0);
      for j := 0 to |order|
        invariant At(t) && Untouched(iv0, intervals, Results(p, done)) && Ahead(p, order, done, j)
        invariant Good(iv0, Results(p, done))
        invariant Behind(p, order, done, j) && PhisFew(p, order, regs, j)
        invariant Logged(regs, iv0, intervals, slotsUsed, spills, t)
        invariant j < |order| ==>
                    t <= order[j].ln && Bounded(iv0, t, order[j].ln) && Earlier(lns, Results(p, done), order[j].ln)
      {
        BlockAhead(p, order, lns, life, done, j);
        ghost var done0 := done;
        ok, done, t := VisitBlock(j, life, iv0, done, t);
        if !ok {
          return;
        }
        BehindNext(p, order, done0, done, j);
        if j + 1 < |order| {
          NextBlock(p, order, lns, life, j);
        }
      }
      ok := true;
      LogNow(regs, iv0, intervals, slotsUsed, spills, t);
      NoConflictNow(regs, intervals, active, busy, t);
      PlacedNow(p, order, lns, iv0, intervals, done);
    }
  }
}
