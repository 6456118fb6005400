// Merging the ranges of an instruction with the ranges of the loops it lives through.
module FillIntervals {
  import opened LiveIntervals

  // Every loop range begins inside a range, and they are sorted by begin.
  ghost predicate LoopsOk(ranges: seq<LiveRange>, loops: seq<LiveRange>) {
    && (forall k :: 0 <= k < |loops| ==> loops[k].b < loops[k].e && Covers(ranges, loops[k].b))
    && (forall j, k :: 0 <= j < k < |loops| ==> loops[j].b <= loops[k].b)
  }

  // Real gaps between the ranges (CheckIntervals).
  ghost predicate Separated(ranges: seq<LiveRange>) {
    && (forall k :: 0 <= k < |ranges| ==> ranges[k].b < ranges[k].e)
    && (forall j, k :: 0 <= j < k < |ranges| ==> ranges[j].e < ranges[k].b)
  }

  // The output so far covers only what the input covers, and all of the first r ranges and l loop ranges.
  ghost predicate Exact(ranges: seq<LiveRange>, loops: seq<LiveRange>, r: nat, l: nat, out: seq<LiveRange>)
    requires r <= |ranges| && l <= |loops|
  {
    && (forall x: nat :: Covers(out, x) ==> Covers(ranges, x) || Covers(loops, x))
    && (forall x: nat :: Covers(ranges[..r], x) ==> Covers(out, x))
    && (forall x: nat :: Covers(loops[..l], x) ==> Covers(out, x))
  }

  function Last(out: seq<LiveRange>): LiveRange
    requires out != []
  {
    out[|out| - 1]
  }

  // The next range lies behind the current interval, the ranges before it do not, and the next loop range
  // does not begin in front of the current interval.
  ghost predicate Frontier(ranges: seq<LiveRange>, loops: seq<LiveRange>, r: nat, l: nat, out: seq<LiveRange>) {
    && r <= |ranges| && l <= |loops| && out != [] && Separated(out)
    && (r < |ranges| ==> Last(out).e <= ranges[r].b)
    && (forall k :: 0 <= k < r ==> ranges[k].e <= Last(out).e)
    && (l < |loops| ==> Last(out).b <= loops[l].b)
  }

  // LiveRange::Prolong on the current interval
  function Prolong(out: seq<LiveRange>, e: nat): seq<LiveRange>
    requires out != []
  {
    out[|out| - 1 := Last(out).(e := e)]
  }

  lemma CoversIntro(s: seq<LiveRange>, k: nat, x: nat)
    requires k < |s| && Contains(s[k], x)
    ensures Covers(s, x)
  {
  }

  lemma CoversOne(s: seq<LiveRange>, k: nat, x: nat)
    requires k < |s|
    ensures Covers(s[..k + 1], x) <==> Covers(s[..k], x) || Contains(s[k], x)
  {
    if Covers(s[..k + 1], x) && !Contains(s[k], x) {
      var j :| 0 <= j < |s[..k + 1]| && Contains(s[..k + 1][j], x);
      assert Contains(s[..k][j], x);
    }
    if Covers(s[..k], x) {
      var j :| 0 <= j < |s[..k]| && Contains(s[..k][j], x);
      assert Contains(s[..k + 1][j], x);
    }
    if Contains(s[k], x) {
      assert Contains(s[..k + 1][k], x);
    }
  }

  lemma CoversProlonged(out: seq<LiveRange>, e: nat, x: nat)
    requires out != [] && Last(out).b < Last(out).e <= e
    ensures Covers(Prolong(out, e), x) <==> Covers(out, x) || Last(out).e <= x < e
  {
    var o := Prolong(out, e);
    if Covers(o, x) && !(Last(out).e <= x < e) {
      var j :| 0 <= j < |o| && Contains(o[j], x);
      assert Contains(out[j], x);
    }
    if Covers(out, x) {
      var j :| 0 <= j < |out| && Contains(out[j], x);
      assert Contains(o[j], x);
    }
    if Last(out).e <= x < e {
      assert Contains(o[|o| - 1], x);
    }
  }

  // The current interval reaches a range that begins where it ends, or inside it.
  lemma MergeRange(ranges: seq<LiveRange>, loops: seq<LiveRange>, r: nat, l: nat, out: seq<LiveRange>)
    requires Sorted(ranges) && Frontier(ranges, loops, r, l, out) && Exact(ranges, loops, r, l, out)
    requires r < |ranges| && Last(out).e == ranges[r].b
    ensures Frontier(ranges, loops, r + 1, l, Prolong(out, ranges[r].e))
    ensures Exact(ranges, loops, r + 1, l, Prolong(out, ranges[r].e))
  {
    hide Covers;
    forall x: nat
      ensures Covers(Prolong(out, ranges[r].e), x) <==> Covers(out, x) || Contains(ranges[r], x)
      ensures Covers(ranges[..r + 1], x) <==> Covers(ranges[..r], x) || Contains(ranges[r], x)
      ensures Contains(ranges[r], x) ==> Covers(ranges, x)
    {
      CoversProlonged(out, ranges[r].e, x);
      CoversOne(ranges, r, x);
      if Contains(ranges[r], x) {
        CoversIntro(ranges, r, x);
      }
    }
  }

  // A hole: the next range begins a new interval.
  lemma NewInterval(ranges: seq<LiveRange>, loops: seq<LiveRange>, r: nat, l: nat, out: seq<LiveRange>)
    requires Sorted(ranges) && Frontier(ranges, loops, r, l, out) && Exact(ranges, loops, r, l, out)
    requires LoopsOk(ranges, loops)
    requires r < |ranges| && Last(out).e < ranges[r].b && (l < |loops| ==> Last(out).e <= loops[l].b)
    ensures Frontier(ranges, loops, r + 1, l, out + [ranges[r]])
    ensures Exact(ranges, loops, r + 1, l, out + [ranges[r]])
  {
    if l < |loops| {
      var k :| 0 <= k < |ranges| && Contains(ranges[k], loops[l].b);
      assert k >= r;
    }
    NewIntervalExact(ranges, loops, r, l, out);
  }

  lemma NewIntervalExact(ranges: seq<LiveRange>, loops: seq<LiveRange>, r: nat, l: nat, out: seq<LiveRange>)
    requires r < |ranges| && l <= |loops| && Exact(ranges, loops, r, l, out)
    ensures Exact(ranges, loops, r + 1, l, out + [ranges[r]])
  {
    hide Covers;
    var o := out + [ranges[r]];
    assert o[..|out|] == out && o[..|out| + 1] == o;
    forall x: nat
      ensures Covers(o, x) <==> Covers(out, x) || Contains(ranges[r], x)
      ensures Covers(ranges[..r + 1], x) <==> Covers(ranges[..r], x) || Contains(ranges[r], x)
      ensures Contains(ranges[r], x) ==> Covers(ranges, x)
    {
      CoversOne(o, |out|, x);
      CoversOne(ranges, r, x);
      if Contains(ranges[r], x) {
        CoversIntro(ranges, r, x);
      }
    }
  }

  // A loop range that is covered already.
  lemma LoopCovered(ranges: seq<LiveRange>, loops: seq<LiveRange>, r: nat, l: nat, out: seq<LiveRange>)
    requires Frontier(ranges, loops, r, l, out) && Exact(ranges, loops, r, l, out) && LoopsOk(ranges, loops)
    requires l < |loops| && loops[l].e <= Last(out).e
    ensures Frontier(ranges, loops, r, l + 1, out) && Exact(ranges, loops, r, l + 1, out)
  {
    hide Covers;
    forall x: nat ensures Covers(loops[..l + 1], x) ==> Covers(out, x) {
      CoversOne(loops, l, x);
      if Contains(loops[l], x) {
        CoversIntro(out, |out| - 1, x);
      }
    }
  }

  // The ranges from r up to q end inside a loop range that ends at e.
  ghost predicate Skipped(ranges: seq<LiveRange>, r: nat, q: nat, e: nat) {
    r <= q <= |ranges| && forall k :: r <= k < q ==> ranges[k].e < e
  }

  lemma {:induction false} SkippedCovered(ranges: seq<LiveRange>, r: nat, q: nat, lo: nat, e: nat, x: nat)
    requires Sorted(ranges) && Skipped(ranges, r, q, e) && (r < |ranges| ==> lo <= ranges[r].b)
    ensures Covers(ranges[..q], x) ==> Covers(ranges[..r], x) || lo <= x < e
  {
    if Covers(ranges[..q], x) {
      var k :| 0 <= k < |ranges[..q]| && Contains(ranges[..q][k], x);
      if k < r {
        assert Contains(ranges[..r][k], x);
      } else {
        assert ranges[r].b <= ranges[k].b;
      }
    }
  }

  // A loop range that begins inside the current interval and ends behind it: the interval is prolonged, the
  // ranges it swallows are skipped, and a range it reaches is merged.
  lemma LoopProlongs(ranges: seq<LiveRange>, loops: seq<LiveRange>, r: nat, l: nat, out: seq<LiveRange>, q: nat)
    requires Sorted(ranges) && LoopsOk(ranges, loops)
    requires Frontier(ranges, loops, r, l, out) && Exact(ranges, loops, r, l, out)
    requires l < |loops| && loops[l].b <= Last(out).e < loops[l].e
    requires Skipped(ranges, r, q, loops[l].e) && (q < |ranges| ==> loops[l].e <= ranges[q].e)
    ensures var e := loops[l].e;
            if q < |ranges| && ranges[q].b <= e then
              Frontier(ranges, loops, q + 1, l, Prolong(Prolong(out, e), ranges[q].e)) &&
              Exact(ranges, loops, q + 1, l, Prolong(Prolong(out, e), ranges[q].e))
            else Frontier(ranges, loops, q, l, Prolong(out, e)) && Exact(ranges, loops, q, l, Prolong(out, e))
  {
    hide Covers, Exact;
    var e := loops[l].e;
    LoopSwallows(ranges, loops, r, l, out, q);
    if q < |ranges| && ranges[q].b <= e {
      assert Prolong(Prolong(out, e), ranges[q].e) == Prolong(out, ranges[q].e);
      LoopReaches(ranges, loops, r, l, out, q);
    }
  }

  lemma LoopSwallows(ranges: seq<LiveRange>, loops: seq<LiveRange>, r: nat, l: nat, out: seq<LiveRange>, q: nat)
    requires Sorted(ranges) && Frontier(ranges, loops, r, l, out) && Exact(ranges, loops, r, l, out)
    requires l < |loops| && loops[l].b <= Last(out).e < loops[l].e && Skipped(ranges, r, q, loops[l].e)
    ensures Exact(ranges, loops, q, l, Prolong(out, loops[l].e))
  {
    hide Covers, Skipped;
    SkippedBound(ranges, r, q, loops[l].e);
    forall x: nat
      ensures Covers(Prolong(out, loops[l].e), x) <==> Covers(out, x) || Last(out).e <= x < loops[l].e
      ensures Covers(ranges[..q], x) ==> Covers(ranges[..r], x) || Last(out).e <= x < loops[l].e
      ensures Last(out).e <= x < loops[l].e ==> Covers(loops, x)
    {
      CoversProlonged(out, loops[l].e, x);
      SkippedCovered(ranges, r, q, Last(out).e, loops[l].e, x);
      if Last(out).e <= x < loops[l].e {
        CoversIntro(loops, l, x);
      }
    }
  }

  lemma SkippedBound(ranges: seq<LiveRange>, r: nat, q: nat, e: nat)
    requires Skipped(ranges, r, q, e)
    ensures q <= |ranges|
  {
  }

  lemma LoopReaches(ranges: seq<LiveRange>, loops: seq<LiveRange>, r: nat, l: nat, out: seq<LiveRange>, q: nat)
    requires Sorted(ranges) && Frontier(ranges, loops, r, l, out) && Exact(ranges, loops, r, l, out)
    requires l < |loops| && loops[l].b <= Last(out).e < loops[l].e && Skipped(ranges, r, q, loops[l].e)
    requires q < |ranges| && ranges[q].b <= loops[l].e <= ranges[q].e
    ensures Exact(ranges, loops, q + 1, l, Prolong(out, ranges[q].e))
  {
    var e := ranges[q].e;
    assert r <= q;
    hide Covers, Skipped;
    RangesBehind(ranges, loops, r, l, out, q);
    forall x: nat
      ensures Covers(Prolong(out, e), x) <==> Covers(out, x) || Last(out).e <= x < e
      ensures Covers(ranges[..q + 1], x) ==> Covers(ranges[..r], x) || Last(out).e <= x < e
      ensures Last(out).e <= x < e ==> Covers(ranges, x) || Covers(loops, x)
    {
      CoversProlonged(out, e, x);
      SkippedCovered(ranges, r, q, Last(out).e, loops[l].e, x);
      CoversOne(ranges, q, x);
      if Last(out).e <= x < loops[l].e {
        CoversIntro(loops, l, x);
      } else if Contains(ranges[q], x) {
        CoversIntro(ranges, q, x);
      }
    }
  }

  lemma RangesBehind(ranges: seq<LiveRange>, loops: seq<LiveRange>, r: nat, l: nat, out: seq<LiveRange>, q: nat)
    requires Sorted(ranges) && Frontier(ranges, loops, r, l, out) && r <= q < |ranges|
    ensures Last(out).e <= ranges[q].b
  {
    if r < q {
      assert ranges[r].e <= ranges[q].b;
    }
  }

  lemma Start(ranges: seq<LiveRange>, loops: seq<LiveRange>)
    requires WellFormed(ranges) && LoopsOk(ranges, loops)
    ensures Frontier(ranges, loops, 1, 0, [ranges[0]]) && Exact(ranges, loops, 1, 0, [ranges[0]])
  {
    assert ranges[..1] == [ranges[0]];
    forall x: nat | Covers([ranges[0]], x) ensures Covers(ranges, x) {
      CoversIntro(ranges, 0, x);
    }
    if 0 < |loops| {
      var k :| 0 <= k < |ranges| && Contains(ranges[k], loops[0].b);
      assert k > 0 ==> ranges[0].e <= ranges[k].b;
    }
  }

  lemma BeginsBefore(ranges: seq<LiveRange>, loops: seq<LiveRange>, l: nat, e: nat)
    requires LoopsOk(ranges, loops) && l < |loops| && forall k :: 0 <= k < |ranges| ==> ranges[k].e <= e
    ensures loops[l].b < e
  {
    assert Covers(ranges, loops[l].b);
    var k :| 0 <= k < |ranges| && Contains(ranges[k], loops[l].b);
  }

  // Nothing is left: every loop range began inside some range.
  lemma AllMerged(ranges: seq<LiveRange>, loops: seq<LiveRange>, l: nat, out: seq<LiveRange>)
    requires Frontier(ranges, loops, |ranges|, l, out) && Exact(ranges, loops, |ranges|, l, out)
    requires LoopsOk(ranges, loops)
    requires l < |loops| ==> Last(out).e <= loops[l].b
    ensures Separated(out) && forall x: nat :: Covers(out, x) <==> Covers(ranges, x) || Covers(loops, x)
  {
    var e := Last(out).e;
    if l < |loops| {
      BeginsBefore(ranges, loops, l, e);
    }
    assert ranges[..|ranges|] == ranges && loops[..|loops|] == loops;
  }

  lemma NonEmpty(ranges: seq<LiveRange>, r: nat)
    requires Sorted(ranges) && r < |ranges|
    ensures ranges[r].b < ranges[r].e
  {
  }

  lemma FrontierFacts(ranges: seq<LiveRange>, loops: seq<LiveRange>, r: nat, l: nat, out: seq<LiveRange>)
    requires Frontier(ranges, loops, r, l, out)
    ensures r <= |ranges| && l <= |loops| && out != [] && (r < |ranges| ==> Last(out).e <= ranges[r].b)
  {
  }

  lemma NoneSkipped(ranges: seq<LiveRange>, r: nat, e: nat)
    requires r <= |ranges|
    ensures Skipped(ranges, r, r, e)
  {
  }

  lemma OneSkipped(ranges: seq<LiveRange>, r: nat, q: nat, e: nat)
    requires Skipped(ranges, r, q, e) && q < |ranges| && ranges[q].e < e
    ensures Skipped(ranges, r, q + 1, e)
  {
  }

  // FillIntervals for one instruction: the union of ranges and loop ranges, as intervals with real gaps.
  method Fill(ranges: seq<LiveRange>, loops: seq<LiveRange>) returns (out: seq<LiveRange>)
    requires WellFormed(ranges) && LoopsOk(ranges, loops)
    ensures out != [] && Separated(out)
    ensures forall x: nat :: Covers(out, x) <==> Covers(ranges, x) || Covers(loops, x)
  {
    hide Covers, Exact, Frontier, Sorted, LoopsOk, Separated, Skipped;
    out := [ranges[0]];
    var r, l: nat := 1, 0;
    Start(ranges, loops);
    while true
      invariant r <= |ranges| && l <= |loops| && out != []
      invariant Frontier(ranges, loops, r, l, out) && Exact(ranges, loops, r, l, out)
      decreases |ranges| - r + 2 * (|loops| - l) + if l < |loops| && loops[l].e > Last(out).e then 1 else 0
    {
      FrontierFacts(ranges, loops, r, l, out);
      if l < |loops| && loops[l].b <= Last(out).e {
        if loops[l].e <= Last(out).e {
          LoopCovered(ranges, loops, r, l, out);
          l := l + 1;
          continue;
        }
        var e := loops[l].e;
        ghost var r0, out0 := r, out;
        out := Prolong(out, e);
        NoneSkipped(ranges, r, e);
        while r < |ranges| && ranges[r].e < e
          invariant r0 <= r <= |ranges| && Skipped(ranges, r0, r, e)
        {
          OneSkipped(ranges, r0, r, e);
          r := r + 1;
        }
        LoopProlongs(ranges, loops, r0, l, out0, r);
        if r < |ranges| && ranges[r].b <= e {
          out := Prolong(out, ranges[r].e);
          r := r + 1;
        }
        // The source goes on to skip loop ranges that end in front of e, but the one at hand ends at e.
        continue;
      }
      ghost var r1, out1 := r, out;
      while r < |ranges| && Last(out).e == ranges[r].b
        invariant r <= |ranges| && out != [] && Frontier(ranges, loops, r, l, out) && Exact(ranges, loops, r, l, out)
        invariant r1 <= r && (r == r1 ==> out == out1) && Last(out1).e <= Last(out).e
      {
        NonEmpty(ranges, r);
        MergeRange(ranges, loops, r, l, out);
        out := Prolong(out, ranges[r].e);
        r := r + 1;
      }
      if l < |loops| && loops[l].b < Last(out).e {
        continue;
      }
      if r < |ranges| {
        FrontierFacts(ranges, loops, r, l, out);
        NonEmpty(ranges, r);
        NewInterval(ranges, loops, r, l, out);
        out := out + [ranges[r]];
        r := r + 1;
        continue;
      }
      break;
    }
    AllMerged(ranges, loops, l, out);
  }
}
