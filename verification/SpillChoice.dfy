// Which active interval is spilled.
module SpillChoice {
  import opened Ir
  import opened LiveIntervals
  import opened RegAllocState

  // The use points left once those up to the split point are gone.
  function DropExpired(uses: seq<nat>, point: nat): (left: seq<nat>)
    ensures left != [] ==> left[0] > point
    ensures |left| <= |uses| && left == uses[|uses| - |left|..]
  {
    if uses != [] && uses[0] <= point then DropExpired(uses[1..], point) else uses
  }

  // Expired use points have gone from the listed intervals.
  ghost predicate UsesDropped(iv: Intervals, iv': Intervals, ids: seq<nat>, point: nat) {
    forall i :: i in iv && i in iv' ==>
      iv'[i].usePoints == (if i in ids then DropExpired(iv[i].usePoints, point) else iv[i].usePoints)
  }

  function NextUse(iv: Intervals, i: nat, point: nat): Option<nat> {
    if i !in iv then None
    else
      var left := DropExpired(iv[i].usePoints, point);
      if left == [] then None else Some(left[0])
  }

  function NextUses(iv: Intervals, active: seq<nat>, point: nat): (next: seq<Option<nat>>)
    ensures |next| == |active| && forall j :: 0 <= j < |active| ==> next[j] == NextUse(iv, active[j], point)
  {
    seq(|active|, j requires 0 <= j < |active| => NextUse(iv, active[j], point))
  }

  // The j-th interval has no further use, or its next use is no nearer than those of the intervals in front of it.
  ghost predicate Candidate(next: seq<Option<nat>>, j: nat)
    requires j < |next|
  {
    next[j] == None || forall i :: 0 <= i < j && next[i].Some? ==> next[i].value <= next[j].value
  }

  // The last candidate is chosen.
  ghost predicate Chosen(next: seq<Option<nat>>, k: nat) {
    k < |next| && Candidate(next, k) && forall j :: k < j < |next| ==> !Candidate(next, j)
  }

  // What the name promises: the interval whose next use is furthest away; no further use at all is furthest.
  ghost predicate Furthest(next: seq<Option<nat>>, k: nat)
    requires k < |next|
  {
    next[k] == None || forall j :: 0 <= j < |next| ==> next[j].Some? && next[j].value <= next[k].value
  }

  // It is kept when every interval has a further use,
  lemma FurthestIfUsed(next: seq<Option<nat>>, k: nat)
    requires Chosen(next, k) && forall j :: 0 <= j < |next| ==> next[j].Some?
    ensures Furthest(next, k)
  {
    forall j | 0 <= j < |next| ensures next[j].value <= next[k].value {
      BehindTheLast(next, k, j);
    }
  }

  // The next use of the i-th interval is nearer than that of one in front of it.
  ghost predicate Nearer(next: seq<Option<nat>>, i: nat)
    requires i < |next|
  {
    next[i].Some? && exists h :: 0 <= h < i && next[h].Some? && next[h].value > next[i].value
  }

  // The j-th interval is the last one without a further use.
  ghost predicate LastUnused(next: seq<Option<nat>>, j: nat) {
    j < |next| && next[j] == None && forall i :: j < i < |next| ==> next[i].Some?
  }

  ghost predicate NearerBehind(next: seq<Option<nat>>, j: nat) {
    forall i :: j < i < |next| ==> Nearer(next, i)
  }

  // and in general exactly when only such nearer ones follow the last interval without a further use.
  lemma FurthestIff(next: seq<Option<nat>>, k: nat)
    requires Chosen(next, k)
    ensures Furthest(next, k) <==> forall j: nat :: LastUnused(next, j) ==> NearerBehind(next, j)
  {
    if forall j :: 0 <= j < |next| ==> next[j].Some? {
      FurthestIfUsed(next, k);
    } else {
      var j := FindLastUnused(next);
      forall i: nat | LastUnused(next, i) ensures i == j {
      }
      ChosenBehind(next, k, j);
    }
  }

  lemma ChosenBehind(next: seq<Option<nat>>, k: nat, j: nat)
    requires Chosen(next, k) && LastUnused(next, j)
    ensures Furthest(next, k) <==> NearerBehind(next, j)
  {
    assert Candidate(next, j) && j <= k;
    if k == j {
      forall i | j < i < |next| ensures Nearer(next, i) {
        assert !Candidate(next, i);
      }
    } else {
      assert !Nearer(next, k);
    }
  }

  lemma FindLastUnused(next: seq<Option<nat>>) returns (j: nat)
    requires exists i :: 0 <= i < |next| && next[i] == None
    ensures LastUnused(next, j)
  {
    j := |next| - 1;
    while next[j] != None
      invariant j < |next| && (forall i :: j < i < |next| ==> next[i].Some?)
      invariant exists i :: 0 <= i <= j && next[i] == None
      decreases j
    {
      j := j - 1;
    }
  }

  // No interval has a further next use than the last candidate.
  lemma {:induction false} BehindTheLast(next: seq<Option<nat>>, k: nat, j: nat)
    requires Chosen(next, k) && j < |next| && forall i :: 0 <= i < |next| ==> next[i].Some?
    ensures next[j].value <= next[k].value
    decreases j
  {
    if j > k {
      assert !Candidate(next, j);
      var i :| 0 <= i < j && next[i].Some? && next[i].value > next[j].value;
      BehindTheLast(next, k, i);
    }
  }

  // The first n use points have expired.
  lemma {:induction false} DropFirst(uses: seq<nat>, n: nat, point: nat)
    requires n <= |uses| && (forall k :: 0 <= k < n ==> uses[k] <= point) && (n < |uses| ==> uses[n] > point)
    ensures DropExpired(uses, point) == uses[n..]
  {
    if n > 0 {
      DropFirst(uses[1..], n - 1, point);
    }
  }

  lemma NextAt(iv: Intervals, i: nat, n: nat, point: nat)
    requires i in iv && n <= |iv[i].usePoints| && (forall k :: 0 <= k < n ==> iv[i].usePoints[k] <= point)
    requires n < |iv[i].usePoints| ==> iv[i].usePoints[n] > point
    ensures NextUse(iv, i, point) == if n == |iv[i].usePoints| then None else Some(iv[i].usePoints[n])
  {
    DropFirst(iv[i].usePoints, n, point);
  }

  // Of two, the second is chosen when it is used again, and no sooner than the first.
  lemma ChosenSecond(next: seq<Option<nat>>)
    requires |next| == 2 && next[1].Some? && (next[0].Some? ==> next[0].value <= next[1].value)
    ensures Chosen(next, 1) && (next[0] == None ==> !Furthest(next, 1))
  {
    assert Candidate(next, 1);
  }

  // How far the search has come: k is the last candidate of the first n, and `furthest` the furthest next use.
  ghost predicate Searched(next: seq<Option<nat>>, n: nat, k: nat, furthest: nat) {
    && n <= |next| && (n > 0 ==> Chosen(next[..n], k)) && (n == 0 ==> k == 0 && furthest == 0)
    && (forall i :: 0 <= i < n && next[i].Some? ==> next[i].value <= furthest)
    && (furthest > 0 ==> exists i :: 0 <= i < n && next[i] == Some(furthest))
  }

  lemma SearchOne(next: seq<Option<nat>>, n: nat, k: nat, furthest: nat)
    requires Searched(next, n, k, furthest) && n < |next|
    ensures next[n] == None ==> Searched(next, n + 1, n, furthest)
    ensures next[n].Some? && next[n].value >= furthest ==> Searched(next, n + 1, n, next[n].value)
    ensures next[n].Some? && next[n].value < furthest ==> Searched(next, n + 1, k, furthest)
  {
    var longer := next[..n + 1];
    assert longer == next[..n] + [next[n]];
    forall j | 0 <= j < n ensures Candidate(longer, j) <==> Candidate(next[..n], j) {
    }
    if next[n].Some? && next[n].value < furthest {
      var i :| 0 <= i < n && next[i] == Some(furthest);
      assert longer[i] == next[i] && longer[i].value > longer[n].value;
      assert Chosen(longer, k);
    } else {
      assert Candidate(longer, n);
    }
  }

  lemma SearchDone(next: seq<Option<nat>>, k: nat, furthest: nat)
    requires Searched(next, |next|, k, furthest) && next != []
    ensures Chosen(next, k)
  {
    assert next[..|next|] == next;
  }

  lemma SearchNone(next: seq<Option<nat>>)
    ensures Searched(next, 0, 0, 0)
  {
  }

  // The loop that removes expired use points.
  method DropUses(was: seq<nat>, point: nat) returns (uses: seq<nat>)
    ensures uses == DropExpired(was, point)
  {
    uses := was;
    while uses != [] && uses[0] <= point
      invariant DropExpired(uses, point) == DropExpired(was, point)
      decreases |uses|
    {
      uses := uses[1..];
    }
  }

  lemma NothingDropped(iv: Intervals, active: seq<nat>, point: nat)
    ensures SameRanges(iv, iv) && UsesDropped(iv, iv, active[..0], point)
  {
  }

  lemma DropStep(iv: Intervals, iv': Intervals, active: seq<nat>, j: nat, point: nat)
    requires j < |active| && active[j] in iv && (forall i, k :: 0 <= i < k < |active| ==> active[i] != active[k])
    requires SameRanges(iv, iv') && UsesDropped(iv, iv', active[..j], point)
    ensures active[j] in iv'
    ensures var left := DropExpired(iv'[active[j]].usePoints, point);
            var iv'' := iv'[active[j] := iv'[active[j]].(usePoints := left)];
            && SameRanges(iv, iv'') && UsesDropped(iv, iv'', active[..j + 1], point)
            && NextUse(iv, active[j], point) == (if left == [] then None else Some(left[0]))
  {
    hide DropExpired;
    assert active[..j + 1] == active[..j] + [active[j]];
    assert active[j] !in active[..j];
  }

  lemma ChosenBound(next: seq<Option<nat>>, k: nat)
    requires Chosen(next, k)
    ensures k < |next|
  {
  }
}
