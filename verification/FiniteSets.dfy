// Sizes of finite sets.
module FiniteSets {
  function UpTo(n: nat): (s: set<nat>)
    ensures |s| == n
    ensures forall b :: b in s <==> 0 <= b < n
  {
    if n == 0 then {} else UpTo(n - 1) + {n - 1}
  }

  ghost function Members(s: seq<nat>): set<nat> {
    set x | x in s
  }

  lemma {:induction false} SubsetSize(a: set<nat>, b: set<nat>)
    requires a <= b
    ensures |a| <= |b| && (a != b ==> |a| < |b|)
    decreases a
  {
    if a != {} {
      var x :| x in a;
      SubsetSize(a - {x}, b - {x});
      assert a == (a - {x}) + {x} && b == (b - {x}) + {x};
    } else if b != {} {
      var x :| x in b;
      assert |b - {x}| + 1 == |b|;
    }
  }

  // A sequence longer than the set its elements come from repeats one of them.
  lemma {:induction false} Pigeonhole(s: seq<nat>, u: set<nat>) returns (i: nat, j: nat)
    requires |s| > |u| && forall k :: 0 <= k < |s| ==> s[k] in u
    ensures i < j < |s| && s[i] == s[j]
    decreases |s|
  {
    var l: nat := |s| - 1;
    if k: nat :| k < l && s[k] == s[l] {
      i, j := k, l;
    } else {
      assert |u - {s[l]}| == |u| - 1;
      i, j := Pigeonhole(s[..l], u - {s[l]});
    }
  }
}
