/** Sums of sequences. */
module Sums {

  function Sum(s: seq<nat>): nat {
    if s == [] then 0 else s[0] + Sum(s[1..])
  }

  lemma {:induction false} ShortSum(s: seq<nat>)
    requires |s| <= 2
    ensures Sum(s) == if |s| == 0 then 0 else if |s| == 1 then s[0] else s[0] + s[1]
  {
    if |s| == 2 {
      assert s[1..][1..] == [];
      assert Sum(s[1..]) == s[1];
    }
  }

  lemma {:induction false} SumAppend(s: seq<nat>, t: seq<nat>)
    ensures Sum(s + t) == Sum(s) + Sum(t)
  {
    if s == [] {
      assert s + t == t;
    } else {
      SumAppend(s[1..], t);
      assert (s + t)[1..] == s[1..] + t;
    }
  }

  lemma {:induction false} SumSplit(s: seq<nat>, k: nat)
    requires k <= |s|
    ensures Sum(s) == Sum(s[..k]) + Sum(s[k..])
  {
    SumAppend(s[..k], s[k..]);
    assert s == s[..k] + s[k..];
  }

  /** All elements are at most b. */
  predicate AtMost(s: seq<nat>, b: nat) {
    forall i | 0 <= i < |s| :: s[i] <= b
  }

  /** What the last elements can sum to. */
  lemma {:induction false} SumTail(s: seq<nat>, k: nat, b: nat)
    requires k <= |s| && AtMost(s, b)
    ensures Sum(s[..k]) <= Sum(s) <= Sum(s[..k]) + (|s| - k) * b
    decreases |s| - k
  {
    if k == |s| {
      assert s[..k] == s;
    } else {
      SumTail(s, k + 1, b);
      SumAppend(s[..k], [s[k]]);
      assert s[..k + 1] == s[..k] + [s[k]];
      assert Sum([s[k]]) == s[k] <= b;
      assert (|s| - k) * b == (|s| - k - 1) * b + b;
    }
  }
}
