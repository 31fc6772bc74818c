/** Orders of the numbers below n. */
module Permutations {

  /** `order` lists the positions 0..n-1, each once. */
  ghost predicate Permutation(order: seq<nat>, n: nat) {
    && |order| == n
    && (forall i | 0 <= i < n :: order[i] < n)
    && (forall i, j | 0 <= i < j < n :: order[i] != order[j])
  }

  /** An injection of a finite set into itself hits every element. */
  lemma {:induction false} SlotOf(order: seq<nat>, n: nat, x: nat) returns (i: nat)
    requires Permutation(order, n) && x < n
    ensures i < n && order[i] == x
  {
    if x in order {
      i :| 0 <= i < |order| && order[i] == x;
    } else {
      CountDistinct(order);
      assert Elements(order) <= Naturals(n) - {x};
      assert |Naturals(n) - {x}| == n - 1;
      CardinalityMonotone(Elements(order), Naturals(n) - {x});
      assert false;
    }
  }

  ghost function Naturals(n: nat): (r: set<nat>)
    ensures |r| == n
    ensures forall x: nat :: x in r <==> x < n
  {
    if n == 0 then {} else Naturals(n - 1) + {n - 1}
  }

  ghost function Elements(s: seq<nat>): (r: set<nat>)
    ensures forall v: nat :: v in r <==> v in s
  {
    if s == [] then {} else
      assert s == s[..|s| - 1] + [s[|s| - 1]];
      Elements(s[..|s| - 1]) + {s[|s| - 1]}
  }

  lemma {:induction false} CountDistinct(s: seq<nat>)
    requires forall i, j | 0 <= i < j < |s| :: s[i] != s[j]
    ensures |Elements(s)| == |s|
  {
    if s != [] {
      var t := s[..|s| - 1];
      CountDistinct(t);
      assert s[|s| - 1] !in t;
    }
  }

  lemma {:induction false} CardinalityMonotone<T>(a: set<T>, b: set<T>)
    requires a <= b
    ensures |a| <= |b|
  {
    assert b == a + (b - a);
  }
}
