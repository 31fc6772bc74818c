/** How deep the merge tree can be: an item at level d makes the whole alphabet weigh at
    least a Fibonacci number. */
module HuffDepth {
  import opened Arith
  import opened HuffTree
  import opened HuffOptimal
  import opened HuffTies
  import opened Sums

  /** Fibonacci numbers: 0, 1, 1, 2, 3, 5, ... */
  function Fib(n: nat): nat {
    if n < 2 then n else Fib(n - 1) + Fib(n - 2)
  }

  lemma {:induction false} FibRises(d: nat, e: nat)
    requires d <= e
    ensures Fib(d) <= Fib(e)
    decreases e
  {
    if d < e {
      FibRises(d, e - 1);
    }
  }

  ghost predicate AtLeast(s: seq<nat>, v: nat) {
    forall i | 0 <= i < |s| :: s[i] >= v
  }

  /** What a queue weighs at least, if no item is lighter than m and an item of weight x
      is at level d. */
  ghost function DepthWeight(d: nat, m: nat, x: nat): nat {
    Fib(d) * m + Fib(d + 1) * x
  }

  lemma {:induction false} DepthNext(f: nat, g: nat, m: nat, x: nat, y: nat, s: nat)
    requires x + m <= s && x <= y
    ensures g * y + f * s >= f * m + (f + g) * x
  {
    MulMonotone(g, x, y);
    MulMonotone(f, x + m, s);
    MulDistributes(f, x, m);
    MulDistributes(x, f, g);
  }

  /** The item goes into the next merge, with one that is no lighter than m. */
  lemma {:induction false} DepthTaken(d: nat, m: nat, x: nat, y: nat, s: nat)
    requires x + m <= s && x <= y
    ensures DepthWeight(d, y, s) >= DepthWeight(d + 1, m, x)
  {
    assert Fib(d + 2) == Fib(d + 1) + Fib(d);
    hide Fib;
    DepthNext(Fib(d + 1), Fib(d), m, x, y, s);
  }

  /** The levels of leaves + nodes. */
  ghost function AllLevels(q: Queue): (r: seq<nat>)
    requires Size(q) >= 1
    ensures |r| == Size(q)
  {
    LevelsOf(q).leaves + LevelsOf(q).nodes
  }

  /** Items after a merge: those not taken, and one that weighs as much as those taken. */
  lemma {:induction false} StepAtLeast(q: Queue, m: nat)
    requires Size(q) >= 2 && Ordered(q) && Merged(q) >= m
    requires forall k | 0 <= k < Size(q) && k != Places(q).0 && k != Places(q).1 :: (q.leaves + q.nodes)[k] >= m
    ensures AtLeast(Step(q).leaves + Step(q).nodes, m)
  {
    hide Ordered, Merged, Places, NodesTaken, Step;
    StepShape(q);
    var w' := Step(q).leaves + Step(q).nodes;
    forall i | 0 <= i < |w'|
      ensures w'[i] >= m
    {
      if i < Size(q) - 2 {
        StepWeightAt(q, i);
        OriginFree(q, i);
      }
    }
  }

  lemma {:induction false} StepWeightAt(q: Queue, i: nat)
    requires Size(q) >= 2 && i < Size(q) - 2
    ensures Origin(q, i) < Size(q) && (Step(q).leaves + Step(q).nodes)[i] == (q.leaves + q.nodes)[Origin(q, i)]
  {
    hide Merged, Step, NodesTaken, Places;
    StepShape(q);
    OriginFree(q, i);
    ItemsDropped(q.leaves, q.nodes, 2 - NodesTaken(q), NodesTaken(q), [Merged(q)], i, Origin(q, i));
  }

  /** Where an item that is not taken goes. */
  lemma {:induction false} Destination(q: Queue, k: nat) returns (i: nat)
    requires Size(q) >= 2 && k < Size(q) && k != Places(q).0 && k != Places(q).1
    ensures i < Size(q) - 2 && Origin(q, i) == k
  {
    var c, n := NodesTaken(q), |q.leaves|;
    i := if k < n then k - (2 - c) else k - 2;
  }

  /** An item that is not taken keeps its level, one that is taken is below the new node. */
  lemma {:induction false} LevelsAfter(q: Queue, k: nat)
    requires Size(q) >= 2 && k < Size(q)
    ensures (k == Places(q).0 || k == Places(q).1) ==> AllLevels(q)[k] == AllLevels(Step(q))[Size(q) - 2] + 1
    ensures k < Size(q) - 2 ==> Origin(q, k) < Size(q) && AllLevels(Step(q))[k] == AllLevels(q)[Origin(q, k)]
  {
    hide *;
    var c, ll, ln, v := LevelsStep(q);
    PlacesAre(q);
    AllLevelsAre(q);
    AllLevelsAre(Step(q));
    if k < Size(q) - 2 {
      OriginIs(q, k);
      LevelsDropped(ll, ln, 2 - c, c, v, k, Origin(q, k));
    }
    SizeIs(q);
    LevelsTop(ll, ln, 2 - c, c, v, k);
  }

  lemma {:induction false} SizeIs(q: Queue)
    ensures Size(q) == |q.leaves| + |q.nodes|
  {
  }

  lemma {:induction false} AllLevelsAre(q: Queue)
    requires Size(q) >= 1
    ensures AllLevels(q) == LevelsOf(q).leaves + LevelsOf(q).nodes
  {
  }

  lemma {:induction false} OriginIs(q: Queue, i: nat)
    requires Size(q) >= 2 && i < Size(q) - 2
    ensures Origin(q, i) < Size(q)
    ensures Origin(q, i) == (if i + 2 < |q.leaves| + NodesTaken(q) then i + 2 - NodesTaken(q) else i + 2)
    ensures |q.leaves| + NodesTaken(q) >= 2
  {
  }

  lemma {:induction false} LevelsDropped(ll: seq<nat>, ln: seq<nat>, a: nat, c: nat, v: nat, i: nat, k: nat)
    requires i < |ll| + |ln| && k == if i < |ll| then i + a else i + a + c
    ensures (ll + (ln + [v]))[i] == ((Repeat(v + 1, a) + ll) + (Repeat(v + 1, c) + ln))[k]
  {
  }

  lemma {:induction false} LevelsTop(ll: seq<nat>, ln: seq<nat>, a: nat, c: nat, v: nat, k: nat)
    requires k < a + |ll| + c + |ln|
    ensures (ll + (ln + [v]))[|ll| + |ln|] == v
    ensures k < a || a + |ll| <= k < a + |ll| + c ==> ((Repeat(v + 1, a) + ll) + (Repeat(v + 1, c) + ln))[k] == v + 1
  {
  }

  /** A deep item needs a heavy queue. */
  lemma {:induction false} DeepWeight(q: Queue, m: nat, k: nat)
    requires Size(q) >= 1 && Ordered(q) && AtLeast(q.leaves + q.nodes, m) && k < Size(q)
    ensures WeightOf(q) >= DepthWeight(AllLevels(q)[k], m, (q.leaves + q.nodes)[k])
    decreases Size(q)
  {
    hide LevelsOf, Step, Merged, Ordered, NodesTaken, Places, WeightOf, DepthWeight, AllLevels, Origin;
    if Size(q) == 1 {
      OneWeight(q, m);
    } else {
      var w := q.leaves + q.nodes;
      TakesLightest(q);
      StepWeight(q);
      StepOrdered(q);
      LevelsAfter(q, k);
      var x, y := w[Places(q).0], w[Places(q).1];
      if k == Places(q).0 || k == Places(q).1 {
        StepAtLeast(q, Max(x, y));
        DeepWeight(Step(q), Max(x, y), Size(q) - 2);
        LastItem(q);
        DepthTaken(AllLevels(Step(q))[Size(q) - 2], m, w[k], Max(x, y), Merged(q));
      } else {
        var i := Destination(q, k);
        LevelsAfter(q, i);
        StepWeightAt(q, i);
        StepAtLeast(q, m);
        DeepWeight(Step(q), m, i);
      }
    }
  }

  lemma {:induction false} LastItem(q: Queue)
    requires Size(q) >= 2
    ensures (Step(q).leaves + Step(q).nodes)[Size(q) - 2] == Merged(q)
  {
    hide Merged, NodesTaken, Step;
    StepShape(q);
  }

  lemma {:induction false} OneWeight(q: Queue, m: nat)
    requires Size(q) == 1
    ensures WeightOf(q) >= DepthWeight(AllLevels(q)[0], m, (q.leaves + q.nodes)[0])
  {
    ShortSum(q.leaves);
    ShortSum(q.nodes);
    assert AllLevels(q)[0] == 0;
    assert 0 * m == 0;
  }

  /** Positive weights that sum to less than a Fibonacci number make a shallow tree. */
  lemma {:induction false} ShallowTree(q: Queue, top: nat)
    requires Size(q) >= 1 && q.nodes == [] && Ordered(q) && AtLeast(q.leaves, 1)
    requires WeightOf(q) < Fib(top + 3)
    ensures AtMost(LevelsOf(q).leaves, top)
  {
    hide LevelsOf, Ordered, WeightOf, Fib;
    var w := q.leaves + q.nodes;
    assert w == q.leaves;
    forall k | 0 <= k < |q.leaves|
      ensures LevelsOf(q).leaves[k] <= top
    {
      DeepWeight(q, 1, k);
      var d := AllLevels(q)[k];
      FibSum(d, w[k]);
      if d > top {
        FibRises(top + 3, d + 2);
        assert false;
      }
    }
  }

  lemma {:induction false} FibSum(d: nat, x: nat)
    requires x >= 1
    ensures DepthWeight(d, 1, x) >= Fib(d + 2)
  {
    assert Fib(d + 2) == Fib(d + 1) + Fib(d);
    hide Fib;
    MulMonotone(Fib(d + 1), 1, x);
  }
}
