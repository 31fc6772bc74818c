/** No code lengths that satisfy the Kraft inequality cost less than the merge tree. */
module HuffOptimal {
  import opened Arith
  import opened HuffTree
  import Sort
  import opened Sums

  /** The Kraft sum of some lengths, scaled by 2^top. */
  ghost function Kraft(l: seq<nat>, top: nat): (r: nat)
    requires AtMost(l, top)
  {
    if l == [] then 0 else KraftTail(l, top); Pow2(top - l[0]) + Kraft(l[1..], top)
  }

  lemma {:induction false} KraftTail(l: seq<nat>, top: nat)
    requires AtMost(l, top) && l != []
    ensures l[0] <= top && AtMost(l[1..], top)
  {
  }

  lemma {:induction false} KraftAppend(l: seq<nat>, l': seq<nat>, top: nat)
    requires AtMost(l, top) && AtMost(l', top)
    ensures AtMost(l + l', top) && Kraft(l + l', top) == Kraft(l, top) + Kraft(l', top)
  {
    if l == [] {
      assert l + l' == l';
    } else {
      KraftTail(l, top);
      KraftAppend(l[1..], l', top);
      assert (l + l')[1..] == l[1..] + l';
    }
  }

  /** Changing one length. */
  lemma {:induction false} KraftUpdate(l: seq<nat>, top: nat, i: nat, v: nat)
    requires AtMost(l, top) && i < |l| && v <= top
    ensures AtMost(l[i := v], top) && Kraft(l[i := v], top) == Kraft(l, top) - Pow2(top - l[i]) + Pow2(top - v)
  {
    KraftTail(l, top);
    if i == 0 {
      assert l[i := v][1..] == l[1..];
    } else {
      KraftUpdate(l[1..], top, i - 1, v);
      assert l[i := v][1..] == l[1..][i - 1 := v];
    }
  }

  /** A sum of lengths that all are at most m is a multiple of 2^(top - m). */
  lemma {:induction false} KraftScale(l: seq<nat>, m: nat, top: nat)
    requires AtMost(l, m) && m <= top
    ensures AtMost(l, top) && Kraft(l, top) == Pow2(top - m) * Kraft(l, m)
  {
    if l != [] {
      KraftTail(l, m);
      KraftScale(l[1..], m, top);
      hide Pow2;
      Pow2Sum(top - m, m - l[0]);
      MulDistributes(Pow2(top - m), Pow2(m - l[0]), Kraft(l[1..], m));
    }
  }

  lemma {:induction false} CostUpdate(w: seq<nat>, l: seq<nat>, i: nat, v: nat)
    requires |w| == |l| && i < |l|
    ensures Cost(w, l[i := v]) == Cost(w, l) - w[i] * l[i] + w[i] * v
  {
    if i == 0 {
      assert l[i := v][1..] == l[1..];
    } else {
      CostUpdate(w[1..], l[1..], i - 1, v);
      assert l[i := v][1..] == l[1..][i - 1 := v];
    }
  }

  /** Lengths that fit a prefix code, none longer than top. */
  ghost predicate Fits(l: seq<nat>, top: nat) {
    AtMost(l, top) && Kraft(l, top) <= Pow2(top)
  }

  /** l', no dearer than l, still fits. */
  ghost predicate Cheaper(w: seq<nat>, l': seq<nat>, l: seq<nat>, top: nat)
    requires |w| == |l|
  {
    |l'| == |l| && Fits(l', top) && Cost(w, l') <= Cost(w, l)
  }

  /** Exchanging the lengths of a light short item and a heavy long one. */
  lemma {:induction false} Swap(w: seq<nat>, l: seq<nat>, top: nat, i: nat, a: nat)
    requires |w| == |l| && i < |l| && a < |l| && Fits(l, top)
    requires w[i] <= w[a] && l[i] <= l[a]
    ensures Cheaper(w, l[i := l[a]][a := l[i]], l, top)
  {
    if i != a {
      var l1 := l[i := l[a]];
      hide Kraft, Cost, Pow2;
      KraftUpdate(l, top, i, l[a]);
      KraftUpdate(l1, top, a, l[i]);
      CostUpdate(w, l, i, l[a]);
      CostUpdate(w, l1, a, l[i]);
      SwapGain(w[i], w[a], l[i], l[a]);
    } else {
      assert l[i := l[a]][a := l[i]] == l;
    }
  }

  lemma {:induction false} SwapGain(x: nat, y: nat, s: nat, t: nat)
    requires x <= y && s <= t
    ensures x * t + y * s <= x * s + y * t
  {
    MulMonotone(y - x, s, t);
    MulDistributes(s, y, x);
    MulDistributes(t, y, x);
  }

  /** The index of a longest length, other than `skip`. */
  lemma {:induction false} Longest(l: seq<nat>, skip: int) returns (a: nat)
    requires |l| >= 1 && (0 <= skip < |l| ==> |l| >= 2)
    ensures a < |l| && a != skip && forall k | 0 <= k < |l| && k != skip :: l[k] <= l[a]
  {
    a := if skip == 0 then 1 else 0;
    for i := 0 to |l|
      invariant a < |l| && a != skip
      invariant forall k | 0 <= k < i && k != skip :: l[k] <= l[a]
    {
      if i != skip && l[i] > l[a] {
        a := i;
      }
    }
  }

  /** The longest length need not be the only one of its size: it can be cut down to
      the next, because what is left of the Kraft sum is too coarse to mind. */
  lemma {:induction false} LevelLongest(w: seq<nat>, l: seq<nat>, top: nat, a: nat, b: nat)
    requires |w| == |l| && a < |l| && b < |l| && a != b && Fits(l, top)
    requires forall k | 0 <= k < |l| && k != a :: l[k] <= l[b]
    requires l[b] <= l[a]
    ensures 1 <= l[b] && Cheaper(w, l[a := l[b]], l, top)
  {
    var m := l[b];
    var l1 := l[a := m];
    assert AtMost(l1, m);
    hide Cost;
    KraftUpdate(l, top, a, m);
    KraftScale(l1, m, top);
    KraftTwo(l1, m, a, b);
    CostUpdate(w, l, a, m);
    MulMonotone(w[a], m, l[a]);
    hide Kraft, Fits, Pow2;
    CoarseFits(Kraft(l1, m), m, top, Pow2(top - l[a]));
    assert Kraft(l1, top) <= Pow2(top);
    assert Fits(l1, top) by {
      FitsIntro(l1, top);
    }
  }

  lemma {:induction false} FitsIntro(l: seq<nat>, top: nat)
    requires AtMost(l, top) && Kraft(l, top) <= Pow2(top)
    ensures Fits(l, top)
  {
  }

  /** Two items of the longest length. */
  lemma {:induction false} KraftTwo(l: seq<nat>, m: nat, a: nat, b: nat)
    requires AtMost(l, m) && a < |l| && b < |l| && a != b && l[a] == m == l[b]
    ensures Kraft(l, m) >= 2
  {
    KraftOne(l, m, if a < b then a else b);
    var i, j := if a < b then a else b, if a < b then b else a;
    assert l == l[..i + 1] + l[i + 1..];
    assert AtMost(l[..i + 1], m) && AtMost(l[i + 1..], m);
    KraftAppend(l[..i + 1], l[i + 1..], m);
    KraftOne(l[..i + 1], m, i);
    KraftOne(l[i + 1..], m, j - i - 1);
  }

  lemma {:induction false} KraftOne(l: seq<nat>, m: nat, i: nat)
    requires AtMost(l, m) && i < |l|
    ensures Kraft(l, m) >= 1
  {
  }

  /** k units of 2^(top - m), all but one of them replaced by something positive, fit
      under 2^top: then all k fit. */
  lemma {:induction false} CoarseFits(k: nat, m: nat, top: nat, rest: nat)
    requires m <= top && k >= 2 && rest >= 1
    requires Pow2(top - m) * k - Pow2(top - m) + rest <= Pow2(top)
    ensures Pow2(top - m) * k <= Pow2(top) && m >= 1
  {
    Pow2Sum(top - m, m);
    MulDistributes(Pow2(top - m), k, 1);
    MulCancel(Pow2(top - m), k - 1, Pow2(m));
    MulMonotone(Pow2(top - m), k, Pow2(m));
    assert m == 0 ==> Pow2(m) == 1;
  }

  /** The two lightest items may be taken to have one common, longest length. */
  lemma {:induction false} Exchange(w: seq<nat>, l: seq<nat>, top: nat, i: nat, j: nat) returns (l': seq<nat>, m: nat)
    requires |w| == |l| && i < |l| && j < |l| && i != j && Fits(l, top)
    requires forall k | 0 <= k < |l| && k != i && k != j :: w[i] <= w[k] && w[j] <= w[k]
    ensures Cheaper(w, l', l, top) && l'[i] == m == l'[j] && 1 <= m <= top
  {
    hide Fits, Cost, Kraft;
    var a := Longest(l, -1);
    var b := Longest(l, a);
    LevelLongest(w, l, top, a, b);
    m := l[b];
    var l1 := l[a := m];
    assert m <= top by {
      FitsTop(l, top, b);
    }
    // l1[a] == l1[b] == m, the largest length
    if (i == a || i == b) && (j == a || j == b) {
      l' := l1;
    } else if i == a || i == b {
      var c := if i == a then b else a;
      Swap(w, l1, top, j, c);
      l' := l1[j := l1[c]][c := l1[j]];
    } else if j == a || j == b {
      var c := if j == a then b else a;
      Swap(w, l1, top, i, c);
      l' := l1[i := l1[c]][c := l1[i]];
    } else {
      Swap(w, l1, top, i, a);
      var l2 := l1[i := l1[a]][a := l1[i]];
      Swap(w, l2, top, j, b);
      l' := l2[j := l2[b]][b := l2[j]];
    }
  }

  lemma {:induction false} FitsTop(l: seq<nat>, top: nat, b: nat)
    requires Fits(l, top) && b < |l|
    ensures l[b] <= top
  {
  }

  // ---------- the merge tree is a lower bound ----------

  /** A queue as merging leaves it: both lists rise, and no item is lighter than half
      the node made last. */
  ghost predicate Ordered(q: Queue) {
    && Sort.Ascending(q.leaves) && Sort.Ascending(q.nodes)
    && (q.nodes != [] ==> Heavy(q.leaves, q.nodes[|q.nodes| - 1]) && Heavy(q.nodes, q.nodes[|q.nodes| - 1]))
  }

  ghost predicate Heavy(s: seq<nat>, v: nat) {
    forall i | 0 <= i < |s| :: 2 * s[i] >= v
  }

  /** The two items that a merge takes, as places in leaves + nodes. */
  ghost function Places(q: Queue): (r: (nat, nat))
    requires Size(q) >= 2
    ensures r.0 < Size(q) && r.1 < Size(q) && r.0 != r.1
  {
    var c, n := NodesTaken(q), |q.leaves|;
    if c == 0 then (0, 1) else if c == 1 then (0, n) else (n, n + 1)
  }

  /** A merge takes the two lightest items. */
  lemma {:induction false} TakesLightest(q: Queue)
    requires Size(q) >= 2 && Ordered(q)
    ensures var w := q.leaves + q.nodes; var p := Places(q);
      && Merged(q) == w[p.0] + w[p.1]
      && forall k | 0 <= k < |w| && k != p.0 && k != p.1 :: w[p.0] <= w[k] && w[p.1] <= w[k]
  {
    var c := NodesTaken(q);
    ShortSum(q.leaves[..2 - c]);
    ShortSum(q.nodes[..c]);
    hide Sum, Heavy;
    var w, p := q.leaves + q.nodes, Places(q);
    forall k | 0 <= k < |w| && k != p.0 && k != p.1
      ensures w[p.0] <= w[k] && w[p.1] <= w[k]
    {
      assert w[k] == if k < |q.leaves| then q.leaves[k] else q.nodes[k - |q.leaves|];
    }
  }

  /** How the items that are left compare with the new node. */
  lemma {:induction false} LeftOver(q: Queue)
    requires Size(q) >= 2 && Ordered(q)
    ensures Heavy(q.leaves[2 - NodesTaken(q)..], Merged(q))
    ensures Heavy(q.nodes[NodesTaken(q)..], Merged(q)) && AtMost(q.nodes[NodesTaken(q)..], Merged(q))
  {
    hide Sum, Merged, Ordered, NodesTaken, Sort.Ascending;
    var c, s := NodesTaken(q), Merged(q);
    var tl, tn := q.leaves[2 - c..], q.nodes[c..];
    forall i | 0 <= i < |tl|
      ensures 2 * tl[i] >= s
    {
      LeftLeaf(q, i + 2 - c);
    }
    forall i | 0 <= i < |tn|
      ensures 2 * tn[i] >= s && tn[i] <= s
    {
      LeftNode(q, c + i);
    }
  }

  lemma {:induction false} LeftLeaf(q: Queue, i: nat)
    requires Size(q) >= 2 && Ordered(q) && 2 - NodesTaken(q) <= i < |q.leaves|
    ensures 2 * q.leaves[i] >= Merged(q)
  {
    hide Ordered, Merged, NodesTaken, Places;
    PlacesAre(q);
    LeftHeavy(q, i);
  }

  lemma {:induction false} LeftNode(q: Queue, i: nat)
    requires Size(q) >= 2 && Ordered(q) && NodesTaken(q) <= i < |q.nodes|
    ensures 2 * q.nodes[i] >= Merged(q) >= q.nodes[i]
  {
    hide Ordered, Merged, NodesTaken, Places;
    PlacesAre(q);
    LeftHeavy(q, |q.leaves| + i);
    NodesRise(q, i);
  }

  lemma {:induction false} PlacesAre(q: Queue)
    requires Size(q) >= 2
    ensures Places(q).0 < 2 - NodesTaken(q) || |q.leaves| <= Places(q).0 < |q.leaves| + NodesTaken(q)
    ensures Places(q).1 < 2 - NodesTaken(q) || |q.leaves| <= Places(q).1 < |q.leaves| + NodesTaken(q)
  {
    var c := NodesTaken(q);
    assert c == 0 || c == 1 || c == 2;
  }

  /** An item that is not taken. */
  lemma {:induction false} LeftHeavy(q: Queue, k: nat)
    requires Size(q) >= 2 && Ordered(q) && k < Size(q) && k != Places(q).0 && k != Places(q).1
    ensures 2 * (q.leaves + q.nodes)[k] >= Merged(q)
    ensures q.nodes != [] ==> q.nodes[|q.nodes| - 1] <= Merged(q)
  {
    hide Ordered, Merged, NodesTaken, Places;
    TakesLightest(q);
    LastLight(q, Places(q).0);
    LastLight(q, Places(q).1);
  }

  lemma {:induction false} LastLight(q: Queue, k: nat)
    requires Ordered(q) && k < Size(q)
    ensures q.nodes != [] ==> q.nodes[|q.nodes| - 1] <= 2 * (q.leaves + q.nodes)[k]
  {
    var w := q.leaves + q.nodes;
    assert w[k] == if k < |q.leaves| then q.leaves[k] else q.nodes[k - |q.leaves|];
  }

  lemma {:induction false} NodesRise(q: Queue, k: nat)
    requires Ordered(q) && k < |q.nodes|
    ensures q.nodes[k] <= q.nodes[|q.nodes| - 1]
  {
  }

  lemma {:induction false} RisingAppend(t: seq<nat>, s: nat)
    requires Sort.Ascending(t) && AtMost(t, s) && Heavy(t, s)
    ensures Sort.Ascending(t + [s]) && Heavy(t + [s], s)
  {
  }

  lemma {:induction false} RisingSuffix(t: seq<nat>, k: nat)
    requires Sort.Ascending(t) && k <= |t|
    ensures Sort.Ascending(t[k..])
  {
  }

  /** Merging keeps the queue ordered. */
  lemma {:induction false} StepOrdered(q: Queue)
    requires Size(q) >= 2 && Ordered(q)
    ensures Ordered(Step(q))
  {
    var c := NodesTaken(q);
    LeftOver(q);
    RisingSuffix(q.leaves, 2 - c);
    RisingSuffix(q.nodes, c);
    hide Sum, Merged, Heavy, Sort.Ascending, AtMost, NodesTaken;
    RisingAppend(q.nodes[c..], Merged(q));
    assert (q.nodes[c..] + [Merged(q)])[|q.nodes| - c] == Merged(q);
  }

  // ---------- lengths of the queue after a merge ----------

  /** The lengths of the items that a merge leaves, with one less for the new node. */
  ghost function MergedLengths(q: Queue, l: seq<nat>, m: nat): (r: seq<nat>)
    requires Size(q) >= 2 && |l| == Size(q) && m >= 1
    ensures |r| == Size(q) - 1
  {
    hide NodesTaken;
    var c, n := NodesTaken(q), |q.leaves|;
    l[2 - c..n] + l[n + c..] + [m - 1]
  }

  /** The lengths in four pieces: taken leaves, other leaves, taken nodes, other nodes. */
  lemma {:induction false} Pieces(q: Queue, l: seq<nat>, m: nat) returns (a: seq<nat>, b: seq<nat>, x: seq<nat>,
                                  y: seq<nat>)
    requires Size(q) >= 2 && |l| == Size(q) && m >= 1
    requires l[Places(q).0] == m == l[Places(q).1]
    ensures |a| == 2 - NodesTaken(q) && |x| == NodesTaken(q) && |b| == |q.leaves| - |a| && |y| == |q.nodes| - |x|
    ensures l == a + (b + (x + y)) && MergedLengths(q, l, m) == b + y + [m - 1]
    ensures a == Repeat(m, |a|) && x == Repeat(m, |x|)
  {
    var c, n := NodesTaken(q), |q.leaves|;
    a, b, x, y := l[..2 - c], l[2 - c..n], l[n..n + c], l[n + c..];
    TakenLengths(q, l, m);
    hide NodesTaken, Places, Repeat;
    FourPieces(l, 2 - c, n, c);
  }

  lemma {:induction false} FourPieces(l: seq<nat>, i: nat, n: nat, c: nat)
    requires i <= n && n + c <= |l|
    ensures l == l[..i] + (l[i..n] + (l[n..n + c] + l[n + c..]))
  {
  }

  lemma {:induction false} TakenLengths(q: Queue, l: seq<nat>, m: nat)
    requires Size(q) >= 2 && |l| == Size(q)
    requires l[Places(q).0] == m == l[Places(q).1]
    ensures var c, n := NodesTaken(q), |q.leaves|;
      l[..2 - c] == Repeat(m, 2 - c) && l[n..n + c] == Repeat(m, c)
  {
    var c, n := NodesTaken(q), |q.leaves|;
    hide NodesTaken, Repeat;
    assert forall i | 0 <= i < 2 - c :: l[i] == m;
    assert forall i | n <= i < n + c :: l[i] == m;
    AllSame(l[..2 - c], m);
    AllSame(l[n..n + c], m);
  }

  lemma {:induction false} AllSame(s: seq<nat>, m: nat)
    requires forall i | 0 <= i < |s| :: s[i] == m
    ensures s == Repeat(m, |s|)
  {
  }

  lemma {:induction false} KraftPieces(a: seq<nat>, b: seq<nat>, x: seq<nat>, y: seq<nat>, m: nat, top: nat)
    requires |a| + |x| == 2 && a == Repeat(m, |a|) && x == Repeat(m, |x|) && 1 <= m <= top
    requires AtMost(b, top) && AtMost(y, top)
    ensures AtMost(a + (b + (x + y)), top) && AtMost(b + y + [m - 1], top)
    ensures Kraft(a + (b + (x + y)), top) == Kraft(b + y + [m - 1], top)
  {
    assert AtMost(a, top) && AtMost(x, top) && AtMost([m - 1], top);
    KraftPair(|a|, |x|, m, top);
    hide Kraft, Pow2, AtMost, Repeat;
    KraftAppend(x, y, top);
    KraftAppend(b, x + y, top);
    KraftAppend(a, b + (x + y), top);
    KraftAppend(b, y, top);
    KraftAppend(b + y, [m - 1], top);
  }

  lemma {:induction false} KraftPair(i: nat, j: nat, m: nat, top: nat)
    requires i + j == 2 && 1 <= m <= top
    ensures AtMost(Repeat(m, i), top) && AtMost(Repeat(m, j), top) && AtMost([m - 1], top)
    ensures Kraft(Repeat(m, i), top) + Kraft(Repeat(m, j), top) == Kraft([m - 1], top)
  {
    KraftRepeat(m, i, top);
    KraftRepeat(m, j, top);
    assert [m - 1] == Repeat(m - 1, 1);
    KraftRepeat(m - 1, 1, top);
    assert Pow2(top - (m - 1)) == 2 * Pow2(top - m);
    MulDistributes(Pow2(top - m), i, j);
  }

  lemma {:induction false} KraftRepeat(m: nat, i: nat, top: nat)
    requires m <= top
    ensures AtMost(Repeat(m, i), top) && Kraft(Repeat(m, i), top) == Pow2(top - m) * i
  {
    if i > 0 {
      KraftRepeat(m, i - 1, top);
      assert Repeat(m, i)[1..] == Repeat(m, i - 1);
      MulDistributes(Pow2(top - m), i - 1, 1);
    }
  }

  /** The Kraft sum does not change by the merge. */
  lemma {:induction false} MergedFits(q: Queue, l: seq<nat>, m: nat, top: nat)
    requires Size(q) >= 2 && |l| == Size(q) && Fits(l, top) && 1 <= m <= top
    requires l[Places(q).0] == m == l[Places(q).1]
    ensures Fits(MergedLengths(q, l, m), top)
  {
    hide NodesTaken, Places, MergedLengths, Repeat, Kraft, Pow2;
    var a, b, x, y := Pieces(q, l, m);
    PiecesAtMost(a, b, x, y, top);
    hide AtMost;
    KraftPieces(a, b, x, y, m, top);
  }

  lemma {:induction false} PiecesAtMost(a: seq<nat>, b: seq<nat>, x: seq<nat>, y: seq<nat>, top: nat)
    requires AtMost(a + (b + (x + y)), top)
    ensures AtMost(b, top) && AtMost(y, top)
  {
    var l := a + (b + (x + y));
    forall i | 0 <= i < |b|
      ensures b[i] <= top
    {
      assert l[|a| + i] == b[i];
    }
    forall i | 0 <= i < |y|
      ensures y[i] <= top
    {
      assert l[|a| + |b| + |x| + i] == y[i];
    }
  }

  lemma {:induction false} CostPieces(wa: seq<nat>, wb: seq<nat>, wx: seq<nat>, wy: seq<nat>, b: seq<nat>,
                                      y: seq<nat>, m: nat, s: nat)
    requires |wb| == |b| && |wy| == |y| && m >= 1 && Sum(wa) + Sum(wx) == s
    ensures Cost(wa + (wb + (wx + wy)), Repeat(m, |wa|) + (b + (Repeat(m, |wx|) + y))) ==
              Cost(wb + wy + [s], b + y + [m - 1]) + s
  {
    hide Cost, Sum, Repeat;
    CostAppend(wx, Repeat(m, |wx|), wy, y);
    CostAppend(wb, b, wx + wy, Repeat(m, |wx|) + y);
    CostAppend(wa, Repeat(m, |wa|), wb + (wx + wy), b + (Repeat(m, |wx|) + y));
    CostAppend(wb, b, wy, y);
    CostAppend(wb + wy, b + y, [s], [m - 1]);
    CostRepeat(wa, m);
    CostRepeat(wx, m);
    CostOne(s, m - 1);
    MulDistributes(m, Sum(wa), Sum(wx));
    MulDistributes(s, m, 1);
  }

  /** The cost falls by the weight of the new node. */
  lemma {:induction false} MergedCost(q: Queue, l: seq<nat>, m: nat)
    requires Size(q) >= 2 && |l| == Size(q) && 1 <= m
    requires l[Places(q).0] == m == l[Places(q).1]
    ensures Cost(q.leaves + q.nodes, l) == Cost(Step(q).leaves + Step(q).nodes, MergedLengths(q, l, m)) + Merged(q)
  {
    var a, b, x, y := Pieces(q, l, m);
    var c := NodesTaken(q);
    StepPieces(q);
    hide Cost, NodesTaken, Places, Step, Merged, Sum, Repeat, MergedLengths;
    CostPieces(q.leaves[..2 - c], q.leaves[2 - c..], q.nodes[..c], q.nodes[c..], b, y, m, Merged(q));
  }

  lemma {:induction false} StepPieces(q: Queue)
    requires Size(q) >= 2
    ensures var c := NodesTaken(q);
      && q.leaves + q.nodes == q.leaves[..2 - c] + (q.leaves[2 - c..] + (q.nodes[..c] + q.nodes[c..]))
      && Step(q).leaves + Step(q).nodes == q.leaves[2 - c..] + q.nodes[c..] + [Merged(q)]
      && Sum(q.leaves[..2 - c]) + Sum(q.nodes[..c]) == Merged(q)
  {
    hide *;
    var c := NodesTaken(q);
    StepShape(q);
    MergedSum(q);
    TwoPieces(q.leaves, 2 - c);
    TwoPieces(q.nodes, c);
    Reassociate(q.leaves[..2 - c], q.leaves[2 - c..], q.nodes[..c], q.nodes[c..], [Merged(q)]);
  }

  lemma {:induction false} MergedSum(q: Queue)
    requires Size(q) >= 2
    ensures Merged(q) == Sum(q.leaves[..2 - NodesTaken(q)]) + Sum(q.nodes[..NodesTaken(q)])
  {
    hide Sum, NodesTaken;
  }

  lemma {:induction false} TwoPieces(s: seq<nat>, k: nat)
    requires k <= |s|
    ensures s == s[..k] + s[k..]
  {
  }

  lemma {:induction false} Reassociate(a: seq<nat>, b: seq<nat>, c: seq<nat>, d: seq<nat>, e: seq<nat>)
    ensures (a + b) + (c + d) == a + (b + (c + d))
    ensures b + (d + e) == b + d + e
  {
  }

  lemma {:induction false} CostOne(w: nat, l: nat)
    ensures Cost([w], [l]) == w * l
  {
  }

  /** Every choice of lengths that fits a prefix code costs at least what the merge
      tree costs. */
  lemma {:induction false} LowerBound(q: Queue, l: seq<nat>, top: nat)
    requires Size(q) >= 1 && Ordered(q) && |l| == Size(q) && Fits(l, top)
    ensures Cost(q.leaves + q.nodes, l) >= MergeCost(q)
    decreases Size(q)
  {
    hide Cost, Fits, Ordered, NodesTaken, Places, Step, Merged, MergedLengths;
    if Size(q) >= 2 {
      TakesLightest(q);
      var l', m := Exchange(q.leaves + q.nodes, l, top, Places(q).0, Places(q).1);
      MergedFits(q, l', m, top);
      MergedCost(q, l', m);
      StepOrdered(q);
      LowerBound(Step(q), MergedLengths(q, l', m), top);
    }
  }
}
