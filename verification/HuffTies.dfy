/** Ties: because a leaf is taken before a node of the same weight, no code as cheap as
    the merge tree has a smaller longest length. */
module HuffTies {
  import opened Arith
  import opened HuffTree
  import opened HuffOptimal
  import opened Sums

  // ---------- heights ----------

  /** Lighter, or as light and no higher. */
  ghost predicate Lex(w: nat, h: nat, w': nat, h': nat) {
    w < w' || (w == w' && h <= h')
  }

  /** The heights of leaves + nodes: leaves have none. */
  ghost function Heights(q: Queue, hs: seq<nat>): (r: seq<nat>)
    requires |hs| == |q.nodes|
    ensures |r| == Size(q)
    ensures forall k | 0 <= k < |q.leaves| :: r[k] == 0
    ensures forall k | 0 <= k < |hs| :: r[|q.leaves| + k] == hs[k]
  {
    Repeat(0, |q.leaves|) + hs
  }

  ghost function Max(a: nat, b: nat): nat { if a < b then b else a }

  /** The height of the node that the next merge makes. */
  ghost function MergedHeight(q: Queue, hs: seq<nat>): nat
    requires Size(q) >= 2 && |hs| == |q.nodes|
  {
    var c := NodesTaken(q);
    if c == 0 then 1 else if c == 1 then 1 + hs[0] else 1 + Max(hs[0], hs[1])
  }

  ghost function StepHeights(q: Queue, hs: seq<nat>): (r: seq<nat>)
    requires Size(q) >= 2 && |hs| == |q.nodes|
    ensures |r| == |Step(q).nodes|
  {
    StepShape(q);
    hs[NodesTaken(q)..] + [MergedHeight(q, hs)]
  }

  ghost predicate Positive(s: seq<nat>) {
    forall i | 0 <= i < |s| :: s[i] > 0
  }

  /** The nodes rise by weight and height. */
  ghost predicate NodesRank(nodes: seq<nat>, hs: seq<nat>) {
    |hs| == |nodes| && forall i, j | 0 <= i < j < |nodes| :: Lex(nodes[i], hs[i], nodes[j], hs[j])
  }

  /** Two of any item, merged, would not come before a node (v, g). */
  ghost predicate HeavyRank(s: seq<nat>, hs: seq<nat>, v: nat, g: nat) {
    |hs| == |s| && forall i | 0 <= i < |s| :: Lex(v, g, 2 * s[i], hs[i] + 1)
  }

  /** A queue as merging leaves it, heights included. */
  ghost predicate Ranked(q: Queue, hs: seq<nat>) {
    && Ordered(q) && Positive(q.leaves) && Positive(q.nodes)
    && NodesRank(q.nodes, hs)
    && (q.nodes != [] ==>
          HeavyRank(q.leaves + q.nodes, Heights(q, hs), q.nodes[|q.nodes| - 1], hs[|hs| - 1]))
  }

  /** A merge takes the two items that are first by weight and height. */
  lemma {:induction false} TakesLeast(q: Queue, hs: seq<nat>, k: nat)
    requires Size(q) >= 2 && Ordered(q) && NodesRank(q.nodes, hs)
    requires k < Size(q) && k != Places(q).0 && k != Places(q).1
    ensures (var w, h, p := q.leaves + q.nodes, Heights(q, hs), Places(q);
      Lex(w[p.0], h[p.0], w[k], h[k]) && Lex(w[p.1], h[p.1], w[k], h[k]))
  {
    hide Heights, Heavy;
    var w, h, p := q.leaves + q.nodes, Heights(q, hs), Places(q);
    var c, n := NodesTaken(q), |q.leaves|;
    if k < n {
      assert w[k] == q.leaves[k];
    } else {
      assert w[k] == q.nodes[k - n];
      assert h[n + (k - n)] == hs[k - n];
    }
    if c == 0 {
      assert w[0] == q.leaves[0] && w[1] == q.leaves[1];
    } else if c == 1 {
      assert w[0] == q.leaves[0] && w[n] == q.nodes[0] && h[n + 0] == hs[0];
    } else {
      assert w[n] == q.nodes[0] && w[n + 1] == q.nodes[1] && h[n + 0] == hs[0] && h[n + 1] == hs[1];
    }
  }

  /** The new node's weight and height, from the two places. */
  lemma {:induction false} MergedPlaces(q: Queue, hs: seq<nat>)
    requires Size(q) >= 2 && Ordered(q) && |hs| == |q.nodes|
    ensures (var w, h, p := q.leaves + q.nodes, Heights(q, hs), Places(q);
      Merged(q) == w[p.0] + w[p.1] && MergedHeight(q, hs) == 1 + Max(h[p.0], h[p.1]))
  {
    TakesLightest(q);
    hide Ordered, Merged;
  }

  /** Items that are left are no lighter than half the new node. */
  lemma {:induction false} LeftRank(x: nat, g: nat, y: nat, f: nat, z: nat, e: nat)
    requires Lex(x, g, z, e) && Lex(y, f, z, e)
    ensures Lex(x + y, 1 + Max(g, f), 2 * z, e + 1)
  {
  }

  /** The new node comes after the last one. */
  lemma {:induction false} NewRank(x: nat, g: nat, y: nat, f: nat, v: nat, e: nat)
    requires Lex(v, e, 2 * x, g + 1) && Lex(v, e, 2 * y, f + 1)
    ensures Lex(v, e, x + y, 1 + Max(g, f))
  {
  }

  lemma {:induction false} PositiveAt(s: seq<nat>, i: nat)
    requires Positive(s) && i < |s|
    ensures s[i] > 0
  {
  }

  lemma {:induction false} PositiveBoth(s: seq<nat>, t: seq<nat>)
    requires Positive(s) && Positive(t)
    ensures Positive(s + t)
  {
  }

  lemma {:induction false} PositiveDrop(s: seq<nat>, k: nat)
    requires Positive(s) && k <= |s|
    ensures Positive(s[k..])
  {
  }

  // ---------- merging keeps the queue ranked ----------

  lemma {:induction false} RankedParts(q: Queue, hs: seq<nat>)
    requires Ranked(q, hs)
    ensures Ordered(q) && Positive(q.leaves) && Positive(q.nodes) && Positive(q.leaves + q.nodes)
    ensures NodesRank(q.nodes, hs) && |hs| == |q.nodes|
  {
    hide Ordered, Heights, HeavyRank;
    PositiveBoth(q.leaves, q.nodes);
  }

  /** An item against the last node. */
  lemma {:induction false} AgainstLast(q: Queue, hs: seq<nat>, k: nat)
    requires Ranked(q, hs) && q.nodes != [] && k < Size(q)
    ensures |hs| == |q.nodes|
    ensures Lex(q.nodes[|q.nodes| - 1], hs[|hs| - 1], 2 * (q.leaves + q.nodes)[k], Heights(q, hs)[k] + 1)
  {
    hide Ordered, Heights, Lex, Positive;
  }

  lemma {:induction false} NodesRankAt(nodes: seq<nat>, hs: seq<nat>, i: nat, j: nat)
    requires NodesRank(nodes, hs) && i <= j < |nodes|
    ensures Lex(nodes[i], hs[i], nodes[j], hs[j])
  {
  }

  /** Every node that is left comes before the new one. */
  lemma {:induction false} BeforeNew(q: Queue, hs: seq<nat>, i: nat)
    requires Size(q) >= 2 && Ranked(q, hs) && |hs| == |q.nodes| && i < |q.nodes|
    ensures Lex(q.nodes[i], hs[i], Merged(q), MergedHeight(q, hs))
  {
    hide Ranked, Ordered, NodesTaken, Merged, MergedHeight, Heights, Lex, Places;
    RankedParts(q, hs);
    var w, h, p := q.leaves + q.nodes, Heights(q, hs), Places(q);
    var v, e := q.nodes[|q.nodes| - 1], hs[|hs| - 1];
    MergedPlaces(q, hs);
    AgainstLast(q, hs, p.0);
    AgainstLast(q, hs, p.1);
    NewRank(w[p.0], h[p.0], w[p.1], h[p.1], v, e);
    NodesRankAt(q.nodes, hs, i, |q.nodes| - 1);
    LexTransitive(q.nodes[i], hs[i], v, e, Merged(q), MergedHeight(q, hs));
  }

  lemma {:induction false} LexTransitive(a: nat, x: nat, b: nat, y: nat, c: nat, z: nat)
    requires Lex(a, x, b, y) && Lex(b, y, c, z)
    ensures Lex(a, x, c, z)
  {
  }

  /** Two of an item that is left would not come before the new node. */
  lemma {:induction false} AfterNew(q: Queue, hs: seq<nat>, k: nat)
    requires Size(q) >= 2 && Ranked(q, hs) && |hs| == |q.nodes|
    requires k < Size(q) && k != Places(q).0 && k != Places(q).1
    ensures Lex(Merged(q), MergedHeight(q, hs), 2 * (q.leaves + q.nodes)[k], Heights(q, hs)[k] + 1)
  {
    hide Ranked, Ordered, NodesTaken, Merged, MergedHeight, Heights, Lex, Places;
    RankedParts(q, hs);
    var w, h, p := q.leaves + q.nodes, Heights(q, hs), Places(q);
    MergedPlaces(q, hs);
    TakesLeast(q, hs, k);
    LeftRank(w[p.0], h[p.0], w[p.1], h[p.1], w[k], h[k]);
  }

  lemma {:induction false} MergedPositive(q: Queue, hs: seq<nat>)
    requires Size(q) >= 2 && Ranked(q, hs)
    ensures Merged(q) > 0
  {
    hide Ranked, Ordered, NodesTaken, Merged, Heights, Places;
    RankedParts(q, hs);
    TakesLightest(q);
    PositiveAt(q.leaves + q.nodes, Places(q).0);
  }

  lemma {:induction false} NewNodesRank(nodes: seq<nat>, hs: seq<nat>, c: nat, v: nat, g: nat)
    requires NodesRank(nodes, hs) && c <= |nodes|
    requires forall i | c <= i < |nodes| :: Lex(nodes[i], hs[i], v, g)
    ensures NodesRank(nodes[c..] + [v], hs[c..] + [g])
  {
    hide Lex;
    var n', h' := nodes[c..] + [v], hs[c..] + [g];
    forall i, j | 0 <= i < j < |n'|
      ensures Lex(n'[i], h'[i], n'[j], h'[j])
    {
      assert n'[i] == nodes[c + i] && h'[i] == hs[c + i];
      if j < |nodes| - c {
        assert n'[j] == nodes[c + j] && h'[j] == hs[c + j];
      }
    }
  }

  /** Where the item i that a merge leaves was before. */
  ghost function Origin(q: Queue, i: nat): nat
    requires Size(q) >= 2
  {
    if i + 2 < |q.leaves| + NodesTaken(q) then i + 2 - NodesTaken(q) else i + 2
  }

  lemma {:induction false} OriginFree(q: Queue, i: nat)
    requires Size(q) >= 2 && i < Size(q) - 2
    ensures Origin(q, i) < Size(q) && Origin(q, i) != Places(q).0 && Origin(q, i) != Places(q).1
  {
    PlacesAre(q);
    hide Places, NodesTaken;
  }

  /** The items after a merge, one by one. */
  lemma {:induction false} StepItem(q: Queue, hs: seq<nat>, i: nat) returns (k: nat)
    requires Size(q) >= 2 && |hs| == |q.nodes| && i < Size(q) - 2
    ensures k == Origin(q, i) && k < Size(q) && k != Places(q).0 && k != Places(q).1
    ensures (Step(q).leaves + Step(q).nodes)[i] == (q.leaves + q.nodes)[k]
    ensures Heights(Step(q), StepHeights(q, hs))[i] == Heights(q, hs)[k]
  {
    hide Merged, MergedHeight, Step, NodesTaken, Places, Heights, StepHeights;
    StepShape(q);
    StepHeightsAre(q, hs);
    OriginFree(q, i);
    k := Origin(q, i);
    ItemsDropped(q.leaves, q.nodes, 2 - NodesTaken(q), NodesTaken(q), [Merged(q)], i, k);
    StepHeight(q, hs, i);
  }

  lemma {:induction false} StepHeight(q: Queue, hs: seq<nat>, i: nat)
    requires Size(q) >= 2 && |hs| == |q.nodes| && i < Size(q) - 2
    ensures Origin(q, i) < Size(q) && Heights(Step(q), StepHeights(q, hs))[i] == Heights(q, hs)[Origin(q, i)]
  {
    hide Merged, MergedHeight, Step, NodesTaken, Heights, StepHeights;
    StepShape(q);
    StepHeightsAre(q, hs);
    var c, n := NodesTaken(q), |q.leaves|;
    var q', hs' := Step(q), StepHeights(q, hs);
    if i + 2 >= n + c {
      var j := i + 2 - n - c;
      assert Heights(q', hs')[|q'.leaves| + j] == hs'[j] == hs[c + j];
      assert Heights(q, hs)[n + (c + j)] == hs[c + j];
    }
  }

  lemma {:induction false} ItemsDropped(s: seq<nat>, t: seq<nat>, a: nat, c: nat, e: seq<nat>, i: nat, k: nat)
    requires a <= |s| && c <= |t| && i + a + c < |s| + |t|
    requires k == if i + a < |s| then i + a else i + a + c
    ensures (s[a..] + (t[c..] + e))[i] == (s + t)[k]
  {
  }

  lemma {:induction false} StepLast(q: Queue, hs: seq<nat>)
    requires Size(q) >= 2 && |hs| == |q.nodes|
    ensures (var q' := Step(q); var hs' := StepHeights(q, hs); var n := Size(q') - 1;
      q'.nodes != [] && q'.nodes[|q'.nodes| - 1] == Merged(q) && hs'[|hs'| - 1] == MergedHeight(q, hs)
      && (q'.leaves + q'.nodes)[n] == Merged(q) && Heights(q', hs')[n] == MergedHeight(q, hs))
  {
    StepShape(q);
    hide Merged, MergedHeight, Step, NodesTaken;
    var q', hs' := Step(q), StepHeights(q, hs);
    assert hs'[|hs'| - 1] == MergedHeight(q, hs);
    assert Heights(q', hs')[|q'.leaves| + (|hs'| - 1)] == hs'[|hs'| - 1];
  }

  lemma {:induction false} StepRanked(q: Queue, hs: seq<nat>)
    requires Size(q) >= 2 && Ranked(q, hs) && |hs| == |q.nodes|
    ensures Ranked(Step(q), StepHeights(q, hs))
  {
    hide Ranked, Ordered, NodesTaken, Merged, MergedHeight, Heights, Lex, Places, Positive, NodesRank,
      StepHeights, Step;
    var q', hs' := Step(q), StepHeights(q, hs);
    var c := NodesTaken(q);
    RankedParts(q, hs);
    StepOrdered(q);
    StepShape(q);
    StepHeightsAre(q, hs);
    MergedPositive(q, hs);
    PositiveDrop(q.leaves, 2 - c);
    PositiveDrop(q.nodes, c);
    PositiveOne(Merged(q));
    PositiveBoth(q.nodes[c..], [Merged(q)]);
    forall i | c <= i < |q.nodes|
      ensures Lex(q.nodes[i], hs[i], Merged(q), MergedHeight(q, hs))
    {
      BeforeNew(q, hs, i);
    }
    NewNodesRank(q.nodes, hs, c, Merged(q), MergedHeight(q, hs));
    StepLast(q, hs);
    var w', h' := q'.leaves + q'.nodes, Heights(q', hs');
    forall i | 0 <= i < |w'|
      ensures Lex(Merged(q), MergedHeight(q, hs), 2 * w'[i], h'[i] + 1)
    {
      if i < |w'| - 1 {
        var k := StepItem(q, hs, i);
        AfterNew(q, hs, k);
      } else {
        LexDouble(Merged(q), MergedHeight(q, hs));
      }
    }
    RankedIntro(q', hs', Merged(q), MergedHeight(q, hs));
  }

  lemma {:induction false} StepHeightsAre(q: Queue, hs: seq<nat>)
    requires Size(q) >= 2 && |hs| == |q.nodes|
    ensures StepHeights(q, hs) == hs[NodesTaken(q)..] + [MergedHeight(q, hs)]
  {
  }

  lemma {:induction false} PositiveOne(v: nat)
    requires v > 0
    ensures Positive([v])
  {
  }

  lemma {:induction false} LexDouble(v: nat, g: nat)
    requires v > 0
    ensures Lex(v, g, 2 * v, g + 1)
  {
  }

  lemma {:induction false} RankedIntro(q: Queue, hs: seq<nat>, v: nat, g: nat)
    requires Ordered(q) && Positive(q.leaves) && Positive(q.nodes) && NodesRank(q.nodes, hs)
    requires q.nodes != [] && |hs| == |q.nodes| && q.nodes[|q.nodes| - 1] == v && hs[|hs| - 1] == g
    requires forall i | 0 <= i < Size(q) :: Lex(v, g, 2 * (q.leaves + q.nodes)[i], Heights(q, hs)[i] + 1)
    ensures Ranked(q, hs)
  {
    hide Ordered, Positive, NodesRank, Heights, Lex;
  }

  // ---------- exchanging lengths under a bound ----------

  /** No item, standing at its length, reaches below D with what hangs from it. */
  ghost predicate Under(l: seq<nat>, hs: seq<nat>, D: nat) {
    |hs| == |l| && forall i | 0 <= i < |l| :: l[i] + hs[i] <= D
  }

  ghost function Swapped(l: seq<nat>, i: nat, a: nat): (r: seq<nat>)
    requires i < |l| && a < |l|
    ensures |r| == |l|
  {
    l[i := l[a]][a := l[i]]
  }

  /** Exchanging two lengths changes the cost by a product. */
  lemma {:induction false} SwapCost(w: seq<nat>, l: seq<nat>, i: nat, a: nat)
    requires |w| == |l| && i < |l| && a < |l| && i != a && w[i] <= w[a] && l[i] <= l[a]
    ensures Cost(w, Swapped(l, i, a)) == Cost(w, l) - (w[a] - w[i]) * (l[a] - l[i])
  {
    hide Cost;
    CostUpdate(w, l, i, l[a]);
    CostUpdate(w, l[i := l[a]], a, l[i]);
    MulDistributes(w[i], l[a], l[i]);
    MulDistributes(w[a], l[a], l[i]);
    var d := l[a] - l[i];
    MulDistributes(d, w[a], w[i]);
  }

  lemma {:induction false} SwapUnder(l: seq<nat>, hs: seq<nat>, D: nat, i: nat, a: nat)
    requires Under(l, hs, D) && i < |l| && a < |l| && l[i] <= l[a] && hs[i] <= hs[a]
    ensures Under(Swapped(l, i, a), hs, D)
  {
    var r := Swapped(l, i, a);
    forall k | 0 <= k < |r|
      ensures r[k] + hs[k] <= D
    {
      assert l[a] + hs[a] <= D && l[k] + hs[k] <= D;
    }
  }

  /** A cheapest choice of lengths l of the items of q, that stays under D. */
  ghost predicate Cheapest(q: Queue, hs: seq<nat>, l: seq<nat>, top: nat, D: nat) {
    && |hs| == |q.nodes| && |l| == Size(q) >= 1 && Fits(l, top)
    && Cost(q.leaves + q.nodes, l) <= MergeCost(q)
    && Under(l, Heights(q, hs), D)
  }

  /** Exchanging the lengths of an item that comes first and a longer one keeps a cheapest
      choice: it can gain nothing, so the weights are equal and the heights in order. */
  lemma {:induction false} SwapCheapest(q: Queue, hs: seq<nat>, l: seq<nat>, top: nat, D: nat, i: nat, a: nat)
    requires Cheapest(q, hs, l, top, D) && Ordered(q) && i < |l| && a < |l| && l[i] <= l[a]
    requires i != a && Lex((q.leaves + q.nodes)[i], Heights(q, hs)[i], (q.leaves + q.nodes)[a], Heights(q, hs)[a])
    ensures Cheapest(q, hs, Swapped(l, i, a), top, D)
  {
    hide Ordered, Fits, Cost, MergeCost, Heights, Under;
    var w, h := q.leaves + q.nodes, Heights(q, hs);
    var r := Swapped(l, i, a);
    Swap(w, l, top, i, a);
    if l[i] == l[a] {
      assert r == l;
    } else {
      SwapCost(w, l, i, a);
      LowerBound(q, r, top);
      NoGain(w[a] - w[i], l[a] - l[i]);
      SwapUnder(l, h, D, i, a);
    }
  }

  lemma {:induction false} NoGain(x: nat, y: nat)
    requires x * y <= 0 && y >= 1
    ensures x == 0
  {
    if x >= 1 {
      MulAtLeast(x, y);
    }
  }

  /** Cutting the one longest length down to the next keeps a cheapest choice. */
  lemma {:induction false} LevelCheapest(q: Queue, hs: seq<nat>, l: seq<nat>, top: nat, D: nat, a: nat, b: nat)
    requires Cheapest(q, hs, l, top, D) && a < |l| && b < |l| && a != b
    requires forall k | 0 <= k < |l| && k != a :: l[k] <= l[b]
    requires l[b] <= l[a]
    ensures 1 <= l[b] <= top && Cheapest(q, hs, l[a := l[b]], top, D)
  {
    hide Fits, Cost, MergeCost, Heights;
    LevelLongest(q.leaves + q.nodes, l, top, a, b);
    FitsTop(l, top, b);
    UnderCut(l, Heights(q, hs), D, a, l[b]);
  }

  lemma {:induction false} UnderCut(l: seq<nat>, hs: seq<nat>, D: nat, a: nat, v: nat)
    requires Under(l, hs, D) && a < |l| && v <= l[a]
    ensures Under(l[a := v], hs, D)
  {
  }

  /** The two items that are merged next may be taken to have one common, longest length. */
  lemma {:induction false} ExchangeCheapest(q: Queue, hs: seq<nat>, l: seq<nat>, top: nat, D: nat)
    returns (l': seq<nat>, m: nat)
    requires Cheapest(q, hs, l, top, D) && Ordered(q) && NodesRank(q.nodes, hs) && Size(q) >= 2
    ensures Cheapest(q, hs, l', top, D) && |l'| == Size(q)
    ensures l'[Places(q).0] == m == l'[Places(q).1] && 1 <= m <= top
  {
    hide Fits, Cost, MergeCost, Heights, Under, Ordered, NodesRank, Lex, Places, Cheapest;
    CheapestSize(q, hs, l, top, D);
    var i, j := Places(q).0, Places(q).1;
    var a := Longest(l, -1);
    var b := Longest(l, a);
    LevelCheapest(q, hs, l, top, D, a, b);
    m := l[b];
    var l1 := l[a := m];
    if (i == a || i == b) && (j == a || j == b) {
      l' := l1;
    } else if i == a || i == b {
      var c := if i == a then b else a;
      TakesLeast(q, hs, c);
      SwapCheapest(q, hs, l1, top, D, j, c);
      l' := Swapped(l1, j, c);
    } else if j == a || j == b {
      var c := if j == a then b else a;
      TakesLeast(q, hs, c);
      SwapCheapest(q, hs, l1, top, D, i, c);
      l' := Swapped(l1, i, c);
    } else {
      TakesLeast(q, hs, a);
      TakesLeast(q, hs, b);
      SwapCheapest(q, hs, l1, top, D, i, a);
      var l2 := Swapped(l1, i, a);
      SwapCheapest(q, hs, l2, top, D, j, b);
      l' := Swapped(l2, j, b);
    }
  }

  lemma {:induction false} CheapestSize(q: Queue, hs: seq<nat>, l: seq<nat>, top: nat, D: nat)
    requires Cheapest(q, hs, l, top, D)
    ensures |hs| == |q.nodes| && |l| == Size(q)
  {
  }

  // ---------- the tree stays under the bound ----------

  lemma {:induction false} LengthItem(q: Queue, l: seq<nat>, m: nat, i: nat)
    requires Size(q) >= 2 && |l| == Size(q) && m >= 1 && i < Size(q) - 2
    ensures Origin(q, i) < |l| && MergedLengths(q, l, m)[i] == l[Origin(q, i)]
  {
    hide NodesTaken;
  }

  lemma {:induction false} LengthLast(q: Queue, l: seq<nat>, m: nat)
    requires Size(q) >= 2 && |l| == Size(q) && m >= 1
    ensures MergedLengths(q, l, m)[Size(q) - 2] == m - 1
  {
    hide NodesTaken;
  }

  lemma {:induction false} MergedUnder(q: Queue, hs: seq<nat>, l: seq<nat>, m: nat, D: nat)
    requires Size(q) >= 2 && |hs| == |q.nodes| && |l| == Size(q) && m >= 1
    requires l[Places(q).0] == m == l[Places(q).1] && Ordered(q) && Under(l, Heights(q, hs), D)
    ensures Under(MergedLengths(q, l, m), Heights(Step(q), StepHeights(q, hs)), D)
  {
    hide Ordered, Merged, MergedHeight, Heights, Places, NodesTaken, Step, StepHeights, MergedLengths;
    var r, h' := MergedLengths(q, l, m), Heights(Step(q), StepHeights(q, hs));
    StepLast(q, hs);
    MergedPlaces(q, hs);
    LengthLast(q, l, m);
    forall k | 0 <= k < |r|
      ensures r[k] + h'[k] <= D
    {
      if k < |r| - 1 {
        var x := StepItem(q, hs, k);
        LengthItem(q, l, m, k);
      } else {
        assert l[Places(q).0] + Heights(q, hs)[Places(q).0] <= D;
        assert l[Places(q).1] + Heights(q, hs)[Places(q).1] <= D;
      }
    }
  }

  lemma {:induction false} CheapestStep(q: Queue, hs: seq<nat>, l: seq<nat>, top: nat, D: nat, m: nat)
    requires Cheapest(q, hs, l, top, D) && Size(q) >= 2 && |hs| == |q.nodes| && |l| == Size(q) && Ordered(q)
    requires l[Places(q).0] == m == l[Places(q).1] && 1 <= m <= top
    ensures Cheapest(Step(q), StepHeights(q, hs), MergedLengths(q, l, m), top, D)
  {
    hide Fits, Cost, Heights, Under, Ordered, Places, MergedLengths, Step, StepHeights, Merged;
    MergedFits(q, l, m, top);
    MergedCost(q, l, m);
    MergedUnder(q, hs, l, m, D);
  }

  /** If some cheapest choice of lengths stays under D, so does the merge tree. */
  lemma {:induction false} TreeUnder(q: Queue, hs: seq<nat>, l: seq<nat>, top: nat, D: nat)
    requires Cheapest(q, hs, l, top, D) && Ranked(q, hs) && Size(q) >= 1
    ensures AtMost(LevelsOf(q).leaves, D) && Under(LevelsOf(q).nodes, hs, D)
    decreases Size(q)
  {
    hide Fits, Cost, MergeCost, Heights, Ordered, Places, MergedLengths, Step, StepHeights, Merged, LevelsOf, Ranked,
      Cheapest, NodesRank, Under, AtMost, NodesTaken;
    CheapestSize(q, hs, l, top, D);
    if Size(q) == 1 {
      OneUnder(q, hs, l, top, D);
    } else {
      RankedParts(q, hs);
      var l', m := ExchangeCheapest(q, hs, l, top, D);
      CheapestStep(q, hs, l', top, D, m);
      StepRanked(q, hs);
      var c, ll, ln, v := LevelsStep(q);
      TreeUnder(Step(q), StepHeights(q, hs), MergedLengths(q, l', m), top, D);
      StepHeightsAre(q, hs);
      UnmergeUnder(q, hs, c, ll, ln, v, D);
    }
  }

  lemma {:induction false} OneUnder(q: Queue, hs: seq<nat>, l: seq<nat>, top: nat, D: nat)
    requires Cheapest(q, hs, l, top, D) && Size(q) == 1
    ensures AtMost(LevelsOf(q).leaves, D) && Under(LevelsOf(q).nodes, hs, D)
  {
    hide Fits, Cost, MergeCost;
    assert l[0] + Heights(q, hs)[0] <= D;
    if |q.nodes| == 1 {
      assert Heights(q, hs)[|q.leaves| + 0] == hs[0];
    }
  }

  /** The levels before a merge, under the bound because those after it are. */
  lemma {:induction false} UnmergeUnder(q: Queue, hs: seq<nat>, c: nat, ll: seq<nat>, ln: seq<nat>, v: nat, D: nat)
    requires Size(q) >= 2 && |hs| == |q.nodes| && c == NodesTaken(q) && |ln| + c == |hs|
    requires AtMost(ll, D) && Under(ln + [v], hs[c..] + [MergedHeight(q, hs)], D)
    ensures AtMost(Repeat(v + 1, 2 - c) + ll, D) && Under(Repeat(v + 1, c) + ln, hs, D)
  {
    var g := MergedHeight(q, hs);
    assert (ln + [v])[|ln|] == v && (hs[c..] + [g])[|ln|] == g;
    assert v + g <= D;
    var r := Repeat(v + 1, c) + ln;
    forall i | 0 <= i < |r|
      ensures r[i] + hs[i] <= D
    {
      if i < c {
        assert 1 + hs[i] <= g;
      } else {
        assert (ln + [v])[i - c] == ln[i - c] && (hs[c..] + [g])[i - c] == hs[i];
      }
    }
  }
}
