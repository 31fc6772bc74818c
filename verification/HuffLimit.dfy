/** A limit too small for the alphabet: when the search of HuffEnc.c:301 has no leaf to
    find, and when it is never asked (HuffEnc.c:283-307). */
module HuffLimit {
  import opened Arith
  import opened Machine
  import opened HuffBuild
  import opened HuffLevels
  import opened HuffRun
  import opened HuffSort
  import opened HuffSymbols
  import opened HuffTree
  import opened Sums
  import Sort

  // ---------- the levels that the last leaf leaves open ----------

  ghost predicate AllFrom(s: seq<nat>, m: nat) {
    forall i | 0 <= i < |s| :: s[i] >= m
  }

  lemma {:induction false} AllFromJoin(s: seq<nat>, t: seq<nat>, m: nat)
    requires AllFrom(s, m) && AllFrom(t, m)
    ensures AllFrom(s + t, m)
  {
  }

  lemma {:induction false} RepeatFrom(v: nat, k: nat, m: nat)
    requires v >= m
    ensures AllFrom(Repeat(v, k), m)
  {
  }

  /** Leaves hang below nodes made while there were leaves. */
  lemma {:induction false} LeavesFrom(q: Queue, k: nat, j: nat)
    requires q.nodes == [] && j <= k && 0 < k < Size(q) && Run(q, k).leaves == []
    ensures AllFrom(LevelsOf(Run(q, j)).leaves, Level(q, k - 1) + 1)
    decreases k - j
  {
    hide *;
    if j == k {
      NoLevels(Run(q, k), Level(q, k - 1) + 1);
    } else {
      var c, ll, ln := LevelsBefore(q, j);
      LeavesFrom(q, k, j + 1);
      LevelMonotone(q, j, k - 1);
      RepeatFrom(Level(q, j) + 1, 2 - c, Level(q, k - 1) + 1);
      AllFromJoin(Repeat(Level(q, j) + 1, 2 - c), ll, Level(q, k - 1) + 1);
    }
  }

  lemma {:induction false} NoLevels(q: Queue, m: nat)
    requires Size(q) >= 1 && q.leaves == []
    ensures AllFrom(LevelsOf(q).leaves, m)
  {
    hide LevelsOf;
  }

  /** And so do the nodes that have a parent by then. */
  lemma {:induction false} NodeFrom(q: Queue, k: nat, i: nat)
    requires q.nodes == [] && 0 < k < Size(q) && i < Gone(q, k)
    ensures i + 1 < k && Level(q, i) >= Level(q, k - 1) + 1
  {
    hide *;
    RunShape(q, k);
    var x := ParentOf(q, i);
    if x >= k {
      GoneMonotone(q, k, x);
      assert false;
    }
    ChildLevel(q, i, x);
    LevelMonotone(q, x, k - 1);
  }

  /** All items that wait when node b is made, where b is the first node that has no parent
      when the leaves end. */
  lemma {:induction false} ItemsFrom(q: Queue, k: nat, b: nat)
    requires q.nodes == [] && 0 < k < Size(q) && Run(q, k).leaves == [] && b == Gone(q, k)
    ensures b < k
    ensures AllFrom(LevelsOf(Run(q, b)).leaves, Level(q, k - 1) + 1)
    ensures AllFrom(LevelsOf(Run(q, b)).nodes, Level(q, k - 1) + 1)
  {
    hide LevelsOf, Level, Run, AllFrom;
    RunShape(q, k);
    LeavesFrom(q, k, b);
    RunShape(q, b);
    var s := LevelsOf(Run(q, b)).nodes;
    forall i | 0 <= i < |s|
      ensures s[i] >= Level(q, k - 1) + 1
    {
      LevelAt(q, b, i + Gone(q, b));
      NodeFrom(q, k, i + Gone(q, b));
    }
    AllFromIntro(s, Level(q, k - 1) + 1);
  }

  lemma {:induction false} AllFromIntro(s: seq<nat>, m: nat)
    requires forall i | 0 <= i < |s| :: s[i] >= m
    ensures AllFrom(s, m)
  {
  }

  /** Node b is at most one level below node k - 1. */
  lemma {:induction false} TopIsEven(q: Queue, k: nat, b: nat)
    requires q.nodes == [] && 0 < k < Size(q) && b == Gone(q, k)
    ensures b < k && Level(q, b) <= Level(q, k - 1) + 1
  {
    hide LevelsOf, Level, Run;
    RunShape(q, k);
    LevelAt(q, k, b);
    LevelAt(q, k, k - 1);
    LevelsFall(Run(q, k));
  }

  /** Nothing that waits when node b is made is deeper than its children. */
  lemma {:induction false} ItemsTo(q: Queue, b: nat)
    requires q.nodes == [] && b + 1 < Size(q)
    ensures LevelsAtMost(LevelsOf(Run(q, b)), Level(q, b) + 1)
  {
    hide *;
    var c, ll, ln := LevelsBefore(q, b);
    LevelsFall(Run(q, b + 1));
    ShapedTo(ll, ln, Level(q, b));
    RepeatTo(Level(q, b) + 1, 2 - c, ll);
    RepeatTo(Level(q, b) + 1, c, ln);
    LevelsAtMostIntro(LevelsOf(Run(q, b)), Level(q, b) + 1);
  }

  lemma {:induction false} LevelsAtMostIntro(l: Levels, top: nat)
    requires AtMost(l.leaves, top) && AtMost(l.nodes, top)
    ensures LevelsAtMost(l, top)
  {
    hide AtMost;
  }

  lemma {:induction false} ShapedTo(ll: seq<nat>, ln: seq<nat>, m: nat)
    requires Shaped(Levels(ll, ln + [m]))
    ensures AtMost(ll, m + 1) && AtMost(ln, m + 1)
  {
    hide Falling;
    assert (ln + [m])[|ln|] == m;
    assert forall i | 0 <= i < |ln| :: ln[i] == (ln + [m])[i];
  }

  lemma {:induction false} RepeatTo(m: nat, k: nat, s: seq<nat>)
    requires AtMost(s, m)
    ensures AtMost(Repeat(m, k) + s, m)
  {
  }

  lemma {:induction false} CountBetween(s: seq<nat>, lo: nat, hi: nat, v: nat)
    requires AllFrom(s, lo) && AtMost(s, hi) && CountIn(s, v) > 0
    ensures lo <= v <= hi
  {
    hide CountIn;
    if v < lo || v > hi {
      NoneOf(s, v);
    }
  }

  /** The items that wait when node b is made are all within one level. */
  lemma {:induction false} ItemsEven(q: Queue, k: nat, b: nat, v: nat)
    requires q.nodes == [] && 0 < k < Size(q) && Run(q, k).leaves == [] && b == Gone(q, k)
    requires AtLevel(Run(q, b), v) > 0
    ensures Level(q, k - 1) + 1 <= v <= Level(q, k - 1) + 2
  {
    hide LevelsOf, Level, Run, AllFrom, AtMost, CountIn, Gone;
    ItemsFrom(q, k, b);
    TopIsEven(q, k, b);
    ItemsTo(q, b);
    var l := LevelsOf(Run(q, b));
    var m := Level(q, k - 1) + 1;
    AtMostMore(l.leaves, Level(q, b) + 1, m + 1);
    AtMostMore(l.nodes, Level(q, b) + 1, m + 1);
    if CountIn(l.leaves, v) > 0 {
      CountBetween(l.leaves, m, m + 1, v);
    } else {
      CountBetween(l.nodes, m, m + 1, v);
    }
  }

  // ---------- counters for a smaller limit ----------

  lemma {:induction false} ShareScaled(c: seq<nat>, v: nat, top: nat, d: nat)
    requires v <= |c| && v <= top + 1
    ensures Share(c, v, top + d) == Share(c, v, top) * Pow2(d)
  {
    hide *;
    if v == 0 {
      NoneShort(c, 0, top);
      NoneShort(c, 0, top + d);
    } else {
      ShareScaled(c, v - 1, top, d);
      PartScaled(c, v - 1, top, d);
      ShareNext(c, v - 1, top);
      ShareNext(c, v - 1, top + d);
      MulDistributes(Pow2(d), Share(c, v - 1, top), Part(c, v - 1, top));
    }
  }

  lemma {:induction false} PartScaled(c: seq<nat>, v: nat, top: nat, d: nat)
    requires v < |c| && v <= top
    ensures Part(c, v, top + d) == Part(c, v, top) * Pow2(d)
  {
    Pow2Sum(top - v, d);
    hide Pow2;
    assert c[v] * (Pow2(top - v) * Pow2(d)) == (c[v] * Pow2(top - v)) * Pow2(d);
  }

  lemma {:induction false} NoneAfter(c: seq<nat>, v: nat, w: nat, top: nat)
    requires v <= w <= |c| && w <= top + 1 && forall u | v <= u < w :: c[u] == 0
    ensures Items(c, w) == Items(c, v) && Share(c, w, top) == Share(c, v, top)
    decreases w
  {
    if v < w {
      NoneAfter(c, v, w - 1, top);
      assert 0 * Pow2(top - (w - 1)) == 0;
    }
  }

  /** Where no level below top has a leaf, the limit might as well be top. */
  lemma {:induction false} CountedWithin(c: seq<nat>, top: nat, items: nat)
    requires Counted(c, LEVELS - 1, items) && 1 <= top < LEVELS
    requires forall u | top < u < LEVELS :: c[u] == 0
    ensures Counted(c, top, items)
  {
    hide Items, Share, Pow2;
    NoneAfter(c, top + 1, LEVELS, LEVELS - 1);
    var d: nat := LEVELS - 1 - top;
    ShareScaled(c, top + 1, top, d);
    Pow2Sum(top, d);
    SameFactor(Share(c, top + 1, top), Pow2(top), Pow2(d));
  }

  lemma {:induction false} SameFactor(a: nat, b: nat, x: nat)
    requires a * x == b * x && x >= 1
    ensures a == b
  {
    MulDistributes(x, a, b);
    if a > b {
      MulAtLeast(a - b, x);
    } else if a < b {
      MulAtLeast(b - a, x);
      MulDistributes(x, b, a);
    }
  }

  lemma {:induction false} ItemsRest(c: seq<nat>, v: nat, w: nat)
    requires v <= w <= |c|
    ensures Items(c, v) <= Items(c, w)
    ensures Items(c, v) == Items(c, w) ==> forall u | v <= u < w :: c[u] == 0
    decreases w
  {
    if v < w {
      ItemsRest(c, v, w - 1);
    }
  }

  /** With too many symbols some leaf is below level top. */
  lemma {:induction false} LeavesCutOff(c: seq<nat>, top: nat, items: nat)
    requires Counted(c, LEVELS - 1, items) && 1 <= top < LEVELS && items > Pow2(top)
    ensures Items(c, top + 1) < items
  {
    hide Items, Share, Pow2;
    ItemsRest(c, top + 1, LEVELS);
    if Items(c, top + 1) == items {
      CountedWithin(c, top, items);
      LeafAboveIff(c, top, items);
    }
  }

  /** The children of node b are among the items that wait when it is made. */
  lemma {:induction false} LevelInside(ws: seq<Word>, c: seq<nat>, b: nat, top: nat)
    requires Exact(c, ws, b) && b + 1 < |ws| && Level(QueueOf(ws), b) + 1 < LEVELS
    requires forall u | top < u < LEVELS :: c[u] == 0
    ensures Level(QueueOf(ws), b) < top
  {
    hide Level, Run, AtLevel, QueueOf, Exact;
    var v := Level(QueueOf(ws), b) + 1;
    ExactAt(c, ws, b, v);
    AtLevelBefore(QueueOf(ws), b, v);
  }

  /** With too many symbols: either the search still has leaves to find, or the first
      node that it is asked about is its last. */
  lemma {:induction false} StuckOrCounted(ws: seq<Word>, c: seq<nat>, k: nat, b: nat, top: nat)
    requires b + 1 < |ws| && |ws| > Pow2(top) && 1 <= top < LEVELS && Level(QueueOf(ws), b) + 1 < LEVELS
    requires Counted(c, LEVELS - 1, |ws| - b) && Exact(c, ws, b)
    requires LeavesEnd(QueueOf(ws), k) && b == Gone(QueueOf(ws), k)
    ensures b > 0 ==> Stuck(ws, c, b, top) || (Counted(c, top, |ws| - b) && Level(QueueOf(ws), b) < top)
  {
    hide Items, Share, Pow2, Run, Level, Gone, AtLevel, QueueOf;
    if u :| top < u < LEVELS && c[u] > 0 {
      var q := QueueOf(ws);
      ItemsEven(q, k, b, u);
      forall v | 0 <= v < top
        ensures c[v] == 0
      {
        if c[v] > 0 {
          ItemsEven(q, k, b, v);
        }
      }
      if b > 0 {
        NodeFrom(q, k, b - 1);
      }
    } else {
      CountedWithin(c, top, |ws| - b);
      LevelInside(ws, c, b, top);
    }
  }

  // ---------- leaves that all pair off ----------

  /** An even number of weights, none above the sum of the two first. */
  ghost predicate Paired(w: seq<nat>) {
    && |w| >= 2 && |w| % 2 == 0 && w[|w| - 1] <= w[0] + w[1]
  }

  lemma {:induction false} PairOfLeaves(r: Queue, s: nat)
    requires |r.leaves| >= 2 && r.nodes != [] && r.nodes[0] == s && r.leaves[0] <= r.leaves[1]
    ensures NodesTaken(r) == 0 <==> r.leaves[1] <= s
  {
  }

  /** As long as node 0 waits: it is in front, and no leaf was heavier. */
  lemma {:induction false} FrontNode(q: Queue, j: nat)
    requires q.nodes == [] && 1 <= j < Size(q) && Sort.Ascending(q.leaves) && Gone(q, j) == 0
    ensures 2 * j <= |q.leaves| && |Run(q, j).nodes| == j && Run(q, j).nodes[0] == q.leaves[0] + q.leaves[1]
    ensures j >= 2 ==> q.leaves[2 * j - 1] <= q.leaves[0] + q.leaves[1]
  {
    hide Run, NodesTaken, Step, Merged;
    RunShape(q, j);
    RunStep(q, j - 1);
    StepShape(Run(q, j - 1));
    GoneStep(q, j - 1);
    RunShape(q, j - 1);
    if j == 1 {
      RunZero(q);
      MergedIs(q);
    } else {
      FrontNode(q, j - 1);
      PairOfLeaves(Run(q, j - 1), q.leaves[0] + q.leaves[1]);
    }
  }

  /** Pairs no heavier than that leave node 0 waiting. */
  lemma {:induction false} StillWaits(q: Queue, j: nat)
    requires q.nodes == [] && 1 <= j && 2 * j <= |q.leaves| && Sort.Ascending(q.leaves)
    requires q.leaves[2 * j - 1] <= q.leaves[0] + q.leaves[1]
    ensures Gone(q, j) == 0
  {
    hide Run, NodesTaken, Step, Merged, Gone;
    if j == 1 {
      GoneOne(q);
    } else {
      StillWaits(q, j - 1);
      FrontNode(q, j - 1);
      RunShape(q, j - 1);
      GoneStep(q, j - 1);
      PairOfLeaves(Run(q, j - 1), q.leaves[0] + q.leaves[1]);
    }
  }

  /** No node has a parent when the leaves end exactly when they have paired off. */
  lemma {:induction false} PairedIff(q: Queue, k: nat)
    requires q.nodes == [] && Size(q) >= 3 && Sort.Ascending(q.leaves) && LeavesEnd(q, k)
    ensures Gone(q, k) == 0 <==> Paired(q.leaves)
  {
    hide Run, Gone;
    if Gone(q, k) == 0 {
      FrontNode(q, k);
      RunShape(q, k);
    }
    if Paired(q.leaves) {
      var n := |q.leaves| / 2;
      StillWaits(q, n);
      RunShape(q, n);
      if n < k {
        NoLeavesLater(q, n, k - 1);
        assert false;
      }
      StillWaits(q, k);
    }
  }

  /** What the caller can check: the symbols that occur are even in number, and none occurs
      more often than two others together. */
  ghost predicate PairsOff(freqs: seq<Word>) {
    && UsedCount(freqs) % 2 == 0
    && forall i, j, k | 0 <= i < |freqs| && 0 <= j < |freqs| && 0 <= k < |freqs| && i != j &&
                        freqs[i] > 0 && freqs[j] > 0 ::
        freqs[k] <= freqs[i] as nat + freqs[j]
  }

  lemma {:induction false} PairsOffIff(freqs: seq<Word>, ws: seq<Word>)
    requires SortedSymbols(freqs, ws) && |ws| >= 2
    ensures PairsOff(freqs) <==> Paired(Weights(ws))
  {
    SortedSize(freqs, ws);
    if PairsOff(freqs) {
      PairsPaired(freqs, ws);
    }
    if Paired(Weights(ws)) {
      forall i, j, k | 0 <= i < |freqs| && 0 <= j < |freqs| && 0 <= k < |freqs| && i != j &&
                       freqs[i] > 0 && freqs[j] > 0
        ensures freqs[k] <= freqs[i] as nat + freqs[j]
      {
        PairedPairs(freqs, ws, i, j, k);
      }
    }
  }

  lemma {:induction false} PairsPaired(freqs: seq<Word>, ws: seq<Word>)
    requires SortedSymbols(freqs, ws) && |ws| >= 2 && PairsOff(freqs) && |ws| == UsedCount(freqs)
    ensures Paired(Weights(ws))
  {
    hide UsedCount, Sym, Freq;
    SortedListing(freqs, ws);
    assert Symbols(ws)[0] != Symbols(ws)[1];
    assert freqs[Sym(ws[|ws| - 1])] <= freqs[Sym(ws[0])] as nat + freqs[Sym(ws[1])];
  }

  lemma {:induction false} PairedPairs(freqs: seq<Word>, ws: seq<Word>, i: nat, j: nat, k: nat)
    requires SortedSymbols(freqs, ws) && Paired(Weights(ws))
    requires i < |freqs| && j < |freqs| && k < |freqs| && i != j && freqs[i] > 0 && freqs[j] > 0
    ensures freqs[k] <= freqs[i] as nat + freqs[j]
  {
    hide Sym, Freq, Weights, Paired;
    if freqs[k] > 0 {
      var x := PlaceOf(freqs, ws, i);
      var y := PlaceOf(freqs, ws, j);
      var z := PlaceOf(freqs, ws, k);
      PairedFacts(Weights(ws));
      WeightsRise(freqs, ws, z, |ws| - 1);
      WeightsRise(freqs, ws, 0, if x < y then x else y);
      WeightsRise(freqs, ws, 1, if x < y then y else x);
    }
  }

  lemma {:induction false} PairedFacts(w: seq<nat>)
    requires Paired(w)
    ensures |w| >= 2 && w[|w| - 1] <= w[0] + w[1]
  {
  }

  /** Where a symbol that occurs is in the sorted list. */
  lemma {:induction false} PlaceOf(freqs: seq<Word>, ws: seq<Word>, i: nat) returns (x: nat)
    requires SortedSymbols(freqs, ws) && i < |freqs| && freqs[i] > 0
    ensures x < |ws| && Sym(ws[x]) == i && Weights(ws)[x] == freqs[i]
  {
    hide Sym, Freq;
    x :| 0 <= x < |ws| && Sym(ws[x]) == i;
  }

  lemma {:induction false} WeightsRise(freqs: seq<Word>, ws: seq<Word>, x: nat, y: nat)
    requires SortedSymbols(freqs, ws) && x <= y < |ws|
    ensures Weights(ws)[x] <= Weights(ws)[y]
  {
    if x < y {
      assert ws[x] < ws[y];
    }
  }
}
