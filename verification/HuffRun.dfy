/** The merge of a whole alphabet, step by step: which items are gone before each
    node is made, the level of each node, and how many items there are per level. */
module HuffRun {
  import opened Arith
  import opened Counting
  import opened HuffTree
  import opened HuffOptimal
  import opened Sums

  /** The queue after k merges. */
  ghost function Run(q: Queue, k: nat): (r: Queue)
    requires k < Size(q)
    ensures Size(r) == Size(q) - k && (k > 0 ==> r.nodes != [])
  {
    if k == 0 then q else Step(Run(q, k - 1))
  }

  /** How many nodes have got their parent when k nodes exist. */
  ghost function Gone(q: Queue, k: nat): int
    requires k < Size(q)
  {
    k - |Run(q, k).nodes|
  }

  lemma {:induction false} RunShape(q: Queue, k: nat)
    requires q.nodes == [] && k < Size(q)
    ensures 0 <= Gone(q, k) <= k && (k > 0 ==> Gone(q, k) < k)
    ensures 2 * k - Gone(q, k) <= |q.leaves| && Run(q, k).leaves == q.leaves[2 * k - Gone(q, k)..]
  {
    hide Step, NodesTaken, Merged, Run;
    if k == 0 {
      RunZero(q);
    } else {
      RunShape(q, k - 1);
      RunStep(q, k - 1);
      StepShape(Run(q, k - 1));
      var r, r' := Run(q, k - 1), Run(q, k);
      var c := NodesTaken(r);
      assert Gone(q, k - 1) == k - 1 - |r.nodes| && Gone(q, k) == k - |r'.nodes|;
      assert |r'.nodes| == |r.nodes| - c + 1;
      hide Gone;
      DropDrop(q.leaves, 2 * (k - 1) - Gone(q, k - 1), 2 - c);
    }
  }

  lemma {:induction false} RunZero(q: Queue)
    requires Size(q) >= 1
    ensures Run(q, 0) == q && q.leaves[0..] == q.leaves
  {
  }

  lemma {:induction false} RunStep(q: Queue, k: nat)
    requires k + 1 < Size(q)
    ensures Run(q, k + 1) == Step(Run(q, k))
  {
  }

  lemma {:induction false} DropDrop(s: seq<nat>, i: nat, j: nat)
    requires i + j <= |s|
    ensures s[i..][j..] == s[i + j..]
  {
  }

  lemma {:induction false} GoneStep(q: Queue, k: nat)
    requires q.nodes == [] && k + 1 < Size(q)
    ensures Gone(q, k + 1) == Gone(q, k) + NodesTaken(Run(q, k))
  {
    hide Run, NodesTaken, Step, Merged;
    RunStep(q, k);
    StepShape(Run(q, k));
  }

  lemma {:induction false} GoneMonotone(q: Queue, j: nat, k: nat)
    requires q.nodes == [] && j <= k < Size(q)
    ensures Gone(q, j) <= Gone(q, k)
    decreases k
  {
    hide Run, Gone, NodesTaken, Step;
    if j < k {
      GoneMonotone(q, j, k - 1);
      GoneStep(q, k - 1);
    }
  }

  /** The level of node j. */
  ghost function Level(q: Queue, j: nat): nat
    requires j + 1 < Size(q)
  {
    var l := LevelsOf(Run(q, j + 1));
    l.nodes[|l.nodes| - 1]
  }

  /** The levels before a merge, from those after it. */
  lemma {:induction false} LevelsBefore(q: Queue, k: nat) returns (c: nat, ll: seq<nat>, ln: seq<nat>)
    requires q.nodes == [] && k + 1 < Size(q)
    ensures c == NodesTaken(Run(q, k)) == Gone(q, k + 1) - Gone(q, k) && c <= 2
    ensures LevelsOf(Run(q, k + 1)) == Levels(ll, ln + [Level(q, k)])
    ensures LevelsOf(Run(q, k)) == Levels(Repeat(Level(q, k) + 1, 2 - c) + ll, Repeat(Level(q, k) + 1, c) + ln)
  {
    hide LevelsOf, Step, NodesTaken, Repeat;
    var m;
    c, ll, ln, m := LevelsStep(Run(q, k));
    assert Run(q, k + 1) == Step(Run(q, k));
    assert (ln + [m])[|ln|] == m;
    GoneStep(q, k);
  }

  /** A node keeps its level for as long as it waits. */
  lemma {:induction false} LevelAt(q: Queue, k: nat, j: nat)
    requires q.nodes == [] && k < Size(q) && Gone(q, k) <= j < k
    ensures LevelsOf(Run(q, k)).nodes[j - Gone(q, k)] == Level(q, j)
    decreases k
  {
    hide LevelsOf, Step, NodesTaken, Repeat, Run;
    if k > j + 1 {
      var c, ll, ln := LevelsBefore(q, k - 1);
      RunShape(q, k - 1);
      LevelAt(q, k - 1, j);
      var i := j - Gone(q, k);
      assert |ln| == k - 1 - Gone(q, k);
      assert (Repeat(Level(q, k - 1) + 1, c) + ln)[c + i] == ln[i] == (ln + [Level(q, k - 1)])[i];
    }
  }

  /** Both children of a node are one level below it. */
  lemma {:induction false} ChildLevel(q: Queue, j: nat, k: nat)
    requires q.nodes == [] && k + 1 < Size(q) && Gone(q, k) <= j < Gone(q, k + 1)
    ensures j < k && Level(q, j) == Level(q, k) + 1
  {
    hide LevelsOf, Step, NodesTaken, Repeat, Run;
    RunShape(q, k + 1);
    RunShape(q, k);
    var c, ll, ln := LevelsBefore(q, k);
    LevelAt(q, k, j);
    assert (Repeat(Level(q, k) + 1, c) + ln)[j - Gone(q, k)] == Level(q, k) + 1;
  }

  /** Later nodes are no deeper. */
  lemma {:induction false} LevelFalls(q: Queue, j: nat)
    requires q.nodes == [] && j + 2 < Size(q)
    ensures Level(q, j) >= Level(q, j + 1)
  {
    hide LevelsOf, Step, NodesTaken, Repeat, Run;
    RunShape(q, j + 1);
    RunShape(q, j + 2);
    if j < Gone(q, j + 2) {
      ChildLevel(q, j, j + 1);
    } else {
      LevelAt(q, j + 2, j);
      LevelAt(q, j + 2, j + 1);
      LevelsFall(Run(q, j + 2));
    }
  }

  ghost function CountIn(s: seq<nat>, v: nat): nat { Count(s, v, |s|) }

  lemma {:induction false} CountPrefix(s: seq<nat>, t: seq<nat>, v: nat, k: nat)
    requires k <= |t|
    ensures Count(s + t, v, |s| + k) == Count(s, v, |s|) + Count(t, v, k)
  {
    if k > 0 {
      CountPrefix(s, t, v, k - 1);
    } else {
      CountSame(s, s + t, v, |s|);
    }
  }

  lemma {:induction false} CountSame(s: seq<nat>, t: seq<nat>, v: nat, k: nat)
    requires k <= |s| && k <= |t| && forall i | 0 <= i < k :: s[i] == t[i]
    ensures Count(s, v, k) == Count(t, v, k)
  {
    if k > 0 {
      CountSame(s, t, v, k - 1);
    }
  }

  lemma {:induction false} CountAppend(s: seq<nat>, t: seq<nat>, v: nat)
    ensures CountIn(s + t, v) == CountIn(s, v) + CountIn(t, v)
  {
    CountPrefix(s, t, v, |t|);
  }

  lemma {:induction false} CountFront(s: seq<nat>, v: nat)
    requires s != []
    ensures CountIn(s, v) == (if s[0] == v then 1 else 0) + CountIn(s[1..], v)
  {
    CountOne(s[0], v);
    CountAppend([s[0]], s[1..], v);
    assert s == [s[0]] + s[1..];
  }

  lemma {:induction false} CountOne(m: nat, v: nat)
    ensures CountIn([m], v) == if m == v then 1 else 0
  {
    assert Count([m], v, 0) == 0;
  }

  lemma {:induction false} CountRepeat(u: nat, k: nat, v: nat)
    ensures CountIn(Repeat(u, k), v) == if u == v then k else 0
  {
    if k > 0 {
      hide CountIn;
      CountRepeat(u, k - 1, v);
      CountFront(Repeat(u, k), v);
      assert Repeat(u, k)[1..] == Repeat(u, k - 1);
    }
  }

  /** How many items of the queue are at level v. */
  ghost function AtLevel(q: Queue, v: nat): nat
    requires Size(q) >= 1
  {
    CountIn(LevelsOf(q).leaves, v) + CountIn(LevelsOf(q).nodes, v)
  }

  /** Undoing a merge takes the node from its level and puts two items below it. */
  lemma {:induction false} AtLevelBefore(q: Queue, k: nat, v: nat)
    requires q.nodes == [] && k + 1 < Size(q)
    ensures AtLevel(Run(q, k), v) == AtLevel(Run(q, k + 1), v)
              - (if v == Level(q, k) then 1 else 0) + (if v == Level(q, k) + 1 then 2 else 0)
    ensures v == Level(q, k) ==> AtLevel(Run(q, k + 1), v) >= 1
  {
    hide LevelsOf, Step, NodesTaken, Repeat, Run, Level, CountIn;
    var c, ll, ln := LevelsBefore(q, k);
    var m := Level(q, k);
    CountAppend(Repeat(m + 1, 2 - c), ll, v);
    CountAppend(Repeat(m + 1, c), ln, v);
    CountAppend(ln, [m], v);
    CountRepeat(m + 1, 2 - c, v);
    CountRepeat(m + 1, c, v);
    CountOne(m, v);
  }

  /** The root alone, at level 0. */
  lemma {:induction false} RootLevel(q: Queue)
    requires q.nodes == [] && Size(q) >= 2
    ensures LevelsOf(Run(q, Size(q) - 1)) == Levels([], [0])
    ensures Level(q, Size(q) - 2) == 0 && Gone(q, Size(q) - 1) == Size(q) - 2
  {
    var r := Run(q, Size(q) - 1);
    assert Size(r) == 1 && r.nodes != [];
    assert Repeat(0, 0) == [] && Repeat(0, 1) == [0];
  }

  /** No node is deeper than the number of nodes made after it. */
  lemma {:induction false} LevelBound(q: Queue, j: nat)
    requires q.nodes == [] && j + 1 < Size(q)
    ensures Level(q, j) <= Size(q) - 2 - j
    decreases Size(q) - j
  {
    hide LevelsOf, Step, NodesTaken, Repeat, Run, Level;
    if j == Size(q) - 2 {
      RootLevel(q);
    } else {
      var k := ParentOf(q, j);
      ChildLevel(q, j, k);
      LevelBound(q, k);
    }
  }

  /** Every node but the root has a parent. */
  lemma {:induction false} ParentOf(q: Queue, j: nat) returns (k: nat)
    requires q.nodes == [] && j + 2 < Size(q)
    ensures k + 1 < Size(q) && Gone(q, k) <= j < Gone(q, k + 1)
  {
    RootLevel(q);
    hide Run, Gone, Level;
    k := Size(q) - 2;
    while Gone(q, k) > j
      invariant k + 1 < Size(q) && j < Gone(q, k + 1)
      decreases k
    {
      GoneZero(q);
      k := k - 1;
    }
  }

  lemma {:induction false} GoneZero(q: Queue)
    requires q.nodes == [] && Size(q) >= 1
    ensures Gone(q, 0) == 0
  {
  }

  // ---------- the Kraft sum of the levels is exactly 1 ----------

  ghost predicate LevelsAtMost(l: Levels, top: nat) {
    AtMost(l.leaves, top) && AtMost(l.nodes, top)
  }

  lemma {:induction false} UnmergeAtMost(ll: seq<nat>, ln: seq<nat>, m: nat, a: nat, c: nat, top: nat)
    requires AtMost(Repeat(m + 1, a) + ll, top) && AtMost(Repeat(m + 1, c) + ln, top) && a + c == 2
    ensures m < top && AtMost(ll, top) && AtMost(ln, top) && AtMost(ln + [m], top)
  {
    var s, t := Repeat(m + 1, a) + ll, Repeat(m + 1, c) + ln;
    assert if a > 0 then s[0] == m + 1 else t[0] == m + 1;
    forall i | 0 <= i < |ll|
      ensures ll[i] <= top
    {
      assert s[a + i] == ll[i];
    }
    forall i | 0 <= i < |ln|
      ensures ln[i] <= top
    {
      assert t[c + i] == ln[i];
    }
  }

  lemma {:induction false} KraftExact(q: Queue, top: nat)
    requires Size(q) >= 1 && LevelsAtMost(LevelsOf(q), top)
    ensures Kraft(LevelsOf(q).leaves, top) + Kraft(LevelsOf(q).nodes, top) == Pow2(top)
    decreases Size(q)
  {
    hide LevelsOf, Step, NodesTaken, Repeat, Kraft, Pow2, AtMost;
    if Size(q) == 1 {
      KraftExactOne(q, top);
    } else {
      var c, ll, ln, m := LevelsStep(q);
      UnmergeAtMost(ll, ln, m, 2 - c, c, top);
      KraftExact(Step(q), top);
      KraftPair(2 - c, c, m + 1, top);
      KraftAppend(Repeat(m + 1, 2 - c), ll, top);
      KraftAppend(Repeat(m + 1, c), ln, top);
      KraftLast(ln, m, top);
    }
  }

  lemma {:induction false} KraftLast(ln: seq<nat>, m: nat, top: nat)
    requires AtMost(ln, top) && m <= top
    ensures AtMost(ln + [m], top) && AtMost([m], top)
    ensures Kraft(ln + [m], top) == Kraft(ln, top) + Kraft([m], top)
  {
    assert AtMost([m], top);
    KraftAppend(ln, [m], top);
  }

  lemma {:induction false} KraftExactOne(q: Queue, top: nat)
    requires Size(q) == 1
    ensures LevelsAtMost(LevelsOf(q), top)
    ensures Kraft(LevelsOf(q).leaves, top) + Kraft(LevelsOf(q).nodes, top) == Pow2(top)
  {
    KraftRepeat(0, |q.leaves|, top);
    KraftRepeat(0, |q.nodes|, top);
  }

  // ---------- the top of the tree ----------

  /** Terms of a Kraft sum whose lengths are len - 1 or len. */
  lemma {:induction false} KraftFlat(l: seq<nat>, len: nat)
    requires len >= 1 && AtMost(l, len) && forall i | 0 <= i < |l| :: l[i] >= len - 1
    ensures Kraft(l, len) <= 2 * |l|
    ensures l != [] && l[0] == len ==> Kraft(l, len) < 2 * |l|
  {
    if l != [] {
      KraftTail(l, len);
      assert forall i | 0 <= i < |l[1..]| :: l[1..][i] == l[i + 1];
      KraftFlat(l[1..], len);
      assert Pow2(0) == 1 && Pow2(1) == 2;
    }
  }

  /** Once the leaves are gone the tree above is even: a node there is less deep than
      the logarithm of the number of leaves. */
  lemma {:induction false} TopIsFlat(q: Queue, r: nat)
    requires q.nodes == [] && r + 1 < Size(q) && Run(q, r).leaves == []
    ensures Pow2(Level(q, r) + 1) < Size(q)
    ensures Gone(q, r + 1) == Gone(q, r) + 2
  {
    hide *;
    var len := Level(q, r) + 1;
    TopSize(q, r);
    var ln := TopLevels(q, r);
    var v := LevelsOf(Run(q, r));
    LevelsFall(Run(q, r));
    FlatLevels(v, ln, len);
    KraftExact(Run(q, r), len);
    KraftEmpty(len);
    KraftFlat(v.nodes, len);
  }

  lemma {:induction false} TopSize(q: Queue, r: nat)
    requires q.nodes == [] && r + 1 < Size(q) && Run(q, r).leaves == []
    ensures 2 * |Run(q, r).nodes| <= Size(q) && Size(Run(q, r)) == |Run(q, r).nodes| >= 2
  {
    RunShape(q, r);
  }

  lemma {:induction false} TopLevels(q: Queue, r: nat) returns (ln: seq<nat>)
    requires q.nodes == [] && r + 1 < Size(q) && Run(q, r).leaves == []
    ensures LevelsOf(Run(q, r)) == Levels([], Repeat(Level(q, r) + 1, 2) + ln)
    ensures Gone(q, r + 1) == Gone(q, r) + 2
  {
    hide LevelsOf, Step, NodesTaken, Repeat, Run, Level, Gone;
    var c, ll;
    c, ll, ln := LevelsBefore(q, r);
    assert |LevelsOf(Run(q, r)).leaves| == 0;
    assert Repeat(Level(q, r) + 1, 2 - c) + ll == [];
  }

  lemma {:induction false} KraftEmpty(top: nat)
    ensures AtMost([], top) && Kraft([], top) == 0
  {
  }

  lemma {:induction false} FlatLevels(v: Levels, ln: seq<nat>, len: nat)
    requires Shaped(v) && v == Levels([], Repeat(len, 2) + ln) && len >= 1
    ensures LevelsAtMost(v, len) && |v.nodes| >= 2 && v.nodes[0] == len
    ensures forall i | 0 <= i < |v.nodes| :: v.nodes[i] >= len - 1
  {
    assert v.nodes[0] == len && v.nodes[1] == len;
  }
}
