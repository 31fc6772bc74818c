/** The third part of Huffman_Generate: from parents to levels, and the count of leaves
    per level, with no level deeper than maxLen (HuffEnc.c:159-164, 257-307). */
module HuffLevels {
  import opened Arith
  import opened Machine
  import opened HuffSort
  import opened HuffTree
  import opened HuffOptimal
  import opened HuffRun
  import opened HuffBuild
  import opened Sums

  const LEVELS: nat := 17             // kMaxLen + 1

  // ---------- counters ----------

  /** Leaves on the levels below v. */
  ghost function Items(c: seq<nat>, v: nat): nat
    requires v <= |c|
  {
    if v == 0 then 0 else Items(c, v - 1) + c[v - 1]
  }

  /** The share of the code space that level v takes, scaled by 2^top. */
  ghost function Part(c: seq<nat>, v: nat, top: nat): nat
    requires v < |c| && v <= top
  {
    MulNonNegative(c[v], Pow2(top - v));
    c[v] * Pow2(top - v)
  }

  /** The share that the levels below v take. */
  ghost function Share(c: seq<nat>, v: nat, top: nat): nat
    requires v <= |c| && v <= top + 1
  {
    if v == 0 then 0 else Share(c, v - 1, top) + Part(c, v - 1, top)
  }

  /** `items` leaves that fill the code space exactly, none at level 0, none below level top. */
  ghost predicate Counted(c: seq<nat>, top: nat, items: nat) {
    && |c| == LEVELS && 1 <= top < LEVELS
    && c[0] == 0 && (forall u | top < u < LEVELS :: c[u] == 0)
    && Items(c, top + 1) == items
    && Share(c, top + 1, top) == Pow2(top)
  }

  /** A leaf at level v becomes a node: two leaves at level v + 1 instead. */
  ghost function Split(c: seq<nat>, v: nat): (r: seq<nat>)
    requires v + 1 < |c| && c[v] > 0
    ensures |r| == |c| && r[v] == c[v] - 1 && r[v + 1] == c[v + 1] + 2
    ensures forall u | 0 <= u < |c| && u != v && u != v + 1 :: r[u] == c[u]
  {
    c[v := c[v] - 1][v + 1 := c[v + 1] + 2]
  }

  lemma {:induction false} ShareNext(c: seq<nat>, v: nat, top: nat)
    requires v < |c| && v <= top
    ensures Items(c, v + 1) == Items(c, v) + c[v]
    ensures Share(c, v + 1, top) == Share(c, v, top) + Part(c, v, top)
  {
    hide Part;
  }

  lemma {:induction false} SplitSums(c: seq<nat>, v: nat, u: nat, top: nat)
    requires v + 1 < |c| && c[v] > 0 && u <= |c| && u <= top + 1
    ensures Items(Split(c, v), u) == Items(c, u) - (if u > v then 1 else 0) + (if u > v + 1 then 2 else 0)
    ensures Share(Split(c, v), u, top) == Share(c, u, top) - (if u == v + 1 then Pow2(top - v) else 0)
    decreases u
  {
    hide *;
    if u > 0 {
      SplitSums(c, v, u - 1, top);
      ShareNext(c, u - 1, top);
      ShareNext(Split(c, v), u - 1, top);
      SplitPart(c, v, u - 1, top);
    } else {
      NoneShort(c, 0, top);
      NoneShort(Split(c, v), 0, top);
    }
  }

  lemma {:induction false} SplitPart(c: seq<nat>, v: nat, u: nat, top: nat)
    requires v + 1 < |c| && c[v] > 0 && u < |c| && u <= top
    ensures Part(Split(c, v), u, top) == Part(c, u, top)
              - (if u == v then Pow2(top - v) else 0) + (if u == v + 1 then Pow2(top - v) else 0)
  {
    hide Pow2, Split;
    if u == v {
      MulDistributes(Pow2(top - v), c[v], 1);
    } else if u == v + 1 {
      MulDistributes(Pow2(top - v - 1), c[v + 1], 2);
      Pow2Next(top - v - 1);
    }
  }

  lemma {:induction false} SplitCounted(c: seq<nat>, v: nat, top: nat, items: nat)
    requires Counted(c, top, items) && 1 <= v < top && c[v] > 0
    ensures v + 1 < |c| && Counted(Split(c, v), top, items + 1)
  {
    hide Items, Share, Pow2;
    SplitSums(c, v, top + 1, top);
  }

  lemma {:induction false} NoneShort(c: seq<nat>, v: nat, top: nat)
    requires v <= |c| && v <= top + 1 && forall u | 0 <= u < v :: c[u] == 0
    ensures Items(c, v) == 0 == Share(c, v, top)
  {
    if v > 0 {
      NoneShort(c, v - 1, top);
      assert 0 * Pow2(top - (v - 1)) == 0;
    }
  }

  /** Some level below v has a leaf. */
  ghost predicate LeafBelow(c: seq<nat>, v: nat)
    requires v <= |c|
  {
    exists u :: 0 <= u < v && c[u] > 0
  }

  /** Above the last level a leaf takes more places than one, so that the leaves take as
      many places as there are leaves only if there are none. */
  lemma {:induction false} PlacesTaken(c: seq<nat>, v: nat, top: nat)
    requires v <= |c| && v <= top
    ensures Share(c, v, top) >= Items(c, v)
    ensures LeafBelow(c, v) <==> Share(c, v, top) > Items(c, v)
  {
    if v > 0 {
      hide Share, Items, Part;
      ShareNext(c, v - 1, top);
      PlacesTaken(c, v - 1, top);
      PartTaken(c, v - 1, top);
      LeafBelowNext(c, v - 1);
    }
  }

  lemma {:induction false} PartTaken(c: seq<nat>, v: nat, top: nat)
    requires v < |c| && v < top
    ensures Part(c, v, top) >= c[v] && (Part(c, v, top) > c[v] <==> c[v] > 0)
  {
    Pow2Next(top - v - 1);
    hide Pow2;
    MulMonotone(c[v], 2, Pow2(top - v));
  }

  lemma {:induction false} LeafBelowNext(c: seq<nat>, v: nat)
    requires v < |c|
    ensures LeafBelow(c, v + 1) <==> LeafBelow(c, v) || c[v] > 0
  {
    if LeafBelow(c, v) {
      var u :| 0 <= u < v && c[u] > 0;
      assert u < v + 1;
    }
  }

  /** The search for a leaf above the last level ends at one exactly when there are
      fewer leaves than places in the last level. */
  lemma {:induction false} LeafAboveIff(c: seq<nat>, top: nat, items: nat)
    requires Counted(c, top, items)
    ensures items <= Pow2(top)
    ensures LeafBelow(c, top) <==> items < Pow2(top)
  {
    hide Share, Items, Part;
    PlacesTaken(c, top, top);
    ShareNext(c, top, top);
    LastPart(c, top);
  }

  lemma {:induction false} LastPart(c: seq<nat>, top: nat)
    requires top < |c|
    ensures Part(c, top, top) == c[top]
  {
    assert Pow2(0) == 1;
  }

  // ---------- levels in the array ----------

  /** Nodes from y on hold their level, those before b their parent. */
  ghost predicate Levelled(ws: seq<Word>, ps: seq<Word>, b: nat, y: nat) {
    && 3 <= |ws| <= |ps| && b <= y && y + 1 < |ws|
    && (forall j | 0 <= j < |ws| :: Sym(ps[j]) == Sym(ws[j]))
    && (forall j | 0 <= j < b :: HasParent(QueueOf(ws), j, Parent(ps[j])))
    && (forall j | y <= j < |ws| - 1 :: Parent(ps[j]) == Level(QueueOf(ws), j))
  }

  /** The counters are the levels of the items that wait when k nodes exist. */
  ghost predicate Exact(c: seq<nat>, ws: seq<Word>, k: nat) {
    && |c| == LEVELS && k < |ws|
    && forall v | 0 <= v < LEVELS :: c[v] == AtLevel(Run(QueueOf(ws), k), v)
  }

  /** Node k comes apart: its level has one leaf. */
  lemma {:induction false} SplitExact(c: seq<nat>, ws: seq<Word>, k: nat)
    requires Exact(c, ws, k + 1) && Level(QueueOf(ws), k) + 1 < LEVELS
    ensures Level(QueueOf(ws), k) + 1 < |c| && c[Level(QueueOf(ws), k)] > 0
    ensures Exact(Split(c, Level(QueueOf(ws), k)), ws, k)
  {
    hide *;
    ExactAt(c, ws, k + 1, 0);
    var m := Level(QueueOf(ws), k);
    ExactAt(c, ws, k + 1, m);
    AtLevelBefore(QueueOf(ws), k, m);
    forall v | 0 <= v < LEVELS
      ensures Split(c, m)[v] == AtLevel(Run(QueueOf(ws), k), v)
    {
      SplitAt(c, ws, k, m, v);
    }
    ExactIntro(Split(c, m), ws, k);
  }

  lemma {:induction false} SplitAt(c: seq<nat>, ws: seq<Word>, k: nat, m: nat, v: nat)
    requires Exact(c, ws, k + 1) && k + 1 < |ws| && m == Level(QueueOf(ws), k)
    requires |c| == LEVELS && m + 1 < LEVELS && v < LEVELS && c[m] > 0
    ensures Split(c, m)[v] == AtLevel(Run(QueueOf(ws), k), v)
  {
    hide *;
    ExactAt(c, ws, k + 1, v);
    AtLevelBefore(QueueOf(ws), k, v);
  }

  lemma {:induction false} ExactAt(c: seq<nat>, ws: seq<Word>, k: nat, v: nat)
    requires Exact(c, ws, k) && v < LEVELS
    ensures |c| == LEVELS && k < |ws| && c[v] == AtLevel(Run(QueueOf(ws), k), v)
  {
    hide AtLevel, Run, QueueOf;
  }

  lemma {:induction false} ExactIntro(c: seq<nat>, ws: seq<Word>, k: nat)
    requires |c| == LEVELS && k < |ws|
    requires forall v | 0 <= v < LEVELS :: c[v] == AtLevel(Run(QueueOf(ws), k), v)
    ensures Exact(c, ws, k)
  {
    hide AtLevel, Run, QueueOf;
  }

  /** A root with two leaves. */
  lemma {:induction false} RootExact(c: seq<nat>, ws: seq<Word>, top: nat)
    requires |c| == LEVELS && 3 <= |ws| && 1 <= top < LEVELS
    requires c[1] == 2 && forall v | 0 <= v < LEVELS && v != 1 :: c[v] == 0
    ensures Exact(c, ws, |ws| - 2) && Counted(c, top, 2)
  {
    var q := QueueOf(ws);
    RootLevel(q);
    hide Run, Level, Gone;
    forall v | 0 <= v < LEVELS
      ensures c[v] == AtLevel(Run(q, |ws| - 2), v)
    {
      AtLevelBefore(q, |ws| - 2, v);
      CountOne(0, v);
    }
    RootCounted(c, top, top);
  }

  lemma {:induction false} RootCounted(c: seq<nat>, v: nat, top: nat)
    requires |c| == LEVELS && 1 <= v <= top < LEVELS
    requires c[1] == 2 && forall u | 0 <= u < LEVELS && u != 1 :: c[u] == 0
    ensures Items(c, v + 1) == 2 && Share(c, v + 1, top) == Pow2(top)
  {
    if v == 1 {
      assert Share(c, 1, top) == 0 * Pow2(top) == 0;
      assert Items(c, 1) == 0;
    } else {
      RootCounted(c, v - 1, top);
      assert 0 * Pow2(top - v) == 0;
    }
  }

  // ---------- the nodes above the last leaf ----------

  ghost predicate Upper(ws: seq<Word>, ps: seq<Word>, c: seq<nat>, k: nat, b: nat, p1: nat, n: nat, top: nat) {
    && Levelled(ws, ps, b, n) && Exact(c, ws, n) && Counted(c, top, |ws| - n)
    && |ws| <= Pow2(top)
    && k <= p1 + 1 < |ws| && b == Gone(QueueOf(ws), k) && n == Gone(QueueOf(ws), p1 + 1)
    && Run(QueueOf(ws), k).leaves == []
  }

  lemma {:induction false} UpperStart(ws: seq<Word>, ps: seq<Word>, c: seq<nat>, k: nat, b: nat, top: nat)
    requires 3 <= |ws| <= Pow2(top) && 1 <= top < LEVELS && Built(ws, ps, k, b) && |c| == LEVELS
    requires c[1] == 2 && forall v | 0 <= v < LEVELS && v != 1 :: c[v] == 0
    ensures Upper(ws, Put(ps, |ws| - 2, Sym(ps[|ws| - 2])), c, k, b, |ws| - 2, |ws| - 2, top)
  {
    var q := QueueOf(ws);
    hide Run, Level, Gone, HasParent, AtLevel, Items, Share, Weights;
    RootExact(c, ws, top);
    RootLevel(q);
    GoneMonotone(q, k, |ws| - 1);
    GoneMonotone(q, 0, k);
    GoneZero(q);
  }

  lemma {:induction false} NoLeavesLater(q: Queue, k: nat, x: nat)
    requires q.nodes == [] && k <= x < Size(q) && Run(q, k).leaves == []
    ensures Run(q, x).leaves == []
    decreases x
  {
    hide *;
    if k < x {
      NoLeavesLater(q, k, x - 1);
      RunStep(q, x - 1);
      StepShape(Run(q, x - 1));
    }
  }

  /** The pair of nodes below node p1. */
  lemma {:induction false} UpperPair(ws: seq<Word>, ps: seq<Word>, c: seq<nat>, k: nat, b: nat, p1: nat, n: nat,
                                     top: nat) returns (len: nat)
    requires Upper(ws, ps, c, k, b, p1, n, top) && n != b
    ensures k <= p1 && b + 2 <= n <= p1 < |ws| <= |ps| && n == Gone(QueueOf(ws), p1) + 2
    ensures len == Parent(ps[p1]) + 1 && 1 <= len < top < LEVELS == |c| && len < 0x1_0000
    ensures len == Level(QueueOf(ws), n - 1) == Level(QueueOf(ws), n - 2)
  {
    var q := QueueOf(ws);
    hide Run, Level, Gone, HasParent, Exact, Items, Share, Weights, Pow2;
    assert p1 >= k;
    NoLeavesLater(q, k, p1);
    TopIsFlat(q, p1);
    Pow2Less(Level(q, p1) + 1, top);
    GoneMonotone(q, k, p1);
    ChildLevel(q, n - 2, p1);
    ChildLevel(q, n - 1, p1);
    len := Level(q, p1) + 1;
  }

  lemma {:induction false} UpperStep(ws: seq<Word>, ps: seq<Word>, c: seq<nat>, k: nat, b: nat, p1: nat, n: nat,
                                     top: nat, len: nat, ps': seq<Word>)
    requires Upper(ws, ps, c, k, b, p1, n, top) && n != b
    requires 2 <= n < |ws| <= |ps| == |ps'| && p1 < |ps| && len == Parent(ps[p1]) + 1
    requires forall j | 0 <= j < |ws| && j != n - 1 && j != n - 2 :: ps'[j] == ps[j]
    requires Sym(ps'[n - 1]) == Sym(ps[n - 1]) && Sym(ps'[n - 2]) == Sym(ps[n - 2])
    requires Parent(ps'[n - 1]) == len == Parent(ps'[n - 2])
    ensures len + 1 < |c| && c[len] >= 2 && p1 >= 1
    ensures Upper(ws, ps', c[len := c[len] - 2][len + 1 := c[len + 1] + 4], k, b, p1 - 1, n - 2, top)
  {
    hide *;
    var l := UpperPair(ws, ps, c, k, b, p1, n, top);
    UpperParts(ws, ps, c, k, b, p1, n, top);
    SplitExact(c, ws, n - 1);
    SplitCounted(c, len, top, |ws| - n);
    var c1 := Split(c, len);
    SplitExact(c1, ws, n - 2);
    SplitCounted(c1, len, top, |ws| - n + 1);
    var c2 := Split(c1, len);
    assert c2 == c[len := c[len] - 2][len + 1 := c[len + 1] + 4];
    UpperLevelled(ws, ps, c, k, b, p1, n, top, len, ps');
    UpperNext(ws, ps, c, k, b, p1, n, top, ps', c2);
  }

  lemma {:induction false} UpperLevelled(ws: seq<Word>, ps: seq<Word>, c: seq<nat>, k: nat, b: nat, p1: nat, n: nat,
                                         top: nat, len: nat, ps': seq<Word>)
    requires Upper(ws, ps, c, k, b, p1, n, top) && b + 2 <= n < |ws| <= |ps| == |ps'|
    requires len == Level(QueueOf(ws), n - 1) == Level(QueueOf(ws), n - 2)
    requires forall j | 0 <= j < |ws| && j != n - 1 && j != n - 2 :: ps'[j] == ps[j]
    requires Sym(ps'[n - 1]) == Sym(ps[n - 1]) && Sym(ps'[n - 2]) == Sym(ps[n - 2])
    requires Parent(ps'[n - 1]) == len == Parent(ps'[n - 2])
    ensures Levelled(ws, ps', b, n - 2)
  {
    hide Run, Level, Gone, HasParent, Items, Share, Weights, Pow2, AtLevel, Exact, Counted, Parent, Sym, QueueOf;
  }

  lemma {:induction false} UpperNext(ws: seq<Word>, ps: seq<Word>, c: seq<nat>, k: nat, b: nat, p1: nat, n: nat,
                                     top: nat, ps': seq<Word>, c': seq<nat>)
    requires Upper(ws, ps, c, k, b, p1, n, top) && k <= p1 && 1 <= p1 && p1 < |ws|
    requires n >= 2 && n == Gone(QueueOf(ws), p1) + 2
    requires Levelled(ws, ps', b, n - 2) && Exact(c', ws, n - 2) && Counted(c', top, |ws| - n + 2)
    ensures Upper(ws, ps', c', k, b, p1 - 1, n - 2, top)
  {
    hide Run, Level, Gone, HasParent, Items, Share, Weights, Pow2, AtLevel, Exact, Counted, Parent, Sym,
      QueueOf, Levelled;
  }

  lemma {:induction false} UpperParts(ws: seq<Word>, ps: seq<Word>, c: seq<nat>, k: nat, b: nat, p1: nat, n: nat,
                                      top: nat)
    requires Upper(ws, ps, c, k, b, p1, n, top)
    ensures Exact(c, ws, n) && Counted(c, top, |ws| - n) && |c| == LEVELS && top < LEVELS && n < |ws| <= |ps|
  {
    hide Run, Level, Gone, HasParent, Items, Share, Weights, Pow2, AtLevel;
  }

  /** By default the root has two leaves below it (HuffEnc.c:159-163). */
  method RootCounters() returns (counters: array<nat>)
    ensures fresh(counters) && counters.Length == LEVELS
    ensures counters[1] == 2 && forall v | 0 <= v < LEVELS && v != 1 :: counters[v] == 0
  {
    counters := new nat[LEVELS];
    for i := 0 to LEVELS
      invariant forall v | 0 <= v < i :: counters[v] == 0
    {
      counters[i] := 0;
    }
    counters[1] := 2;
  }

  /** One pair of nodes, below node p1. */
  method LevelPair(p: array<Word>, counters: array<nat>, p1: nat, n: nat, ghost ws: seq<Word>, ghost k: nat,
                   ghost b: nat, ghost top: nat)
    requires Upper(ws, p[..], counters[..], k, b, p1, n, top) && n != b && |ws| < 0x1_0000
    modifies p, counters
    ensures 1 <= p1 && b + 2 <= n && Upper(ws, p[..], counters[..], k, b, p1 - 1, n - 2, top)
    ensures n - 1 < |ws| && Level(QueueOf(ws), n - 2) < top
  {
    hide *;
    ghost var ps, c := p[..], counters[..];
    ghost var l := UpperPair(ws, ps, c, k, b, p1, n, top);
    var len := Parent(p[p1]) + 1;
    UpperRoom(ws, ps, c, k, b, p1, n, top, len);
    counters[len] := counters[len] - 2;
    counters[len + 1] := counters[len + 1] + 4;
    assert counters[..] == c[len := c[len] - 2][len + 1 := c[len + 1] + 4];
    SetParent(p, n - 2, len);
    SetParent(p, n - 1, len);
    UpperStep(ws, ps, c, k, b, p1, n, top, len, p[..]);
  }

  /** From the last leaf up to the root: parents are paired off, and each node gets its
      level (HuffEnc.c:258-281). */
  method LevelsUp(p: array<Word>, num: nat, b: nat, ghost top: nat, ghost ws: seq<Word>,
                  ghost k: nat) returns (counters: array<nat>)
    requires |ws| == num && 3 <= num <= p.Length && num < 0x1_0000 && 1 <= top < LEVELS
    requires num <= Pow2(top) && Built(ws, p[..], k, b)
    modifies p
    ensures fresh(counters)
    ensures Levelled(ws, p[..], b, b) && Exact(counters[..], ws, b) && Counted(counters[..], top, num - b)
    ensures b + 1 < |ws| && Level(QueueOf(ws), b) < top
  {
    hide *;
    ghost var ps := p[..];
    counters := RootCounters();
    var n: nat := num - 2;
    UpperStart(ws, ps, counters[..], k, b, top);
    RootLevel(QueueOf(ws));
    p[n] := Sym(p[n]);
    assert p[..] == Put(ps, n, Sym(ps[n]));
    var p1: nat := n;
    while n != b
      invariant Upper(ws, p[..], counters[..], k, b, p1, n, top)
      invariant n + 1 < |ws| && Level(QueueOf(ws), n) < top
      decreases n
    {
      LevelPair(p, counters, p1, n, ws, k, b, top);
      p1 := p1 - 1;
      n := n - 2;
    }
    UpperDone(ws, p[..], counters[..], k, b, p1, n, top);
  }

  lemma {:induction false} UpperRoom(ws: seq<Word>, ps: seq<Word>, c: seq<nat>, k: nat, b: nat, p1: nat, n: nat,
                                     top: nat, len: nat)
    requires Upper(ws, ps, c, k, b, p1, n, top) && n != b && p1 < |ps| && len == Parent(ps[p1]) + 1
    ensures len + 1 < |c| && c[len] >= 2
  {
    hide *;
    var l := UpperPair(ws, ps, c, k, b, p1, n, top);
    UpperParts(ws, ps, c, k, b, p1, n, top);
    SplitExact(c, ws, n - 1);
    SplitExact(Split(c, len), ws, n - 2);
  }

  lemma {:induction false} UpperDone(ws: seq<Word>, ps: seq<Word>, c: seq<nat>, k: nat, b: nat, p1: nat, n: nat,
                                     top: nat)
    requires Upper(ws, ps, c, k, b, p1, n, top)
    ensures Levelled(ws, ps, b, n) && Exact(c, ws, n) && Counted(c, top, |ws| - n)
  {
    hide Run, Level, Gone, HasParent, Items, Share, Weights, Pow2, AtLevel, Exact, Counted, Parent, Sym,
      QueueOf, Levelled;
  }

  // ---------- the nodes below ----------

  /** Some node from b on is too deep to stand where its children would be. */
  ghost predicate Clamped(ws: seq<Word>, b: nat, top: nat) {
    b + 1 < |ws| && Level(QueueOf(ws), b) >= top
  }

  /** Node b - 1 is too deep, and no leaf is above the last level. */
  ghost predicate Stuck(ws: seq<Word>, c: seq<nat>, b: nat, top: nat) {
    && |c| == LEVELS && 1 <= top < LEVELS && 0 < b < |ws| && |ws| > Pow2(top)
    && Level(QueueOf(ws), b - 1) >= top && !LeafBelow(c, top)
  }

  /** One leaf becomes a node with two leaves, and no leaf that could is deeper. */
  ghost predicate Lowered(c: seq<nat>, d: seq<nat>, top: nat) {
    exists v: nat :: LoweredAt(c, d, v, top)
  }

  ghost predicate LoweredAt(c: seq<nat>, d: seq<nat>, v: nat, top: nat) {
    && v < top < |c| && c[v] > 0 && (forall u | v < u < top :: c[u] == 0)
    && d == c[v := c[v] - 1][v + 1 := c[v + 1] + 2]
  }

  ghost predicate LoweredTimes(c: seq<nat>, d: seq<nat>, m: nat, top: nat)
    decreases m
  {
    if m == 0 then c == d else exists e: seq<nat> :: LoweredTimes(c, e, m - 1, top) && Lowered(e, d, top)
  }

  lemma {:induction false} LoweredMore(c: seq<nat>, e: seq<nat>, d: seq<nat>, m: nat, top: nat)
    requires LoweredTimes(c, e, m, top) && Lowered(e, d, top)
    ensures LoweredTimes(c, d, m + 1, top)
  {
    hide Lowered;
  }

  /** The counters of the tree that is cut at its first node of level top or more: node x - 1. */
  ghost predicate CutTree(ws: seq<Word>, cut: seq<nat>, x: nat, top: nat) {
    && Exact(cut, ws, x) && x + 1 < |ws| && Level(QueueOf(ws), x) < top
    && (x > 0 ==> Level(QueueOf(ws), x - 1) >= top)
  }

  /** Down to node b: as in the tree, or since it was cut at x each node has lowered a leaf. */
  ghost predicate FromCut(ws: seq<Word>, cut: seq<nat>, x: nat, c: seq<nat>, b: nat, top: nat) {
    && b <= x && x + 1 < |ws| && Exact(cut, ws, x) && Level(QueueOf(ws), x) < top
    && (b < x ==> Level(QueueOf(ws), x - 1) >= top) && LoweredTimes(cut, c, x - b, top)
  }

  ghost predicate Lower(ws: seq<Word>, ps: seq<Word>, cut: seq<nat>, x: nat, c: seq<nat>, b: nat, top: nat) {
    && Levelled(ws, ps, b, b)
    && (Stuck(ws, c, b, top) || (Counted(c, top, |ws| - b) && FromCut(ws, cut, x, c, b, top)))
  }

  lemma {:induction false} LevelMonotone(q: Queue, i: nat, j: nat)
    requires q.nodes == [] && i <= j && j + 1 < Size(q)
    ensures Level(q, i) >= Level(q, j)
    decreases j
  {
    hide *;
    if i < j {
      LevelMonotone(q, i, j - 1);
      LevelFalls(q, j - 1);
    }
  }

  /** As long as no node is too deep the counters are those of the tree. */
  lemma {:induction false} FromCutExact(ws: seq<Word>, cut: seq<nat>, x: nat, c: seq<nat>, b: nat, top: nat)
    requires FromCut(ws, cut, x, c, b, top) && Level(QueueOf(ws), b) < top
    ensures x == b && Exact(c, ws, b)
  {
    hide Level, Exact, QueueOf;
    if b < x {
      LevelMonotone(QueueOf(ws), b, x - 1);
      assert false;
    }
  }

  lemma {:induction false} FromCutStart(ws: seq<Word>, c: seq<nat>, b: nat, top: nat)
    requires Exact(c, ws, b) && b + 1 < |ws| && Level(QueueOf(ws), b) < top
    ensures FromCut(ws, c, b, c, b, top)
  {
    hide Level, Exact, QueueOf;
  }

  lemma {:induction false} FromCutNext(ws: seq<Word>, cut: seq<nat>, x: nat, c: seq<nat>, b: nat, top: nat, d: seq<nat>)
    requires FromCut(ws, cut, x, c, b, top) && b > 0 && Level(QueueOf(ws), b - 1) >= top && Lowered(c, d, top)
    ensures FromCut(ws, cut, x, d, b - 1, top)
  {
    hide Level, Exact, QueueOf, Lowered;
    LoweredMore(cut, c, d, x - b, top);
  }

  lemma {:induction false} FromCutEnd(ws: seq<Word>, cut: seq<nat>, x: nat, c: seq<nat>, top: nat)
    requires FromCut(ws, cut, x, c, 0, top)
    ensures CutTree(ws, cut, x, top) && LoweredTimes(cut, c, x, top)
    ensures Clamped(ws, 0, top) || Exact(c, ws, 0)
  {
    hide Level, Exact, QueueOf;
    if !Clamped(ws, 0, top) {
      FromCutExact(ws, cut, x, c, 0, top);
    }
  }

  /** The parent of the next node has its level already. */
  lemma {:induction false} LowerParent(ws: seq<Word>, ps: seq<Word>, b: nat) returns (v: nat)
    requires Levelled(ws, ps, b, b) && b > 0
    ensures b < |ws| <= |ps| && v == Parent(ps[b - 1]) < |ps|
    ensures Parent(ps[v]) + 1 == Level(QueueOf(ws), b - 1) < |ws|
  {
    hide Run, Level, Gone, Weights, Parent, Sym;
    v := Parent(ps[b - 1]);
    assert HasParent(QueueOf(ws), b - 1, v);
    hide QueueOf;
    ChildLevel(QueueOf(ws), b - 1, v);
    LevelBound(QueueOf(ws), b - 1);
  }

  lemma {:induction false} LowerParts(ws: seq<Word>, ps: seq<Word>, cut: seq<nat>, x: nat, c: seq<nat>, b: nat,
                                      top: nat)
    requires Lower(ws, ps, cut, x, c, b, top)
    ensures Stuck(ws, c, b, top) || (Counted(c, top, |ws| - b) && FromCut(ws, cut, x, c, b, top))
    ensures |c| == LEVELS && 1 <= top < LEVELS && b + 1 < |ws| <= |ps|
    ensures Levelled(ws, ps, b, b)
  {
    hide Run, Level, Gone, Items, Share, Weights, Pow2, HasParent, Parent, Sym, LeafBelow, FromCut;
  }

  lemma {:induction false} LowerLevelled(ws: seq<Word>, ps: seq<Word>, b: nat, len: nat, ps': seq<Word>)
    requires Levelled(ws, ps, b, b) && b > 0 && len == Level(QueueOf(ws), b - 1) && |ps'| == |ps|
    requires forall j | 0 <= j < |ws| && j != b - 1 :: ps'[j] == ps[j]
    requires Sym(ps'[b - 1]) == Sym(ps[b - 1]) && Parent(ps'[b - 1]) == len
    ensures Levelled(ws, ps', b - 1, b - 1)
  {
    hide Run, Level, Gone, HasParent, Parent, Sym, QueueOf;
  }

  /** A node that is not too deep: no deeper one came before, and its own level has a leaf. */
  lemma {:induction false} LowerExact(ws: seq<Word>, cut: seq<nat>, x: nat, c: seq<nat>, b: nat, top: nat)
    requires FromCut(ws, cut, x, c, b, top)
    requires 0 < b && b + 1 < |ws| && Level(QueueOf(ws), b - 1) < top < LEVELS
    ensures (var len := Level(QueueOf(ws), b - 1);
      len + 1 < |c| && c[len] > 0 && FromCut(ws, Split(c, len), b - 1, Split(c, len), b - 1, top))
  {
    hide Level, Exact, QueueOf, FromCut;
    LevelFalls(QueueOf(ws), b - 1);
    FromCutExact(ws, cut, x, c, b, top);
    SplitExact(c, ws, b - 1);
    FromCutStart(ws, Split(c, Level(QueueOf(ws), b - 1)), b - 1, top);
  }

  lemma {:induction false} LowerIntro(ws: seq<Word>, ps: seq<Word>, cut: seq<nat>, x: nat, c: seq<nat>, b: nat,
                                      top: nat)
    requires Levelled(ws, ps, b, b)
    requires Stuck(ws, c, b, top) || (Counted(c, top, |ws| - b) && FromCut(ws, cut, x, c, b, top))
    ensures Lower(ws, ps, cut, x, c, b, top)
  {
    hide Levelled, Stuck, Counted, FromCut;
  }

  /** The leaf that the search found, lowered. */
  lemma {:induction false} NearestLowered(c: seq<nat>, v: nat, top: nat)
    requires v < top < |c| && c[v] > 0 && forall u | v < u < top :: c[u] == 0
    ensures Lowered(c, Split(c, v), top)
  {
    assert LoweredAt(c, Split(c, v), v, top);
  }

  /** Why a search that finds no leaf had too many to begin with. */
  lemma {:induction false} NoneFound(ws: seq<Word>, c: seq<nat>, b: nat, top: nat)
    requires 0 < b < |ws| && (Counted(c, top, |ws| - b) || Stuck(ws, c, b, top))
    requires top < |c| && forall v | 0 <= v < top :: c[v] == 0
    ensures |ws| > Pow2(top)
  {
    hide Items, Share, Weights, Pow2, Level;
    if Counted(c, top, |ws| - b) {
      LeafAboveIff(c, top, |ws| - b);
    }
  }

  /** Where a leaf is found, or a node is not too deep, the search has not failed. */
  lemma {:induction false} NotStuck(ws: seq<Word>, c: seq<nat>, b: nat, top: nat, len: nat)
    requires 0 < b < |ws| && len < |c| && c[len] > 0 && len < top
    ensures !Stuck(ws, c, b, top)
  {
    hide Items, Share, Weights, Pow2, Level;
  }

  lemma {:induction false} LeafPositive(c: seq<nat>, top: nat, items: nat, len: nat)
    requires Counted(c, top, items) && len < |c| && c[len] > 0
    ensures len >= 1
  {
    hide Items, Share, Pow2;
  }

  /** The nearest level above the last one that has a leaf, or -1 where the source reads
      on below its counters (HuffEnc.c:296-302). */
  method NearestLeaf(counters: array<nat>, top: nat) returns (len: int)
    requires 1 <= top < counters.Length
    ensures -1 <= len < top && (len >= 0 ==> counters[len] > 0)
    ensures forall v | len < v < top :: counters[v] == 0
  {
    len := top - 1;
    while len >= 0 && counters[len] == 0
      invariant -1 <= len < top
      invariant forall u | len < u < top :: counters[u] == 0
      decreases len
    {
      len := len - 1;
    }
  }

  /** One node whose parent has its level; not ok if it finds no leaf to split. */
  method LowerNode(p: array<Word>, counters: array<nat>, b: nat, top: nat, ghost ws: seq<Word>, ghost cut0: seq<nat>,
                   ghost x0: nat)
    returns (ok: bool, ghost cut: seq<nat>, ghost x: nat)
    requires Lower(ws, p[..], cut0, x0, counters[..], b, top) && b > 0 && |ws| < 0x1_0000
    modifies p, counters
    ensures ok ==> Lower(ws, p[..], cut, x, counters[..], b - 1, top)
    ensures ok ==> Counted(counters[..], top, |ws| - b + 1) && FromCut(ws, cut, x, counters[..], b - 1, top)
    ensures !ok ==> |ws| > Pow2(top)
  {
    hide *;
    ghost var ps, c := p[..], counters[..];
    cut, x := cut0, x0;
    LowerParts(ws, ps, cut, x, c, b, top);
    ghost var par := LowerParent(ws, ps, b);
    var len := Parent(p[Parent(p[b - 1])]) + 1;
    ghost var level := len;
    SetParent(p, b - 1, len);
    LowerLevelled(ws, ps, b, len, p[..]);
    if len >= top {
      var near := NearestLeaf(counters, top);
      if near < 0 {
        NoneFound(ws, c, b, top);
        ok := false;
        return;
      }
      len := near;
      NotStuck(ws, c, b, top, len);
      NearestLowered(c, len, top);
      FromCutNext(ws, cut, x, c, b, top, Split(c, len));
    } else {
      NotDeep(ws, c, b, top);
      LowerExact(ws, cut, x, c, b, top);
      cut, x := Split(c, len), b - 1;
    }
    counters[len] := counters[len] - 1;
    counters[len + 1] := counters[len + 1] + 2;
    SplitIs(c, len, counters[..]);
    LeafPositive(c, top, |ws| - b, len);
    SplitCounted(c, len, top, |ws| - b);
    LowerIntro(ws, p[..], cut, x, counters[..], b - 1, top);
    ok := true;
  }

  lemma {:induction false} NotDeep(ws: seq<Word>, c: seq<nat>, b: nat, top: nat)
    requires 0 < b < |ws| && Level(QueueOf(ws), b - 1) < top
    ensures !Stuck(ws, c, b, top)
  {
    hide Level, Pow2, LeafBelow;
  }

  lemma {:induction false} SplitIs(c: seq<nat>, v: nat, d: seq<nat>)
    requires v + 1 < |c| && c[v] > 0 && |d| == |c| && d[v] == c[v] - 1 && d[v + 1] == c[v + 1] + 2
    requires forall u | 0 <= u < |c| && u != v && u != v + 1 :: d[u] == c[u]
    ensures d == Split(c, v)
  {
  }

  /** Down from the last node that has a parent, to node 0 (HuffEnc.c:283-307): it gets
      there exactly when there is no such node, or no more leaves than the last level
      has places. From the first node on that is too deep, each lowers the deepest leaf
      that can be lowered. */
  method LevelsDown(p: array<Word>, counters: array<nat>, num: nat, b0: nat, top: nat, ghost ws: seq<Word>)
    returns (ok: bool, ghost cut: seq<nat>, ghost x: nat)
    requires |ws| == num < 0x1_0000 && Levelled(ws, p[..], b0, b0) && Exact(counters[..], ws, b0) && b0 + 1 < num
    requires b0 > 0 ==>
               Stuck(ws, counters[..], b0, top)
               || (Counted(counters[..], top, num - b0) && Level(QueueOf(ws), b0) < top)
    modifies p, counters
    ensures ok <==> b0 == 0 || num <= Pow2(top)
    ensures ok ==> SameSymbols(ws, p[..])
    ensures b0 == 0 ==> counters[..] == old(counters[..])
    ensures ok && b0 > 0 ==> Counted(counters[..], top, num) && (Clamped(ws, 0, top) || Exact(counters[..], ws, 0))
    ensures ok && b0 > 0 ==> CutTree(ws, cut, x, top) && LoweredTimes(cut, counters[..], x, top)
  {
    hide *;
    ok, cut, x := true, counters[..], b0;
    var b: nat := b0;
    if b != 0 {
      if !Stuck(ws, counters[..], b0, top) {
        FromCutStart(ws, counters[..], b0, top);
      }
      LowerIntro(ws, p[..], cut, x, counters[..], b0, top);
      while ok && b != 0
        invariant b <= b0 && (ok ==> Lower(ws, p[..], cut, x, counters[..], b, top))
        invariant ok && b < b0 ==> Counted(counters[..], top, num - b) && FromCut(ws, cut, x, counters[..], b, top)
        invariant (b == 0 ==> ok) && (!ok ==> num > Pow2(top))
        decreases ok, b
      {
        ok, cut, x := LowerNode(p, counters, b, top, ws, cut, x);
        if ok {
          b := b - 1;
        }
      }
      if ok {
        LeafAboveIff(counters[..], top, num);
        LowerParts(ws, p[..], cut, x, counters[..], b, top);
        FromCutEnd(ws, cut, x, counters[..], top);
      }
    }
    if ok {
      LevelledSymbols(ws, p[..], b);
    }
  }

  /** Whatever else has changed, the symbols are where they were. */
  ghost predicate SameSymbols(ws: seq<Word>, ps: seq<Word>) {
    |ws| <= |ps| && forall j | 0 <= j < |ws| :: Sym(ps[j]) == Sym(ws[j])
  }

  lemma {:induction false} LevelledSymbols(ws: seq<Word>, ps: seq<Word>, b: nat)
    requires Levelled(ws, ps, b, b)
    ensures SameSymbols(ws, ps)
  {
    hide HasParent, Level, Sym, Parent;
  }

  // ---------- what the counters say about the leaves ----------

  /** The lengths that the counters stand for, longest first. */
  ghost function Expand(c: seq<nat>, v: nat): (r: seq<nat>)
    requires v < |c|
  {
    if v == 0 then [] else Repeat(v, c[v]) + Expand(c, v - 1)
  }

  lemma {:induction false} ExpandFacts(c: seq<nat>, v: nat, top: nat)
    requires v < |c| && v <= top && c[0] == 0
    ensures |Expand(c, v)| == Items(c, v + 1)
    ensures AtMost(Expand(c, v), v) && Falling(Expand(c, v)) && AtLeastOne(Expand(c, v))
    ensures AtMost(Expand(c, v), top) && Kraft(Expand(c, v), top) == Share(c, v + 1, top)
  {
    if v == 0 {
      ShareNone(c, top);
    } else {
      hide Kraft, Pow2, Share, Items, Repeat, AtMost, Falling, AtLeastOne, Part;
      ShareNext(c, v, top);
      ExpandFacts(c, v - 1, top);
      var r, e := Repeat(v, c[v]), Expand(c, v - 1);
      ExpandShape(c[v], v, e);
      AtMostMore(e, v - 1, top);
      RepeatPart(c, v, top);
      KraftAppend(r, e, top);
    }
  }

  lemma {:induction false} RepeatPart(c: seq<nat>, v: nat, top: nat)
    requires v < |c| && v <= top
    ensures AtMost(Repeat(v, c[v]), top) && Kraft(Repeat(v, c[v]), top) == Part(c, v, top)
  {
    hide Pow2, Kraft;
    KraftRepeat(v, c[v], top);
  }

  ghost predicate AtLeastOne(s: seq<nat>) {
    forall i | 0 <= i < |s| :: s[i] >= 1
  }

  lemma {:induction false} ExpandShape(k: nat, v: nat, e: seq<nat>)
    requires v >= 1 && AtMost(e, v - 1) && Falling(e) && AtLeastOne(e)
    ensures AtMost(Repeat(v, k) + e, v) && Falling(Repeat(v, k) + e) && AtLeastOne(Repeat(v, k) + e)
  {
  }

  lemma {:induction false} AtMostMore(s: seq<nat>, u: nat, v: nat)
    requires AtMost(s, u) && u <= v
    ensures AtMost(s, v)
  {
  }

  lemma {:induction false} ShareNone(c: seq<nat>, top: nat)
    requires |c| > 0 && c[0] == 0
    ensures Items(c, 1) == 0 && Share(c, 1, top) == 0 && AtMost([], top) && Kraft([], top) == 0
  {
    ShareNext(c, 0, top);
  }

  lemma {:induction false} SomeLength(s: seq<nat>, v: nat)
    requires AtMost(s, v) && AtLeastOne(s) && s != []
    ensures v >= 1
  {
    assert s[0] <= v;
  }

  /** Falling lengths are fixed by how many there are of each. */
  lemma {:induction false} ExpandUnique(s: seq<nat>, c: seq<nat>, v: nat)
    requires v < |c| && Falling(s) && AtMost(s, v) && AtLeastOne(s)
    requires forall u | 1 <= u <= v :: CountIn(s, u) == c[u]
    ensures s == Expand(c, v)
    decreases v
  {
    hide CountIn, AtMost, Falling, AtLeastOne, Repeat;
    if v == 0 {
      if s != [] {
        SomeLength(s, 0);
        assert false;
      }
    } else {
      var r := Top(s, v);
      var k := CountIn(s, v);
      SuffixAtLeast(Repeat(v, k), r);
      forall u | 1 <= u <= v - 1
        ensures CountIn(r, u) == c[u]
      {
        CountAppend(Repeat(v, k), r, u);
        CountRepeat(v, k, u);
      }
      ExpandUnique(r, c, v - 1);
    }
  }

  lemma {:induction false} SuffixAtLeast(s: seq<nat>, r: seq<nat>)
    requires AtLeastOne(s + r)
    ensures AtLeastOne(r)
  {
    assert forall i | 0 <= i < |r| :: r[i] == (s + r)[|s| + i];
  }

  /** The longest come first. */
  lemma {:induction false} Top(s: seq<nat>, v: nat) returns (r: seq<nat>)
    requires Falling(s) && AtMost(s, v) && v >= 1
    ensures s == Repeat(v, CountIn(s, v)) + r
    ensures Falling(r) && AtMost(r, v - 1)
  {
    hide Repeat, CountIn;
    if s == [] || s[0] < v {
      hide Falling;
      r := s;
      FirstIsMost(s);
      NoneOf(s, v);
      NoRepeat(v, s);
    } else {
      TailFalls(s, v);
      FirstIsMost(s);
      assert s[0] == v;
      CountFront(s, v);
      r := Top(s[1..], v);
      hide Falling, AtMost;
      MoreRepeat(v, CountIn(s[1..], v), r, s);
    }
  }

  lemma {:induction false} FirstIsMost(s: seq<nat>)
    requires Falling(s)
    ensures s != [] ==> AtMost(s, s[0])
  {
  }

  lemma {:induction false} TailFalls(s: seq<nat>, v: nat)
    requires Falling(s) && AtMost(s, v) && s != []
    ensures Falling(s[1..]) && AtMost(s[1..], v)
  {
    assert forall i | 0 <= i < |s[1..]| :: s[1..][i] == s[i + 1];
  }

  lemma {:induction false} NoRepeat(v: nat, r: seq<nat>)
    ensures Repeat(v, 0) + r == r
  {
  }

  lemma {:induction false} MoreRepeat(v: nat, k: nat, r: seq<nat>, s: seq<nat>)
    requires s != [] && s[0] == v && s[1..] == Repeat(v, k) + r
    ensures s == Repeat(v, k + 1) + r
  {
    assert s == [v] + s[1..];
    assert Repeat(v, k + 1) == [v] + Repeat(v, k);
  }

  lemma {:induction false} NoneOf(s: seq<nat>, v: nat)
    requires forall i | 0 <= i < |s| :: s[i] != v
    ensures CountIn(s, v) == 0
  {
    if s != [] {
      hide CountIn;
      NoneOf(s[1..], v);
      CountFront(s, v);
    }
  }
}
