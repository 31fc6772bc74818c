/** Lengths of a tree that was too deep: which leaves were lowered, and which symbols keep the level
    that they have in the tree (HuffEnc.c:283-322). */
module HuffClamp {
  import opened Arith
  import opened Machine
  import opened HuffBuild
  import opened HuffLevels
  import opened HuffResult
  import opened HuffRun
  import opened HuffSort
  import opened HuffSymbols
  import opened HuffTree

  /** The lengths fall along the sorted symbols, and there are as many of each as there are leaves
      per level in the tree cut at its first node of level top or more, after each of the nodes from
      there on has lowered one leaf: the deepest one that is not on level top yet. */
  ghost predicate Limited(freqs: seq<Word>, ls: seq<nat>, top: nat) {
    forall ws | SortedSymbols(freqs, ws) && |ws| >= 3 :: LimitedFor(ws, ls, top)
  }

  ghost predicate LimitedFor(ws: seq<Word>, ls: seq<nat>, top: nat) {
    && Listing(Symbols(ws), |ls|) && Falling(Picked(ls, Symbols(ws)))
    && exists cut: seq<nat>, x: nat :: CutTree(ws, cut, x, top) && LoweredTimes(cut, Hist(ls), x, top)
  }

  lemma {:induction false} LimitedIntro(freqs: seq<Word>, ws: seq<Word>, ls: seq<nat>, c: seq<nat>, cut: seq<nat>,
                                        x: nat, top: nat)
    requires SortedSymbols(freqs, ws) && Listing(Symbols(ws), |ls|) && Falling(Picked(ls, Symbols(ws)))
    requires CutTree(ws, cut, x, top) && LoweredTimes(cut, c, x, top) && c == Hist(ls)
    ensures Limited(freqs, ls, top)
  {
    hide SortedSymbols, CutTree, LoweredTimes, Hist, Falling, Listing;
    assert LimitedFor(ws, ls, top);
    forall ws' | SortedSymbols(freqs, ws')
      ensures ws' == ws
    {
      SortedUnique(freqs, ws, ws');
    }
  }

  // ---------- how far down the search goes ----------

  /** How many more leaves the leaves on levels lo to w - 1 can become, all of them on level top. */
  ghost function Room(c: seq<nat>, lo: nat, w: nat, top: nat): nat
    requires w <= |c| && w <= top
  {
    if w <= lo then 0
    else
      MulNonNegative(c[w - 1], Pow2(top - w + 1) - 1);
      Room(c, lo, w - 1, top) + c[w - 1] * (Pow2(top - w + 1) - 1)
  }

  lemma {:induction false} RoomNext(c: seq<nat>, lo: nat, w: nat, top: nat)
    requires lo <= w < |c| && w < top
    ensures Room(c, lo, w + 1, top) == Room(c, lo, w, top) + c[w] * (Pow2(top - w) - 1)
  {
  }

  lemma {:induction false} RoomLowered(c: seq<nat>, v: nat, lo: nat, w: nat, top: nat)
    requires lo <= v < top < |c| && c[v] > 0 && w <= top
    ensures Room(Split(c, v), lo, w, top) == Room(c, lo, w, top)
              - (if w > v then Pow2(top - v) - 1 else 0) + (if w > v + 1 then Pow2(top - v) - 2 else 0)
    decreases w
  {
    hide *;
    if w <= lo {
      RoomNone(c, lo, w, top);
      RoomNone(Split(c, v), lo, w, top);
    } else {
      RoomLowered(c, v, lo, w - 1, top);
      RoomNext(c, lo, w - 1, top);
      RoomNext(Split(c, v), lo, w - 1, top);
      var a := Pow2(top - w + 1) - 1;
      if w - 1 == v {
        MulDistributes(a, c[v], 1);
      } else if w - 1 == v + 1 {
        MulDistributes(a, c[v + 1], 2);
        Pow2Next(top - v - 1);
      }
    }
  }

  lemma {:induction false} RoomNone(c: seq<nat>, lo: nat, w: nat, top: nat)
    requires w <= lo && w <= |c| && w <= top
    ensures Room(c, lo, w, top) == 0
  {
  }

  /** A leaf lowered on these levels takes one. */
  lemma {:induction false} RoomLess(c: seq<nat>, v: nat, lo: nat, top: nat)
    requires lo <= v < top < |c| && c[v] > 0
    ensures Room(Split(c, v), lo, top, top) == Room(c, lo, top, top) - 1
  {
    hide Room, Split, Pow2;
    RoomLowered(c, v, lo, top, top);
    Pow2Next(0);
    assert Pow2(0) == 1 by {
      PowOfNone();
    }
  }

  lemma {:induction false} PowOfNone()
    ensures Pow2(0) == 1
  {
  }

  lemma {:induction false} SomeRoom(c: seq<nat>, lo: nat, w: nat, top: nat)
    requires w <= |c| && w <= top && Room(c, lo, w, top) > 0
    ensures exists u :: lo <= u < w && c[u] > 0
    decreases w
  {
    if w > lo && c[w - 1] == 0 {
      assert 0 * (Pow2(top - w + 1) - 1) == 0;
      SomeRoom(c, lo, w - 1, top);
    }
  }

  /** As long as there is room on the levels from lo on, no level above is searched. */
  lemma {:induction false} LoweredKeeps(c: seq<nat>, d: seq<nat>, m: nat, top: nat, lo: nat)
    requires LoweredTimes(c, d, m, top) && lo <= top < |c| && m <= Room(c, lo, top, top)
    ensures |d| == |c| && Room(d, lo, top, top) == Room(c, lo, top, top) - m
    ensures forall u | 0 <= u < lo :: d[u] == c[u]
    decreases m
  {
    if m > 0 {
      var e: seq<nat> :| LoweredTimes(c, e, m - 1, top) && Lowered(e, d, top);
      LoweredKeeps(c, e, m - 1, top, lo);
      hide LoweredTimes, Room;
      SomeRoom(e, lo, top, top);
      var v: nat :| LoweredAt(e, d, v, top);
      RoomLess(e, v, lo, top);
      assert d == Split(e, v);
    }
  }

  // ---------- symbols that keep their level ----------

  /** Cutting the tree below level top leaves the leaves above where they are. */
  lemma {:induction false} CutLeaves(ws: seq<Word>, x: nat, top: nat, u: nat, k: nat)
    requires k <= x && x + 1 < |ws| && u < top && (x > 0 ==> Level(QueueOf(ws), x - 1) >= top)
    ensures AtLevel(Run(QueueOf(ws), k), u) == AtLevel(Run(QueueOf(ws), x), u)
    decreases x - k
  {
    hide *;
    if k < x {
      CutLeaves(ws, x, top, u, k + 1);
      LevelMonotone(QueueOf(ws), k, x - 1);
      AtLevelBefore(QueueOf(ws), k, u);
    }
  }

  lemma {:induction false} CutCounts(ws: seq<Word>, cut: seq<nat>, x: nat, top: nat, u: nat)
    requires CutTree(ws, cut, x, top) && u < top < LEVELS
    ensures |cut| == LEVELS && cut[u] == CountIn(LevelsOf(QueueOf(ws)).leaves, u)
  {
    hide Level, LevelsOf, CountIn, Exact, QueueOf, Run;
    ExactAt(cut, ws, x, u);
    CutLeaves(ws, x, top, u, 0);
    RunZero(QueueOf(ws));
    NoNodes(QueueOf(ws), u);
  }

  lemma {:induction false} NoNodes(q: Queue, u: nat)
    requires q.nodes == [] && Size(q) >= 1
    ensures AtLevel(q, u) == CountIn(LevelsOf(q).leaves, u)
  {
    hide LevelsOf;
    assert LevelsOf(q).nodes == [];
  }

  lemma {:induction false} LastIs(s: seq<nat>, v: nat)
    requires Falling(s) && CountIn(s, v) > 0
    ensures s != [] && s[|s| - 1] <= v
  {
    hide CountIn;
    if forall i | 0 <= i < |s| :: s[i] != v {
      NoneOf(s, v);
    }
  }

  lemma {:induction false} CountOfLast(s: seq<nat>, v: nat)
    requires s != []
    ensures CountIn(s, v) == CountIn(s[..|s| - 1], v) + (if s[|s| - 1] == v then 1 else 0)
  {
    hide CountIn;
    var k := |s| - 1;
    assert s == s[..k] + [s[k]];
    CountAppend(s[..k], [s[k]], v);
    CountOne(s[k], v);
  }

  lemma {:induction false} FallingFront(s: seq<nat>)
    requires Falling(s) && s != []
    ensures Falling(s[..|s| - 1])
  {
  }

  /** They have the same numbers below lo. */
  ghost predicate SameBelow(l: seq<nat>, r: seq<nat>, lo: nat) {
    forall u: nat | u < lo :: CountIn(l, u) == CountIn(r, u)
  }

  /** Where two falling sequences have the same small numbers, they have them in the same places. */
  lemma {:induction false} SameEnd(l: seq<nat>, r: seq<nat>, lo: nat, k: nat)
    requires Falling(l) && Falling(r) && |l| == |r| && SameBelow(l, r, lo)
    requires k < |l| && l[k] < lo
    ensures r[k] == l[k]
    decreases |l|
  {
    hide CountIn;
    var a, b := l[|l| - 1], r[|l| - 1];
    assert a <= l[k];
    CountOfLast(l, a);
    LastIs(r, a);
    CountOfLast(r, b);
    LastIs(l, b);
    assert a == b;
    if k < |l| - 1 {
      FallingFront(l);
      FallingFront(r);
      var x, y := l[..|l| - 1], r[..|r| - 1];
      forall u: nat | u < lo
        ensures CountIn(x, u) == CountIn(y, u)
      {
        CountOfLast(l, u);
        CountOfLast(r, u);
      }
      SameEnd(x, y, lo, k);
    }
  }

  lemma {:induction false} UsedOnly(freqs: seq<Word>, ws: seq<Word>, ls: seq<nat>)
    requires SortedSymbols(freqs, ws) && |ls| == |freqs|
    requires forall i | 0 <= i < |ls| :: ls[i] > 0 <==> freqs[i] > 0
    ensures Listing(Symbols(ws), |ls|) && OnlyListed(ls, Symbols(ws)) && AtLeastOne(Picked(ls, Symbols(ws)))
  {
    SortedListing(freqs, ws);
    hide SortedSymbols, Sym;
    var ss := Symbols(ws);
    assert forall k | 0 <= k < |ss| :: ss[k] in ss;
  }

  lemma {:induction false} NoneZero(s: seq<nat>)
    requires AtLeastOne(s)
    ensures CountIn(s, 0) == 0
  {
    NoneOf(s, 0);
  }

  lemma {:induction false} ShapedFalls(l: Levels)
    requires Shaped(l)
    ensures Falling(l.leaves)
  {
  }

  lemma {:induction false} LimitedParts(ws: seq<Word>, ls: seq<nat>, top: nat)
    requires LimitedFor(ws, ls, top)
    ensures Listing(Symbols(ws), |ls|) && Falling(Picked(ls, Symbols(ws)))
  {
    hide Falling;
  }

  /** If the levels from lo on have room for all the nodes that are too deep, every symbol above keeps
      the length that it has in the tree. */
  lemma {:induction false} LengthsKept(freqs: seq<Word>, ws: seq<Word>, ls: seq<nat>, cut: seq<nat>, x: nat, top: nat,
                                       lo: nat, k: nat)
    requires SortedSymbols(freqs, ws) && |ws| >= 3 && |ls| == |freqs| && LimitedFor(ws, ls, top)
    requires forall i | 0 <= i < |ls| :: ls[i] > 0 <==> freqs[i] > 0
    requires CutTree(ws, cut, x, top) && LoweredTimes(cut, Hist(ls), x, top)
    requires lo <= top < LEVELS && |cut| == LEVELS && x <= Room(cut, lo, top, top)
    requires k < |ws| && LevelsOf(QueueOf(ws)).leaves[k] < lo
    ensures Sym(ws[k]) < |ls| && ls[Sym(ws[k])] == LevelsOf(QueueOf(ws)).leaves[k]
  {
    hide *;
    LimitedParts(ws, ls, top);
    UsedOnly(freqs, ws, ls);
    var l, r := LevelsOf(QueueOf(ws)).leaves, Picked(ls, Symbols(ws));
    LevelsFall(QueueOf(ws));
    ShapedFalls(LevelsOf(QueueOf(ws)));
    LevelsConst();
    LoweredKeeps(cut, Hist(ls), x, top, lo);
    LeavesBelow(QueueOf(ws));
    NoneZero(l);
    NoneZero(r);
    forall u: nat | u < lo
      ensures CountIn(l, u) == CountIn(r, u)
    {
      if u > 0 {
        CutCounts(ws, cut, x, top, u);
        SortedCount(ls, Symbols(ws), u);
      }
    }
    SameBelowIntro(l, r, lo);
    SameEnd(l, r, lo, k);
    ListedAt(Symbols(ws), |ls|, k);
  }

  lemma {:induction false} ListedAt(s: seq<nat>, n: nat, k: nat)
    requires Listing(s, n) && k < |s|
    ensures s[k] < n
  {
  }

  lemma {:induction false} SameBelowIntro(l: seq<nat>, r: seq<nat>, lo: nat)
    requires forall u: nat | u < lo :: CountIn(l, u) == CountIn(r, u)
    ensures SameBelow(l, r, lo)
  {
    hide CountIn;
  }

  lemma {:induction false} LevelsConst()
    ensures LEVELS == 17
  {
  }
}
