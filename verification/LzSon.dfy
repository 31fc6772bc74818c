/** The tree in the cyclic array `son` of a match finder: a pair of references for every
    position of the window, each the position less a base, and 0 or a position that has
    left the window for "none". */
module LzSon {
  import opened Arith
  import opened Machine
  import opened LzTree

  /** Positions take the places of the array in turn. */
  function Place(x: nat, w: nat): (r: nat)
    requires w > 0
    ensures r < w
  {
    (x + 1) % w
  }

  /** Positions less than w apart have different places. */
  lemma {:induction false} PlacesDiffer(x: nat, y: nat, w: nat)
    requires w > 0 && x < y < x + w
    ensures Place(x, w) != Place(y, w)
  {
    var q, r := (x + 1) / w, (x + 1) % w;
    assert x + 1 == w * q + r;
    var d := y - x;
    if r + d < w {
      assert y + 1 == q * w + (r + d);
      DivModUnique(y + 1, w, q, r + d);
    } else {
      assert y + 1 == (q + 1) * w + (r + d - w);
      DivModUnique(y + 1, w, q + 1, r + d - w);
    }
  }

  /** Reference r, in the array, is the root of the tree. Positions below lo are out of the window. */
  ghost predicate Rep(son: seq<int>, w: nat, base: int, lo: int, r: int, tr: Tree)
    requires w > 0 && |son| == 2 * w
    decreases tr
  {
    match tr
    case Empty => r + base < lo
    case Node(l, m, rt) =>
      && r + base == m && m >= lo
      && Rep(son, w, base, lo, son[2 * Place(m, w)], l)
      && Rep(son, w, base, lo, son[2 * Place(m, w) + 1], rt)
  }

  /** Index i holds no child of the tree. */
  ghost predicate Free(i: nat, s: set<nat>, w: nat)
    requires w > 0
  {
    forall x | x in s :: i != 2 * Place(x, w) && i != 2 * Place(x, w) + 1
  }

  ghost predicate InWindow(s: set<nat>, lo: int, c: nat) {
    forall x | x in s :: lo <= x < c
  }

  /** What does not touch the tree does not change what it represents. */
  lemma {:induction false} RepFrame(son: seq<int>, son': seq<int>, w: nat, base: int, lo: int, r: int, tr: Tree)
    requires w > 0 && |son| == |son'| == 2 * w && Rep(son, w, base, lo, r, tr)
    requires forall i: nat | i < 2 * w && !Free(i, Refs(tr), w) :: son'[i] == son[i]
    ensures Rep(son', w, base, lo, r, tr)
    decreases tr
  {
    hide Place;
    if tr.Node? {
      var i := 2 * Place(tr.pos, w);
      assert !Free(i, Refs(tr), w) && !Free(i + 1, Refs(tr), w);
      SubFree(Refs(tr.left), Refs(tr), w);
      SubFree(Refs(tr.right), Refs(tr), w);
      RepFrame(son, son', w, base, lo, son[i], tr.left);
      RepFrame(son, son', w, base, lo, son[i + 1], tr.right);
    }
  }

  lemma {:induction false} SubFree(s: set<nat>, s': set<nat>, w: nat)
    requires w > 0 && s <= s'
    ensures forall i: nat | Free(i, s', w) :: Free(i, s, w)
  {
    hide Place;
  }

  /** A child of one position is not a child of others of the window. */
  lemma {:induction false} OthersFree(m: nat, s: set<nat>, w: nat, lo: int, c: nat)
    requires w > 0 && lo <= m < c && c <= lo + w && InWindow(s, lo, c) && m !in s
    ensures Free(2 * Place(m, w), s, w) && Free(2 * Place(m, w) + 1, s, w)
  {
    forall x | x in s
      ensures Place(x, w) != Place(m, w)
    {
      if x < m {
        PlacesDiffer(x, m, w);
      } else {
        PlacesDiffer(m, x, w);
      }
    }
    hide Place;
  }

  /** What is not free for one set is free for another that has no position in common. */
  lemma {:induction false} DisjointFree(i: nat, s: set<nat>, s': set<nat>, w: nat, lo: int, c: nat)
    requires w > 0 && c <= lo + w && InWindow(s, lo, c) && InWindow(s', lo, c) && s !! s'
    requires !Free(i, s, w)
    ensures Free(i, s', w)
  {
    hide Place;
    var x :| x in s && (i == 2 * Place(x, w) || i == 2 * Place(x, w) + 1);
    OthersFree(x, s', w, lo, c);
  }

  ghost function Put(son: seq<int>, i: nat, v: int): (r: seq<int>)
    requires i < |son|
    ensures |r| == |son| && r[i] == v && forall j | 0 <= j < |son| && j != i :: r[j] == son[j]
  {
    son[i := v]
  }

  lemma {:induction false} PutIs(son: seq<int>, i: nat, v: int)
    requires i < |son|
    ensures Put(son, i, v) == son[i := v]
  {
  }

  /** The writes on the way to c: each node is hung in the hole on its side and leaves a new
      hole; at the end what is left is hung in, or nothing. */
  ghost function Walk(t: seq<Byte>, son: seq<int>, w: nat, base: int, c: nat, n: nat, tr: Tree, cut: nat, hole0: nat,
                      hole1: nat): (r: seq<int>)
    requires w > 0 && |son| == 2 * w && hole0 < 2 * w && hole1 < 2 * w && Sound(t, tr, n) && c + n <= |t|
    ensures |r| == 2 * w
    decreases tr
  {
    match tr
    case Empty => Put(Put(son, hole0, 0), hole1, 0)
    case Node(l, m, r) =>
      var i := 2 * Place(m, w);
      if cut == 0 then Put(Put(son, hole0, 0), hole1, 0)
      else if Length(t, m, c, n) == n then
        var son1 := Put(son, hole1, son[i]);
        Put(son1, hole0, son1[i + 1])
      else if GoesRight(t, m, c, n) then
        Walk(t, Put(son, hole1, m - base), w, base, c, n, r, cut - 1, hole0, i + 1)
      else
        Walk(t, Put(son, hole0, m - base), w, base, c, n, l, cut - 1, i, hole1)
  }

  /** What Walk leaves: the two parts of the split, hung in the two holes. */
  ghost predicate Walked(t: seq<Byte>, son: seq<int>, son': seq<int>, w: nat, base: int, lo: int, c: nat, n: nat,
                         tr: Tree, cut: nat, hole0: nat, hole1: nat)
    requires w > 0 && |son| == |son'| == 2 * w && hole0 < 2 * w && hole1 < 2 * w && Sound(t, tr, n) && c + n <= |t|
  {
    && Rep(son', w, base, lo, son'[hole1], Split(t, tr, c, n, cut).0)
    && Rep(son', w, base, lo, son'[hole0], Split(t, tr, c, n, cut).1)
    && (forall i: nat | i < 2 * w && i != hole0 && i != hole1 && Free(i, Refs(tr), w) :: son'[i] == son[i])
  }

  ghost predicate Walkable(son: seq<int>, w: nat, base: int, lo: int, c: nat, r: int, tr: Tree, hole0: nat,
                           hole1: nat) {
    && w > 0 && |son| == 2 * w && hole0 < 2 * w && hole1 < 2 * w && hole0 != hole1
    && base < lo && c <= lo + w && InWindow(Refs(tr), lo, c)
    && Rep(son, w, base, lo, r, tr)
    && Free(hole0, Refs(tr), w) && Free(hole1, Refs(tr), w)
  }

  /** Writing into a hole leaves the child that is walked to as it was. */
  lemma {:induction false} WalkableChild(t: seq<Byte>, son: seq<int>, w: nat, base: int, lo: int, c: nat, n: nat,
                                         r: int, tr: Tree, hole0: nat, hole1: nat, right: bool)
    requires tr.Node? && Sound(t, tr, n) && Walkable(son, w, base, lo, c, r, tr, hole0, hole1)
    ensures (var i := 2 * Place(tr.pos, w);
      if right then Walkable(Put(son, hole1, tr.pos - base), w, base, lo, c, son[i + 1], tr.right, hole0, i + 1)
      else Walkable(Put(son, hole0, tr.pos - base), w, base, lo, c, son[i], tr.left, i, hole1))
  {
    hide Place, AllBefore, AllAfter;
    var i := 2 * Place(tr.pos, w);
    var child := if right then tr.right else tr.left;
    var hole := if right then hole1 else hole0;
    var son1 := Put(son, hole, tr.pos - base);
    SubFree(Refs(child), Refs(tr), w);
    assert !Free(i, Refs(tr), w) && !Free(i + 1, Refs(tr), w);
    OthersFree(tr.pos, Refs(child), w, lo, c);
    hide Free;
    RepFrame(son, son1, w, base, lo, if right then son[i + 1] else son[i], child);
  }

  /** A right turn: the node, with its left child, and what the rest of the way makes of the
      right one. */
  lemma {:induction false} WalkedRight(t: seq<Byte>, son: seq<int>, son1: seq<int>, son': seq<int>, w: nat, base: int,
                                       lo: int, c: nat, n: nat, r: int, tr: Tree, cut: nat, hole0: nat, hole1: nat)
    requires tr.Node? && Sound(t, tr, n) && Walkable(son, w, base, lo, c, r, tr, hole0, hole1) && |son'| == 2 * w
    requires cut > 0 && c + n <= |t| && tr.pos + n <= |t| && Length(t, tr.pos, c, n) < n && GoesRight(t, tr.pos, c, n)
    requires son1 == Put(son, hole1, tr.pos - base)
    requires Walked(t, son1, son', w, base, lo, c, n, tr.right, cut - 1, hole0, 2 * Place(tr.pos, w) + 1)
    ensures Walked(t, son, son', w, base, lo, c, n, tr, cut, hole0, hole1)
  {
    hide Place, AllBefore, AllAfter, Length, GoesRight, Order;
    var m, l, rt := tr.pos, tr.left, tr.right;
    var i := 2 * Place(m, w);
    assert !Free(i, Refs(tr), w) && !Free(i + 1, Refs(tr), w);
    SubFree(Refs(l), Refs(tr), w);
    SubFree(Refs(rt), Refs(tr), w);
    OthersFree(m, Refs(l), w, lo, c);
    OthersFree(m, Refs(rt), w, lo, c);
    forall k: nat | k < 2 * w && !Free(k, Refs(l), w)
      ensures son'[k] == son[k]
    {
      DisjointFree(k, Refs(l), Refs(rt), w, lo, c);
    }
    RepFrame(son, son', w, base, lo, son[i], l);
    assert son'[i] == son[i];
    assert son'[hole1] == m - base;
  }

  lemma {:induction false} WalkedLeft(t: seq<Byte>, son: seq<int>, son1: seq<int>, son': seq<int>, w: nat, base: int,
                                      lo: int, c: nat, n: nat, r: int, tr: Tree, cut: nat, hole0: nat, hole1: nat)
    requires tr.Node? && Sound(t, tr, n) && Walkable(son, w, base, lo, c, r, tr, hole0, hole1) && |son'| == 2 * w
    requires cut > 0 && c + n <= |t| && tr.pos + n <= |t| && Length(t, tr.pos, c, n) < n && !GoesRight(t, tr.pos, c, n)
    requires son1 == Put(son, hole0, tr.pos - base)
    requires Walked(t, son1, son', w, base, lo, c, n, tr.left, cut - 1, 2 * Place(tr.pos, w), hole1)
    ensures Walked(t, son, son', w, base, lo, c, n, tr, cut, hole0, hole1)
  {
    hide Place, AllBefore, AllAfter, Length, GoesRight, Order;
    var m, l, rt := tr.pos, tr.left, tr.right;
    var i := 2 * Place(m, w);
    assert !Free(i, Refs(tr), w) && !Free(i + 1, Refs(tr), w);
    SubFree(Refs(l), Refs(tr), w);
    SubFree(Refs(rt), Refs(tr), w);
    OthersFree(m, Refs(l), w, lo, c);
    OthersFree(m, Refs(rt), w, lo, c);
    forall k: nat | k < 2 * w && !Free(k, Refs(rt), w)
      ensures son'[k] == son[k]
    {
      DisjointFree(k, Refs(rt), Refs(l), w, lo, c);
    }
    RepFrame(son, son', w, base, lo, son[i + 1], rt);
    assert son'[i + 1] == son[i + 1];
    assert son'[hole0] == m - base;
  }

  /** The end of the way: the children of a node with the same string are hung in the holes. */
  lemma {:induction false} WalkedEqual(t: seq<Byte>, son: seq<int>, son': seq<int>, w: nat, base: int, lo: int, c: nat,
                                       n: nat, r: int, tr: Tree, cut: nat, hole0: nat, hole1: nat)
    requires tr.Node? && Sound(t, tr, n) && Walkable(son, w, base, lo, c, r, tr, hole0, hole1) && |son'| == 2 * w
    requires cut > 0 && c + n <= |t| && tr.pos + n <= |t| && Length(t, tr.pos, c, n) == n
    requires (var i := 2 * Place(tr.pos, w);
      son' == Put(Put(son, hole1, son[i]), hole0, Put(son, hole1, son[i])[i + 1]))
    ensures Walked(t, son, son', w, base, lo, c, n, tr, cut, hole0, hole1)
  {
    hide Place, AllBefore, AllAfter, Length, GoesRight, Order, Put;
    var i := 2 * Place(tr.pos, w);
    assert !Free(i, Refs(tr), w) && !Free(i + 1, Refs(tr), w);
    SubFree(Refs(tr.left), Refs(tr), w);
    SubFree(Refs(tr.right), Refs(tr), w);
    assert Free(hole0, Refs(tr.left), w) && Free(hole1, Refs(tr.left), w);
    assert Free(hole0, Refs(tr.right), w) && Free(hole1, Refs(tr.right), w);
    hide Free;
    RepFrame(son, son', w, base, lo, son[i], tr.left);
    RepFrame(son, son', w, base, lo, son[i + 1], tr.right);
  }

  lemma {:induction false} WalkedNothing(t: seq<Byte>, son: seq<int>, w: nat, base: int, lo: int, c: nat, n: nat,
                                         r: int, tr: Tree, cut: nat, hole0: nat, hole1: nat)
    requires Sound(t, tr, n) && Walkable(son, w, base, lo, c, r, tr, hole0, hole1) && c + n <= |t|
    requires tr.Empty? || cut == 0
    ensures Walked(t, son, Put(Put(son, hole0, 0), hole1, 0), w, base, lo, c, n, tr, cut, hole0, hole1)
  {
  }

  /** The writes on the way split the tree. */
  lemma {:induction false} WalkSplits(t: seq<Byte>, son: seq<int>, w: nat, base: int, lo: int, c: nat, n: nat, r: int,
                                      tr: Tree, cut: nat, hole0: nat, hole1: nat)
    requires Sound(t, tr, n) && Walkable(son, w, base, lo, c, r, tr, hole0, hole1) && c + n <= |t|
    ensures Walked(t, son, Walk(t, son, w, base, c, n, tr, cut, hole0, hole1), w, base, lo, c, n, tr, cut, hole0, hole1)
    decreases tr
  {
    hide Place, AllBefore, AllAfter, Length, GoesRight, Order, Put, Walked, Walkable, Free, Rep;
    WalkableSizes(son, w, base, lo, c, r, tr, hole0, hole1);
    var son' := Walk(t, son, w, base, c, n, tr, cut, hole0, hole1);
    if tr.Empty? || cut == 0 {
      WalkedNothing(t, son, w, base, lo, c, n, r, tr, cut, hole0, hole1);
    } else {
      var m, i := tr.pos, 2 * Place(tr.pos, w);
      if Length(t, m, c, n) == n {
        WalkedEqual(t, son, son', w, base, lo, c, n, r, tr, cut, hole0, hole1);
      } else if GoesRight(t, m, c, n) {
        WalkableChild(t, son, w, base, lo, c, n, r, tr, hole0, hole1, true);
        WalkSplits(t, Put(son, hole1, m - base), w, base, lo, c, n, son[i + 1], tr.right, cut - 1, hole0, i + 1);
        WalkedRight(t, son, Put(son, hole1, m - base), son', w, base, lo, c, n, r, tr, cut, hole0, hole1);
      } else {
        WalkableChild(t, son, w, base, lo, c, n, r, tr, hole0, hole1, false);
        WalkSplits(t, Put(son, hole0, m - base), w, base, lo, c, n, son[i], tr.left, cut - 1, i, hole1);
        WalkedLeft(t, son, Put(son, hole0, m - base), son', w, base, lo, c, n, r, tr, cut, hole0, hole1);
      }
    }
  }

  lemma {:induction false} WalkableSizes(son: seq<int>, w: nat, base: int, lo: int, c: nat, r: int, tr: Tree,
                                         hole0: nat, hole1: nat)
    requires Walkable(son, w, base, lo, c, r, tr, hole0, hole1)
    ensures w > 0 && |son| == 2 * w && hole0 < 2 * w && hole1 < 2 * w
  {
  }

  // ---------- the window moves, references are reduced ----------

  /** A later window: positions that have left it are no longer represented. */
  lemma {:induction false} RepTrim(t: seq<Byte>, son: seq<int>, w: nat, base: int, lo: int, lo': int, r: int, tr: Tree,
                                   n: nat)
    requires w > 0 && |son| == 2 * w && Rep(son, w, base, lo, r, tr) && lo <= lo' && Sound(t, tr, n)
    ensures Rep(son, w, base, lo', r, Trim(tr, lo'))
    decreases tr
  {
    hide Place, AllBefore, AllAfter, Order;
    if tr.Node? {
      var i := 2 * Place(tr.pos, w);
      RepTrim(t, son, w, base, lo, lo', son[i], tr.left, n);
      RepTrim(t, son, w, base, lo, lo', son[i + 1], tr.right, n);
    }
  }

  /** Saturating subtraction, as normalization uses it. */
  function Reduce(v: int, sub: nat): int { if v < sub then 0 else v - sub }

  /** Normalization is invisible: with all references reduced, and the base raised, the array
      represents the same tree. */
  lemma {:induction false} RepReduce(son: seq<int>, son': seq<int>, w: nat, base: int, lo: int, sub: nat, r: int,
                                     tr: Tree)
    requires w > 0 && |son| == |son'| == 2 * w && Rep(son, w, base, lo, r, tr) && base + sub < lo
    requires forall i | 0 <= i < 2 * w :: son'[i] == Reduce(son[i], sub)
    ensures Rep(son', w, base + sub, lo, Reduce(r, sub), tr)
    decreases tr
  {
    hide Place;
    if tr.Node? {
      var i := 2 * Place(tr.pos, w);
      RepReduce(son, son', w, base, lo, sub, son[i], tr.left);
      RepReduce(son, son', w, base, lo, sub, son[i + 1], tr.right);
    }
  }
}
