/** GetMatchesSpec1 and SkipMatchesSpec (LzFind.c:961-1088): one way through the tree in the
    cyclic array, which reports matches and hangs the new position at the top. */
module LzSearch {
  import Arith
  import opened Machine
  import opened LzText
  import opened LzTree
  import opened LzSon

  /** A pair of `distances`: a length, and the distance less one. */
  datatype Match = Match(len: nat, dist: nat)

  ghost function MatchesOf(hits: seq<Hit>, c: nat): (r: seq<Match>)
    requires forall i | 0 <= i < |hits| :: hits[i].pos < c
    ensures |r| == |hits|
    ensures forall i | 0 <= i < |hits| :: r[i] == Match(hits[i].len, c - hits[i].pos - 1)
  {
    seq(|hits|, i requires 0 <= i < |hits| => Match(hits[i].len, c - hits[i].pos - 1))
  }

  /** How many nodes a cut value lets pass: counting down from 0 wraps round. */
  function Turns(cutValue: Word): (r: nat)
    ensures r >= 1
  {
    if cutValue == 0 then 0x1_0000_0000 else cutValue
  }

  // ---------- comparing from where both bounds agree ----------

  /** Nothing in the set comes after g, which agrees with c on len bytes and comes after it. */
  ghost predicate Upper(t: seq<Byte>, s: set<nat>, c: nat, n: nat, g: nat, len: nat) {
    len == 0 || (g + n <= |t| && c + n <= |t| && AllBefore(t, s, g, n) && Order(t, c, g, n)
      && Length(t, g, c, n) == len)
  }

  ghost predicate Lower(t: seq<Byte>, s: set<nat>, c: nat, n: nat, g: nat, len: nat) {
    len == 0 || (g + n <= |t| && c + n <= |t| && AllAfter(t, s, g, n) && Order(t, g, c, n) && Length(t, g, c, n) == len)
  }

  /** Why the comparison may start at min(len0, len1). */
  lemma {:induction false} BothAgree(t: seq<Byte>, s: set<nat>, c: nat, n: nat, g0: nat, len0: nat, g1: nat, len1: nat,
                                     x: nat)
    requires Upper(t, s, c, n, g0, len0) && Lower(t, s, c, n, g1, len1) && x in s && x + n <= |t| && c + n <= |t|
    ensures Length(t, x, c, n) >= if len0 < len1 then len0 else len1
  {
    var k := if len0 < len1 then len0 else len1;
    if k > 0 {
      var a, v, b, u := At(t, g1, n), At(t, x, n), At(t, g0, n), At(t, c, n);
      assert Agree(a, b, k) by {
        assert forall i | 0 <= i < k :: a[i] == u[i] && b[i] == u[i];
      }
      Sandwich(a, v, b, k);
      assert Agree(v, u, k) by {
        assert forall i | 0 <= i < k :: a[i] == u[i] && a[i] == v[i];
      }
      LcpAtLeast(v, u, k);
    }
  }

  lemma {:induction false} LengthStep(t: seq<Byte>, x: nat, c: nat, n: nat, k: nat)
    requires x + n <= |t| && c + n <= |t| && k < n && Length(t, x, c, n) >= k
    ensures t[x + k] == t[c + k] <==> Length(t, x, c, n) >= k + 1
  {
    var u, v := At(t, x, n), At(t, c, n);
    assert u[k] == t[x + k] && v[k] == t[c + k];
    LcpAtLeast(u, v, k);
    LcpAtLeast(u, v, k + 1);
  }

  /** Compares behind an agreement at `start` (LzFind.c:987-992). */
  method MatchLength(t: seq<Byte>, pb: nat, cur: nat, start: nat, lenLimit: nat) returns (len: nat)
    requires pb + lenLimit <= |t| && cur + lenLimit <= |t| && start < lenLimit
    requires Length(t, pb, cur, lenLimit) > start
    ensures len == Length(t, pb, cur, lenLimit)
  {
    hide Length;
    len := start + 1;
    while len != lenLimit && t[pb + len] == t[cur + len]
      invariant len <= lenLimit && Length(t, pb, cur, lenLimit) >= len
      decreases lenLimit - len
    {
      LengthStep(t, pb, cur, lenLimit, len);
      len := len + 1;
    }
    if len != lenLimit {
      LengthStep(t, pb, cur, lenLimit, len);
    }
  }

  // ---------- the loop ----------

  /** At a node of the way: its subtree is untouched, and the bounds hold. */
  ghost predicate Searching(t: seq<Byte>, son: seq<int>, w: nat, base: int, lo: int, c: nat, n: nat, r: int, tr: Tree,
                            hole0: nat, hole1: nat, g0: nat, len0: nat, g1: nat, len1: nat) {
    && c + n <= |t| && Sound(t, tr, n) && len0 < n && len1 < n
    && Walkable(son, w, base, lo, c, r, tr, hole0, hole1)
    && Upper(t, Refs(tr), c, n, g0, len0) && Lower(t, Refs(tr), c, n, g1, len1)
  }

  lemma {:induction false} UpperPart(t: seq<Byte>, s: set<nat>, s': set<nat>, c: nat, n: nat, g: nat, len: nat)
    requires s' <= s
    ensures Upper(t, s, c, n, g, len) ==> Upper(t, s', c, n, g, len)
    ensures Lower(t, s, c, n, g, len) ==> Lower(t, s', c, n, g, len)
  {
    hide Order, Length;
  }

  /** The node that curMatch names. */
  lemma {:induction false} SearchNode(t: seq<Byte>, son: seq<int>, w: nat, base: int, lo: int, c: nat, n: nat, r: int,
                                      tr: Tree, hole0: nat, hole1: nat, g0: nat, len0: nat, g1: nat, len1: nat)
    requires Searching(t, son, w, base, lo, c, n, r, tr, hole0, hole1, g0, len0, g1, len1)
    ensures w > 0 && |son| == 2 * w && hole0 < 2 * w && hole1 < 2 * w && len0 < n && len1 < n
    ensures tr.Node? <==> r + base >= lo
    ensures tr.Node? ==> tr.pos == r + base < c && tr.pos + n <= |t| && c + n <= |t|
    ensures tr.Node? ==> Length(t, tr.pos, c, n) >= if len0 < len1 then len0 else len1
  {
    if tr.Node? {
      assert tr.pos in Refs(tr);
      BothAgree(t, Refs(tr), c, n, g0, len0, g1, len1, tr.pos);
    }
    hide Upper, Lower, Order, Length;
  }

  lemma {:induction false} SearchRight(t: seq<Byte>, son: seq<int>, w: nat, base: int, lo: int, c: nat, n: nat, r: int,
                                       tr: Tree, hole0: nat, hole1: nat, g0: nat, len0: nat, g1: nat, len1: nat)
    requires Searching(t, son, w, base, lo, c, n, r, tr, hole0, hole1, g0, len0, g1, len1) && tr.Node?
    requires w > 0 && |son| == 2 * w && hole1 < 2 * w && tr.pos + n <= |t| && c + n <= |t|
    requires Length(t, tr.pos, c, n) < n && GoesRight(t, tr.pos, c, n)
    ensures (var i := 2 * Place(tr.pos, w); var son1 := Put(son, hole1, tr.pos - base);
      son1[i + 1] == son[i + 1] && Searching(t, son1, w, base, lo, c, n, son[i + 1], tr.right, hole0, i + 1,
        g0, len0, tr.pos, Length(t, tr.pos, c, n)))
  {
    WalkableChild(t, son, w, base, lo, c, n, r, tr, hole0, hole1, true);
    HolesApart(son, w, base, lo, c, r, tr, hole0, hole1);
    Direction(t, tr.pos, c, n);
    UpperPart(t, Refs(tr), Refs(tr.right), c, n, g0, len0);
    hide Walkable, Place, Order, Length, Put, GoesRight;
  }

  lemma {:induction false} SearchLeft(t: seq<Byte>, son: seq<int>, w: nat, base: int, lo: int, c: nat, n: nat, r: int,
                                      tr: Tree, hole0: nat, hole1: nat, g0: nat, len0: nat, g1: nat, len1: nat)
    requires Searching(t, son, w, base, lo, c, n, r, tr, hole0, hole1, g0, len0, g1, len1) && tr.Node?
    requires w > 0 && |son| == 2 * w && hole0 < 2 * w && tr.pos + n <= |t| && c + n <= |t|
    requires Length(t, tr.pos, c, n) < n && !GoesRight(t, tr.pos, c, n)
    ensures (var i := 2 * Place(tr.pos, w); var son1 := Put(son, hole0, tr.pos - base);
      son1[i] == son[i] && Searching(t, son1, w, base, lo, c, n, son[i], tr.left, i, hole1,
        tr.pos, Length(t, tr.pos, c, n), g1, len1))
  {
    WalkableChild(t, son, w, base, lo, c, n, r, tr, hole0, hole1, false);
    HolesApart(son, w, base, lo, c, r, tr, hole0, hole1);
    Direction(t, tr.pos, c, n);
    UpperPart(t, Refs(tr), Refs(tr.left), c, n, g1, len1);
    hide Walkable, Place, Order, Length, Put, GoesRight;
  }

  lemma {:induction false} HolesApart(son: seq<int>, w: nat, base: int, lo: int, c: nat, r: int, tr: Tree, hole0: nat,
                                      hole1: nat)
    requires Walkable(son, w, base, lo, c, r, tr, hole0, hole1) && tr.Node?
    ensures w > 0 && hole0 != 2 * Place(tr.pos, w) && hole0 != 2 * Place(tr.pos, w) + 1
    ensures hole1 != 2 * Place(tr.pos, w) && hole1 != 2 * Place(tr.pos, w) + 1
  {
    hide Place, Rep;
    assert tr.pos in Refs(tr);
  }

  /** Where the pair of a position of the window is. */
  lemma {:induction false} PairIndex(c: nat, w: nat, delta: nat)
    requires w > 0 && 0 < delta < w && delta <= c
    ensures Place(c - delta, w) == Place(c, w) - delta + (if Place(c, w) < delta then w else 0)
  {
    var p := Place(c, w);
    var q := (c + 1) / w;
    assert c + 1 == w * q + p;
    if p < delta {
      assert c - delta + 1 == (q - 1) * w + (p - delta + w);
      Arith.DivModUnique(c - delta + 1, w, q - 1, p - delta + w);
    } else {
      assert c - delta + 1 == q * w + (p - delta);
      Arith.DivModUnique(c - delta + 1, w, q, p - delta);
    }
  }

  /** The lowest position that a reference may name. */
  function Lowest(base: int, c: nat, w: nat): int {
    if base + 1 >= c - w + 1 then base + 1 else c - w + 1
  }

  /** What the walk still has to do is what it had to do at the start. */
  ghost predicate Rest(t: seq<Byte>, son: seq<int>, w: nat, base: int, c: nat, n: nat, tr: Tree, cut: nat, hole0: nat,
                       hole1: nat, goal: seq<int>) {
    && w > 0 && |son| == 2 * w && hole0 < 2 * w && hole1 < 2 * w && Sound(t, tr, n) && c + n <= |t|
    && Walk(t, son, w, base, c, n, tr, cut, hole0, hole1) == goal
  }

  /** The hits so far, with those still to come, are those of the whole way. */
  ghost predicate Found(t: seq<Byte>, c: nat, n: nat, tr: Tree, cut: nat, max: nat, hits: seq<Hit>, all: seq<Hit>) {
    Sound(t, tr, n) && c + n <= |t| && hits + Hits(t, tr, c, n, cut, max) == all
  }

  /** A longer match is appended. */
  lemma {:induction false} FoundStep(t: seq<Byte>, c: nat, n: nat, tr: Tree, cut: nat, max: nat, hits: seq<Hit>,
                                     all: seq<Hit>)
    requires tr.Node? && Found(t, c, n, tr, cut, max, hits, all) && cut > 0 && tr.pos + n <= |t| && c + n <= |t|
    ensures (var len := Length(t, tr.pos, c, n);
      var hits' := if len > max then hits + [Hit(len, tr.pos)] else hits;
      var max' := if len > max then len else max;
      && (len == n ==> hits' == all)
      && (len < n && GoesRight(t, tr.pos, c, n) ==> Found(t, c, n, tr.right, cut - 1, max', hits', all))
      && (len < n && !GoesRight(t, tr.pos, c, n) ==> Found(t, c, n, tr.left, cut - 1, max', hits', all)))
  {
    hide *;
    var len := Length(t, tr.pos, c, n);
    var head := if len > max then [Hit(len, tr.pos)] else [];
    var max' := if len > max then len else max;
    FoundParts(t, c, n, tr, cut, max, hits, all);
    HitsNode(t, tr, c, n, cut, max);
    assert hits + head == if len > max then hits + [Hit(len, tr.pos)] else hits;
    if len < n {
      var child := if GoesRight(t, tr.pos, c, n) then tr.right else tr.left;
      var rest := Hits(t, child, c, n, cut - 1, max');
      assert hits + (head + rest) == (hits + head) + rest;
      FoundIntro(t, c, n, child, cut - 1, max', hits + head, all);
    }
  }

  lemma {:induction false} FoundParts(t: seq<Byte>, c: nat, n: nat, tr: Tree, cut: nat, max: nat, hits: seq<Hit>,
                                      all: seq<Hit>)
    requires Found(t, c, n, tr, cut, max, hits, all)
    ensures Sound(t, tr, n) && c + n <= |t| && hits + Hits(t, tr, c, n, cut, max) == all
  {
    hide Sound, Hits;
  }

  lemma {:induction false} FoundIntro(t: seq<Byte>, c: nat, n: nat, tr: Tree, cut: nat, max: nat, hits: seq<Hit>,
                                      all: seq<Hit>)
    requires Sound(t, tr, n) && c + n <= |t| && hits + Hits(t, tr, c, n, cut, max) == all
    ensures Found(t, c, n, tr, cut, max, hits, all)
  {
    hide Sound, Hits;
  }

  /** The hits at a node. */
  lemma {:induction false} HitsNode(t: seq<Byte>, tr: Tree, c: nat, n: nat, cut: nat, max: nat)
    requires Sound(t, tr, n) && c + n <= |t| && tr.Node? && cut > 0
    ensures Sound(t, tr.left, n) && Sound(t, tr.right, n) && tr.pos + n <= |t|
    ensures (var len := Length(t, tr.pos, c, n);
      var head := if len > max then [Hit(len, tr.pos)] else [];
      var max' := if len > max then len else max;
      && (len == n ==> Hits(t, tr, c, n, cut, max) == head)
      && (len < n ==> (var child := if GoesRight(t, tr.pos, c, n) then tr.right else tr.left;
            Hits(t, tr, c, n, cut, max) == head + Hits(t, child, c, n, cut - 1, max'))))
  {
    hide AllBefore, AllAfter, Length, GoesRight, Newer;
  }

  /** The walk at a node. */
  lemma {:induction false} RestStep(t: seq<Byte>, son: seq<int>, w: nat, base: int, c: nat, n: nat, tr: Tree, cut: nat,
                                    hole0: nat, hole1: nat, goal: seq<int>)
    requires tr.Node? && cut > 0 && Rest(t, son, w, base, c, n, tr, cut, hole0, hole1, goal)
    requires tr.pos + n <= |t| && c + n <= |t| && w > 0 && |son| == 2 * w && hole0 < 2 * w && hole1 < 2 * w
    ensures (var i := 2 * Place(tr.pos, w); var len := Length(t, tr.pos, c, n);
      && (len == n ==> Put(Put(son, hole1, son[i]), hole0, Put(son, hole1, son[i])[i + 1]) == goal)
      && (len < n && GoesRight(t, tr.pos, c, n) ==>
            Rest(t, Put(son, hole1, tr.pos - base), w, base, c, n, tr.right, cut - 1, hole0, i + 1, goal))
      && (len < n && !GoesRight(t, tr.pos, c, n) ==>
            Rest(t, Put(son, hole0, tr.pos - base), w, base, c, n, tr.left, cut - 1, i, hole1, goal)))
  {
    hide AllBefore, AllAfter, Length, GoesRight, Newer, Place, Put;
  }

  lemma {:induction false} RestEnd(t: seq<Byte>, son: seq<int>, w: nat, base: int, c: nat, n: nat, tr: Tree, cut: nat,
                                   hole0: nat, hole1: nat, goal: seq<int>)
    requires (tr.Empty? || cut == 0) && Rest(t, son, w, base, c, n, tr, cut, hole0, hole1, goal)
    ensures w > 0 && |son| == 2 * w && hole0 < 2 * w && hole1 < 2 * w
    ensures goal == Put(Put(son, hole0, 0), hole1, 0)
  {
    hide Put;
  }

  lemma {:induction false} FoundEnd(t: seq<Byte>, c: nat, n: nat, tr: Tree, cut: nat, max: nat, hits: seq<Hit>,
                                    all: seq<Hit>)
    requires (tr.Empty? || cut == 0) && Found(t, c, n, tr, cut, max, hits, all)
    ensures hits == all
  {
    assert hits + [] == hits;
  }

  /** The start: both holes are the new pair. */
  lemma {:induction false} SearchStart(t: seq<Byte>, son: seq<int>, w: nat, base: int, lo: int, c: nat, n: nat, r: int,
                                       tr: Tree, max: nat)
    requires w > 0 && |son| == 2 * w && base < lo && c + 1 <= lo + w && InWindow(Refs(tr), lo, c) && lo <= c
    requires Rep(son, w, base, lo, r, tr) && Sound(t, tr, n) && c + n <= |t| && max < n
    ensures Searching(t, son, w, base, lo, c, n, r, tr, 2 * Place(c, w) + 1, 2 * Place(c, w), 0, 0, 0, 0)
    ensures Walkable(son, w, base, lo, c, r, tr, 2 * Place(c, w) + 1, 2 * Place(c, w))
  {
    assert InWindow(Refs(tr), lo, c + 1);
    OthersFree(c, Refs(tr), w, lo, c + 1);
    hide Place, Rep, Order, Length;
  }

  lemma {:induction false} FoundStart(t: seq<Byte>, c: nat, n: nat, tr: Tree, cut: nat, max: nat)
    requires Sound(t, tr, n) && c + n <= |t|
    ensures Found(t, c, n, tr, cut, max, [], Hits(t, tr, c, n, cut, max))
  {
    hide AllBefore, AllAfter, Length, GoesRight, Newer;
    assert [] + Hits(t, tr, c, n, cut, max) == Hits(t, tr, c, n, cut, max);
  }

  // ---------- the loop, in the array ----------

  /** What the code does not keep: the subtree at curMatch, the nodes that may still be
      visited, the positions that gave len0 and len1, and the hits. */
  datatype Way = Way(tr: Tree, cut: nat, g0: nat, g1: nat, hits: seq<Hit>)

  ghost predicate OnWay(t: seq<Byte>, son: seq<int>, w: nat, base: int, lo: int, c: nat, n: nat, r: int, way: Way,
                        hole0: nat, hole1: nat, len0: nat, len1: nat, max: nat, goal: seq<int>, all: seq<Hit>) {
    && Searching(t, son, w, base, lo, c, n, r, way.tr, hole0, hole1, way.g0, len0, way.g1, len1)
    && Rest(t, son, w, base, c, n, way.tr, way.cut, hole0, hole1, goal)
    && Found(t, c, n, way.tr, way.cut, max, way.hits, all)
    && len0 <= max && len1 <= max && max < n && (forall i | 0 <= i < |way.hits| :: way.hits[i].pos < c)
  }

  /** The hits with that of the node, if it is longer. */
  ghost function Longer(way: Way, len: nat, max: nat): (r: seq<Hit>)
    requires way.tr.Node?
  {
    if len > max then way.hits + [Hit(len, way.tr.pos)] else way.hits
  }

  /** The node at curMatch, and what the code may rely on there. */
  lemma {:induction false} OnWayNode(t: seq<Byte>, son: seq<int>, w: nat, base: int, lo: int, c: nat, n: nat, r: int,
                                     way: Way, hole0: nat, hole1: nat, len0: nat, len1: nat, max: nat, goal: seq<int>,
                                     all: seq<Hit>)
    requires OnWay(t, son, w, base, lo, c, n, r, way, hole0, hole1, len0, len1, max, goal, all)
    ensures w > 0 && |son| == 2 * w && hole0 < 2 * w && hole1 < 2 * w && hole0 != hole1 && len0 < n && len1 < n
      && max < n
    ensures base < lo && c <= lo + w && c + n <= |t| && len0 <= max && len1 <= max
    ensures way.tr.Node? <==> r + base >= lo
    ensures way.tr.Node? ==> lo <= way.tr.pos == r + base < c && way.tr.pos + n <= |t|
    ensures way.tr.Node? ==> Length(t, way.tr.pos, c, n) >= if len0 < len1 then len0 else len1
    ensures way.tr.Node? ==> (var i := 2 * Place(way.tr.pos, w);
              hole0 != i && hole0 != i + 1 && hole1 != i && hole1 != i + 1 && i + 1 < 2 * w)
    ensures forall i | 0 <= i < |way.hits| :: way.hits[i].pos < c
  {
    SearchNode(t, son, w, base, lo, c, n, r, way.tr, hole0, hole1, way.g0, len0, way.g1, len1);
    if way.tr.Node? {
      HolesApart(son, w, base, lo, c, r, way.tr, hole0, hole1);
    }
    hide Rest, Found, Upper, Lower, Free, Place, Length, Order;
  }

  lemma {:induction false} OnWayEqual(t: seq<Byte>, son: seq<int>, w: nat, base: int, lo: int, c: nat, n: nat, r: int,
                                      way: Way, hole0: nat, hole1: nat, len0: nat, len1: nat, max: nat, goal: seq<int>,
                                      all: seq<Hit>)
    requires OnWay(t, son, w, base, lo, c, n, r, way, hole0, hole1, len0, len1, max, goal, all) && way.tr.Node?
      && way.cut > 0
    requires way.tr.pos + n <= |t| && c + n <= |t| && Length(t, way.tr.pos, c, n) == n
    requires w > 0 && |son| == 2 * w && hole0 < 2 * w && hole1 < 2 * w && way.tr.pos < c
    ensures (var i := 2 * Place(way.tr.pos, w);
      Put(Put(son, hole1, son[i]), hole0, Put(son, hole1, son[i])[i + 1]) == goal)
    ensures Longer(way, n, max) == all && n > max && forall i | 0 <= i < |all| :: all[i].pos < c
  {
    RestStep(t, son, w, base, c, n, way.tr, way.cut, hole0, hole1, goal);
    FoundStep(t, c, n, way.tr, way.cut, max, way.hits, all);
    hide Searching, Rest, Found, Place, Length, GoesRight, Put;
  }

  lemma {:induction false} OnWayParts(t: seq<Byte>, son: seq<int>, w: nat, base: int, lo: int, c: nat, n: nat, r: int,
                                      way: Way, hole0: nat, hole1: nat, len0: nat, len1: nat, max: nat, goal: seq<int>,
                                      all: seq<Hit>)
    requires OnWay(t, son, w, base, lo, c, n, r, way, hole0, hole1, len0, len1, max, goal, all)
    ensures Searching(t, son, w, base, lo, c, n, r, way.tr, hole0, hole1, way.g0, len0, way.g1, len1)
    ensures Rest(t, son, w, base, c, n, way.tr, way.cut, hole0, hole1, goal)
    ensures Found(t, c, n, way.tr, way.cut, max, way.hits, all)
    ensures len0 <= max && len1 <= max && max < n && (forall i | 0 <= i < |way.hits| :: way.hits[i].pos < c)
  {
    hide Searching, Rest, Found;
  }

  lemma {:induction false} OnWayIntro(t: seq<Byte>, son: seq<int>, w: nat, base: int, lo: int, c: nat, n: nat, r: int,
                                      way: Way, hole0: nat, hole1: nat, len0: nat, len1: nat, max: nat, goal: seq<int>,
                                      all: seq<Hit>)
    requires Searching(t, son, w, base, lo, c, n, r, way.tr, hole0, hole1, way.g0, len0, way.g1, len1)
    requires Rest(t, son, w, base, c, n, way.tr, way.cut, hole0, hole1, goal)
    requires Found(t, c, n, way.tr, way.cut, max, way.hits, all)
    requires len0 <= max && len1 <= max && max < n && (forall i | 0 <= i < |way.hits| :: way.hits[i].pos < c)
    ensures OnWay(t, son, w, base, lo, c, n, r, way, hole0, hole1, len0, len1, max, goal, all)
  {
    hide Searching, Rest, Found;
  }

  lemma {:induction false} LongerIs(way: Way, len: nat, max: nat, c: nat)
    requires way.tr.Node? && way.tr.pos < c && forall i | 0 <= i < |way.hits| :: way.hits[i].pos < c
    ensures Longer(way, len, max) == if len > max then way.hits + [Hit(len, way.tr.pos)] else way.hits
    ensures forall i | 0 <= i < |Longer(way, len, max)| :: Longer(way, len, max)[i].pos < c
  {
  }

  lemma {:induction false} OnWayRight(t: seq<Byte>, son: seq<int>, w: nat, base: int, lo: int, c: nat, n: nat, r: int,
                                      way: Way, hole0: nat, hole1: nat, len0: nat, len1: nat, max: nat, goal: seq<int>,
                                      all: seq<Hit>)
    requires OnWay(t, son, w, base, lo, c, n, r, way, hole0, hole1, len0, len1, max, goal, all) && way.tr.Node?
      && way.cut > 0
    requires way.tr.pos + n <= |t| && c + n <= |t| && Length(t, way.tr.pos, c, n) < n && GoesRight(t, way.tr.pos, c, n)
    requires w > 0 && |son| == 2 * w && hole0 < 2 * w && hole1 < 2 * w && way.tr.pos < c
    ensures (var i := 2 * Place(way.tr.pos, w); var len := Length(t, way.tr.pos, c, n);
      var way' := Way(way.tr.right, way.cut - 1, way.g0, way.tr.pos, Longer(way, len, max));
      Put(son, hole1, way.tr.pos - base)[i + 1] == son[i + 1] &&
      OnWay(t, Put(son, hole1, way.tr.pos - base), w, base, lo, c, n, son[i + 1], way', hole0, i + 1, len0, len,
        if len > max then len else max, goal, all))
  {
    hide *;
    OnWayParts(t, son, w, base, lo, c, n, r, way, hole0, hole1, len0, len1, max, goal, all);
    SearchRight(t, son, w, base, lo, c, n, r, way.tr, hole0, hole1, way.g0, len0, way.g1, len1);
    RestStep(t, son, w, base, c, n, way.tr, way.cut, hole0, hole1, goal);
    FoundStep(t, c, n, way.tr, way.cut, max, way.hits, all);
    LongerIs(way, Length(t, way.tr.pos, c, n), max, c);
    var i, len := 2 * Place(way.tr.pos, w), Length(t, way.tr.pos, c, n);
    OnWayIntro(t, Put(son, hole1, way.tr.pos - base), w, base, lo, c, n, son[i + 1],
      Way(way.tr.right, way.cut - 1, way.g0, way.tr.pos, Longer(way, len, max)), hole0, i + 1, len0, len,
      if len > max then len else max, goal, all);
  }

  lemma {:induction false} OnWayLeft(t: seq<Byte>, son: seq<int>, w: nat, base: int, lo: int, c: nat, n: nat, r: int,
                                     way: Way, hole0: nat, hole1: nat, len0: nat, len1: nat, max: nat, goal: seq<int>,
                                     all: seq<Hit>)
    requires OnWay(t, son, w, base, lo, c, n, r, way, hole0, hole1, len0, len1, max, goal, all) && way.tr.Node?
      && way.cut > 0
    requires way.tr.pos + n <= |t| && c + n <= |t| && Length(t, way.tr.pos, c, n) < n && !GoesRight(t, way.tr.pos, c, n)
    requires w > 0 && |son| == 2 * w && hole0 < 2 * w && hole1 < 2 * w && way.tr.pos < c
    ensures (var i := 2 * Place(way.tr.pos, w); var len := Length(t, way.tr.pos, c, n);
      var way' := Way(way.tr.left, way.cut - 1, way.tr.pos, way.g1, Longer(way, len, max));
      Put(son, hole0, way.tr.pos - base)[i] == son[i] &&
      OnWay(t, Put(son, hole0, way.tr.pos - base), w, base, lo, c, n, son[i], way', i, hole1, len, len1,
        if len > max then len else max, goal, all))
  {
    hide *;
    OnWayParts(t, son, w, base, lo, c, n, r, way, hole0, hole1, len0, len1, max, goal, all);
    SearchLeft(t, son, w, base, lo, c, n, r, way.tr, hole0, hole1, way.g0, len0, way.g1, len1);
    RestStep(t, son, w, base, c, n, way.tr, way.cut, hole0, hole1, goal);
    FoundStep(t, c, n, way.tr, way.cut, max, way.hits, all);
    LongerIs(way, Length(t, way.tr.pos, c, n), max, c);
    var i, len := 2 * Place(way.tr.pos, w), Length(t, way.tr.pos, c, n);
    OnWayIntro(t, Put(son, hole0, way.tr.pos - base), w, base, lo, c, n, son[i],
      Way(way.tr.left, way.cut - 1, way.tr.pos, way.g1, Longer(way, len, max)), i, hole1, len, len1,
      if len > max then len else max, goal, all);
  }

  lemma {:induction false} OnWayEnd(t: seq<Byte>, son: seq<int>, w: nat, base: int, lo: int, c: nat, n: nat, r: int,
                                    way: Way, hole0: nat, hole1: nat, len0: nat, len1: nat, max: nat, goal: seq<int>,
                                    all: seq<Hit>)
    requires OnWay(t, son, w, base, lo, c, n, r, way, hole0, hole1, len0, len1, max, goal, all)
    requires way.tr.Empty? || way.cut == 0
    ensures w > 0 && |son| == 2 * w && hole0 < 2 * w && hole1 < 2 * w
    ensures goal == Put(Put(son, hole0, 0), hole1, 0) && way.hits == all
  {
    RestEnd(t, son, w, base, c, n, way.tr, way.cut, hole0, hole1, goal);
    FoundEnd(t, c, n, way.tr, way.cut, max, way.hits, all);
    hide Searching, Rest, Found, Put;
  }

  /** The string at m agrees with that at c on all n bytes. */
  ghost predicate Agrees(t: seq<Byte>, m: int, c: nat, n: nat) {
    0 <= m < c && m + n <= |t| && c + n <= |t| && Length(t, m, c, n) == n
  }

  lemma {:induction false} AgreesIs(t: seq<Byte>, m: nat, c: nat, n: nat)
    requires m < c && m + n <= |t| && c + n <= |t| && Length(t, m, c, n) == n
    ensures Agrees(t, m, c, n)
  {
  }

  /** Children are older, or out of the window. */
  lemma {:induction false} OnWayChild(t: seq<Byte>, son: seq<int>, w: nat, base: int, lo: int, c: nat, n: nat, r: int,
                                      way: Way, hole0: nat, hole1: nat, len0: nat, len1: nat, max: nat, goal: seq<int>,
                                      all: seq<Hit>)
    requires OnWay(t, son, w, base, lo, c, n, r, way, hole0, hole1, len0, len1, max, goal, all) && way.tr.Node?
    ensures w > 0 && |son| == 2 * w
    ensures (var i := 2 * Place(way.tr.pos, w); i + 1 < 2 * w && son[i] < r && son[i + 1] < r)
  {
    hide *;
    OnWayParts(t, son, w, base, lo, c, n, r, way, hole0, hole1, len0, len1, max, goal, all);
    SearchingParts(t, son, w, base, lo, c, n, r, way.tr, hole0, hole1, way.g0, len0, way.g1, len1);
    RepChild(t, son, w, base, lo, n, r, way.tr);
  }

  lemma {:induction false} SearchingParts(t: seq<Byte>, son: seq<int>, w: nat, base: int, lo: int, c: nat, n: nat,
                                          r: int, tr: Tree, hole0: nat, hole1: nat, g0: nat, len0: nat, g1: nat,
                                          len1: nat)
    requires Searching(t, son, w, base, lo, c, n, r, tr, hole0, hole1, g0, len0, g1, len1)
    ensures w > 0 && |son| == 2 * w && Sound(t, tr, n) && Rep(son, w, base, lo, r, tr)
  {
    hide Sound, Rep, Upper, Lower, Free, InWindow;
  }

  lemma {:induction false} RepChild(t: seq<Byte>, son: seq<int>, w: nat, base: int, lo: int, n: nat, r: int, tr: Tree)
    requires w > 0 && |son| == 2 * w && Sound(t, tr, n) && Rep(son, w, base, lo, r, tr) && tr.Node?
    ensures (var i := 2 * Place(tr.pos, w); i + 1 < 2 * w && son[i] < r && son[i + 1] < r)
  {
    var l, rt := tr.left, tr.right;
    assert l.Node? ==> l.pos in Refs(l);
    assert rt.Node? ==> rt.pos in Refs(rt);
    hide Place, AllBefore, AllAfter;
  }

  /** At a node with the same string its children fill the two holes, and the search ends
      (LzFind.c:1000-1005). */
  method TakePlace(t: seq<Byte>, lenLimit: nat, ghost curMatch: Word, cur: nat, son: array<Word>, w: nat, pair: nat,
                   ptr0: nat, ptr1: nat, ghost len0: nat, ghost len1: nat, ghost base: int, ghost lo: int,
                   ghost way: Way, ghost max: nat, ghost goal: seq<int>, ghost all: seq<Hit>)
    requires OnWay(t, son[..], w, base, lo, cur, lenLimit, curMatch, way, ptr0, ptr1, len0, len1, max, goal, all)
    requires way.tr.Node? && way.cut > 0 && son.Length == 2 * w && w > 0 && pair == 2 * Place(way.tr.pos, w)
    requires way.tr.pos + lenLimit <= |t| && cur + lenLimit <= |t| && Length(t, way.tr.pos, cur, lenLimit) == lenLimit
    modifies son
    ensures son[..] == goal && all == Longer(way, lenLimit, max) && lenLimit > max
    ensures forall i | 0 <= i < |all| :: all[i].pos < cur
  {
    hide *;
    ghost var ps := son[..];
    OnWayNode(t, ps, w, base, lo, cur, lenLimit, curMatch, way, ptr0, ptr1, len0, len1, max, goal, all);
    OnWayEqual(t, ps, w, base, lo, cur, lenLimit, curMatch, way, ptr0, ptr1, len0, len1, max, goal, all);
    PutIs(ps, ptr1, ps[pair]);
    PutIs(Put(ps, ptr1, ps[pair]), ptr0, Put(ps, ptr1, ps[pair])[pair + 1]);
    var pair0 := son[pair];
    son[ptr1] := pair0;
    son[ptr0] := son[pair + 1];
  }

  /** From a node to the child on the side of the string at cur: the node is hung into the hole
      on its own side (LzFind.c:1008-1023). */
  method GoDown(t: seq<Byte>, lenLimit: nat, curMatch0: Word, cur: nat, son: array<Word>, w: nat, pair: nat, pb: nat,
                len: nat, ptr00: nat, ptr10: nat, len00: nat, len10: nat, ghost base: int, ghost lo: int,
                ghost way0: Way, ghost max0: nat, ghost goal: seq<int>, ghost all: seq<Hit>)
    returns (curMatch: Word, ptr0: nat, ptr1: nat, len0: nat, len1: nat, ghost way: Way)
    requires OnWay(t, son[..], w, base, lo, cur, lenLimit, curMatch0, way0, ptr00, ptr10, len00, len10, max0, goal, all)
    requires way0.tr.Node? && way0.cut > 0 && pb == way0.tr.pos && son.Length == 2 * w && w > 0
    requires pb + lenLimit <= |t| && cur + lenLimit <= |t| && len == Length(t, pb, cur, lenLimit) < lenLimit
    requires pair == 2 * Place(pb, w)
    modifies son
    ensures OnWay(t, son[..], w, base, lo, cur, lenLimit, curMatch, way, ptr0, ptr1, len0, len1,
      if len > max0 then len else max0, goal, all)
    ensures way.cut == way0.cut - 1 && (way.tr == way0.tr.left || way.tr == way0.tr.right)
    ensures way.hits == Longer(way0, len, max0) && curMatch < curMatch0
  {
    hide *;
    ghost var ps := son[..];
    OnWayNode(t, ps, w, base, lo, cur, lenLimit, curMatch0, way0, ptr00, ptr10, len00, len10, max0, goal, all);
    OnWayChild(t, ps, w, base, lo, cur, lenLimit, curMatch0, way0, ptr00, ptr10, len00, len10, max0, goal, all);
    RightIs(t, pb, cur, lenLimit, len);
    curMatch, ptr0, ptr1, len0, len1 := curMatch0, ptr00, ptr10, len00, len10;
    if t[pb + len] < t[cur + len] {
      OnWayRight(t, ps, w, base, lo, cur, lenLimit, curMatch0, way0, ptr00, ptr10, len00, len10, max0, goal, all);
      way := Way(way0.tr.right, way0.cut - 1, way0.g0, way0.tr.pos, Longer(way0, len, max0));
      PutIs(ps, ptr10, way0.tr.pos - base);
      son[ptr1] := curMatch;
      curMatch := son[pair + 1];
      ptr1 := pair + 1;
      len1 := len;
    } else {
      OnWayLeft(t, ps, w, base, lo, cur, lenLimit, curMatch0, way0, ptr00, ptr10, len00, len10, max0, goal, all);
      way := Way(way0.tr.left, way0.cut - 1, way0.tr.pos, way0.g1, Longer(way0, len, max0));
      PutIs(ps, ptr00, way0.tr.pos - base);
      son[ptr0] := curMatch;
      curMatch := son[pair];
      ptr0 := pair;
      len0 := len;
    }
  }

  lemma {:induction false} RightIs(t: seq<Byte>, m: nat, c: nat, n: nat, len: nat)
    requires m + n <= |t| && c + n <= |t| && len == Length(t, m, c, n) < n
    ensures GoesRight(t, m, c, n) <==> t[m + len] < t[c + len]
  {
    hide Length;
  }

  /** One node of the way (LzFind.c:979-1024). `found` ends the search. */
  method VisitNode(t: seq<Byte>, lenLimit: nat, curMatch0: Word, pos: Word, cur: nat, son: array<Word>,
                   cyclicBufferPos: nat, w: nat, ptr00: nat, ptr10: nat, len00: nat, len10: nat, maxLen0: nat,
                   d0: seq<Match>, ghost base: int, ghost lo: int, ghost way0: Way, ghost goal: seq<int>,
                   ghost all: seq<Hit>)
    returns (curMatch: Word, ptr0: nat, ptr1: nat, len0: nat, len1: nat, maxLen: nat, d: seq<Match>, found: bool,
      ghost way: Way)
    requires son.Length == 2 * w && w > 0 && pos + base == cur && cyclicBufferPos == Place(cur, w) && cur + 1 <= lo + w
    requires OnWay(t, son[..], w, base, lo, cur, lenLimit, curMatch0, way0, ptr00, ptr10, len00, len10, maxLen0, goal,
      all)
    requires way0.tr.Node? && way0.cut > 0 && (forall i | 0 <= i < |way0.hits| :: way0.hits[i].pos < cur)
    requires d0 == MatchesOf(way0.hits, cur)
    modifies son
    ensures found ==> son[..] == goal && (forall i | 0 <= i < |all| :: all[i].pos < cur) && d == MatchesOf(all, cur)
    ensures !found ==> OnWay(t, son[..], w, base, lo, cur, lenLimit, curMatch, way, ptr0, ptr1, len0, len1, maxLen,
      goal, all)
    ensures !found ==> way.cut == way0.cut - 1 && (forall i | 0 <= i < |way.hits| :: way.hits[i].pos < cur)
    ensures !found ==> d == MatchesOf(way.hits, cur) && (way.tr == way0.tr.left || way.tr == way0.tr.right)
    ensures !found ==> curMatch < curMatch0
    ensures found ==> Agrees(t, curMatch0 + base, cur, lenLimit)
  {
    hide *;
    ghost var ps := son[..];
    OnWayNode(t, ps, w, base, lo, cur, lenLimit, curMatch0, way0, ptr00, ptr10, len00, len10, maxLen0, goal, all);
    curMatch, ptr0, ptr1, len0, len1, maxLen := curMatch0, ptr00, ptr10, len00, len10, maxLen0;
    d, found, way := d0, false, way0;
    var delta := pos - curMatch;
    PairIndex(cur, w, delta);
    var pair := 2 * (cyclicBufferPos - delta + (if cyclicBufferPos < delta then w else 0));
    var pb := cur - delta;
    var len := if len0 < len1 then len0 else len1;
    LengthStep(t, pb, cur, lenLimit, len);
    if t[pb + len] == t[cur + len] {
      len := MatchLength(t, pb, cur, len, lenLimit);
      if maxLen < len {
        maxLen := len;
        d := d + [Match(len, delta - 1)];
        LongerMatches(way0, cur, len, maxLen0, d0, d);
        if len == lenLimit {
          AgreesIs(t, pb, cur, lenLimit);
          TakePlace(t, lenLimit, curMatch, cur, son, w, pair, ptr0, ptr1, len0, len1, base, lo, way0, maxLen0, goal,
            all);
          found := true;
          return;
        }
      }
    }
    LongerMatches(way0, cur, len, maxLen0, d0, d);
    curMatch, ptr0, ptr1, len0, len1, way := GoDown(t, lenLimit, curMatch, cur, son, w, pair, pb, len, ptr0, ptr1,
      len0, len1, base, lo, way0, maxLen0, goal, all);
  }

  lemma {:induction false} LongerMatches(way: Way, c: nat, len: nat, max: nat, d: seq<Match>, d': seq<Match>)
    requires way.tr.Node? && way.tr.pos < c && (forall i | 0 <= i < |way.hits| :: way.hits[i].pos < c)
    requires d == MatchesOf(way.hits, c)
    requires d' == if len > max then d + [Match(len, c - way.tr.pos - 1)] else d
    ensures (forall i | 0 <= i < |Longer(way, len, max)| :: Longer(way, len, max)[i].pos < c)
    ensures d' == MatchesOf(Longer(way, len, max), c)
  {
  }

  /** One node of the way, without reporting (LzFind.c:1047-1083). */
  method SkipNode(t: seq<Byte>, lenLimit: nat, curMatch0: Word, pos: Word, cur: nat, son: array<Word>,
                  cyclicBufferPos: nat, w: nat, ptr00: nat, ptr10: nat, len00: nat, len10: nat, ghost base: int,
                  ghost lo: int, ghost way0: Way, ghost max0: nat, ghost goal: seq<int>, ghost all: seq<Hit>)
    returns (curMatch: Word, ptr0: nat, ptr1: nat, len0: nat, len1: nat, found: bool, ghost way: Way, ghost max: nat)
    requires son.Length == 2 * w && w > 0 && pos + base == cur && cyclicBufferPos == Place(cur, w) && cur + 1 <= lo + w
    requires OnWay(t, son[..], w, base, lo, cur, lenLimit, curMatch0, way0, ptr00, ptr10, len00, len10, max0, goal, all)
    requires way0.tr.Node? && way0.cut > 0
    modifies son
    ensures found ==> son[..] == goal
    ensures !found ==> OnWay(t, son[..], w, base, lo, cur, lenLimit, curMatch, way, ptr0, ptr1, len0, len1, max, goal,
      all)
    ensures !found ==> way.cut == way0.cut - 1 && (way.tr == way0.tr.left || way.tr == way0.tr.right)
  {
    hide *;
    ghost var ps := son[..];
    OnWayNode(t, ps, w, base, lo, cur, lenLimit, curMatch0, way0, ptr00, ptr10, len00, len10, max0, goal, all);
    curMatch, ptr0, ptr1, len0, len1, found, way, max := curMatch0, ptr00, ptr10, len00, len10, false, way0, max0;
    var delta := pos - curMatch;
    PairIndex(cur, w, delta);
    var pair := 2 * (cyclicBufferPos - delta + (if cyclicBufferPos < delta then w else 0));
    var pb := cur - delta;
    var len := if len0 < len1 then len0 else len1;
    LengthStep(t, pb, cur, lenLimit, len);
    if t[pb + len] == t[cur + len] {
      len := MatchLength(t, pb, cur, len, lenLimit);
      if len == lenLimit {
        TakePlace(t, lenLimit, curMatch, cur, son, w, pair, ptr0, ptr1, len0, len1, base, lo, way0, max0, goal, all);
        found := true;
        return;
      }
    }
    max := if len > max0 then len else max0;
    curMatch, ptr0, ptr1, len0, len1, way := GoDown(t, lenLimit, curMatch, cur, son, w, pair, pb, len, ptr0, ptr1,
      len0, len1, base, lo, way0, max0, goal, all);
  }

  /** What a search starts from: the tree of the bucket, in the array, for a new position. */
  ghost predicate Searchable(t: seq<Byte>, son: seq<int>, w: nat, base: int, c: nat, n: nat, r: int, tr: Tree) {
    && w > 0 && |son| == 2 * w && base < c && c + n <= |t|
    && InWindow(Refs(tr), Lowest(base, c, w), c)
    && Rep(son, w, base, Lowest(base, c, w), r, tr) && Sound(t, tr, n)
  }

  /** Its result in the array. */
  ghost function Searched(t: seq<Byte>, son: seq<int>, w: nat, base: int, c: nat, n: nat, tr: Tree, cutValue: Word)
    : (r: seq<int>)
    requires w > 0 && |son| == 2 * w && Sound(t, tr, n) && c + n <= |t|
    ensures |r| == 2 * w
  {
    Walk(t, son, w, base, c, n, tr, Turns(cutValue), 2 * Place(c, w) + 1, 2 * Place(c, w))
  }

  /** And its matches. */
  ghost function AllHits(t: seq<Byte>, c: nat, n: nat, tr: Tree, cutValue: Word, max: nat): (r: seq<Hit>)
    requires Sound(t, tr, n) && c + n <= |t|
  {
    Hits(t, tr, c, n, Turns(cutValue), max)
  }

  lemma {:induction false} OnWayStart(t: seq<Byte>, son: seq<int>, w: nat, base: int, c: nat, n: nat, r: int, tr: Tree,
                                      cutValue: Word, max: nat)
    returns (way: Way)
    requires Searchable(t, son, w, base, c, n, r, tr) && max < n
    ensures w > 0 && |son| == 2 * w && Sound(t, tr, n) && c + n <= |t| && c + 1 <= Lowest(base, c, w) + w
    ensures way == Way(tr, Turns(cutValue), 0, 0, [])
    ensures OnWay(t, son, w, base, Lowest(base, c, w), c, n, r, way, 2 * Place(c, w) + 1, 2 * Place(c, w), 0, 0, max,
              Searched(t, son, w, base, c, n, tr, cutValue), AllHits(t, c, n, tr, cutValue, max))
  {
    var lo := Lowest(base, c, w);
    SearchStart(t, son, w, base, lo, c, n, r, tr, max);
    FoundStart(t, c, n, tr, Turns(cutValue), max);
    way := Way(tr, Turns(cutValue), 0, 0, []);
    hide Searching, Found, Sound, InWindow, Rep, Place;
  }

  lemma {:induction false} NoMatches(c: nat)
    ensures MatchesOf([], c) == []
  {
  }

  /** GetMatchesSpec1: the array ends as the walk leaves it, and `distances` as the hits of the tree. */
  method GetMatchesSpec1(t: seq<Byte>, lenLimit: nat, curMatch0: Word, pos: Word, cur: nat, son: array<Word>,
                         cyclicBufferPos: nat, w: nat, cutValue: Word, maxLen0: nat, ghost base: int, ghost tr: Tree)
    returns (d: seq<Match>)
    requires Searchable(t, son[..], w, base, cur, lenLimit, curMatch0, tr) && maxLen0 < lenLimit
    requires son.Length == 2 * w && w > 0 && pos + base == cur && cyclicBufferPos == Place(cur, w) && w < 0x1_0000_0000
    modifies son
    ensures Sound(t, tr, lenLimit) && cur + lenLimit <= |t|
    ensures son[..] == Searched(t, old(son[..]), w, base, cur, lenLimit, tr, cutValue)
    ensures (forall i | 0 <= i < |AllHits(t, cur, lenLimit, tr, cutValue, maxLen0)| ::
              AllHits(t, cur, lenLimit, tr, cutValue, maxLen0)[i].pos < cur)
    ensures d == MatchesOf(AllHits(t, cur, lenLimit, tr, cutValue, maxLen0), cur)
  {
    hide *;
    ghost var ps, lo := son[..], Lowest(base, cur, w);
    ghost var way := OnWayStart(t, ps, w, base, cur, lenLimit, curMatch0, tr, cutValue, maxLen0);
    ghost var goal := Searched(t, ps, w, base, cur, lenLimit, tr, cutValue);
    ghost var all := AllHits(t, cur, lenLimit, tr, cutValue, maxLen0);
    NoMatches(cur);
    d := [];
    var curMatch, maxLen := curMatch0, maxLen0;
    var ptr0: nat, ptr1: nat := 2 * cyclicBufferPos + 1, 2 * cyclicBufferPos;
    var len0, len1 := 0, 0;
    var cmCheck := if pos < w then 0 else pos - w;
    var cut := cutValue;
    CheckIs(base, cur, w, pos, cmCheck, curMatch);
    OnWayNode(t, ps, w, base, lo, cur, lenLimit, curMatch, way, ptr0, ptr1, len0, len1, maxLen, goal, all);
    TurnsStep(cut);
    var more := cmCheck < curMatch;
    while more
      invariant OnWay(t, son[..], w, base, lo, cur, lenLimit, curMatch, way, ptr0, ptr1, len0, len1, maxLen, goal, all)
      invariant (forall i | 0 <= i < |way.hits| :: way.hits[i].pos < cur) && d == MatchesOf(way.hits, cur)
      invariant more ==> way.tr.Node? && way.cut == Turns(cut) > 0
      invariant !more ==> way.tr.Empty? || way.cut == 0
      decreases more, way.tr
    {
      var found;
      curMatch, ptr0, ptr1, len0, len1, maxLen, d, found, way :=
        VisitNode(t, lenLimit, curMatch, pos, cur, son, cyclicBufferPos, w, ptr0, ptr1, len0, len1, maxLen, d,
                  base, lo, way, goal, all);
      if found {
        return;
      }
      TurnsStep(cut);
      cut := if cut == 0 then 0xFFFF_FFFF else cut - 1;
      CheckIs(base, cur, w, pos, cmCheck, curMatch);
      OnWayNode(t, son[..], w, base, lo, cur, lenLimit, curMatch, way, ptr0, ptr1, len0, len1, maxLen, goal, all);
      more := cut != 0 && cmCheck < curMatch;
    }
    OnWayEnd(t, son[..], w, base, lo, cur, lenLimit, curMatch, way, ptr0, ptr1, len0, len1, maxLen, goal, all);
    ghost var was := son[..];
    PutIs(was, ptr0, 0);
    PutIs(Put(was, ptr0, 0), ptr1, 0);
    son[ptr0] := 0;
    son[ptr1] := 0;
  }

  /** SkipMatchesSpec: the same walk, and the same array. */
  method SkipMatchesSpec(t: seq<Byte>, lenLimit: nat, curMatch0: Word, pos: Word, cur: nat, son: array<Word>,
                         cyclicBufferPos: nat, w: nat, cutValue: Word, ghost base: int, ghost tr: Tree)
    requires Searchable(t, son[..], w, base, cur, lenLimit, curMatch0, tr) && 0 < lenLimit
    requires son.Length == 2 * w && w > 0 && pos + base == cur && cyclicBufferPos == Place(cur, w) && w < 0x1_0000_0000
    modifies son
    ensures Sound(t, tr, lenLimit) && cur + lenLimit <= |t|
    ensures son[..] == Searched(t, old(son[..]), w, base, cur, lenLimit, tr, cutValue)
  {
    hide *;
    ghost var ps, lo, max := son[..], Lowest(base, cur, w), 0;
    ghost var way := OnWayStart(t, ps, w, base, cur, lenLimit, curMatch0, tr, cutValue, max);
    ghost var goal := Searched(t, ps, w, base, cur, lenLimit, tr, cutValue);
    ghost var all := AllHits(t, cur, lenLimit, tr, cutValue, max);
    var curMatch := curMatch0;
    var ptr0: nat, ptr1: nat := 2 * cyclicBufferPos + 1, 2 * cyclicBufferPos;
    var len0, len1 := 0, 0;
    var cmCheck := if pos < w then 0 else pos - w;
    var cut := cutValue;
    CheckIs(base, cur, w, pos, cmCheck, curMatch);
    OnWayNode(t, ps, w, base, lo, cur, lenLimit, curMatch, way, ptr0, ptr1, len0, len1, max, goal, all);
    TurnsStep(cut);
    var more := cmCheck < curMatch;
    while more
      invariant OnWay(t, son[..], w, base, lo, cur, lenLimit, curMatch, way, ptr0, ptr1, len0, len1, max, goal, all)
      invariant more ==> way.tr.Node? && way.cut == Turns(cut) > 0
      invariant !more ==> way.tr.Empty? || way.cut == 0
      decreases more, way.tr
    {
      var found;
      curMatch, ptr0, ptr1, len0, len1, found, way, max :=
        SkipNode(t, lenLimit, curMatch, pos, cur, son, cyclicBufferPos, w, ptr0, ptr1, len0, len1,
                 base, lo, way, max, goal, all);
      if found {
        return;
      }
      TurnsStep(cut);
      cut := if cut == 0 then 0xFFFF_FFFF else cut - 1;
      CheckIs(base, cur, w, pos, cmCheck, curMatch);
      OnWayNode(t, son[..], w, base, lo, cur, lenLimit, curMatch, way, ptr0, ptr1, len0, len1, max, goal, all);
      more := cut != 0 && cmCheck < curMatch;
    }
    OnWayEnd(t, son[..], w, base, lo, cur, lenLimit, curMatch, way, ptr0, ptr1, len0, len1, max, goal, all);
    ghost var was := son[..];
    PutIs(was, ptr0, 0);
    PutIs(Put(was, ptr0, 0), ptr1, 0);
    son[ptr0] := 0;
    son[ptr1] := 0;
  }

  /** What cmCheck checks. */
  lemma {:induction false} CheckIs(base: int, c: nat, w: nat, pos: Word, cmCheck: int, curMatch: Word)
    requires pos + base == c && cmCheck == if pos < w then 0 else pos - w
    ensures cmCheck < curMatch <==> curMatch + base >= Lowest(base, c, w)
    ensures base < Lowest(base, c, w)
  {
  }

  lemma {:induction false} TurnsStep(cut: Word)
    ensures Turns(cut) > 0
    ensures (if cut == 0 then 0xFFFF_FFFF else cut - 1) != 0 ==>
              Turns(if cut == 0 then 0xFFFF_FFFF else cut - 1) == Turns(cut) - 1
    ensures (if cut == 0 then 0xFFFF_FFFF else cut - 1) == 0 ==> Turns(cut) - 1 == 0
  {
  }
}
