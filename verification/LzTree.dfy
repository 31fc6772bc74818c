/** The binary tree of a match finder, without arrays: positions of a text, ordered by
    the strings that start there, newer positions above older ones. */
module LzTree {
  import opened Machine
  import opened LzText

  datatype Tree = Empty | Node(left: Tree, pos: nat, right: Tree)

  /** The n bytes at x. */
  function At(t: seq<Byte>, x: nat, n: nat): (r: seq<Byte>)
    requires x + n <= |t|
    ensures |r| == n
  {
    t[x..x + n]
  }

  /** The positions in a tree. */
  ghost function Refs(tr: Tree): set<nat> {
    match tr
    case Empty => {}
    case Node(l, m, r) => Refs(l) + {m} + Refs(r)
  }

  /** x comes no later than y in the order of strings. */
  ghost predicate Order(t: seq<Byte>, x: nat, y: nat, n: nat) {
    x + n <= |t| && y + n <= |t| && NotAbove(At(t, x, n), At(t, y, n))
  }

  ghost predicate Newer(s: set<nat>, m: nat) {
    forall x | x in s :: x < m
  }

  ghost predicate AllBefore(t: seq<Byte>, s: set<nat>, m: nat, n: nat) {
    forall x | x in s :: Order(t, x, m, n)
  }

  ghost predicate AllAfter(t: seq<Byte>, s: set<nat>, m: nat, n: nat) {
    forall x | x in s :: Order(t, m, x, n)
  }

  /** Ordered by strings from left to right, and by age from top to bottom. */
  ghost predicate Sound(t: seq<Byte>, tr: Tree, n: nat) {
    match tr
    case Empty => true
    case Node(l, m, r) =>
      && m + n <= |t|
      && Newer(Refs(l), m) && Newer(Refs(r), m)
      && Refs(l) !! Refs(r)
      && AllBefore(t, Refs(l), m, n) && AllAfter(t, Refs(r), m, n)
      && Sound(t, l, n) && Sound(t, r, n)
  }

  /** How long the strings at x and at c agree. */
  ghost function Length(t: seq<Byte>, x: nat, c: nat, n: nat): (r: nat)
    requires x + n <= |t| && c + n <= |t|
    ensures r <= n
  {
    Lcp(At(t, x, n), At(t, c, n))
  }

  /** Which way to go from m to c. */
  ghost predicate GoesRight(t: seq<Byte>, m: nat, c: nat, n: nat)
    requires m + n <= |t| && c + n <= |t| && Length(t, m, c, n) < n
  {
    t[m + Length(t, m, c, n)] < t[c + Length(t, m, c, n)]
  }

  lemma {:induction false} Direction(t: seq<Byte>, m: nat, c: nat, n: nat)
    requires m + n <= |t| && c + n <= |t|
    ensures Length(t, m, c, n) == n ==> Order(t, m, c, n) && Order(t, c, m, n)
    ensures Length(t, m, c, n) < n ==> if GoesRight(t, m, c, n) then Order(t, m, c, n) else Order(t, c, m, n)
  {
    hide Lcp;
    LcpSymmetric(At(t, m, n), At(t, c, n));
    if Length(t, m, c, n) < n {
      DirectionAt(t, m, c, n);
    }
  }

  lemma {:induction false} DirectionAt(t: seq<Byte>, m: nat, c: nat, n: nat)
    requires m + n <= |t| && c + n <= |t| && Length(t, m, c, n) < n
    ensures (var k := Length(t, m, c, n); At(t, m, n)[k] == t[m + k] && At(t, c, n)[k] == t[c + k])
  {
    hide Lcp;
  }

  /** The tree cut in two along the way to c, after at most `cut` nodes. A node with the
      same string is left out. */
  ghost function Split(t: seq<Byte>, tr: Tree, c: nat, n: nat, cut: nat): (r: (Tree, Tree))
    requires Sound(t, tr, n) && c + n <= |t|
  {
    match tr
    case Empty => (Empty, Empty)
    case Node(l, m, r) =>
      if cut == 0 then (Empty, Empty)
      else if Length(t, m, c, n) == n then (l, r)
      else if GoesRight(t, m, c, n) then
        var s := Split(t, r, c, n, cut - 1);
        (Node(l, m, s.0), s.1)
      else
        var s := Split(t, l, c, n, cut - 1);
        (s.0, Node(s.1, m, r))
  }

  /** How many nodes there are on the way. */
  ghost function Steps(t: seq<Byte>, tr: Tree, c: nat, n: nat): nat
    requires Sound(t, tr, n) && c + n <= |t|
  {
    match tr
    case Empty => 0
    case Node(l, m, r) =>
      if Length(t, m, c, n) == n then 1
      else if GoesRight(t, m, c, n) then 1 + Steps(t, r, c, n)
      else 1 + Steps(t, l, c, n)
  }

  lemma {:induction false} BeforeAll(t: seq<Byte>, s: set<nat>, m: nat, c: nat, n: nat)
    requires AllBefore(t, s, m, n) && Order(t, m, c, n)
    ensures AllBefore(t, s, c, n)
  {
    forall x | x in s
      ensures Order(t, x, c, n)
    {
      Transitive(At(t, x, n), At(t, m, n), At(t, c, n));
    }
  }

  lemma {:induction false} AfterAll(t: seq<Byte>, s: set<nat>, m: nat, c: nat, n: nat)
    requires AllAfter(t, s, m, n) && Order(t, c, m, n)
    ensures AllAfter(t, s, c, n)
  {
    forall x | x in s
      ensures Order(t, c, x, n)
    {
      Transitive(At(t, c, n), At(t, m, n), At(t, x, n));
    }
  }

  /** Both parts are trees again, with what comes before c and what comes after it. */
  lemma {:induction false} SplitSound(t: seq<Byte>, tr: Tree, c: nat, n: nat, cut: nat)
    requires Sound(t, tr, n) && c + n <= |t|
    ensures (var s := Split(t, tr, c, n, cut);
      && Sound(t, s.0, n) && Sound(t, s.1, n)
      && Refs(s.0) <= Refs(tr) && Refs(s.1) <= Refs(tr) && Refs(s.0) !! Refs(s.1)
      && AllBefore(t, Refs(s.0), c, n) && AllAfter(t, Refs(s.1), c, n))
  {
    hide Order, Length, GoesRight;
    if tr.Node? && cut > 0 {
      var l, m, r := tr.left, tr.pos, tr.right;
      Direction(t, m, c, n);
      if Length(t, m, c, n) == n {
        BeforeAll(t, Refs(l), m, c, n);
        AfterAll(t, Refs(r), m, c, n);
      } else if GoesRight(t, m, c, n) {
        SplitSound(t, r, c, n, cut - 1);
        BeforeAll(t, Refs(l), m, c, n);
      } else {
        SplitSound(t, l, c, n, cut - 1);
        AfterAll(t, Refs(r), m, c, n);
      }
    }
  }

  /** If the way is not cut short, only positions with the same string are left out. */
  lemma {:induction false} SplitKeeps(t: seq<Byte>, tr: Tree, c: nat, n: nat, cut: nat, x: nat)
    requires Sound(t, tr, n) && c + n <= |t| && Steps(t, tr, c, n) <= cut && x in Refs(tr)
    ensures (var s := Split(t, tr, c, n, cut);
      x in Refs(s.0) || x in Refs(s.1) || (x + n <= |t| && Length(t, x, c, n) == n))
  {
    hide Order, Length, GoesRight;
    var l, m, r := tr.left, tr.pos, tr.right;
    if Length(t, m, c, n) < n {
      if GoesRight(t, m, c, n) {
        if x in Refs(r) {
          SplitKeeps(t, r, c, n, cut - 1, x);
        }
      } else {
        if x in Refs(l) {
          SplitKeeps(t, l, c, n, cut - 1, x);
        }
      }
    }
  }

  /** The new tree, with c at the top. */
  lemma {:induction false} InsertSound(t: seq<Byte>, tr: Tree, c: nat, n: nat, cut: nat)
    requires Sound(t, tr, n) && c + n <= |t| && Newer(Refs(tr), c)
    ensures (var s := Split(t, tr, c, n, cut); Sound(t, Node(s.0, c, s.1), n))
  {
    SplitSound(t, tr, c, n, cut);
    hide Split, Order;
  }

  lemma {:induction false} StepsBound(t: seq<Byte>, tr: Tree, c: nat, n: nat)
    requires Sound(t, tr, n) && c + n <= |t|
    ensures Steps(t, tr, c, n) <= |Refs(tr)|
  {
    hide Order, Length, GoesRight;
    if tr.Node? {
      var l, m, r := tr.left, tr.pos, tr.right;
      assert m !in Refs(l) && m !in Refs(r);
      assert |Refs(l) + {m}| == |Refs(l)| + 1;
      assert |Refs(l) + {m} + Refs(r)| == |Refs(l)| + 1 + |Refs(r)|;
      StepsBound(t, l, c, n);
      StepsBound(t, r, c, n);
    }
  }

  // ---------- what the way to c reports ----------

  datatype Hit = Hit(len: nat, pos: nat)

  /** Each node that agrees with c longer than all above it, until one agrees on all n bytes. */
  ghost function Hits(t: seq<Byte>, tr: Tree, c: nat, n: nat, cut: nat, max: nat): seq<Hit>
    requires Sound(t, tr, n) && c + n <= |t|
  {
    match tr
    case Empty => []
    case Node(l, m, r) =>
      if cut == 0 then []
      else
        var len := Length(t, m, c, n);
        var head := if len > max then [Hit(len, m)] else [];
        var max' := if len > max then len else max;
        if len == n then head
        else if GoesRight(t, m, c, n) then head + Hits(t, r, c, n, cut - 1, max')
        else head + Hits(t, l, c, n, cut - 1, max')
  }

  /** Lengths rise above max, and positions get older. */
  ghost predicate Rising(hits: seq<Hit>, max: nat) {
    && (forall i | 0 <= i < |hits| :: hits[i].len > max)
    && (forall i, j | 0 <= i < j < |hits| :: hits[i].len < hits[j].len && hits[i].pos > hits[j].pos)
  }

  /** A hit is a real agreement, longer than that of every newer position of the set. */
  ghost predicate Nearest(t: seq<Byte>, s: set<nat>, c: nat, n: nat, h: Hit) {
    && h.pos in s && h.pos + n <= |t| && c + n <= |t| && h.len == Length(t, h.pos, c, n)
    && forall y | y in s && y > h.pos :: y + n <= |t| && Length(t, y, c, n) < h.len
  }

  /** Some hit is as long and as near as position y. */
  ghost predicate Covered(hits: seq<Hit>, y: nat, len: nat) {
    exists i :: 0 <= i < |hits| && hits[i].len >= len && hits[i].pos >= y
  }

  /** The hits are exactly the pairs of length and position that no other pair beats. */
  ghost predicate Exact(t: seq<Byte>, s: set<nat>, c: nat, n: nat, max: nat, hits: seq<Hit>) {
    && Rising(hits, max)
    && (forall i | 0 <= i < |hits| :: Nearest(t, s, c, n, hits[i]))
    && (forall y | y in s :: y + n <= |t| && c + n <= |t| &&
          (Length(t, y, c, n) > max ==> Covered(hits, y, Length(t, y, c, n))))
  }

  /** Beyond m, on the side away from c, nothing agrees with c longer than m does. */
  lemma {:induction false} OtherSide(t: seq<Byte>, l: set<nat>, m: nat, r: set<nat>, c: nat, n: nat, x: nat)
    requires m + n <= |t| && c + n <= |t| && AllBefore(t, l, m, n) && AllAfter(t, r, m, n)
    requires Length(t, m, c, n) < n
    requires if GoesRight(t, m, c, n) then x in l else x in r
    ensures x + n <= |t| && Length(t, x, c, n) <= Length(t, m, c, n)
  {
    Direction(t, m, c, n);
    Further(At(t, x, n), At(t, m, n), At(t, c, n));
  }

  lemma {:induction false} CoveredLater(h: seq<Hit>, hits: seq<Hit>, y: nat, len: nat)
    requires Covered(hits, y, len)
    ensures Covered(h + hits, y, len)
  {
    var i :| 0 <= i < |hits| && hits[i].len >= len && hits[i].pos >= y;
    assert (h + hits)[|h| + i] == hits[i];
  }

  /** The hits of a child, after that of the node above it. */
  lemma {:induction false} RisingCons(m: nat, len: nat, max: nat, s: set<nat>, rest: seq<Hit>)
    requires Rising(rest, if len > max then len else max) && Newer(s, m)
    requires forall i | 0 <= i < |rest| :: rest[i].pos in s
    ensures Rising((if len > max then [Hit(len, m)] else []) + rest, max)
  {
    var head := if len > max then [Hit(len, m)] else [];
    var hits := head + rest;
    forall i, j | 0 <= i < j < |hits|
      ensures hits[i].len < hits[j].len && hits[i].pos > hits[j].pos
    {
      assert hits[j] == rest[j - |head|];
      assert i >= |head| ==> hits[i] == rest[i - |head|];
    }
  }

  lemma {:induction false} NearestFirst(t: seq<Byte>, s: set<nat>, m: nat, o: set<nat>, c: nat, n: nat)
    requires m + n <= |t| && c + n <= |t| && Newer(s, m) && Newer(o, m)
    ensures Nearest(t, s + {m} + o, c, n, Hit(Length(t, m, c, n), m))
  {
    hide Length;
  }

  lemma {:induction false} NearestOlder(t: seq<Byte>, s: set<nat>, m: nat, o: set<nat>, c: nat, n: nat, h: Hit)
    requires m + n <= |t| && c + n <= |t| && Nearest(t, s, c, n, h) && h.len > Length(t, m, c, n)
    requires forall x | x in o :: x + n <= |t| && Length(t, x, c, n) <= Length(t, m, c, n)
    ensures Nearest(t, s + {m} + o, c, n, h)
  {
    hide Length;
  }

  lemma {:induction false} CoveredFirst(s: set<nat>, m: nat, len: nat, rest: seq<Hit>, y: nat, k: nat)
    requires y in s && Newer(s, m + 1) && k <= len
    ensures Covered([Hit(len, m)] + rest, y, k)
  {
    assert ([Hit(len, m)] + rest)[0] == Hit(len, m);
  }

  lemma {:induction false} NearestIn(t: seq<Byte>, s: set<nat>, c: nat, n: nat, hits: seq<Hit>)
    requires forall i | 0 <= i < |hits| :: Nearest(t, s, c, n, hits[i])
    ensures forall i | 0 <= i < |hits| :: hits[i].pos in s
  {
    hide Length;
  }

  lemma {:induction false} NewerAll(s: set<nat>, m: nat, o: set<nat>)
    requires Newer(s, m) && Newer(o, m)
    ensures Newer(s + {m} + o, m + 1)
  {
  }

  /** One node, the child that is searched, and the one that is not. */
  lemma {:induction false} ExactCons(t: seq<Byte>, s: set<nat>, m: nat, o: set<nat>, c: nat, n: nat, max: nat,
                                     rest: seq<Hit>)
    requires m + n <= |t| && c + n <= |t| && Newer(s, m) && Newer(o, m)
    requires forall x | x in o :: x + n <= |t| && Length(t, x, c, n) <= Length(t, m, c, n)
    requires (var len := Length(t, m, c, n); Exact(t, s, c, n, if len > max then len else max, rest))
    ensures (var len := Length(t, m, c, n);
      Exact(t, s + {m} + o, c, n, max, (if len > max then [Hit(len, m)] else []) + rest))
  {
    hide Length, Nearest, Covered, Newer;
    var len := Length(t, m, c, n);
    var max' := if len > max then len else max;
    var head := if len > max then [Hit(len, m)] else [];
    var hits, all := head + rest, s + {m} + o;
    NewerAll(s, m, o);
    NearestIn(t, s, c, n, rest);
    RisingCons(m, len, max, s, rest);
    forall i | 0 <= i < |hits|
      ensures Nearest(t, all, c, n, hits[i])
    {
      if i >= |head| {
        assert hits[i] == rest[i - |head|] && rest[i - |head|].len > max';
        NearestOlder(t, s, m, o, c, n, rest[i - |head|]);
      } else {
        NearestFirst(t, s, m, o, c, n);
      }
    }
    forall y | y in all
      ensures y + n <= |t| && (Length(t, y, c, n) > max ==> Covered(hits, y, Length(t, y, c, n)))
    {
      if Length(t, y, c, n) > max {
        if Length(t, y, c, n) <= len {
          CoveredFirst(all, m, len, rest, y, Length(t, y, c, n));
        } else {
          CoveredLater(head, rest, y, Length(t, y, c, n));
        }
      }
    }
  }

  /** If the way is not cut short, the hits are exactly the pairs that no other pair beats. */
  lemma {:induction false} HitsExact(t: seq<Byte>, tr: Tree, c: nat, n: nat, cut: nat, max: nat)
    requires Sound(t, tr, n) && c + n <= |t| && Steps(t, tr, c, n) <= cut && max < n
    ensures Exact(t, Refs(tr), c, n, max, Hits(t, tr, c, n, cut, max))
  {
    hide Order, Length, GoesRight, Exact;
    if tr.Empty? {
      NothingExact(t, c, n, max);
    } else {
      var l, m, r := tr.left, tr.pos, tr.right;
      var len := Length(t, m, c, n);
      var max' := if len > max then len else max;
      if len == n {
        NothingExact(t, c, n, max');
        AtMostAll(t, Refs(l) + Refs(r), m, c, n);
        ExactCons(t, {}, m, Refs(l) + Refs(r), c, n, max, []);
        assert {} + {m} + (Refs(l) + Refs(r)) == Refs(tr);
        assert (if len > max then [Hit(len, m)] else []) + [] == [Hit(len, m)];
      } else if GoesRight(t, m, c, n) {
        HitsExact(t, r, c, n, cut - 1, max');
        forall x | x in Refs(l)
          ensures x + n <= |t| && Length(t, x, c, n) <= len
        {
          OtherSide(t, Refs(l), m, Refs(r), c, n, x);
        }
        ExactCons(t, Refs(r), m, Refs(l), c, n, max, Hits(t, r, c, n, cut - 1, max'));
        assert Refs(r) + {m} + Refs(l) == Refs(tr);
      } else {
        HitsExact(t, l, c, n, cut - 1, max');
        forall x | x in Refs(r)
          ensures x + n <= |t| && Length(t, x, c, n) <= len
        {
          OtherSide(t, Refs(l), m, Refs(r), c, n, x);
        }
        ExactCons(t, Refs(l), m, Refs(r), c, n, max, Hits(t, l, c, n, cut - 1, max'));
      }
    }
  }

  lemma {:induction false} NothingExact(t: seq<Byte>, c: nat, n: nat, max: nat)
    ensures Exact(t, {}, c, n, max, [])
  {
  }

  lemma {:induction false} AtMostAll(t: seq<Byte>, s: set<nat>, m: nat, c: nat, n: nat)
    requires Newer(s, m) && m + n <= |t| && c + n <= |t| && Length(t, m, c, n) == n
    ensures forall x | x in s :: x + n <= |t| && Length(t, x, c, n) <= Length(t, m, c, n)
  {
    hide Length;
  }

  /** However soon the way is cut short, every hit is a real agreement, and lengths rise. */
  lemma {:induction false} HitsReal(t: seq<Byte>, tr: Tree, c: nat, n: nat, cut: nat, max: nat)
    requires Sound(t, tr, n) && c + n <= |t|
    ensures Rising(Hits(t, tr, c, n, cut, max), max)
    ensures forall i | 0 <= i < |Hits(t, tr, c, n, cut, max)| ::
              (var h := Hits(t, tr, c, n, cut, max)[i];
                h.pos in Refs(tr) && h.pos + n <= |t| && h.len == Length(t, h.pos, c, n))
  {
    hide Order, Length, GoesRight, Rising;
    NoneRising(max);
    if tr.Node? && cut > 0 {
      var l, m, r := tr.left, tr.pos, tr.right;
      var len := Length(t, m, c, n);
      var max' := if len > max then len else max;
      NoneRising(max');
      if len == n {
        RisingCons(m, len, max, {}, []);
        assert (if len > max then [Hit(len, m)] else []) + [] == if len > max then [Hit(len, m)] else [];
      } else if GoesRight(t, m, c, n) {
        HitsReal(t, r, c, n, cut - 1, max');
        RisingCons(m, len, max, Refs(r), Hits(t, r, c, n, cut - 1, max'));
      } else {
        HitsReal(t, l, c, n, cut - 1, max');
        RisingCons(m, len, max, Refs(l), Hits(t, l, c, n, cut - 1, max'));
      }
    }
  }

  lemma {:induction false} NoneRising(max: nat)
    ensures Rising([], max)
  {
  }

  // ---------- shorter strings, fewer positions ----------

  lemma {:induction false} AtShorter(t: seq<Byte>, x: nat, n: nat, n': nat)
    requires x + n <= |t| && n' <= n
    ensures At(t, x, n)[..n'] == At(t, x, n')
  {
    var u, v := At(t, x, n)[..n'], At(t, x, n');
    assert |u| == |v| && forall i | 0 <= i < n' :: u[i] == v[i] == t[x + i];
  }

  lemma {:induction false} OrderShorter(t: seq<Byte>, x: nat, y: nat, n: nat, n': nat)
    requires Order(t, x, y, n) && n' <= n
    ensures Order(t, x, y, n')
  {
    NotAboveShorter(At(t, x, n), At(t, y, n), n');
    AtShorter(t, x, n, n');
    AtShorter(t, y, n, n');
  }

  /** Near the end of the data strings get shorter; the tree stays sound. */
  lemma {:induction false} SoundShorter(t: seq<Byte>, tr: Tree, n: nat, n': nat)
    requires Sound(t, tr, n) && n' <= n
    ensures Sound(t, tr, n')
  {
    hide Order;
    if tr.Node? {
      forall x | x in Refs(tr.left)
        ensures Order(t, x, tr.pos, n')
      {
        OrderShorter(t, x, tr.pos, n, n');
      }
      forall x | x in Refs(tr.right)
        ensures Order(t, tr.pos, x, n')
      {
        OrderShorter(t, tr.pos, x, n, n');
      }
      SoundShorter(t, tr.left, n, n');
      SoundShorter(t, tr.right, n, n');
    }
  }

  /** The tree without the positions below lo: whole subtrees go, because what is below is older. */
  ghost function Trim(tr: Tree, lo: int): Tree {
    match tr
    case Empty => Empty
    case Node(l, m, r) => if m < lo then Empty else Node(Trim(l, lo), m, Trim(r, lo))
  }

  lemma {:induction false} TrimSound(t: seq<Byte>, tr: Tree, n: nat, lo: int)
    requires Sound(t, tr, n)
    ensures Sound(t, Trim(tr, lo), n)
    ensures forall x :: x in Refs(Trim(tr, lo)) <==> x in Refs(tr) && x >= lo
  {
    hide Order;
    if tr.Node? {
      TrimSound(t, tr.left, n, lo);
      TrimSound(t, tr.right, n, lo);
    }
  }
}
