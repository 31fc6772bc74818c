/** What a search finds in the tree of one bucket, it finds in the whole window. */
module LzWindow {
  import opened Machine
  import opened LzText
  import opened LzTree
  import opened LzSon
  import opened LzSearch
  import opened LzForest

  /** Positions that agree on the hashed bytes are in the same bucket. */
  lemma {:induction false} SameBucket(p: Setup, x: nat, c: nat, len: nat)
    requires Fine(p) && p.n <= len && x + len <= |p.t| && c + len <= |p.t| && Length(p.t, x, c, len) >= p.n
    ensures HashAt(p, x) == HashAt(p, c)
  {
    hide HashOf;
    var u, v := At(p.t, x, len), At(p.t, c, len);
    assert Agree(u, v, p.n);
    AtShorter(p.t, x, len, p.n);
    AtShorter(p.t, c, len, p.n);
    assert u[..p.n] == v[..p.n];
  }

  /** For every position of the window with more than the hashed bytes in common there is one in
      the tree, as new, with as much in common. */
  ghost predicate Stands(t: seq<Byte>, s: set<nat>, s': set<nat>, c: nat, n: nat, max: nat) {
    forall x | x in s' && x + n <= |t| && c + n <= |t| && Length(t, x, c, n) > max :: StandsFor(t, s, x, c, n)
  }

  ghost predicate StandsFor(t: seq<Byte>, s: set<nat>, x: nat, c: nat, n: nat) {
    exists y :: y in s && y >= x && y + n <= |t| && x + n <= |t| && c + n <= |t|
      && Length(t, y, c, n) == Length(t, x, c, n)
  }

  lemma {:induction false} NearestWider(t: seq<Byte>, s: set<nat>, s': set<nat>, c: nat, n: nat, max: nat, h: Hit)
    requires Nearest(t, s, c, n, h) && h.len > max && s <= s' && Stands(t, s, s', c, n, max) && c + n <= |t|
    requires forall x | x in s' :: x < c
    ensures Nearest(t, s', c, n, h)
  {
    hide Length;
    forall y | y in s' && y > h.pos
      ensures y + n <= |t| && Length(t, y, c, n) < h.len
    {
      if Length(t, y, c, n) >= h.len {
        assert false;
      }
    }
  }

  lemma {:induction false} CoveredWider(t: seq<Byte>, s: set<nat>, c: nat, n: nat, max: nat, hits: seq<Hit>, y: nat)
    requires Exact(t, s, c, n, max, hits) && StandsFor(t, s, y, c, n) && y + n <= |t| && c + n <= |t|
    requires Length(t, y, c, n) > max
    ensures Covered(hits, y, Length(t, y, c, n))
  {
    hide Length, Rising, Nearest;
    var z :| z in s && z >= y && z + n <= |t| && Length(t, z, c, n) == Length(t, y, c, n);
    assert Covered(hits, z, Length(t, z, c, n));
  }

  /** Then what is exact for the tree is exact for the window. */
  lemma {:induction false} ExactWider(t: seq<Byte>, s: set<nat>, s': set<nat>, c: nat, n: nat, max: nat, hits: seq<Hit>)
    requires Exact(t, s, c, n, max, hits) && s <= s' && Stands(t, s, s', c, n, max) && c + n <= |t|
    requires forall x | x in s' :: x < c
    ensures Exact(t, s', c, n, max, hits)
  {
    hide Length, Nearest, Covered, StandsFor;
    forall i | 0 <= i < |hits|
      ensures Nearest(t, s', c, n, hits[i])
    {
      NearestWider(t, s, s', c, n, max, hits[i]);
    }
    forall y | y in s'
      ensures y + n <= |t| && (Length(t, y, c, n) > max ==> Covered(hits, y, Length(t, y, c, n)))
    {
      if Length(t, y, c, n) > max {
        CoveredWider(t, s, c, n, max, hits, y);
      }
    }
  }

  lemma {:induction false} LiveStands(p: Setup, s: State)
    requires Live(p, s) && s.complete
    ensures Fine(p) && s.cur + p.n <= |p.t| && |s.trees| == BUCKETS && Start(p, s.cur) <= s.cur
    ensures Stands(p.t, Refs(s.trees[HashAt(p, s.cur)]), Window(Start(p, s.cur), s.cur), s.cur, Limit(p, s.cur),
      p.n - 1)
  {
    hide *;
    LiveParts(p, s);
    WindowFits(p, s.cur);
    var c, len, lo := s.cur, Limit(p, s.cur), Start(p, s.cur);
    var all, tr := Window(lo, c), s.trees[HashAt(p, s.cur)];
    forall x | x in all && x + len <= |p.t| && c + len <= |p.t| && Length(p.t, x, c, len) > p.n - 1
      ensures StandsFor(p.t, Refs(tr), x, c, len)
    {
      HasAt(p, s.trees, lo, c, len, x);
      SameBucket(p, x, c, len);
      HasStands(p.t, Refs(tr), x, c, len);
    }
    StandsIntro(p.t, Refs(tr), all, c, len, p.n - 1);
  }

  lemma {:induction false} HasStands(t: seq<Byte>, s: set<nat>, x: nat, c: nat, n: nat)
    requires Has(t, s, x, n) && c + n <= |t|
    ensures StandsFor(t, s, x, c, n)
  {
    hide Length;
    var y :| y in s && y >= x && y + n <= |t| && x + n <= |t| && Length(t, y, x, n) == n;
    LengthTriangle(t, x, y, c, n);
  }

  lemma {:induction false} StandsIntro(t: seq<Byte>, s: set<nat>, s': set<nat>, c: nat, n: nat, max: nat)
    requires forall x | x in s' && x + n <= |t| && c + n <= |t| && Length(t, x, c, n) > max :: StandsFor(t, s, x, c, n)
    ensures Stands(t, s, s', c, n, max)
  {
    hide Length, StandsFor;
  }

  /** The hits of the search at s.cur. */
  ghost function Reported(p: Setup, s: State): (r: seq<Hit>)
    requires Inv(p, s)
  {
    if Active(p, s.cur) then
      InvParts(p, s);
      LiveParts(p, s);
      BucketAt(p, s, HashAt(p, s.cur));
      AllHits(p.t, s.cur, Limit(p, s.cur), s.trees[HashAt(p, s.cur)], p.cut, p.n - 1)
    else []
  }

  /** Every hit is a position of the window, with the length it has in common with s.cur. */
  ghost predicate RealHits(p: Setup, c: nat, hits: seq<Hit>) {
    && c <= |p.t| && 1 <= p.n && Rising(hits, p.n - 1)
    && forall i | 0 <= i < |hits| ::
        && Start(p, c) <= hits[i].pos < c && hits[i].len <= Limit(p, c)
        && hits[i].len == Length(p.t, hits[i].pos, c, Limit(p, c))
  }

  /** Lengths that rise leave room for so many. */
  lemma {:induction false} HitsFew(hits: seq<Hit>, max: nat, top: nat)
    requires Rising(hits, max) && max <= top && forall i | 0 <= i < |hits| :: hits[i].len <= top
    ensures |hits| <= top - max
  {
    if hits != [] {
      var k := |hits| - 1;
      BeforeLast(hits, max, hits[k]);
      assert forall i | 0 <= i < k :: hits[..k][i].len == hits[i].len < hits[k].len;
      HitsFew(hits[..k], max, hits[k].len - 1);
    }
  }

  /** The hits are exactly the pairs of length and position of the window that no other beats. */
  ghost predicate BestHits(p: Setup, c: nat, hits: seq<Hit>) {
    c <= |p.t| && 1 <= p.n && 1 <= p.w && Exact(p.t, Window(Start(p, c), c), c, Limit(p, c), p.n - 1, hits)
  }

  lemma {:induction false} ReportedIs(p: Setup, s: State)
    requires Inv(p, s) && Active(p, s.cur)
    ensures Live(p, s) && Fine(p) && s.cur + p.n <= |p.t| && |s.trees| == BUCKETS && s.cur + Limit(p, s.cur) <= |p.t|
    ensures Sound(p.t, s.trees[HashAt(p, s.cur)], Limit(p, s.cur))
    ensures Reported(p, s) ==
      AllHits(p.t, s.cur, Limit(p, s.cur), s.trees[HashAt(p, s.cur)], p.cut, p.n - 1)
    ensures Reported(p, s) ==
      Hits(p.t, s.trees[HashAt(p, s.cur)], s.cur, Limit(p, s.cur), Turns(p.cut), p.n - 1)
  {
    hide *;
    InvParts(p, s);
    LiveParts(p, s);
    BucketAt(p, s, HashAt(p, s.cur));
    ReportedDefinition(p, s);
  }

  lemma {:induction false} ReportedDefinition(p: Setup, s: State)
    requires Inv(p, s) && Active(p, s.cur) && Fine(p) && s.cur + p.n <= |p.t| && |s.trees| == BUCKETS && 2 <= p.n
    requires s.cur + Limit(p, s.cur) <= |p.t| && Sound(p.t, s.trees[HashAt(p, s.cur)], Limit(p, s.cur))
    ensures Reported(p, s) ==
      AllHits(p.t, s.cur, Limit(p, s.cur), s.trees[HashAt(p, s.cur)], p.cut, p.n - 1)
    ensures Reported(p, s) ==
      Hits(p.t, s.trees[HashAt(p, s.cur)], s.cur, Limit(p, s.cur), Turns(p.cut), p.n - 1)
  {
    hide Inv, Live, HashAt, Hits, Sound, Turns, Active, Limit, Fine;
  }

  lemma {:induction false} ReportedReal(p: Setup, s: State)
    requires Inv(p, s) && s.cur <= |p.t|
    ensures RealHits(p, s.cur, Reported(p, s))
  {
    hide *;
    InvParts(p, s);
    if Active(p, s.cur) {
      ReportedIs(p, s);
      LiveParts(p, s);
      var tr, len := s.trees[HashAt(p, s.cur)], Limit(p, s.cur);
      BucketAt(p, s, HashAt(p, s.cur));
      BucketParts(p, s.son, s.base, Start(p, s.cur), s.cur, len, HashAt(p, s.cur), s.hash[HashAt(p, s.cur)], tr);
      HitsReal(p.t, tr, s.cur, len, Turns(p.cut), p.n - 1);
      RealIntro(p, Refs(tr), s.cur, Reported(p, s));
    } else {
      NothingReported(p, s);
    }
  }

  lemma {:induction false} RealIntro(p: Setup, s: set<nat>, c: nat, hits: seq<Hit>)
    requires c <= |p.t| && 1 <= p.n && Rising(hits, p.n - 1) && InWindow(s, Start(p, c), c) && c + Limit(p, c) <= |p.t|
    requires forall i | 0 <= i < |hits| ::
              (var h := hits[i];
                h.pos in s && h.pos + Limit(p, c) <= |p.t| && h.len == Length(p.t, h.pos, c, Limit(p, c)))
    ensures RealHits(p, c, hits)
  {
    hide Rising, Limit, Start, Lcp;
  }

  lemma {:induction false} NothingReported(p: Setup, s: State)
    requires Inv(p, s) && !Active(p, s.cur) && s.cur <= |p.t|
    ensures Reported(p, s) == [] && RealHits(p, s.cur, [])
  {
    InvParts(p, s);
    hide Inv, Active;
  }

  /** As long as no search was cut short, the hits are the best of the whole window. */
  lemma {:induction false} ReportedBest(p: Setup, s: State)
    requires Inv(p, s) && Active(p, s.cur) && Live(p, s) && s.complete
    requires |s.trees| == BUCKETS && Fine(p) && s.cur + p.n <= |p.t| && s.cur + Limit(p, s.cur) <= |p.t|
    requires Sound(p.t, s.trees[HashAt(p, s.cur)], Limit(p, s.cur))
    requires Steps(p.t, s.trees[HashAt(p, s.cur)], s.cur, Limit(p, s.cur)) <= Turns(p.cut)
    ensures BestHits(p, s.cur, Reported(p, s))
  {
    hide *;
    ReportedIs(p, s);
    LiveParts(p, s);
    LiveStands(p, s);
    var h, len := HashAt(p, s.cur), Limit(p, s.cur);
    var tr, all := s.trees[h], Window(Start(p, s.cur), s.cur);
    BucketAt(p, s, h);
    BucketParts(p, s.son, s.base, Start(p, s.cur), s.cur, len, h, s.hash[h], tr);
    InWindowSubset(Refs(tr), Start(p, s.cur), s.cur);
    HitsExact(p.t, tr, s.cur, len, Turns(p.cut), p.n - 1);
    ExactWider(p.t, Refs(tr), all, s.cur, len, p.n - 1, Reported(p, s));
    BestIntro(p, s.cur, Reported(p, s));
  }

  lemma {:induction false} InWindowSubset(s: set<nat>, lo: nat, c: nat)
    requires InWindow(s, lo, c) && lo <= c
    ensures s <= Window(lo, c) && forall x | x in Window(lo, c) :: x < c
  {
  }

  lemma {:induction false} BestIntro(p: Setup, c: nat, hits: seq<Hit>)
    requires c <= |p.t| && 1 <= p.n && 1 <= p.w && Start(p, c) <= c
    requires Exact(p.t, Window(Start(p, c), c), c, Limit(p, c), p.n - 1, hits)
    ensures BestHits(p, c, hits)
  {
    hide Exact, Start, Limit;
  }

  /** With a cut value of at least the history size, every search reports the best. */
  lemma {:induction false} LargeCutBest(p: Setup, s: State)
    requires Inv(p, s) && Active(p, s.cur) && p.w - 1 <= Turns(p.cut)
    ensures BestHits(p, s.cur, Reported(p, s))
  {
    hide *;
    InvParts(p, s);
    LiveParts(p, s);
    var h, len := HashAt(p, s.cur), Limit(p, s.cur);
    BucketAt(p, s, h);
    BucketParts(p, s.son, s.base, Start(p, s.cur), s.cur, len, h, s.hash[h], s.trees[h]);
    NoCut(p, s.trees[h], s.cur, len);
    ReportedBest(p, s);
  }

  // ---------- what the matches do not depend on ----------

  lemma {:induction false} ExactAt(t: seq<Byte>, s: set<nat>, c: nat, n: nat, max: nat, hits: seq<Hit>, h: Hit)
    requires Exact(t, s, c, n, max, hits) && h in hits
    ensures Nearest(t, s, c, n, h) && h.len > max
  {
    hide Nearest, Length, Covered;
  }

  /** What is as long and as near as a hit is the hit. */
  lemma {:induction false} NearestUnique(t: seq<Byte>, s: set<nat>, c: nat, n: nat, h: Hit, h': Hit)
    requires Nearest(t, s, c, n, h) && Nearest(t, s, c, n, h') && h'.len >= h.len && h'.pos >= h.pos
    ensures h == h'
  {
    hide Length;
  }

  lemma {:induction false} ExactCovers(t: seq<Byte>, s: set<nat>, c: nat, n: nat, max: nat, hits: seq<Hit>, h: Hit)
    returns (h': Hit)
    requires Exact(t, s, c, n, max, hits) && Nearest(t, s, c, n, h) && h.len > max
    ensures h' in hits && h'.len >= h.len && h'.pos >= h.pos
  {
    hide Length, Rising;
    assert Covered(hits, h.pos, h.len);
    var j :| 0 <= j < |hits| && hits[j].len >= h.len && hits[j].pos >= h.pos;
    h' := hits[j];
  }

  lemma {:induction false} ExactHas(t: seq<Byte>, s: set<nat>, c: nat, n: nat, max: nat, a: seq<Hit>, b: seq<Hit>,
                                    h: Hit)
    requires Exact(t, s, c, n, max, a) && Exact(t, s, c, n, max, b) && h in a
    ensures h in b
  {
    hide *;
    ExactAt(t, s, c, n, max, a, h);
    var h' := ExactCovers(t, s, c, n, max, b, h);
    ExactAt(t, s, c, n, max, b, h');
    NearestUnique(t, s, c, n, h, h');
  }

  lemma {:induction false} SomeHit(a: seq<Hit>)
    requires a != []
    ensures exists h :: h in a
  {
    assert a[0] in a;
  }

  /** What is before the last hit is shorter. */
  lemma {:induction false} BeforeLast(a: seq<Hit>, max: nat, h: Hit)
    requires Rising(a, max) && a != []
    ensures Rising(a[..|a| - 1], max)
    ensures h in a[..|a| - 1] <==> h in a && h.len < a[|a| - 1].len
    ensures h in a ==> h.len <= a[|a| - 1].len && (h.len == a[|a| - 1].len ==> h == a[|a| - 1])
  {
    var b := a[..|a| - 1];
    assert forall i | 0 <= i < |b| :: b[i] == a[i];
    if h in a {
      var i :| 0 <= i < |a| && a[i] == h;
      assert i < |b| ==> b[i] == h;
    }
  }

  lemma {:induction false} SameLast(a: seq<Hit>, b: seq<Hit>, max: nat)
    requires Rising(a, max) && Rising(b, max) && a != [] && b != []
    requires a[|a| - 1] in b && b[|b| - 1] in a
    ensures a[|a| - 1] == b[|b| - 1]
  {
    BeforeLast(a, max, b[|b| - 1]);
    BeforeLast(b, max, a[|a| - 1]);
    hide Rising;
  }

  lemma {:induction false} SameHits(a: seq<Hit>, b: seq<Hit>, max: nat)
    requires Rising(a, max) && Rising(b, max) && forall h :: h in a <==> h in b
    ensures a == b
  {
    hide *;
    if a == [] {
      if b != [] {
        SomeHit(b);
        assert false;
      }
    } else {
      assert a[0] in b;
      assert a[|a| - 1] in b && b[|b| - 1] in a;
      SameLast(a, b, max);
      var x, y := a[..|a| - 1], b[..|b| - 1];
      assert a == x + [a[|a| - 1]] && b == y + [b[|b| - 1]];
      BeforeLast(a, max, a[0]);
      BeforeLast(b, max, a[0]);
      forall h
        ensures h in x <==> h in y
      {
        BeforeLast(a, max, h);
        BeforeLast(b, max, h);
      }
      SameHits(x, y, max);
    }
  }

  lemma {:induction false} BestParts(p: Setup, c: nat, hits: seq<Hit>)
    requires BestHits(p, c, hits)
    ensures c <= |p.t| && 1 <= p.n && 1 <= p.w && Start(p, c) <= c && Rising(hits, p.n - 1)
    ensures Exact(p.t, Window(Start(p, c), c), c, Limit(p, c), p.n - 1, hits)
  {
    hide Nearest, Covered, Length, Start, Limit, Rising;
  }

  /** The data alone decides what the best hits are. */
  lemma {:induction false} BestUnique(p: Setup, c: nat, a: seq<Hit>, b: seq<Hit>)
    requires BestHits(p, c, a) && BestHits(p, c, b)
    ensures a == b
  {
    hide *;
    BestParts(p, c, a);
    BestParts(p, c, b);
    var s, n := Window(Start(p, c), c), Limit(p, c);
    forall h
      ensures h in a <==> h in b
    {
      if h in a {
        ExactHas(p.t, s, c, n, p.n - 1, a, b, h);
      }
      if h in b {
        ExactHas(p.t, s, c, n, p.n - 1, b, a, h);
      }
    }
    SameHits(a, b, p.n - 1);
  }

  lemma {:induction false} NextIs(p: Setup, s: State)
    requires Inv(p, s) && s.cur < |p.t|
    ensures 2 <= p.w < 0x1_0000_0000 && (Active(p, s.cur) ==> Live(p, s))
    ensures Next(p, s) == Moved(p, if Active(p, s.cur) then AfterSearch(p, s) else s)
    ensures Inv(p, Next(p, s)) && Next(p, s).cur == s.cur + 1
  {
    InvParts(p, s);
    hide Inv, Live, Active, AfterSearch, Moved;
  }

  lemma {:induction false} RunStep(p: Setup, s: State, num: nat)
    requires Inv(p, s) && s.cur + num <= |p.t| && num > 0
    ensures Inv(p, Next(p, s)) && Next(p, s).cur == s.cur + 1
    ensures Run(p, s, num) == Run(p, Next(p, s), num - 1)
  {
    hide Inv, Next;
  }

  lemma {:induction false} RunNone(p: Setup, s: State)
    requires Inv(p, s) && s.cur <= |p.t|
    ensures Run(p, s, 0) == s
  {
    hide Inv, Next;
  }

  lemma {:induction false} MovedTreesAre(p: Setup, s: State)
    requires 2 <= p.w < 0x1_0000_0000
    ensures Moved(p, s).trees == Trimmed(s.trees, Start(p, s.cur + 1)) && Moved(p, s).cur == s.cur + 1
  {
    hide Trimmed, Reduced, Start;
  }
}
