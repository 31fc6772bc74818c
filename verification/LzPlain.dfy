/** The match finder without its arrays: one tree for each value of the hashed bytes, positions
    that count on without end, nothing reduced and nothing reused. */
module LzPlain {
  import opened Machine
  import opened LzTree
  import opened LzSearch
  import opened LzForest
  import opened LzWindow

  function NoTrees(): (r: seq<Tree>)
    ensures |r| == BUCKETS && forall h | 0 <= h < BUCKETS :: r[h] == Empty
  {
    seq(BUCKETS, _ => Empty)
  }

  /** Each tree is a sound one, of positions before c, as long as there are searches. */
  ghost predicate Grows(p: Setup, trees: seq<Tree>, c: nat) {
    && |trees| == BUCKETS
    && (c <= |p.t| && Active(p, c) ==>
          forall h: nat | h < BUCKETS :: Newer(Refs(trees[h]), c) && Sound(p.t, trees[h], Limit(p, c)))
  }

  lemma {:induction false} GrowsAt(p: Setup, trees: seq<Tree>, c: nat, h: nat)
    requires Grows(p, trees, c) && c <= |p.t| && Active(p, c) && h < BUCKETS
    ensures |trees| == BUCKETS && Newer(Refs(trees[h]), c) && Sound(p.t, trees[h], Limit(p, c))
    ensures c + Limit(p, c) <= |p.t|
  {
    hide Newer, Sound;
  }

  lemma {:induction false} GrowsIntro(p: Setup, trees: seq<Tree>, c: nat)
    requires |trees| == BUCKETS && c <= |p.t|
    requires Active(p, c) ==>
               forall h: nat | h < BUCKETS :: Newer(Refs(trees[h]), c) && Sound(p.t, trees[h], Limit(p, c))
    ensures Grows(p, trees, c)
  {
    hide Newer, Sound, Limit;
  }

  /** The trees with position c in them, if there is a search at c. */
  ghost function Entered(p: Setup, trees: seq<Tree>, c: nat): (r: seq<Tree>)
    requires Fine(p) && c <= |p.t| && Grows(p, trees, c)
    ensures |r| == BUCKETS
  {
    if Active(p, c) then
      GrowsAt(p, trees, c, HashAt(p, c));
      trees[HashAt(p, c) := Grown(p, trees[HashAt(p, c)], c, Limit(p, c))]
    else trees
  }

  lemma {:induction false} NewerLater(s: set<nat>, c: nat)
    requires Newer(s, c)
    ensures Newer(s, c + 1)
  {
  }

  lemma {:induction false} NewerJoin(s: set<nat>, l: set<nat>, r: set<nat>, c: nat)
    requires Newer(s, c) && l <= s && r <= s
    ensures Newer(l + {c} + r, c + 1)
  {
  }

  lemma {:induction false} NewerFewer(s: set<nat>, s': set<nat>, lo: int, c: nat)
    requires Newer(s, c) && forall x :: x in s' <==> x in s && x >= lo
    ensures Newer(s', c)
  {
  }

  lemma {:induction false} GrownGrows(p: Setup, tr: Tree, c: nat, len: nat)
    requires Sound(p.t, tr, len) && Newer(Refs(tr), c) && c + len <= |p.t|
    ensures Newer(Refs(Grown(p, tr, c, len)), c + 1) && Sound(p.t, Grown(p, tr, c, len), len)
  {
    hide *;
    var s := Split(p.t, tr, c, len, Turns(p.cut));
    InsertSound(p.t, tr, c, len, Turns(p.cut));
    SplitSound(p.t, tr, c, len, Turns(p.cut));
    GrownRefs(p, tr, c, len);
    NewerJoin(Refs(tr), Refs(s.0), Refs(s.1), c);
  }

  lemma {:induction false} EnteredAt(p: Setup, trees: seq<Tree>, c: nat, h: nat)
    requires Fine(p) && c <= |p.t| && Grows(p, trees, c) && Active(p, c) && h < BUCKETS
    ensures Newer(Refs(Entered(p, trees, c)[h]), c + 1) && Sound(p.t, Entered(p, trees, c)[h], Limit(p, c))
  {
    hide *;
    GrowsAt(p, trees, c, h);
    EnteredIs(p, trees, c, h);
    if h == HashAt(p, c) {
      GrownGrows(p, trees[h], c, Limit(p, c));
    } else {
      NewerLater(Refs(trees[h]), c);
    }
  }

  lemma {:induction false} EnteredIs(p: Setup, trees: seq<Tree>, c: nat, h: nat)
    requires Fine(p) && c <= |p.t| && Grows(p, trees, c) && Active(p, c) && h < BUCKETS
    ensures |trees| == BUCKETS && Sound(p.t, trees[h], Limit(p, c)) && c + Limit(p, c) <= |p.t| && c + p.n <= |p.t|
    ensures Entered(p, trees, c)[h] == if h == HashAt(p, c) then Grown(p, trees[h], c, Limit(p, c)) else trees[h]
  {
    GrowsAt(p, trees, c, h);
    hide Newer, Sound, Limit, Grown, HashAt, Grows, Fine;
  }

  /** What leaves the window leaves its tree. */
  lemma {:induction false} TrimmedGrows(p: Setup, trees: seq<Tree>, c: nat)
    requires Fine(p) && c < |p.t| && Grows(p, trees, c)
    ensures Grows(p, Trimmed(Entered(p, trees, c), Start(p, c + 1)), c + 1)
  {
    hide *;
    var lo, a := Start(p, c + 1), Entered(p, trees, c);
    if Active(p, c + 1) {
      ActiveBefore(p, c);
      LimitFalls(p, c);
      forall h: nat | h < BUCKETS
        ensures Newer(Refs(Trimmed(a, lo)[h]), c + 1) && Sound(p.t, Trimmed(a, lo)[h], Limit(p, c + 1))
      {
        EnteredAt(p, trees, c, h);
        TrimSound(p.t, a[h], Limit(p, c), lo);
        SoundShorter(p.t, Trim(a[h], lo), Limit(p, c), Limit(p, c + 1));
        NewerFewer(Refs(a[h]), Refs(Trim(a[h], lo)), lo, c + 1);
      }
    }
    GrowsIntro(p, Trimmed(a, lo), c + 1);
  }

  lemma {:induction false} NoneGrows(p: Setup)
    ensures Grows(p, NoTrees(), 0)
  {
  }

  /** The trees before position c. */
  ghost function Forest(p: Setup, c: nat): (r: seq<Tree>)
    requires Fine(p) && c <= |p.t|
    ensures Grows(p, r, c)
  {
    hide Grows, Entered, Trimmed;
    if c == 0 then
      NoneGrows(p);
      NoTrees()
    else
      TrimmedGrows(p, Forest(p, c - 1), c - 1);
      Trimmed(Entered(p, Forest(p, c - 1), c - 1), Start(p, c))
  }

  /** What the search at c finds in them. */
  ghost function Finds(p: Setup, c: nat): seq<Hit>
    requires Fine(p) && c <= |p.t|
  {
    if Active(p, c) then
      GrowsAt(p, Forest(p, c), c, HashAt(p, c));
      AllHits(p.t, c, Limit(p, c), Forest(p, c)[HashAt(p, c)], p.cut, p.n - 1)
    else []
  }

  // ---------- the arrays make no difference ----------

  lemma {:induction false} ForestNext(p: Setup, c: nat)
    requires Fine(p) && c < |p.t|
    ensures Forest(p, c + 1) == Trimmed(Entered(p, Forest(p, c), c), Start(p, c + 1))
  {
    hide Grows, Entered, Trimmed, Start;
  }

  lemma {:induction false} SameSearch(p: Setup, s: State, trees: seq<Tree>)
    requires Live(p, s) && Fine(p) && s.cur <= |p.t| && Active(p, s.cur) && s.trees == trees && Grows(p, trees, s.cur)
    ensures AfterSearch(p, s).trees == Entered(p, trees, s.cur)
  {
    hide *;
    AfterSearchIs(p, s);
    var a, b := AfterSearch(p, s).trees, Entered(p, trees, s.cur);
    forall h: nat | h < BUCKETS
      ensures a[h] == b[h]
    {
      EnteredIs(p, trees, s.cur, h);
    }
    assert |a| == |b| == BUCKETS;
  }

  lemma {:induction false} NotEntered(p: Setup, trees: seq<Tree>, c: nat)
    requires Fine(p) && c <= |p.t| && Grows(p, trees, c) && !Active(p, c)
    ensures Entered(p, trees, c) == trees
  {
    hide Grows, Active;
  }

  lemma {:induction false} SameNext(p: Setup, s: State)
    requires Inv(p, s) && s.cur < |p.t| && Fine(p) && s.trees == Forest(p, s.cur)
    ensures Next(p, s).cur == s.cur + 1 && Next(p, s).trees == Forest(p, s.cur + 1)
  {
    hide *;
    NextIs(p, s);
    ForestNext(p, s.cur);
    var a := if Active(p, s.cur) then AfterSearch(p, s) else s;
    if Active(p, s.cur) {
      AfterSearchIs(p, s);
      SameSearch(p, s, s.trees);
    } else {
      NotEntered(p, s.trees, s.cur);
    }
    MovedTreesAre(p, a);
  }

  lemma {:induction false} SameFinds(p: Setup, s: State)
    requires Inv(p, s) && Fine(p) && s.cur <= |p.t| && s.trees == Forest(p, s.cur)
    ensures Reported(p, s) == Finds(p, s.cur)
  {
    hide Inv, Live, AllHits, Limit, HashAt, Active, Forest, Grows, Fine;
  }

  /** Over any number of positions, the finder with 32-bit positions, a cyclic array and references
      that are reduced when positions wrap has the trees of the finder that has none of these, and
      reports what that one reports. */
  lemma {:induction false} SameAsPlain(p: Setup, s: State, num: nat)
    requires Inv(p, s) && Fine(p) && s.cur + num <= |p.t| && s.trees == Forest(p, s.cur)
    ensures Run(p, s, num).trees == Forest(p, s.cur + num)
    ensures Reported(p, Run(p, s, num)) == Finds(p, s.cur + num)
    decreases num
  {
    hide *;
    if num == 0 {
      RunNone(p, s);
      SameFinds(p, s);
    } else {
      RunStep(p, s, num);
      SameNext(p, s);
      SameAsPlain(p, Next(p, s), num - 1);
    }
  }

  /** So from the start. */
  lemma {:induction false} FromStart(p: Setup, s: State, num: nat)
    requires Inv(p, s) && Fine(p) && s.cur == 0 && s.trees == NoTrees() && num <= |p.t|
    ensures Run(p, s, num).trees == Forest(p, num) && Reported(p, Run(p, s, num)) == Finds(p, num)
  {
    hide Inv, Reported, Run, Finds, Grows;
    SameAsPlain(p, s, num);
  }

  // ---------- the nearest position of the bucket ----------

  /** x is the last position before c with the hash value h. */
  ghost predicate Newest(p: Setup, c: nat, h: nat, x: nat) {
    && Fine(p) && x < c && c + p.n <= |p.t| && HashAt(p, x) == h
    && forall y: nat | x < y < c :: HashAt(p, y) != h
  }

  lemma {:induction false} NewestBefore(p: Setup, c: nat, h: nat, x: nat)
    requires Newest(p, c, h, x) && x < c - 1
    ensures HashAt(p, c - 1) != h && Newest(p, c - 1, h, x)
  {
    hide HashAt, Fine;
  }

  lemma {:induction false} LastHash(p: Setup, c: nat, h: nat)
    requires c > 0 && Newest(p, c, h, c - 1)
    ensures c - 1 + p.n <= |p.t| && HashAt(p, c - 1) == h
  {
    hide HashAt, Fine;
  }

  lemma {:induction false} TrimTop(tr: Tree, lo: int)
    ensures tr.Node? && tr.pos >= lo ==> Trim(tr, lo).Node? && Trim(tr, lo).pos == tr.pos
  {
  }

  lemma {:induction false} GrownTop(p: Setup, tr: Tree, c: nat, len: nat)
    requires Sound(p.t, tr, len) && c + len <= |p.t|
    ensures Grown(p, tr, c, len).Node? && Grown(p, tr, c, len).pos == c
  {
    hide Sound, Split;
  }

  lemma {:induction false} TrimmedAt(trees: seq<Tree>, lo: int, h: nat)
    requires |trees| == BUCKETS && h < BUCKETS
    ensures Trimmed(trees, lo)[h] == Trim(trees[h], lo)
  {
    hide Trim;
  }

  /** As long as it is in the window it is on top of its tree, for every cut value. */
  lemma {:induction false} NewestOnTop(p: Setup, c: nat, h: nat, x: nat)
    requires Fine(p) && Newest(p, c, h, x) && h < BUCKETS && c <= |p.t| && Active(p, c) && Start(p, c) <= x
    ensures Forest(p, c)[h].Node? && Forest(p, c)[h].pos == x
    decreases c
  {
    hide *;
    NewestIs(p, c, h, x);
    ForestNext(p, c - 1);
    ActiveBefore(p, c - 1);
    var a := Entered(p, Forest(p, c - 1), c - 1);
    EnteredIs(p, Forest(p, c - 1), c - 1, h);
    TrimmedAt(a, Start(p, c), h);
    TrimTop(a[h], Start(p, c));
    if x == c - 1 {
      LastHash(p, c, h);
      GrownTop(p, Forest(p, c - 1)[h], c - 1, Limit(p, c - 1));
    } else {
      NewestBefore(p, c, h, x);
      StartRises(p, c);
      NewestOnTop(p, c - 1, h, x);
    }
  }

  lemma {:induction false} NewestIs(p: Setup, c: nat, h: nat, x: nat)
    requires Newest(p, c, h, x)
    ensures x < c && c + p.n <= |p.t| && x + p.n <= |p.t| && HashAt(p, x) == h
  {
    hide HashAt, Fine;
  }

  lemma {:induction false} StartRises(p: Setup, c: nat)
    requires c > 0
    ensures Start(p, c - 1) <= Start(p, c)
  {
  }

  lemma {:induction false} TopIsFirst(t: seq<Byte>, tr: Tree, c: nat, n: nat, cut: Word, max: nat)
    requires Sound(t, tr, n) && c + n <= |t| && tr.Node? && tr.pos + n <= |t| && Length(t, tr.pos, c, n) > max
    ensures (var hits := AllHits(t, c, n, tr, cut, max); hits != [] && hits[0] == Hit(Length(t, tr.pos, c, n), tr.pos))
  {
    hide Length, GoesRight, Sound;
  }

  /** From the start, over any number of positions and for every cut value: the nearest position with
      the same hash value is the first to be reported, if it is in the window and agrees on the hashed
      bytes, and with all the bytes that it has in common. */
  lemma {:induction false} NearestReported(p: Setup, s: State, c: nat, x: nat)
    requires Inv(p, s) && Fine(p) && s.cur == 0 && s.trees == NoTrees() && c <= |p.t| && Active(p, c)
    requires Newest(p, c, HashAt(p, c), x) && Start(p, c) <= x
    requires Length(p.t, x, c, Limit(p, c)) >= p.n
    ensures (var hits := Reported(p, Run(p, s, c));
      hits != [] && hits[0] == Hit(Length(p.t, x, c, Limit(p, c)), x))
  {
    hide *;
    FromStart(p, s, c);
    FindsIs(p, c);
    NewestOnTop(p, c, HashAt(p, c), x);
    NewestIs(p, c, HashAt(p, c), x);
    FineHash(p);
    TopIsFirst(p.t, Forest(p, c)[HashAt(p, c)], c, Limit(p, c), p.cut, p.n - 1);
  }

  lemma {:induction false} FineHash(p: Setup)
    requires Fine(p)
    ensures p.n >= 2
  {
  }

  lemma {:induction false} FindsIs(p: Setup, c: nat)
    requires Fine(p) && c <= |p.t| && Active(p, c)
    ensures c + p.n <= |p.t| && c + Limit(p, c) <= |p.t| && HashAt(p, c) < |Forest(p, c)|
    ensures Sound(p.t, Forest(p, c)[HashAt(p, c)], Limit(p, c))
    ensures Finds(p, c) == AllHits(p.t, c, Limit(p, c), Forest(p, c)[HashAt(p, c)], p.cut, p.n - 1)
  {
    hide AllHits, Forest, HashAt, Limit, Grows, Sound;
    GrowsAt(p, Forest(p, c), c, HashAt(p, c));
  }
}
