/** The state of a binary-tree match finder between two calls, and what one position does to
    it: the trees of all hash buckets in one cyclic array. */
module LzForest {
  import Arith
  import opened Bitwise
  import opened Machine
  import opened LzText
  import opened LzTree
  import opened LzSon
  import opened LzSearch

  const BUCKETS: nat := 0x1_0000

  /** What stays the same: the data, cyclicBufferSize, numHashBytes, matchMaxLen, cutValue, crc. */
  datatype Setup = Setup(t: seq<Byte>, w: nat, n: nat, max: nat, cut: Word, crc: seq<Word>)

  ghost predicate Fine(p: Setup) {
    2 <= p.w < 0x1_0000_0000 && 2 <= p.n <= 3 && |p.crc| == 0x100
  }

  /** HASH2_CALC, or HASH_ZIP_CALC: a value of the n bytes at x. */
  function HashOf(s: seq<Byte>, crc: seq<Word>): (r: nat)
    requires 2 <= |s| <= 3 && |crc| == 0x100
    ensures r < BUCKETS
  {
    if |s| == 2 then
      var lo: int, hi: int := s[0], s[1];
      lo + hi * 0x100
    else
      And16(Xor(Or(s[2], Shl(s[0], 8)), crc[s[1]]));
      And(Xor(Or(s[2], Shl(s[0], 8)), crc[s[1]]), 0xFFFF)
  }

  lemma {:induction false} And16(x: nat)
    ensures And(x, 0xFFFF) < 0x1_0000
  {
    Arith.WordPowers();
    hide And;
    AndLow(x, 16);
  }

  function HashAt(p: Setup, x: nat): (r: nat)
    requires Fine(p) && x + p.n <= |p.t|
    ensures r < BUCKETS
  {
    HashOf(At(p.t, x, p.n), p.crc)
  }

  /** lenLimit at c: what is left, but no more than matchMaxLen (LzFind.c:509-527). */
  function Limit(p: Setup, c: nat): nat
    requires c <= |p.t|
  {
    if |p.t| - c < p.max then |p.t| - c else p.max
  }

  /** Whether there is a search at c: lenLimit is not below the number of hash bytes. */
  predicate Active(p: Setup, c: nat) {
    c + p.n <= |p.t| && p.n <= p.max
  }

  /** The first position of the window at c. */
  function Start(p: Setup, c: nat): nat {
    if c + 1 <= p.w then 0 else c + 1 - p.w
  }

  /** The fields, the base of the references, the tree of each bucket, and whether no search
      was ever cut short. */
  datatype State = State(hash: seq<int>, son: seq<int>, pos: int, cur: nat, cyc: nat, base: int, trees: seq<Tree>,
                         complete: bool)

  /** The positions of one bucket. */
  ghost predicate OfBucket(p: Setup, s: set<nat>, h: nat) {
    Fine(p) && forall x | x in s :: x + p.n <= |p.t| && HashAt(p, x) == h
  }

  /** One bucket: its tree is in the array, sound, inside the window, and has only its own positions. */
  ghost predicate Bucket(p: Setup, son: seq<int>, base: int, lo: nat, c: nat, len: nat, h: nat, r: int, tr: Tree) {
    && Fine(p) && |son| == 2 * p.w
    && Rep(son, p.w, base, lo, r, tr) && Sound(p.t, tr, len) && InWindow(Refs(tr), lo, c) && OfBucket(p, Refs(tr), h)
  }

  lemma {:induction false} BucketParts(p: Setup, son: seq<int>, base: int, lo: nat, c: nat, len: nat, h: nat, r: int,
                                       tr: Tree)
    requires Bucket(p, son, base, lo, c, len, h, r, tr)
    ensures Fine(p) && 2 <= p.w && 2 <= p.n && |son| == 2 * p.w
    ensures Rep(son, p.w, base, lo, r, tr) && Sound(p.t, tr, len) && InWindow(Refs(tr), lo, c)
      && OfBucket(p, Refs(tr), h)
  {
    hide Rep, Sound, InWindow, OfBucket;
  }

  lemma {:induction false} BucketIntro(p: Setup, son: seq<int>, base: int, lo: nat, c: nat, len: nat, h: nat, r: int,
                                       tr: Tree)
    requires Fine(p) && p.w > 0 && |son| == 2 * p.w
    requires Rep(son, p.w, base, lo, r, tr) && Sound(p.t, tr, len) && InWindow(Refs(tr), lo, c)
      && OfBucket(p, Refs(tr), h)
    ensures Bucket(p, son, base, lo, c, len, h, r, tr)
  {
    hide Rep, Sound, InWindow, OfBucket;
  }

  /** The tree has a position as new as x with the same string. */
  ghost predicate Has(t: seq<Byte>, s: set<nat>, x: nat, len: nat) {
    exists y :: y in s && y >= x && y + len <= |t| && x + len <= |t| && Length(t, y, x, len) == len
  }

  /** Every position of the window is in the tree of its bucket, or a newer one like it. */
  ghost predicate Covers(p: Setup, trees: seq<Tree>, lo: nat, c: nat, len: nat) {
    && Fine(p) && |trees| == BUCKETS && c + p.n <= |p.t| + 1
    && forall x: nat | lo <= x < c :: Has(p.t, Refs(trees[HashAt(p, x)]), x, len)
  }

  ghost predicate Planted(p: Setup, s: State, lo: nat, c: nat, len: nat) {
    && |s.hash| == BUCKETS == |s.trees|
    && forall h: nat | h < BUCKETS :: Bucket(p, s.son, s.base, lo, c, len, h, s.hash[h], s.trees[h])
  }

  lemma {:induction false} PlantedSizes(p: Setup, s: State, lo: nat, c: nat, len: nat)
    requires Planted(p, s, lo, c, len)
    ensures |s.hash| == BUCKETS == |s.trees|
  {
    hide Bucket;
  }

  lemma {:induction false} PlantedAt(p: Setup, s: State, lo: nat, c: nat, len: nat, h: nat)
    requires Planted(p, s, lo, c, len) && h < BUCKETS
    ensures |s.hash| == BUCKETS == |s.trees|
    ensures Bucket(p, s.son, s.base, lo, c, len, h, s.hash[h], s.trees[h])
  {
    hide Bucket;
  }

  /** Positions count from the base, and the references of the window are above it. */
  ghost predicate Based(p: Setup, pos: int, c: nat, base: int) {
    && 1 <= pos < 0x1_0000_0000 && pos + base == c && -1 <= base
    && Lowest(base, c, p.w) == Start(p, c)
  }

  /** While searches go on, the trees are there, and miss nothing if none was cut short. */
  ghost predicate Live(p: Setup, s: State) {
    && Fine(p) && Active(p, s.cur) && Based(p, s.pos, s.cur, s.base)
    && Planted(p, s, Start(p, s.cur), s.cur, Limit(p, s.cur))
    && (s.complete ==> Covers(p, s.trees, Start(p, s.cur), s.cur, Limit(p, s.cur)))
    && (p.w - 1 <= Turns(p.cut) ==> s.complete)
  }

  ghost predicate Inv(p: Setup, s: State) {
    && Fine(p) && s.cur <= |p.t| && s.cyc == Place(s.cur, p.w) && 0 <= s.pos < 0x1_0000_0000
    && |s.hash| == BUCKETS && |s.son| == 2 * p.w && |s.trees| == BUCKETS
    && (Active(p, s.cur) ==> Live(p, s))
  }

  lemma {:induction false} LiveParts(p: Setup, s: State)
    requires Live(p, s)
    ensures Fine(p) && 2 <= p.w < 0x1_0000_0000 && 2 <= p.n <= p.max && s.cur + p.n <= |p.t|
    ensures p.n <= Limit(p, s.cur) && s.cur + Limit(p, s.cur) <= |p.t|
    ensures Based(p, s.pos, s.cur, s.base) && 1 <= s.pos < 0x1_0000_0000 && s.pos + s.base == s.cur && s.base < s.cur
    ensures Lowest(s.base, s.cur, p.w) == Start(p, s.cur)
    ensures Planted(p, s, Start(p, s.cur), s.cur, Limit(p, s.cur))
    ensures |s.hash| == BUCKETS == |s.trees| && |s.son| == 2 * p.w
    ensures s.complete ==> Covers(p, s.trees, Start(p, s.cur), s.cur, Limit(p, s.cur))
    ensures p.w - 1 <= Turns(p.cut) ==> s.complete
  {
    PlantedAt(p, s, Start(p, s.cur), s.cur, Limit(p, s.cur), 0);
    hide Planted, Covers, Rep, Sound, InWindow, OfBucket, Turns;
  }

  lemma {:induction false} BucketAt(p: Setup, s: State, h: nat)
    requires Live(p, s) && h < BUCKETS
    ensures |s.hash| == BUCKETS == |s.trees|
    ensures Bucket(p, s.son, s.base, Start(p, s.cur), s.cur, Limit(p, s.cur), h, s.hash[h], s.trees[h])
    ensures Searchable(p.t, s.son, p.w, s.base, s.cur, Limit(p, s.cur), s.hash[h], s.trees[h])
    ensures Sound(p.t, s.trees[h], Limit(p, s.cur))
  {
    LiveParts(p, s);
    PlantedAt(p, s, Start(p, s.cur), s.cur, Limit(p, s.cur), h);
    BucketParts(p, s.son, s.base, Start(p, s.cur), s.cur, Limit(p, s.cur), h, s.hash[h], s.trees[h]);
    hide Rep, Sound, InWindow, Covers, OfBucket, Planted, Limit, Start;
  }

  // ---------- one position ----------

  /** The tree of the bucket, with the new position at its top. */
  ghost function Grown(p: Setup, tr: Tree, c: nat, len: nat): Tree
    requires Sound(p.t, tr, len) && c + len <= |p.t|
  {
    var s := Split(p.t, tr, c, len, Turns(p.cut));
    Node(s.0, c, s.1)
  }

  /** After the search at s.cur, before the move. */
  ghost function AfterSearch(p: Setup, s: State): (r: State)
    requires Live(p, s)
    ensures |r.hash| == BUCKETS == |r.trees| && |r.son| == 2 * p.w
    ensures r.pos == s.pos && r.cur == s.cur && r.cyc == s.cyc && r.base == s.base
  {
    LiveParts(p, s);
    var h := HashAt(p, s.cur);
    BucketAt(p, s, h);
    var len, tr := Limit(p, s.cur), s.trees[h];
    State(s.hash[h := s.pos], Searched(p.t, s.son, p.w, s.base, s.cur, len, tr, p.cut), s.pos, s.cur, s.cyc, s.base,
          s.trees[h := Grown(p, tr, s.cur, len)], s.complete && Steps(p.t, tr, s.cur, len) <= Turns(p.cut))
  }

  /** The window with the new position fits into the array. */
  lemma {:induction false} WindowFits(p: Setup, c: nat)
    requires 2 <= p.w
    ensures Start(p, c) <= c && c + 1 <= Start(p, c) + p.w
    ensures Start(p, c) <= Start(p, c + 1)
  {
  }

  /** The bucket of the new position. */
  lemma {:induction false} GrownBucket(p: Setup, son: seq<int>, base: int, pos: int, lo: nat, c: nat, len: nat, h: nat,
                                       r: int, tr: Tree)
    requires Bucket(p, son, base, lo, c, len, h, r, tr)
    requires base < lo <= c && c + 1 <= lo + p.w && c + len <= |p.t| && p.n <= len && pos + base == c
    requires Fine(p) && c + p.n <= |p.t| && HashAt(p, c) == h && Sound(p.t, tr, len) && p.w > 0 && |son| == 2 * p.w
    ensures Bucket(p, Searched(p.t, son, p.w, base, c, len, tr, p.cut), base, lo, c + 1, len, h, pos,
      Grown(p, tr, c, len))
  {
    hide *;
    BucketParts(p, son, base, lo, c, len, h, r, tr);
    var cut := Turns(p.cut);
    SearchStart(p.t, son, p.w, base, lo, c, len, r, tr, 0);
    WalkSplits(p.t, son, p.w, base, lo, c, len, r, tr, cut, 2 * Place(c, p.w) + 1, 2 * Place(c, p.w));
    GrownRep(p, son, base, pos, lo, c, len, r, tr);
    GrownSound(p, tr, lo, c, len, h);
    BucketIntro(p, Searched(p.t, son, p.w, base, c, len, tr, p.cut), base, lo, c + 1, len, h, pos,
      Grown(p, tr, c, len));
  }

  lemma {:induction false} GrownRep(p: Setup, son: seq<int>, base: int, pos: int, lo: nat, c: nat, len: nat, r: int,
                                    tr: Tree)
    requires base < lo <= c && c + len <= |p.t| && pos + base == c
    requires Sound(p.t, tr, len) && p.w > 0 && |son| == 2 * p.w
    requires (var h0, h1 := 2 * Place(c, p.w) + 1, 2 * Place(c, p.w);
      Walked(p.t, son, Walk(p.t, son, p.w, base, c, len, tr, Turns(p.cut), h0, h1), p.w, base, lo, c, len, tr,
        Turns(p.cut), h0, h1))
    ensures Rep(Searched(p.t, son, p.w, base, c, len, tr, p.cut), p.w, base, lo, pos, Grown(p, tr, c, len))
  {
    hide Walk, Split, Sound, Place, Turns, Free;
  }

  lemma {:induction false} GrownSound(p: Setup, tr: Tree, lo: nat, c: nat, len: nat, h: nat)
    requires Sound(p.t, tr, len) && InWindow(Refs(tr), lo, c) && OfBucket(p, Refs(tr), h) && lo <= c && c + len <= |p.t|
    requires Fine(p) && c + p.n <= |p.t| && HashAt(p, c) == h
    ensures Sound(p.t, Grown(p, tr, c, len), len)
    ensures InWindow(Refs(Grown(p, tr, c, len)), lo, c + 1) && OfBucket(p, Refs(Grown(p, tr, c, len)), h)
  {
    hide *;
    var s := Split(p.t, tr, c, len, Turns(p.cut));
    WiderWindow(Refs(tr), lo, c);
    InWindowNewer(Refs(tr), lo, c);
    InsertSound(p.t, tr, c, len, Turns(p.cut));
    SplitSound(p.t, tr, c, len, Turns(p.cut));
    GrownRefs(p, tr, c, len);
    JoinWindow(p, Refs(tr), Refs(s.0), Refs(s.1), lo, c, h);
  }

  lemma {:induction false} InWindowNewer(s: set<nat>, lo: nat, c: nat)
    requires InWindow(s, lo, c)
    ensures Newer(s, c)
  {
  }

  lemma {:induction false} GrownRefs(p: Setup, tr: Tree, c: nat, len: nat)
    requires Sound(p.t, tr, len) && c + len <= |p.t|
    ensures (var s := Split(p.t, tr, c, len, Turns(p.cut));
      Grown(p, tr, c, len) == Node(s.0, c, s.1) && Refs(Grown(p, tr, c, len)) == Refs(s.0) + {c} + Refs(s.1))
  {
    hide Sound, Split, Turns;
  }

  lemma {:induction false} JoinWindow(p: Setup, s: set<nat>, l: set<nat>, r: set<nat>, lo: nat, c: nat, h: nat)
    requires l <= s && r <= s && InWindow(s, lo, c) && OfBucket(p, s, h) && lo <= c
    requires Fine(p) && c + p.n <= |p.t| && HashAt(p, c) == h
    ensures InWindow(l + {c} + r, lo, c + 1) && OfBucket(p, l + {c} + r, h)
  {
    hide HashAt;
  }

  /** Another bucket. */
  lemma {:induction false} OtherBucket(p: Setup, son: seq<int>, base: int, lo: nat, c: nat, len: nat, h: nat, r: int,
                                       tr: Tree, h': nat, r': int, tr': Tree)
    requires Bucket(p, son, base, lo, c, len, h, r, tr) && Bucket(p, son, base, lo, c, len, h', r', tr') && h != h'
    requires base < lo <= c && c + 1 <= lo + p.w && c + len <= |p.t|
    requires Sound(p.t, tr, len) && p.w > 0 && |son| == 2 * p.w && len > 0
    ensures Bucket(p, Searched(p.t, son, p.w, base, c, len, tr, p.cut), base, lo, c + 1, len, h', r', tr')
  {
    hide *;
    BucketParts(p, son, base, lo, c, len, h, r, tr);
    BucketParts(p, son, base, lo, c, len, h', r', tr');
    var h0, h1 := 2 * Place(c, p.w) + 1, 2 * Place(c, p.w);
    var cut := Turns(p.cut);
    var son' := Searched(p.t, son, p.w, base, c, len, tr, p.cut);
    SearchStart(p.t, son, p.w, base, lo, c, len, r, tr, 0);
    WalkSplits(p.t, son, p.w, base, lo, c, len, r, tr, cut, h0, h1);
    WiderWindow(Refs(tr'), lo, c);
    OthersFree(c, Refs(tr'), p.w, lo, c + 1);
    HashesDiffer(p, Refs(tr), Refs(tr'), h, h');
    forall i: nat | i < 2 * p.w && !Free(i, Refs(tr'), p.w)
      ensures son'[i] == son[i]
    {
      DisjointFree(i, Refs(tr'), Refs(tr), p.w, lo, c);
      SearchedAt(p, son, base, lo, c, len, tr, i);
    }
    RepFrame(son, son', p.w, base, lo, r', tr');
    BucketIntro(p, son', base, lo, c + 1, len, h', r', tr');
  }

  lemma {:induction false} SearchedAt(p: Setup, son: seq<int>, base: int, lo: nat, c: nat, len: nat, tr: Tree, i: nat)
    requires Sound(p.t, tr, len) && p.w > 0 && |son| == 2 * p.w && c + len <= |p.t|
    requires (var h0, h1 := 2 * Place(c, p.w) + 1, 2 * Place(c, p.w);
      Walked(p.t, son, Walk(p.t, son, p.w, base, c, len, tr, Turns(p.cut), h0, h1), p.w, base, lo, c, len, tr,
        Turns(p.cut), h0, h1))
    requires i < 2 * p.w && Free(i, Refs(tr), p.w) && i != 2 * Place(c, p.w) + 1 && i != 2 * Place(c, p.w)
    ensures Searched(p.t, son, p.w, base, c, len, tr, p.cut)[i] == son[i]
  {
    hide Walk, Split, Sound, Place, Turns, Free, Rep;
  }

  lemma {:induction false} WiderWindow(s: set<nat>, lo: nat, c: nat)
    requires InWindow(s, lo, c)
    ensures InWindow(s, lo, c + 1) && c !in s
  {
  }

  lemma {:induction false} HashesDiffer(p: Setup, s: set<nat>, s': set<nat>, h: nat, h': nat)
    requires OfBucket(p, s, h) && OfBucket(p, s', h') && h != h'
    ensures s' !! s
  {
    hide HashAt;
  }

  /** After the search every bucket is there, with the new position in one of them. */
  lemma {:induction false} SearchPlants(p: Setup, s: State)
    requires Live(p, s)
    ensures Planted(p, AfterSearch(p, s), Start(p, s.cur), s.cur + 1, Limit(p, s.cur))
  {
    hide *;
    LiveParts(p, s);
    var h, lo, c, len := HashAt(p, s.cur), Start(p, s.cur), s.cur, Limit(p, s.cur);
    BucketAt(p, s, h);
    WindowFits(p, c);
    LowestAbove(s.base, c, p.w);
    var r := AfterSearch(p, s);
    AfterSearchIs(p, s);
    forall h': nat | h' < BUCKETS
      ensures Bucket(p, r.son, r.base, lo, c + 1, len, h', r.hash[h'], r.trees[h'])
    {
      if h' == h {
        GrownBucket(p, s.son, s.base, s.pos, lo, c, len, h, s.hash[h], s.trees[h]);
      } else {
        BucketAt(p, s, h');
        OtherBucket(p, s.son, s.base, lo, c, len, h, s.hash[h], s.trees[h], h', s.hash[h'], s.trees[h']);
      }
    }
    PlantedIntro(p, r, lo, c + 1, len);
  }

  lemma {:induction false} PlantedIntro(p: Setup, s: State, lo: nat, c: nat, len: nat)
    requires |s.hash| == BUCKETS == |s.trees|
    requires forall h: nat | h < BUCKETS :: Bucket(p, s.son, s.base, lo, c, len, h, s.hash[h], s.trees[h])
    ensures Planted(p, s, lo, c, len)
  {
    hide Bucket;
  }

  lemma {:induction false} LowestAbove(base: int, c: nat, w: nat)
    ensures base < Lowest(base, c, w)
  {
  }

  lemma {:induction false} AfterSearchIs(p: Setup, s: State)
    requires Live(p, s)
    ensures Fine(p) && s.cur + p.n <= |p.t| && |s.hash| == BUCKETS == |s.trees| && |s.son| == 2 * p.w && p.w > 0
    ensures s.cur + Limit(p, s.cur) <= |p.t|
    ensures (var h, len := HashAt(p, s.cur), Limit(p, s.cur);
      var r := AfterSearch(p, s);
      && Sound(p.t, s.trees[h], len)
      && r.base == s.base
      && r.hash[h] == s.pos && (forall k: nat | k < BUCKETS && k != h :: r.hash[k] == s.hash[k])
      && r.son == Searched(p.t, s.son, p.w, s.base, s.cur, len, s.trees[h], p.cut)
      && r.trees[h] == Grown(p, s.trees[h], s.cur, len)
        && (forall k: nat | k < BUCKETS && k != h :: r.trees[k] == s.trees[k])
      && (r.complete <==> s.complete && Steps(p.t, s.trees[h], s.cur, len) <= Turns(p.cut)))
  {
    LiveParts(p, s);
    BucketAt(p, s, HashAt(p, s.cur));
    hide Live, Limit, HashAt, Sound, Grown, Searched, Steps, Turns;
  }

  // ---------- nothing is missed ----------

  /** The window, as a set. */
  ghost function Window(lo: nat, c: nat): (r: set<nat>)
    requires lo <= c
    ensures |r| == c - lo && forall x: nat :: x in r <==> lo <= x < c
  {
    if lo == c then {} else {c - 1} + Window(lo, c - 1)
  }

  lemma {:induction false} HasAt(p: Setup, trees: seq<Tree>, lo: nat, c: nat, len: nat, x: nat)
    requires Covers(p, trees, lo, c, len) && lo <= x < c
    ensures Fine(p) && |trees| == BUCKETS && x + p.n <= |p.t| && Has(p.t, Refs(trees[HashAt(p, x)]), x, len)
  {
    hide Has, HashAt;
  }

  lemma {:induction false} CoversIntro(p: Setup, trees: seq<Tree>, lo: nat, c: nat, len: nat)
    requires Fine(p) && |trees| == BUCKETS && c + p.n <= |p.t| + 1
    requires forall x: nat | lo <= x < c :: Has(p.t, Refs(trees[HashAt(p, x)]), x, len)
    ensures Covers(p, trees, lo, c, len)
  {
    hide Has, HashAt;
  }

  lemma {:induction false} LengthTriangle(t: seq<Byte>, x: nat, y: nat, c: nat, n: nat)
    requires x + n <= |t| && y + n <= |t| && c + n <= |t| && Length(t, y, x, n) == n
    ensures Length(t, y, c, n) == Length(t, x, c, n) && Length(t, c, y, n) == Length(t, c, x, n)
  {
    var u, v, w := At(t, x, n), At(t, y, n), At(t, c, n);
    assert u == v;
  }

  lemma {:induction false} LengthSelf(t: seq<Byte>, x: nat, n: nat)
    requires x + n <= |t|
    ensures Length(t, x, x, n) == n
  {
    LcpIs(At(t, x, n), At(t, x, n), n);
  }

  lemma {:induction false} LengthSymmetric(t: seq<Byte>, x: nat, y: nat, n: nat)
    requires x + n <= |t| && y + n <= |t|
    ensures Length(t, x, y, n) == Length(t, y, x, n)
  {
    LcpSymmetric(At(t, x, n), At(t, y, n));
  }

  lemma {:induction false} LengthShorter(t: seq<Byte>, x: nat, y: nat, n: nat, n': nat)
    requires x + n <= |t| && y + n <= |t| && n' <= n
    ensures Length(t, x, y, n') == if Length(t, x, y, n) < n' then Length(t, x, y, n) else n'
  {
    LcpShorter(At(t, x, n), At(t, y, n), n');
    AtShorter(t, x, n, n');
    AtShorter(t, y, n, n');
  }

  /** Where the tree had x, or one like it, it still has, or c is the one. */
  lemma {:induction false} GrownHas(p: Setup, tr: Tree, c: nat, len: nat, x: nat)
    requires Sound(p.t, tr, len) && c + len <= |p.t| && x <= c && Steps(p.t, tr, c, len) <= Turns(p.cut)
    requires x == c || Has(p.t, Refs(tr), x, len)
    ensures Has(p.t, Refs(Grown(p, tr, c, len)), x, len)
  {
    hide Length, Split, Sound, Steps, Turns;
    if x == c {
      LengthSelf(p.t, c, len);
      assert c in Refs(Grown(p, tr, c, len));
    } else {
      var y :| y in Refs(tr) && y >= x && y + len <= |p.t| && x + len <= |p.t| && Length(p.t, y, x, len) == len;
      SplitKeeps(p.t, tr, c, len, Turns(p.cut), y);
      if y !in Refs(Grown(p, tr, c, len)) {
        LengthTriangle(p.t, x, y, c, len);
        LengthSymmetric(p.t, x, c, len);
        assert c in Refs(Grown(p, tr, c, len));
      }
    }
  }

  lemma {:induction false} SearchCovers(p: Setup, s: State)
    requires Live(p, s) && AfterSearch(p, s).complete
    ensures Covers(p, AfterSearch(p, s).trees, Start(p, s.cur), s.cur + 1, Limit(p, s.cur))
  {
    hide *;
    LiveParts(p, s);
    var h, lo, c, len := HashAt(p, s.cur), Start(p, s.cur), s.cur, Limit(p, s.cur);
    var r := AfterSearch(p, s);
    AfterSearchIs(p, s);
    forall x: nat | lo <= x < c + 1
      ensures Has(p.t, Refs(r.trees[HashAt(p, x)]), x, len)
    {
      if x < c {
        HasAt(p, s.trees, lo, c, len, x);
      }
      if HashAt(p, x) == h {
        GrownHas(p, s.trees[h], c, len, x);
      }
    }
    CoversIntro(p, r.trees, lo, c + 1, len);
  }

  // ---------- the move ----------

  ghost function Trimmed(trees: seq<Tree>, lo: int): (r: seq<Tree>)
    ensures |r| == |trees| && forall h | 0 <= h < |r| :: r[h] == Trim(trees[h], lo)
  {
    seq(|trees|, h requires 0 <= h < |trees| => Trim(trees[h], lo))
  }

  ghost function Reduced(refs: seq<int>, sub: nat): (r: seq<int>)
    ensures |r| == |refs| && forall i | 0 <= i < |r| :: r[i] == Reduce(refs[i], sub)
  {
    seq(|refs|, i requires 0 <= i < |refs| => Reduce(refs[i], sub))
  }

  /** MOVE_POS, with the checks at its end (LzFind.c:1091-1096, 831-873): the position and the
      place in the cyclic array count on, and references are reduced when the position wraps. */
  ghost function Moved(p: Setup, s: State): (r: State)
    requires 2 <= p.w < 0x1_0000_0000
  {
    var pos1 := if s.pos == 0xFFFF_FFFF then 0 else s.pos + 1;
    var cyc := if s.cyc + 1 == p.w then 0 else s.cyc + 1;
    var trees := Trimmed(s.trees, Start(p, s.cur + 1));
    if pos1 == 0 && s.cur + 1 + p.n <= |p.t| then
      var sub := 0x1_0000_0000 - p.w;
      State(Reduced(s.hash, sub), Reduced(s.son, sub), p.w, s.cur + 1, cyc, s.base + sub, trees, s.complete)
    else
      State(s.hash, s.son, pos1, s.cur + 1, cyc, s.base, trees, s.complete)
  }

  lemma {:induction false} PlaceNext(c: nat, w: nat)
    requires 2 <= w
    ensures Place(c + 1, w) == if Place(c, w) + 1 == w then 0 else Place(c, w) + 1
  {
    var q, r := (c + 1) / w, (c + 1) % w;
    assert c + 1 == w * q + r;
    if r + 1 == w {
      assert (q + 1) * w == w * q + w;
      Arith.DivModUnique(c + 2, w, q + 1, 0);
    } else {
      Arith.DivModUnique(c + 2, w, q, r + 1);
    }
  }

  lemma {:induction false} TrimBucket(p: Setup, son: seq<int>, base: int, lo: nat, lo': nat, c: nat, len: nat,
                                      len': nat, h: nat, r: int, tr: Tree)
    requires Bucket(p, son, base, lo, c, len, h, r, tr) && lo <= lo' && len' <= len
    ensures Bucket(p, son, base, lo', c, len', h, r, Trim(tr, lo'))
  {
    hide *;
    BucketParts(p, son, base, lo, c, len, h, r, tr);
    RepTrim(p.t, son, p.w, base, lo, lo', r, tr, len);
    SoundShorter(p.t, tr, len, len');
    TrimSound(p.t, tr, len', lo');
    FewerInBucket(p, Refs(tr), Refs(Trim(tr, lo')), lo, lo', c, h);
    BucketIntro(p, son, base, lo', c, len', h, r, Trim(tr, lo'));
  }

  lemma {:induction false} FewerInBucket(p: Setup, s: set<nat>, s': set<nat>, lo: nat, lo': nat, c: nat, h: nat)
    requires InWindow(s, lo, c) && OfBucket(p, s, h) && forall x :: x in s' <==> x in s && x >= lo'
    ensures InWindow(s', lo', c) && OfBucket(p, s', h)
  {
    hide HashAt;
  }

  lemma {:induction false} ReduceBucket(p: Setup, son: seq<int>, base: int, sub: nat, lo: nat, c: nat, len: nat, h: nat,
                                        r: int, tr: Tree)
    requires Bucket(p, son, base, lo, c, len, h, r, tr) && base + sub < lo
    ensures Bucket(p, Reduced(son, sub), base + sub, lo, c, len, h, Reduce(r, sub), tr)
  {
    hide *;
    BucketParts(p, son, base, lo, c, len, h, r, tr);
    RepReduce(son, Reduced(son, sub), p.w, base, lo, sub, r, tr);
    BucketIntro(p, Reduced(son, sub), base + sub, lo, c, len, h, Reduce(r, sub), tr);
  }

  lemma {:induction false} TrimCovers(p: Setup, trees: seq<Tree>, lo: nat, lo': nat, c: nat, len: nat, len': nat)
    requires Covers(p, trees, lo, c, len) && lo <= lo' && len' <= len
    requires |trees| == BUCKETS && forall h: nat | h < BUCKETS :: Sound(p.t, trees[h], len)
    ensures Covers(p, Trimmed(trees, lo'), lo', c, len')
  {
    CoversParts(p, trees, lo, c, len);
    hide *;
    var trees' := Trimmed(trees, lo');
    forall x: nat | lo' <= x < c
      ensures Has(p.t, Refs(trees'[HashAt(p, x)]), x, len')
    {
      HasAt(p, trees, lo, c, len, x);
      var tr := trees[HashAt(p, x)];
      TrimSound(p.t, tr, len, lo');
      FewerHas(p.t, Refs(tr), Refs(Trim(tr, lo')), lo', x, len, len');
    }
    CoversIntro(p, trees', lo', c, len');
  }

  lemma {:induction false} CoversParts(p: Setup, trees: seq<Tree>, lo: nat, c: nat, len: nat)
    requires Covers(p, trees, lo, c, len)
    ensures Fine(p) && |trees| == BUCKETS && c + p.n <= |p.t| + 1
  {
    hide Has;
  }

  lemma {:induction false} FewerHas(t: seq<Byte>, s: set<nat>, s': set<nat>, lo': nat, x: nat, len: nat, len': nat)
    requires Has(t, s, x, len) && x >= lo' && len' <= len && forall y :: y in s' <==> y in s && y >= lo'
    ensures Has(t, s', x, len')
  {
    var y :| y in s && y >= x && y + len <= |t| && x + len <= |t| && Length(t, y, x, len) == len;
    LengthShorter(t, y, x, len, len');
    hide Length;
  }

  /** What the move needs of the trees: as after a search. */
  ghost predicate Ready(p: Setup, s: State) {
    && Fine(p) && Active(p, s.cur + 1) && Based(p, s.pos, s.cur, s.base) && |s.son| == 2 * p.w
    && Planted(p, s, Start(p, s.cur), s.cur + 1, Limit(p, s.cur))
    && (s.complete ==> Covers(p, s.trees, Start(p, s.cur), s.cur + 1, Limit(p, s.cur)))
  }

  lemma {:induction false} ReadyParts(p: Setup, s: State)
    requires Ready(p, s)
    ensures Fine(p) && 2 <= p.w < 0x1_0000_0000 && s.cur + 1 + p.n <= |p.t| && Based(p, s.pos, s.cur, s.base)
    ensures |s.hash| == BUCKETS == |s.trees| && |s.son| == 2 * p.w
    ensures Planted(p, s, Start(p, s.cur), s.cur + 1, Limit(p, s.cur))
    ensures s.complete ==> Covers(p, s.trees, Start(p, s.cur), s.cur + 1, Limit(p, s.cur))
  {
    hide Based, Bucket, Covers;
  }

  lemma {:induction false} LimitFalls(p: Setup, c: nat)
    requires c + 1 <= |p.t|
    ensures Limit(p, c + 1) <= Limit(p, c)
  {
  }

  /** The move as it changes the trees: the window moves on. */
  lemma {:induction false} MovedTrees(p: Setup, s: State)
    requires Ready(p, s)
    ensures s.cur + 1 <= |p.t|
    ensures Planted(p, s.(trees := Trimmed(s.trees, Start(p, s.cur + 1))), Start(p, s.cur + 1), s.cur + 1,
      Limit(p, s.cur + 1))
    ensures s.complete ==>
              Covers(p, Trimmed(s.trees, Start(p, s.cur + 1)), Start(p, s.cur + 1), s.cur + 1, Limit(p, s.cur + 1))
  {
    hide *;
    ReadyParts(p, s);
    WindowFits(p, s.cur);
    LimitFalls(p, s.cur);
    var lo, lo', len, len' := Start(p, s.cur), Start(p, s.cur + 1), Limit(p, s.cur), Limit(p, s.cur + 1);
    var s' := s.(trees := Trimmed(s.trees, lo'));
    forall h: nat | h < BUCKETS
      ensures Bucket(p, s'.son, s'.base, lo', s.cur + 1, len', h, s'.hash[h], s'.trees[h])
      ensures Sound(p.t, s.trees[h], len)
    {
      PlantedAt(p, s, lo, s.cur + 1, len, h);
      BucketParts(p, s.son, s.base, lo, s.cur + 1, len, h, s.hash[h], s.trees[h]);
      TrimBucket(p, s.son, s.base, lo, lo', s.cur + 1, len, len', h, s.hash[h], s.trees[h]);
    }
    PlantedIntro(p, s', lo', s.cur + 1, len');
    if s.complete {
      TrimCovers(p, s.trees, lo, lo', s.cur + 1, len, len');
    }
  }

  /** The reduction of all references changes no tree. */
  lemma {:induction false} ReducedTrees(p: Setup, s: State, s': State, lo: nat, c: nat, len: nat, sub: nat)
    requires Planted(p, s, lo, c, len) && s.base + sub < lo
    requires s'.hash == Reduced(s.hash, sub) && s'.son == Reduced(s.son, sub) && s'.base == s.base + sub
      && s'.trees == s.trees
    ensures Planted(p, s', lo, c, len)
  {
    hide *;
    PlantedSizes(p, s, lo, c, len);
    forall h: nat | h < BUCKETS
      ensures Bucket(p, s'.son, s'.base, lo, c, len, h, s'.hash[h], s'.trees[h])
    {
      PlantedAt(p, s, lo, c, len, h);
      ReduceBucket(p, s.son, s.base, sub, lo, c, len, h, s.hash[h], s.trees[h]);
    }
    PlantedIntro(p, s', lo, c, len);
  }

  /** Positions still count from the base, also when the position has wrapped round. */
  lemma {:induction false} MovedBase(p: Setup, s: State)
    requires Ready(p, s)
    ensures (var m := Moved(p, s); && m.cur == s.cur + 1 && Based(p, m.pos, m.cur, m.base))
    ensures s.pos == 0xFFFF_FFFF ==> s.base + (0x1_0000_0000 - p.w) < Start(p, s.cur + 1)
  {
    ReadyParts(p, s);
    hide Planted, Covers, Reduced, Trimmed, Ready;
  }

  lemma {:induction false} MovedIs(p: Setup, s: State)
    requires Ready(p, s)
    ensures (var m, sub, lo := Moved(p, s), 0x1_0000_0000 - p.w, Start(p, s.cur + 1);
      && sub >= 0 && m.trees == Trimmed(s.trees, lo) && m.complete == s.complete
      && (if s.pos == 0xFFFF_FFFF
          then m.hash == Reduced(s.hash, sub) && m.son == Reduced(s.son, sub) && m.base == s.base + sub
          else m.hash == s.hash && m.son == s.son && m.base == s.base))
  {
    ReadyParts(p, s);
    hide Planted, Covers, Reduced, Trimmed, Ready, Based, Fine, Start, Bucket, Active, Turns;
  }

  lemma {:induction false} PlantedSame(p: Setup, s: State, s': State, lo: nat, c: nat, len: nat)
    requires Planted(p, s, lo, c, len)
    requires s'.hash == s.hash && s'.son == s.son && s'.base == s.base && s'.trees == s.trees
    ensures Planted(p, s', lo, c, len)
  {
    hide Bucket;
  }

  /** After the move the next search finds everything in place. */
  lemma {:induction false} MoveLive(p: Setup, s: State)
    requires Ready(p, s) && (p.w - 1 <= Turns(p.cut) ==> s.complete)
    ensures Live(p, Moved(p, s))
  {
    hide *;
    ReadyParts(p, s);
    MovedTrees(p, s);
    MovedBase(p, s);
    MovedIs(p, s);
    var m, lo', len' := Moved(p, s), Start(p, s.cur + 1), Limit(p, s.cur + 1);
    var s' := s.(trees := Trimmed(s.trees, lo'));
    if s.pos == 0xFFFF_FFFF {
      ReducedTrees(p, s', m, lo', s.cur + 1, len', 0x1_0000_0000 - p.w);
    } else {
      PlantedSame(p, s', m, lo', s.cur + 1, len');
    }
    ReadyActive(p, s);
    LiveIntro(p, m);
  }

  lemma {:induction false} ReadyActive(p: Setup, s: State)
    requires Ready(p, s)
    ensures Active(p, s.cur + 1)
  {
  }

  lemma {:induction false} LiveIntro(p: Setup, s: State)
    requires Fine(p) && Active(p, s.cur) && s.cur <= |p.t| && Based(p, s.pos, s.cur, s.base)
    requires Planted(p, s, Start(p, s.cur), s.cur, Limit(p, s.cur))
    requires s.complete ==> Covers(p, s.trees, Start(p, s.cur), s.cur, Limit(p, s.cur))
    requires p.w - 1 <= Turns(p.cut) ==> s.complete
    ensures Live(p, s)
  {
    hide Fine, Based, Planted, Covers, Turns;
  }

  // ---------- cut values that cut nothing ----------

  lemma {:induction false} SubsetSize(s: set<nat>, s': set<nat>)
    requires s <= s'
    ensures |s| <= |s'|
  {
    if s != {} {
      var x :| x in s;
      SubsetSize(s - {x}, s' - {x});
    }
  }

  /** A way has no more nodes than the window has positions, and those are less than w. */
  lemma {:induction false} NoCut(p: Setup, tr: Tree, c: nat, len: nat)
    requires 2 <= p.w && Sound(p.t, tr, len) && c + len <= |p.t| && InWindow(Refs(tr), Start(p, c), c)
    ensures Steps(p.t, tr, c, len) <= p.w - 1
  {
    WindowFits(p, c);
    StepsBound(p.t, tr, c, len);
    SubsetSize(Refs(tr), Window(Start(p, c), c));
    hide Steps, Sound, Start;
  }

  lemma {:induction false} SearchReady(p: Setup, s: State)
    requires Live(p, s) && Active(p, s.cur + 1)
    ensures Ready(p, AfterSearch(p, s)) && (p.w - 1 <= Turns(p.cut) ==> AfterSearch(p, s).complete)
  {
    hide *;
    LiveParts(p, s);
    SearchPlants(p, s);
    var h, len := HashAt(p, s.cur), Limit(p, s.cur);
    BucketAt(p, s, h);
    BucketParts(p, s.son, s.base, Start(p, s.cur), s.cur, len, h, s.hash[h], s.trees[h]);
    NoCut(p, s.trees[h], s.cur, len);
    AfterSearchIs(p, s);
    if AfterSearch(p, s).complete {
      SearchCovers(p, s);
    }
    ReadyIntro(p, AfterSearch(p, s));
  }

  lemma {:induction false} ReadyIntro(p: Setup, s: State)
    requires Fine(p) && Active(p, s.cur + 1) && Based(p, s.pos, s.cur, s.base) && |s.son| == 2 * p.w && s.cur <= |p.t|
    requires Planted(p, s, Start(p, s.cur), s.cur + 1, Limit(p, s.cur))
    requires s.complete ==> Covers(p, s.trees, Start(p, s.cur), s.cur + 1, Limit(p, s.cur))
    ensures Ready(p, s)
  {
    hide Based, Planted, Covers;
  }

  // ---------- runs ----------

  /** What one position does, with or without reporting. */
  ghost function Next(p: Setup, s: State): (r: State)
    requires Inv(p, s) && s.cur < |p.t|
    ensures r.cur == s.cur + 1 && Inv(p, r)
  {
    InvParts(p, s);
    NextInv(p, s);
    Moved(p, if Active(p, s.cur) then AfterSearch(p, s) else s)
  }

  lemma {:induction false} InvParts(p: Setup, s: State)
    requires Inv(p, s)
    ensures Fine(p) && 2 <= p.w < 0x1_0000_0000 && s.cur <= |p.t| && s.cyc == Place(s.cur, p.w)
      && 0 <= s.pos < 0x1_0000_0000
    ensures |s.hash| == BUCKETS && |s.son| == 2 * p.w && |s.trees| == BUCKETS
    ensures Active(p, s.cur) ==> Live(p, s)
  {
    hide Live, Active, Place;
  }

  lemma {:induction false} NextInv(p: Setup, s: State)
    requires Inv(p, s) && s.cur < |p.t|
    ensures (var r := Moved(p, if Active(p, s.cur) then AfterSearch(p, s) else s); r.cur == s.cur + 1 && Inv(p, r))
  {
    hide *;
    InvParts(p, s);
    var a := if Active(p, s.cur) then AfterSearch(p, s) else s;
    PlaceNext(s.cur, p.w);
    if Active(p, s.cur + 1) {
      ActiveBefore(p, s.cur);
      SearchReady(p, s);
      MoveLive(p, a);
    }
    MovedInv(p, a);
  }

  lemma {:induction false} ActiveBefore(p: Setup, c: nat)
    requires Active(p, c + 1)
    ensures Active(p, c)
  {
  }

  lemma {:induction false} MovedInv(p: Setup, a: State)
    requires Fine(p) && 2 <= p.w < 0x1_0000_0000 && a.cur < |p.t| && a.cyc == Place(a.cur, p.w)
      && 0 <= a.pos < 0x1_0000_0000
    requires |a.hash| == BUCKETS && |a.son| == 2 * p.w && |a.trees| == BUCKETS
    requires Place(a.cur + 1, p.w) == if Place(a.cur, p.w) + 1 == p.w then 0 else Place(a.cur, p.w) + 1
    requires Active(p, a.cur + 1) ==> Live(p, Moved(p, a))
    ensures Moved(p, a).cur == a.cur + 1 && Inv(p, Moved(p, a))
  {
    hide Live, Active, Place, Fine, Trimmed, Reduced, Start;
  }

  /** What num positions do. */
  ghost function Run(p: Setup, s: State, num: nat): (r: State)
    requires Inv(p, s) && s.cur + num <= |p.t|
    ensures r.cur == s.cur + num && Inv(p, r)
    decreases num
  {
    hide Inv, Next;
    if num == 0 then s else Run(p, Next(p, s), num - 1)
  }
}
