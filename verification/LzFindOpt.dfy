/** GetMatchesSpecN_2 (LzFindOpt.c:223-400): many positions in one call, from hash heads that are
    already known, with a short way for long repeats. */
module LzFindOpt {
  import opened Machine
  import opened LzTree
  import opened LzSon
  import opened LzSearch
  import opened LzForest
  import opened LzMatches
  import opened LzWindow

  // ---------- what the call is to leave ----------

  /** The words for one position: how many follow, then the pairs. */
  function Entry(ms: seq<Match>): seq<nat> {
    [2 * |ms|] + Pairs(ms)
  }

  function Pairs(ms: seq<Match>): seq<nat> {
    if ms == [] then [] else Pairs(ms[..|ms| - 1]) + [ms[|ms| - 1].len, ms[|ms| - 1].dist]
  }

  /** The matches that one call for the position alone reports. */
  ghost function MatchesAt(p: Setup, s: State): seq<Match>
    requires Inv(p, s) && s.cur <= |p.t|
  {
    ReportedReal(p, s);
    MatchesOf(Reported(p, s), s.cur)
  }

  /** They are true, and with a cut value that cuts nothing they are all there are. */
  lemma {:induction false} MatchesTrue(p: Setup, s: State)
    requires Inv(p, s) && s.cur <= |p.t|
    ensures TrueMatches(p.t, s.cur, MatchesAt(p, s), p.w - 1, p.n, p.max, p.cut)
    ensures p.cut == 0 || p.cut >= p.w - 1 ==> AllMatched(p.t, s.cur, MatchesAt(p, s), p.w - 1, p.n, p.max)
  {
    hide Inv, Reported, TrueMatches, AllMatched, MatchesOf;
    ReportsTrue(p, s);
    if p.cut == 0 || p.cut >= p.w - 1 {
      ReportsAll(p, s);
    }
  }

  /** The entries of the next num positions, one after the other. */
  ghost function Entries(p: Setup, s: State, num: nat): seq<nat>
    requires Inv(p, s) && s.cur + num <= |p.t|
    decreases num
  {
    hide Inv, Next, MatchesAt;
    if num == 0 then [] else Entry(MatchesAt(p, s)) + Entries(p, Next(p, s), num - 1)
  }

  /** What a caller has to see to: every position of the batch has the full length limit, neither
      the position nor the place in the cyclic array wraps, and the heads are the distances to
      the hash entries that one call after the other would find. */
  ghost predicate Batch(p: Setup, s: State, heads: seq<Word>, len: nat)
    decreases |heads|
  {
    && Inv(p, s) && s.cur + |heads| <= |p.t| && s.pos + |heads| < 0x1_0000_0000 && s.cyc + |heads| <= p.w
    && (heads != [] ==>
          && Active(p, s.cur) && Limit(p, s.cur) == len && 0 <= HeadOf(p, s) && heads[0] == s.pos - HeadOf(p, s)
          && Batch(p, Next(p, s), heads[1..], len))
  }

  /** The hash entry at s.cur. */
  ghost function HeadOf(p: Setup, s: State): int
    requires Inv(p, s) && Active(p, s.cur)
  {
    InvParts(p, s);
    s.hash[HashAt(p, s.cur)]
  }

  lemma {:induction false} BatchParts(p: Setup, s: State, heads: seq<Word>, len: nat)
    requires Batch(p, s, heads, len)
    ensures Inv(p, s) && s.cur + |heads| <= |p.t| && s.pos + |heads| < 0x1_0000_0000 && s.cyc + |heads| <= p.w
    ensures heads != [] ==>
              && Active(p, s.cur) && Limit(p, s.cur) == len && 0 <= HeadOf(p, s) && heads[0] == s.pos - HeadOf(p, s)
              && Batch(p, Next(p, s), heads[1..], len)
  {
    hide Inv, Active, Limit, HeadOf, Next;
  }

  /** One position: the fields after the move, without wrap. */
  lemma {:induction false} NextFields(p: Setup, s: State)
    requires Inv(p, s) && Active(p, s.cur) && s.cur < |p.t| && s.pos + 1 < 0x1_0000_0000
    ensures (var r := Next(p, s);
      && Live(p, s) && r.pos == s.pos + 1 && r.cur == s.cur + 1 && r.base == s.base
      && r.cyc == (if s.cyc + 1 == p.w then 0 else s.cyc + 1) && r.son == AfterSearch(p, s).son)
  {
    NextIs(p, s);
    hide Inv, Live, Active, Next, Trimmed, Reduced;
  }

  lemma {:induction false} PairsAdd(ms: seq<Match>, m: Match)
    ensures Pairs(ms + [m]) == Pairs(ms) + [m.len, m.dist]
  {
    assert (ms + [m])[..|ms|] == ms;
  }

  /** An entry word by word. */
  lemma {:induction false} EntryAt(ms: seq<Match>, k: nat)
    requires k < |ms|
    ensures |Entry(ms)| == 1 + 2 * |ms| && Entry(ms)[0] == 2 * |ms|
    ensures Entry(ms)[1 + 2 * k] == ms[k].len && Entry(ms)[2 + 2 * k] == ms[k].dist
  {
    PairsAt(ms, k);
  }

  lemma {:induction false} PairsAt(ms: seq<Match>, k: nat)
    requires k < |ms|
    ensures |Pairs(ms)| == 2 * |ms| && Pairs(ms)[2 * k] == ms[k].len && Pairs(ms)[2 * k + 1] == ms[k].dist
  {
    PairsLength(ms);
    PairsLength(ms[..|ms| - 1]);
    if k < |ms| - 1 {
      PairsAt(ms[..|ms| - 1], k);
    }
  }

  lemma {:induction false} PairsLength(ms: seq<Match>)
    ensures |Pairs(ms)| == 2 * |ms|
  {
    if ms != [] {
      PairsLength(ms[..|ms| - 1]);
    }
  }

  // ---------- the short way ----------

  /** A repeat goes on at the next position if one more byte agrees. */
  lemma {:induction false} RepeatsOn(t: seq<Byte>, m: nat, c: nat, n: nat)
    requires Agrees(t, m, c, n) && c + 1 + n <= |t| && t[m + n] == t[c + n]
    ensures Agrees(t, m + 1, c + 1, n)
  {
    var u, v := At(t, m, n), At(t, c, n);
    var x, y := At(t, m + 1, n), At(t, c + 1, n);
    forall i | 0 <= i < n
      ensures x[i] == y[i]
    {
      if i < n - 1 {
        assert u[i + 1] == v[i + 1] && x[i] == u[i + 1] && y[i] == v[i + 1];
      } else {
        assert x[i] == t[m + n] && y[i] == t[c + n];
      }
    }
    assert x == y;
    LengthSelf(t, c + 1, n);
  }

  /** If the head is such a repeat, the search ends at the root: both children are copied and the
      only match is the repeat. */
  lemma {:induction false} ShortWay(t: seq<Byte>, son: seq<int>, w: nat, base: int, c: nat, n: nat, r: int, tr: Tree,
                                    m: nat, cutValue: Word, max: nat)
    requires Searchable(t, son, w, base, c, n, r, tr) && r + base == m >= Lowest(base, c, w) && Agrees(t, m, c, n)
      && max < n
    ensures w > 0 && |son| == 2 * w && Sound(t, tr, n) && c + n <= |t|
    ensures (var i, j := 2 * Place(m, w), 2 * Place(c, w);
      Searched(t, son, w, base, c, n, tr, cutValue) == son[j := son[i]][j + 1 := son[j := son[i]][i + 1]])
    ensures AllHits(t, c, n, tr, cutValue, max) == [Hit(n, m)]
  {
    assert tr.Node? && tr.pos == m;
    assert Turns(cutValue) >= 1;
    var i, j := 2 * Place(m, w), 2 * Place(c, w);
    PutIs(son, j, son[i]);
    PutIs(Put(son, j, son[i]), j + 1, Put(son, j, son[i])[i + 1]);
    hide Place, Length, AllBefore, AllAfter, Newer, Turns, Put, Lowest, InWindow;
  }

  /** A head that is out of the window: nothing to hang in and nothing to report. */
  lemma {:induction false} NoWay(t: seq<Byte>, son: seq<int>, w: nat, base: int, c: nat, n: nat, r: int, tr: Tree,
                                 cutValue: Word, max: nat)
    requires Searchable(t, son, w, base, c, n, r, tr) && r + base < Lowest(base, c, w)
    ensures w > 0 && |son| == 2 * w && Sound(t, tr, n) && c + n <= |t|
    ensures Searched(t, son, w, base, c, n, tr, cutValue) == son[2 * Place(c, w) + 1 := 0][2 * Place(c, w) := 0]
    ensures AllHits(t, c, n, tr, cutValue, max) == []
  {
    assert tr.Empty?;
    var j := 2 * Place(c, w);
    PutIs(son, j + 1, 0);
    PutIs(Put(son, j + 1, 0), j, 0);
    hide Place, Lowest, InWindow, Put;
  }

  // ---------- one position ----------

  /** The test against cbs. */
  lemma {:induction false} DeltaIs(base: int, c: nat, w: nat, pos: Word, cbs: int, curMatch: int)
    requires pos + base == c && cbs == if pos < w then pos else w
    ensures pos - curMatch < cbs <==> curMatch + base >= Lowest(base, c, w)
  {
  }

  /** One way through the tree, by distances (LzFindOpt.c:268-387). full: it ended at a node with
      the same string, at distance delta. */
  method SearchHead(t: seq<Byte>, lenLimit: nat, delta0: Word, pos: Word, cur: nat, son: array<Word>,
                    cyclicBufferPos: nat, w: nat, cbs: Word, cutValue: Word, maxLen0: nat, ghost base: int,
                    ghost tr: Tree)
    returns (ok: bool, d: seq<Match>, full: bool, delta: Word)
    requires delta0 <= pos && Searchable(t, son[..], w, base, cur, lenLimit, pos - delta0, tr) && maxLen0 < lenLimit
    requires son.Length == 2 * w && w > 0 && pos + base == cur && cyclicBufferPos == Place(cur, w)
    requires cbs == (if pos < w then pos else w) && delta0 < cbs
    modifies son
    ensures ok && Sound(t, tr, lenLimit) && cur + lenLimit <= |t|
    ensures son[..] == Searched(t, old(son[..]), w, base, cur, lenLimit, tr, cutValue)
    ensures (forall i | 0 <= i < |AllHits(t, cur, lenLimit, tr, cutValue, maxLen0)| ::
              AllHits(t, cur, lenLimit, tr, cutValue, maxLen0)[i].pos < cur)
    ensures d == MatchesOf(AllHits(t, cur, lenLimit, tr, cutValue, maxLen0), cur)
    ensures full ==> 0 < delta < cbs && Agrees(t, cur - delta, cur, lenLimit)
  {
    hide *;
    ghost var ps, lo := son[..], Lowest(base, cur, w);
    ghost var way := OnWayStart(t, ps, w, base, cur, lenLimit, pos - delta0, tr, cutValue, maxLen0);
    ghost var goal := Searched(t, ps, w, base, cur, lenLimit, tr, cutValue);
    ghost var all := AllHits(t, cur, lenLimit, tr, cutValue, maxLen0);
    NoMatches(cur);
    ok, d, full, delta := true, [], false, delta0;
    var maxLen := maxLen0;
    var ptr0: nat, ptr1: nat := 2 * cyclicBufferPos + 1, 2 * cyclicBufferPos;
    var len0, len1 := 0, 0;
    var cut := cutValue;
    DeltaIs(base, cur, w, pos, cbs, pos - delta);
    OnWayNode(t, ps, w, base, lo, cur, lenLimit, pos - delta, way, ptr0, ptr1, len0, len1, maxLen, goal, all);
    TurnsStep(cut);
    while true
      invariant OnWay(t, son[..], w, base, lo, cur, lenLimit, pos - delta, way, ptr0, ptr1, len0, len1, maxLen, goal,
        all)
      invariant (forall i | 0 <= i < |way.hits| :: way.hits[i].pos < cur) && d == MatchesOf(way.hits, cur)
      invariant delta < cbs && way.tr.Node? && way.cut == Turns(cut) > 0 && ok && !full
      decreases way.tr
    {
      var curMatch := pos - delta;
      var next: Word, found;
      next, ptr0, ptr1, len0, len1, maxLen, d, found, way :=
        VisitNode(t, lenLimit, curMatch, pos, cur, son, cyclicBufferPos, w, ptr0, ptr1, len0, len1, maxLen, d,
                  base, lo, way, goal, all);
      if found {
        DistanceIs(t, pos, base, curMatch, cur, lenLimit, delta);
        full := true;
        return;
      }
      if next >= curMatch {
        ok := false;
        return;
      }
      delta := pos - next;
      TurnsStep(cut);
      cut := if cut == 0 then 0xFFFF_FFFF else cut - 1;
      DeltaIs(base, cur, w, pos, cbs, next);
      OnWayNode(t, son[..], w, base, lo, cur, lenLimit, next, way, ptr0, ptr1, len0, len1, maxLen, goal, all);
      if cut == 0 || delta >= cbs {
        OnWayEnd(t, son[..], w, base, lo, cur, lenLimit, next, way, ptr0, ptr1, len0, len1, maxLen, goal, all);
        ghost var was := son[..];
        PutIs(was, ptr0, 0);
        PutIs(Put(was, ptr0, 0), ptr1, 0);
        son[ptr0] := 0;
        son[ptr1] := 0;
        return;
      }
    }
  }

  lemma {:induction false} DistanceIs(t: seq<Byte>, pos: Word, base: int, curMatch: int, c: nat, n: nat, delta: int)
    requires pos + base == c && delta == pos - curMatch && Agrees(t, curMatch + base, c, n)
    ensures 0 < delta && Agrees(t, c - delta, c, n)
  {
    hide Length;
  }

  /** A head is older than the position. */
  lemma {:induction false} HeadOlder(t: seq<Byte>, son: seq<int>, w: nat, base: int, c: nat, n: nat, r: int, tr: Tree)
    requires Searchable(t, son, w, base, c, n, r, tr)
    ensures r + base < c
  {
    assert tr.Node? ==> tr.pos in Refs(tr);
    hide Place, AllBefore, AllAfter, Newer;
  }

  /** The tree of the bucket at s.cur. */
  ghost function TreeAt(p: Setup, s: State): Tree
    requires Inv(p, s) && Active(p, s.cur)
  {
    InvParts(p, s);
    s.trees[HashAt(p, s.cur)]
  }

  /** What the search at s.cur starts from, leaves, and reports. */
  lemma {:induction false} PositionIs(p: Setup, s: State)
    requires Inv(p, s) && Active(p, s.cur) && s.cur < |p.t| && s.pos + 1 < 0x1_0000_0000
    ensures (var len, tr, r := Limit(p, s.cur), TreeAt(p, s), Next(p, s);
      && Searchable(p.t, s.son, p.w, s.base, s.cur, len, HeadOf(p, s), tr) && |s.son| == 2 * p.w && p.w > 0
      && p.n <= len && 2 <= p.n && s.cur + len <= |p.t| && Sound(p.t, tr, len)
      && s.pos + s.base == s.cur && s.cyc == Place(s.cur, p.w) && Based(p, s.pos, s.cur, s.base)
      && r.son == Searched(p.t, s.son, p.w, s.base, s.cur, len, tr, p.cut)
      && Reported(p, s) == AllHits(p.t, s.cur, len, tr, p.cut, p.n - 1)
      && (forall i | 0 <= i < |Reported(p, s)| :: Reported(p, s)[i].pos < s.cur)
      && MatchesAt(p, s) == MatchesOf(Reported(p, s), s.cur))
  {
    InvParts(p, s);
    LiveParts(p, s);
    BucketAt(p, s, HashAt(p, s.cur));
    NextFields(p, s);
    AfterSearchIs(p, s);
    ReportedIs(p, s);
    ReportedReal(p, s);
    hide Inv, Live, Limit, HashAt, Searchable, Searched, Sound, Place, Based, AllHits, Next, AfterSearch, Reported,
      Length,
      Hits, Rising, Start, Active, Grown, Steps, Turns;
  }

  /** Before the cyclic array wraps for the first time, places are positions. */
  lemma {:induction false} PlaceIsPosition(p: Setup, s: State)
    requires p.w > 0 && Based(p, s.pos, s.cur, s.base) && s.cyc == Place(s.cur, p.w) && s.pos < p.w
    ensures s.cyc == s.pos
  {
  }

  lemma {:induction false} RunAdd(p: Setup, s: State, num: nat)
    requires Inv(p, s) && s.cur + num + 1 <= |p.t|
    ensures Inv(p, Run(p, s, num)) && Run(p, s, num).cur == s.cur + num
    ensures Run(p, s, num + 1) == Next(p, Run(p, s, num))
    ensures Entries(p, s, num + 1) == Entries(p, s, num) + Entry(MatchesAt(p, Run(p, s, num)))
    decreases num
  {
    hide Inv, Next, MatchesAt, Entry;
    if num == 0 {
      RunNone(p, Next(p, s));
      RunNone(p, s);
      assert Run(p, s, 1) == Run(p, Next(p, s), 0);
      assert Entries(p, s, 1) == Entry(MatchesAt(p, s)) + Entries(p, Next(p, s), 0);
      assert Entry(MatchesAt(p, s)) + [] == [] + Entry(MatchesAt(p, s));
    } else {
      RunAdd(p, Next(p, s), num - 1);
      assert Run(p, s, num) == Run(p, Next(p, s), num - 1);
    }
  }

  /** Up to position k there was always room. */
  ghost predicate Unfilled(p: Setup, s: State, k: int, limit: nat)
    requires Inv(p, s)
  {
    forall j: nat | 1 <= j < k && s.cur + j <= |p.t| :: |Entries(p, s, j)| < limit
  }

  lemma {:induction false} NothingFilled(p: Setup, s: State, limit: nat)
    requires Inv(p, s)
    ensures Unfilled(p, s, 0, limit)
  {
    hide Inv, Entries;
  }

  lemma {:induction false} UnfilledNext(p: Setup, s: State, k: nat, limit: nat)
    requires Inv(p, s) && Unfilled(p, s, k, limit) && s.cur + k <= |p.t|
    requires k > 0 ==> |Entries(p, s, k)| < limit
    ensures Unfilled(p, s, k + 1, limit)
  {
    hide Inv, Entries;
  }

  /** Where a batch is: k positions are done, and the fields are those of the state. */
  ghost predicate Done(p: Setup, s: State, heads: seq<Word>, len: nat, k: nat, at: State, d: seq<nat>, limit: nat) {
    && Inv(p, s) && k <= |heads| && s.cur + |heads| <= |p.t|
    && at == Run(p, s, k) && d == Entries(p, s, k) && Batch(p, at, heads[k..], len) && Unfilled(p, s, k, limit)
  }

  lemma {:induction false} DoneStart(p: Setup, s: State, heads: seq<Word>, len: nat, limit: nat)
    requires Batch(p, s, heads, len)
    ensures Done(p, s, heads, len, 0, s, [], limit)
  {
    BatchParts(p, s, heads, len);
    RunNone(p, s);
    NothingFilled(p, s, limit);
    assert heads[0..] == heads;
    hide Batch, Inv, Run, Unfilled;
  }

  /** The next position of a batch. */
  lemma {:induction false} DoneNext(p: Setup, s: State, heads: seq<Word>, len: nat, k: nat, at: State, d: seq<nat>,
                                    limit: nat)
    requires Done(p, s, heads, len, k, at, d, limit) && k < |heads|
    ensures Inv(p, at) && at.cur < |p.t| && Active(p, at.cur) && Limit(p, at.cur) == len && at.pos + 1 < 0x1_0000_0000
    ensures at.cyc + (|heads| - k) <= p.w && 0 <= HeadOf(p, at) && heads[k] == at.pos - HeadOf(p, at)
    ensures (k > 0 ==> |d| < limit) ==>
              Done(p, s, heads, len, k + 1, Next(p, at), d + Entry(MatchesAt(p, at)), limit)
  {
    BatchParts(p, at, heads[k..], len);
    RunAdd(p, s, k);
    assert heads[k..][1..] == heads[k + 1..];
    if k > 0 ==> |d| < limit {
      UnfilledNext(p, s, k, limit);
    }
    hide Batch, Inv, Run, Next, Entries, Entry, MatchesAt, HeadOf, Active, Limit, Unfilled;
  }

  lemma {:induction false} DoneParts(p: Setup, s: State, heads: seq<Word>, len: nat, k: nat, at: State, d: seq<nat>,
                                     limit: nat)
    requires Done(p, s, heads, len, k, at, d, limit)
    ensures Inv(p, s) && k <= |heads| && s.cur + |heads| <= |p.t| && s.cur + k <= |p.t|
    ensures at == Run(p, s, k) && d == Entries(p, s, k) && Unfilled(p, s, k, limit)
  {
    hide Batch, Inv, Run, Entries, Unfilled;
  }

  /** One position of the batch that has a tree to search, or none. */
  lemma {:induction false} EntryOne(m: Match)
    ensures Entry([m]) == [2, m.len, m.dist] && Entry([]) == [0]
  {
    assert [m][..0] == [] && Pairs([]) == [];
    assert Pairs([m]) == Pairs([m][..0]) + [m.len, m.dist];
  }

  method WriteEntry(d0: seq<nat>, ms: seq<Match>) returns (d: seq<nat>)
    ensures d == d0 + Entry(ms)
  {
    hide *;
    NoPairs();
    EntryIs(ms);
    d := d0 + [2 * |ms|];
    var i := 0;
    while i < |ms|
      invariant 0 <= i <= |ms| && d == d0 + [2 * |ms|] + Pairs(ms[..i])
    {
      PairsAdd(ms[..i], ms[i]);
      assert ms[..i] + [ms[i]] == ms[..i + 1];
      d := d + [ms[i].len, ms[i].dist];
      i := i + 1;
    }
    assert ms[..|ms|] == ms;
    assert d0 + [2 * |ms|] + Pairs(ms) == d0 + ([2 * |ms|] + Pairs(ms));
  }

  lemma {:induction false} NoPairs()
    ensures Pairs([]) == []
  {
  }

  lemma {:induction false} EntryIs(ms: seq<Match>)
    ensures Entry(ms) == [2 * |ms|] + Pairs(ms)
  {
  }

  lemma {:induction false} DoneRoom(p: Setup, s: State, heads: seq<Word>, len: nat, k: nat, at: State, d: seq<nat>,
                                    limit: nat)
    requires Done(p, s, heads, len, k, at, d, limit) && k < |heads|
    ensures at.cur + len <= |p.t|
  {
    DoneNext(p, s, heads, len, k, at, d, limit);
    PositionIs(p, at);
    hide *;
  }

  /** The entry of a repeat, and the copied pair. */
  lemma {:induction false} RepeatIs(p: Setup, at: State, cur: nat, delta: Word, cbs: Word, len: nat, maxLen: nat,
                                    son: seq<int>)
    requires Inv(p, at) && Active(p, at.cur) && at.cur < |p.t| && at.pos + 1 < 0x1_0000_0000 && Limit(p, at.cur) == len
    requires at.cur == cur + 1 && cur + 1 + len <= |p.t| && 0 < delta < cbs && Agrees(p.t, cur - delta, cur, len)
    requires p.t[cur + len - delta] == p.t[cur + len] && delta == at.pos - HeadOf(p, at) && p.n == maxLen + 1
    requires cbs <= p.w && cbs < at.pos && (cbs == p.w || delta <= at.cyc) && at.son == son && at.cyc + 1 <= p.w
    ensures Agrees(p.t, cur + 1 - delta, cur + 1, len)
    ensures MatchesAt(p, at) == [Match(len, delta - 1)] && |son| == 2 * p.w
    ensures (var j := 2 * at.cyc; var i := 2 * (at.cyc - delta + (if at.cyc < delta then cbs else 0));
      0 <= i < |son| - 1 && i != j && i + 1 != j && Next(p, at).son == son[j := son[i]][j + 1 := son[i + 1]])
  {
    hide *;
    var c, w := cur + 1, p.w;
    PositionIs(p, at);
    AgreesBounds(p.t, cur - delta, cur, len);
    RepeatsOn(p.t, cur - delta, cur, len);
    DeltaIs(at.base, c, w, at.pos, if at.pos < w then at.pos else w, at.pos - delta);
    PairIndex(c, w, delta);
    PlacesApart(c, w, delta);
    ShortWay(p.t, son, w, at.base, c, len, HeadOf(p, at), TreeAt(p, at), c - delta, p.cut, maxLen);
  }

  lemma {:induction false} AgreesBounds(t: seq<Byte>, m: int, c: nat, n: nat)
    requires Agrees(t, m, c, n)
    ensures 0 <= m < c && m + n <= |t| && c + n <= |t|
  {
  }

  lemma {:induction false} PlacesApart(c: nat, w: nat, delta: nat)
    requires w > 0 && 0 < delta < w && delta <= c
    ensures Place(c - delta, w) != Place(c, w) && Place(c - delta, w) < w && Place(c, w) < w
  {
    PlacesDiffer(c - delta, c, w);
    hide Place;
  }

  /** The short way for repeats (LzFindOpt.c:319-355): while the next head is the same distance and
      one more byte agrees, the pair at that distance is copied. */
  method RepeatWay(t: seq<Byte>, lenLimit: nat, delta: Word, cbs: Word, pos0: Word, cur0: nat, son: array<Word>,
                   maxLen: nat, heads: seq<Word>, limit: nat, cyclicBufferPos0: nat, w: Word, d0: seq<nat>, num0: nat,
                   ghost p: Setup, ghost s: State, ghost at0: State)
    returns (d: seq<nat>, num: nat, pos: int, cur: nat, cyclicBufferPos: nat, ghost at: State)
    requires p.t == t && p.w == w && p.n == maxLen + 1 && num0 <= |heads|
    requires Done(p, s, heads, lenLimit, num0, at0, d0, limit) && at0.son == son[..]
    requires num0 < |heads| ==> at0.pos == pos0 + 1 && at0.cur == cur0 + 1 && at0.cyc == cyclicBufferPos0 + 1
    requires 0 < delta < cbs <= pos0 && cbs <= w && Agrees(t, cur0 - delta, cur0, lenLimit)
    requires cbs == w || delta <= cyclicBufferPos0
    requires num0 > 0
    modifies son
    ensures num0 <= num <= |heads| && Done(p, s, heads, lenLimit, num, at, d, limit) && at.son == son[..]
    ensures num < |heads| ==> at.pos == pos + 1 && at.cur == cur + 1 && at.cyc == cyclicBufferPos + 1
  {
    hide *;
    AgreesBounds(t, cur0 - delta, cur0, lenLimit);
    d, num, pos, cur, cyclicBufferPos, at := d0, num0, pos0, cur0, cyclicBufferPos0, at0;
    if num < |heads| {
      DoneRoom(p, s, heads, lenLimit, num, at, d, limit);
    }
    while num < |heads| && heads[num] == delta && t[cur + lenLimit - delta] == t[cur + lenLimit] && |d| < limit
      invariant num0 <= num <= |heads| && Done(p, s, heads, lenLimit, num, at, d, limit) && at.son == son[..]
      invariant num < |heads| ==> at.pos == pos + 1 && at.cur == cur + 1 && at.cyc == cyclicBufferPos + 1
      invariant num < |heads| ==> cur + 1 + lenLimit <= |t|
      invariant cbs <= pos && delta <= cur && Agrees(t, cur - delta, cur, lenLimit)
      invariant cbs == w || delta <= cyclicBufferPos
      decreases |heads| - num
    {
      DoneNext(p, s, heads, lenLimit, num, at, d, limit);
      RepeatIs(p, at, cur, delta, cbs, lenLimit, maxLen, son[..]);
      NextFields(p, at);
      EntryOne(Match(lenLimit, delta - 1));
      d := d + [2, lenLimit, delta - 1];
      cur := cur + 1;
      cyclicBufferPos := cyclicBufferPos + 1;
      var src := 2 * (cyclicBufferPos - delta + (if cyclicBufferPos < delta then cbs else 0));
      var p0, p1 := son[src], son[src + 1];
      son[2 * cyclicBufferPos] := p0;
      son[2 * cyclicBufferPos + 1] := p1;
      pos := pos + 1;
      num := num + 1;
      at := Next(p, at);
      if num < |heads| {
        DoneRoom(p, s, heads, lenLimit, num, at, d, limit);
      }
    }
  }

  lemma {:induction false} BatchLimit(p: Setup, s: State, heads: seq<Word>, len: nat, k: nat)
    requires Batch(p, s, heads, len) && k < |heads|
    ensures s.cur + k < |p.t| && Limit(p, s.cur + k) == len && Active(p, s.cur + k)
    decreases k
  {
    hide *;
    BatchParts(p, s, heads, len);
    if k > 0 {
      NextIs(p, s);
      BatchLimit(p, Next(p, s), heads[1..], len, k - 1);
    }
  }

  lemma {:induction false} MatchesFew(p: Setup, s: State)
    requires Inv(p, s) && s.cur <= |p.t| && Active(p, s.cur)
    ensures |MatchesAt(p, s)| < Limit(p, s.cur)
  {
    ReportedReal(p, s);
    InvParts(p, s);
    hide Reported, Length, Start, Inv, Rising;
    HitsFew(Reported(p, s), p.n - 1, Limit(p, s.cur));
  }

  lemma {:induction false} EntryLength(ms: seq<Match>)
    ensures |Entry(ms)| == 1 + 2 * |ms|
  {
    PairsLength(ms);
  }

  /** What is written is less than one entry beyond the limit, and an entry has fewer than two words
      for each byte of the length limit (LzFindMt.c:575-595). */
  lemma {:induction false} LastEntry(p: Setup, s: State, heads: seq<Word>, len: nat, num: nat, limit: nat)
    requires Batch(p, s, heads, len) && 0 < num <= |heads|
    requires Inv(p, s) && s.cur + num <= |p.t| && forall k: nat | 1 <= k < num :: |Entries(p, s, k)| < limit
    ensures |Entries(p, s, num)| < limit + 2 * len
  {
    hide *;
    RunAdd(p, s, num - 1);
    BatchLimit(p, s, heads, len, num - 1);
    MatchesFew(p, Run(p, s, num - 1));
    EntryLength(MatchesAt(p, Run(p, s, num - 1)));
    NoEntries(p, s);
  }

  lemma {:induction false} NoEntries(p: Setup, s: State)
    requires Inv(p, s) && s.cur <= |p.t|
    ensures Entries(p, s, 0) == []
  {
  }

  /** GetMatchesSpecN_2: for the positions that it gets through it leaves what one call after the
      other leaves, writes what they report, and never gives up with NULL. It goes on as long as
      there are positions and the buffer is not full, and no longer. */
  method GetMatchesSpecN2(t: seq<Byte>, lenLimit: nat, pos0: Word, cur0: nat, son: array<Word>, cutValue: Word,
                          maxLen: nat, heads: seq<Word>, limit: nat, cyclicBufferPos0: nat, w: Word, ghost p: Setup,
                          ghost s: State)
    returns (ok: bool, d: seq<nat>, num: nat)
    requires Batch(p, s, heads, lenLimit)
    requires p.t == t && p.w == w && p.cut == cutValue && p.n == maxLen + 1
    requires s.pos == pos0 && s.cur == cur0 && s.cyc == cyclicBufferPos0 && s.son == son[..]
    modifies son
    ensures Inv(p, s) && num <= |heads| && s.cur + num <= |p.t|
    ensures ok && (num == |heads| || |d| >= limit) && (heads != [] ==> num >= 1)
    ensures forall k: nat | 1 <= k < num :: |Entries(p, s, k)| < limit
    ensures heads != [] ==> |d| < limit + 2 * lenLimit
    ensures d == Entries(p, s, num) && son[..] == Run(p, s, num).son
    ensures forall k: nat | k < num ::
              TrueMatches(t, cur0 + k, MatchesAt(p, Run(p, s, k)), w - 1, maxLen + 1, p.max, cutValue)
    ensures cutValue == 0 || cutValue >= w - 1 ==> forall k: nat | k < num ::
              AllMatched(t, cur0 + k, MatchesAt(p, Run(p, s, k)), w - 1, maxLen + 1, p.max)
  {
    hide *;
    ghost var at := s;
    DoneStart(p, s, heads, lenLimit, limit);
    var pos, cur, cyclicBufferPos, more := pos0 as int, cur0, cyclicBufferPos0, true;
    ok, d, num := true, [], 0;
    while more && num < |heads|
      invariant ok && num <= |heads| && Done(p, s, heads, lenLimit, num, at, d, limit) && at.son == son[..]
      invariant (more && num > 0 ==> |d| < limit) && (!more ==> num > 0)
      invariant num < |heads| ==> at.pos == pos && at.cur == cur && at.cyc == cyclicBufferPos
      invariant !more ==> |d| >= limit
      decreases |heads| - num
    {
      DoneNext(p, s, heads, lenLimit, num, at, d, limit);
      PositionIs(p, at);
      NextFields(p, at);
      var delta := heads[num];
      HeadOlder(t, at.son, w, at.base, cur, lenLimit, HeadOf(p, at), TreeAt(p, at));
      if delta == 0 || (pos < w && delta > pos) {
        ok := false;
        return;
      }
      var cbs: Word := if pos < w then pos else w;
      DeltaIs(at.base, cur, w, pos, cbs, HeadOf(p, at));
      num := num + 1;
      if delta >= cbs {
        NoWay(t, at.son, w, at.base, cur, lenLimit, HeadOf(p, at), TreeAt(p, at), cutValue, maxLen);
        NoMatches(cur);
        EntryOne(Match(0, 0));
        d := d + [0];
        son[2 * cyclicBufferPos + 1] := 0;
        son[2 * cyclicBufferPos] := 0;
        at := Next(p, at);
      } else {
        var ms, full;
        ok, ms, full, delta := SearchHead(t, lenLimit, delta, pos, cur, son, cyclicBufferPos, w, cbs, cutValue, maxLen,
                                          at.base, TreeAt(p, at));
        d := WriteEntry(d, ms);
        ghost var first := at;
        at := Next(p, at);
        if full {
          if pos < w {
            PlaceIsPosition(p, first);
          }
          d, num, pos, cur, cyclicBufferPos, at :=
            RepeatWay(t, lenLimit, delta, cbs, pos, cur, son, maxLen, heads, limit, cyclicBufferPos, w, d, num, p, s,
              at);
        }
      }
      pos := pos + 1;
      cyclicBufferPos := cyclicBufferPos + 1;
      cur := cur + 1;
      more := |d| < limit;
    }
    DoneParts(p, s, heads, lenLimit, num, at, d, limit);
    UnfilledIs(p, s, num, limit);
    AllTrue(p, s, num);
    if num > 0 {
      LastEntry(p, s, heads, lenLimit, num, limit);
    }
  }

  /** What is reported at each of the positions. */
  lemma {:induction false} AllTrue(p: Setup, s: State, num: nat)
    requires Inv(p, s) && s.cur + num <= |p.t|
    ensures forall k: nat | k < num ::
              TrueMatches(p.t, s.cur + k, MatchesAt(p, Run(p, s, k)), p.w - 1, p.n, p.max, p.cut)
    ensures p.cut == 0 || p.cut >= p.w - 1 ==> forall k: nat | k < num ::
              AllMatched(p.t, s.cur + k, MatchesAt(p, Run(p, s, k)), p.w - 1, p.n, p.max)
  {
    hide *;
    forall k: nat | k < num
      ensures TrueMatches(p.t, s.cur + k, MatchesAt(p, Run(p, s, k)), p.w - 1, p.n, p.max, p.cut)
      ensures p.cut == 0 || p.cut >= p.w - 1 ==>
                AllMatched(p.t, s.cur + k, MatchesAt(p, Run(p, s, k)), p.w - 1, p.n, p.max)
    {
      MatchesTrue(p, Run(p, s, k));
    }
  }

  lemma {:induction false} UnfilledIs(p: Setup, s: State, num: nat, limit: nat)
    requires Inv(p, s) && Unfilled(p, s, num, limit) && s.cur + num <= |p.t|
    ensures forall k: nat | 1 <= k < num :: |Entries(p, s, k)| < limit
  {
    hide Inv, Entries;
  }
}
