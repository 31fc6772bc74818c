/** What a match finder reports, in terms of the bytes of the data alone. */
module LzMatches {
  import Arith
  import opened Bitwise
  import opened Machine
  import opened LzText
  import opened LzTree
  import opened LzSearch
  import opened LzForest
  import opened LzWindow

  /** The k bytes at x and at c are the same. */
  ghost predicate SameBytes(t: seq<Byte>, x: int, c: nat, k: nat) {
    0 <= x < c && c + k <= |t| && t[x..x + k] == t[c..c + k]
  }

  /** A pair of a length and a distance less one that is true at c, and cannot be made longer. */
  ghost predicate TrueMatch(t: seq<Byte>, c: nat, m: Match, history: int, n: nat, maxLen: nat) {
    var x := c - m.dist - 1;
    && m.dist < history && n <= m.len <= maxLen && SameBytes(t, x, c, m.len)
    && (m.len == maxLen || c + m.len == |t| || t[x + m.len] != t[c + m.len])
  }

  /** Every pair is true, lengths and distances rise, and there are no more than nodes were visited. */
  ghost predicate TrueMatches(t: seq<Byte>, c: nat, d: seq<Match>, history: int, n: nat, maxLen: nat, cut: nat) {
    && (forall i | 0 <= i < |d| :: TrueMatch(t, c, d[i], history, n, maxLen))
    && (forall i, j | 0 <= i < j < |d| :: d[i].len < d[j].len && d[i].dist < d[j].dist)
    && (cut > 0 ==> |d| <= cut)
  }

  ghost predicate Matched(c: nat, d: seq<Match>, x: nat, len: nat) {
    exists i :: 0 <= i < |d| && d[i].len >= len && d[i].dist + 1 <= c - x
  }

  /** Whatever agrees on the hashed bytes or more within the history is matched as long and as near. */
  ghost predicate AllMatched(t: seq<Byte>, c: nat, d: seq<Match>, history: int, n: nat, maxLen: nat) {
    forall x: nat, len: nat | c - x <= history && n <= len <= maxLen && SameBytes(t, x, c, len) ::
      Matched(c, d, x, len)
  }

  lemma {:induction false} LengthIs(t: seq<Byte>, x: nat, c: nat, n: nat)
    requires x < c && c + n <= |t|
    ensures x + n <= |t| && SameBytes(t, x, c, Length(t, x, c, n))
    ensures Length(t, x, c, n) < n ==> t[x + Length(t, x, c, n)] != t[c + Length(t, x, c, n)]
  {
    hide Lcp;
    var u, v := At(t, x, n), At(t, c, n);
    var k := Length(t, x, c, n);
    assert u[..k] == v[..k];
    assert u[..k] == t[x..x + k] && v[..k] == t[c..c + k];
    assert k < n ==> u[k] == t[x + k] && v[k] == t[c + k];
  }

  lemma {:induction false} SameAt(t: seq<Byte>, x: nat, c: nat, k: nat, j: nat)
    requires SameBytes(t, x, c, k) && j <= k
    ensures j < k ==> c + j < |t| && x + j < |t| && t[x + j] == t[c + j]
  {
    if j < k {
      assert t[x..x + k][j] == t[c..c + k][j];
    }
  }

  lemma {:induction false} LengthCovers(t: seq<Byte>, x: nat, c: nat, n: nat, k: nat)
    requires x < c && c + n <= |t| && k <= n && SameBytes(t, x, c, k)
    ensures x + n <= |t| && Length(t, x, c, n) >= k
  {
    hide Length;
    LengthIs(t, x, c, n);
    var q := Length(t, x, c, n);
    SameAt(t, x, c, k, if q < k then q else k);
    hide SameBytes;
  }

  lemma {:induction false} HitIsTrue(p: Setup, c: nat, h: Hit)
    requires c + p.n <= |p.t| && p.n <= p.max && Start(p, c) <= h.pos < c && p.n <= h.len <= Limit(p, c)
    requires h.pos + Limit(p, c) <= |p.t| && c + Limit(p, c) <= |p.t|
    requires h.len == Length(p.t, h.pos, c, Limit(p, c))
    ensures TrueMatch(p.t, c, Match(h.len, c - h.pos - 1), p.w - 1, p.n, p.max)
  {
    hide Length;
    LengthIs(p.t, h.pos, c, Limit(p, c));
  }

  /** What a cut value lets pass. */
  lemma {:induction false} HitsCut(t: seq<Byte>, tr: Tree, c: nat, n: nat, cut: nat, max: nat)
    requires Sound(t, tr, n) && c + n <= |t|
    ensures |Hits(t, tr, c, n, cut, max)| <= cut
  {
    hide Length, GoesRight, Newer, AllBefore, AllAfter, Refs;
    match tr
    case Empty =>
    case Node(l, m, r) =>
      if cut > 0 {
        var len := Length(t, m, c, n);
        if len < n {
          if GoesRight(t, m, c, n) {
            HitsCut(t, r, c, n, cut - 1, if len > max then len else max);
          } else {
            HitsCut(t, l, c, n, cut - 1, if len > max then len else max);
          }
        }
      }
  }

  lemma {:induction false} ReportedFew(p: Setup, s: State)
    requires Inv(p, s) && s.cur <= |p.t|
    ensures p.cut > 0 ==> |Reported(p, s)| <= p.cut
  {
    hide Inv, Reported, Hits, Active, Sound;
    if Active(p, s.cur) {
      ReportedIs(p, s);
      HitsCut(p.t, s.trees[HashAt(p, s.cur)], s.cur, Limit(p, s.cur), Turns(p.cut), p.n - 1);
    } else {
      NothingReported(p, s);
    }
  }

  lemma {:induction false} HitsAreTrue(p: Setup, c: nat, hits: seq<Hit>)
    requires RealHits(p, c, hits) && c + p.n <= |p.t| && p.n <= p.max
    ensures forall i | 0 <= i < |hits| :: hits[i].pos < c
    ensures forall i | 0 <= i < |hits| :: TrueMatch(p.t, c, MatchesOf(hits, c)[i], p.w - 1, p.n, p.max)
    ensures forall i, j | 0 <= i < j < |hits| :: hits[i].len < hits[j].len && hits[i].pos > hits[j].pos
  {
    hide Length, Start, TrueMatch;
    forall i | 0 <= i < |hits|
      ensures TrueMatch(p.t, c, MatchesOf(hits, c)[i], p.w - 1, p.n, p.max)
    {
      HitIsTrue(p, c, hits[i]);
    }
  }

  /** At every position, for every cut value. */
  lemma {:induction false} ReportsTrue(p: Setup, s: State)
    requires Inv(p, s) && s.cur <= |p.t|
    ensures forall i | 0 <= i < |Reported(p, s)| :: Reported(p, s)[i].pos < s.cur
    ensures TrueMatches(p.t, s.cur, MatchesOf(Reported(p, s), s.cur), p.w - 1, p.n, p.max, p.cut)
    ensures s.cur + p.n > |p.t| || p.n > p.max ==> Reported(p, s) == []
  {
    hide Inv, Reported, RealHits, TrueMatch;
    ReportedReal(p, s);
    ReportedFew(p, s);
    if Active(p, s.cur) {
      HitsAreTrue(p, s.cur, Reported(p, s));
    } else {
      NothingReported(p, s);
    }
  }

  lemma {:induction false} InWindowOf(p: Setup, c: nat, x: nat)
    requires 1 <= p.w && c - (p.w - 1) <= x < c
    ensures x in Window(Start(p, c), c)
  {
  }

  lemma {:induction false} CoveredBy(hits: seq<Hit>, c: nat, x: nat, len: nat)
    requires Covered(hits, x, len) && forall i | 0 <= i < |hits| :: hits[i].pos < c
    ensures Matched(c, MatchesOf(hits, c), x, len)
  {
    var i :| 0 <= i < |hits| && hits[i].len >= len && hits[i].pos >= x;
    assert MatchesOf(hits, c)[i].len >= len;
  }

  /** At every position, for a cut value of 0 or of the history size at least, whatever came before. */
  lemma {:induction false} ReportsAll(p: Setup, s: State)
    requires Inv(p, s) && s.cur <= |p.t| && (p.cut == 0 || p.cut >= p.w - 1)
    ensures forall i | 0 <= i < |Reported(p, s)| :: Reported(p, s)[i].pos < s.cur
    ensures AllMatched(p.t, s.cur, MatchesOf(Reported(p, s), s.cur), p.w - 1, p.n, p.max)
  {
    hide Inv, Reported, BestHits, SameBytes, MatchesOf, Covered, Matched, TrueMatches;
    ReportsTrue(p, s);
    InvParts(p, s);
    var hits, c := Reported(p, s), s.cur;
    forall x: nat, len: nat | c - x <= p.w - 1 && p.n <= len <= p.max && SameBytes(p.t, x, c, len)
      ensures Matched(c, MatchesOf(hits, c), x, len)
    {
      SameInside(p.t, x, c, len);
      LargeCutBest(p, s);
      BestCovers(p, c, hits, x, len);
      CoveredBy(hits, c, x, len);
    }
  }

  lemma {:induction false} SameInside(t: seq<Byte>, x: int, c: nat, k: nat)
    requires SameBytes(t, x, c, k)
    ensures 0 <= x < c && c + k <= |t|
  {
  }

  lemma {:induction false} BestCovers(p: Setup, c: nat, hits: seq<Hit>, x: nat, len: nat)
    requires BestHits(p, c, hits) && 2 <= p.w && c - (p.w - 1) <= x < c && p.n <= len <= p.max
    requires SameBytes(p.t, x, c, len) && c + len <= |p.t| && p.n > 0
    ensures Covered(hits, x, len)
  {
    hide Length, Start, Rising, Nearest, SameBytes;
    InWindowOf(p, c, x);
    LengthCovers(p.t, x, c, Limit(p, c), len);
    CoveredLess(hits, x, Length(p.t, x, c, Limit(p, c)), len);
  }

  lemma {:induction false} CoveredLess(hits: seq<Hit>, x: nat, len: nat, len': nat)
    requires len' <= len
    ensures Covered(hits, x, len) ==> Covered(hits, x, len')
  {
  }

  // ---------- the hash ----------

  lemma {:induction false} XorCancels(a: nat, b: nat, k: nat, m: nat)
    requires Low(Xor(a, k), m) == Low(Xor(b, k), m)
    ensures Low(a, m) == Low(b, m)
    decreases m
  {
    hide Xor, Low;
    LowNext(a, 0);
    LowNext(b, 0);
    if m > 0 {
      LowNext(Xor(a, k), m - 1);
      LowNext(Xor(b, k), m - 1);
      XorNext(a, k);
      XorNext(b, k);
      XorCancels(a / 2, b / 2, k / 2, m - 1);
      LowNext(a, m - 1);
      LowNext(b, m - 1);
    }
  }

  /** Two bytes have a bucket of their own; of three, those with the same one in the middle. */
  lemma {:induction false} OwnBucket(u: seq<Byte>, v: seq<Byte>, crc: seq<Word>)
    requires 2 <= |u| == |v| <= 3 && |crc| == 0x100 && (|u| == 3 ==> u[1] == v[1])
    ensures HashOf(u, crc) == HashOf(v, crc) <==> u == v
  {
    if |u| == 3 {
      ThreeBytes(u, v, crc);
    } else {
      assert u == [u[0], u[1]] && v == [v[0], v[1]];
    }
  }

  /** The two bytes that the table does not see, as a number. */
  function Outer(u: seq<Byte>): (r: nat)
    requires |u| == 3
    ensures r < 0x1_0000
  {
    var a: nat, c: nat := u[0], u[2];
    c + 0x100 * a
  }

  lemma {:induction false} ThreeBytes(u: seq<Byte>, v: seq<Byte>, crc: seq<Word>)
    requires |u| == |v| == 3 && |crc| == 0x100 && u[1] == v[1]
    ensures HashOf(u, crc) == HashOf(v, crc) <==> u == v
  {
    hide HashOf, Low, Xor;
    ZipIs(u, crc);
    ZipIs(v, crc);
    if HashOf(u, crc) == HashOf(v, crc) {
      XorCancels(Outer(u), Outer(v), crc[u[1]], 16);
      LowOf16(Outer(u));
      LowOf16(Outer(v));
      assert u == [u[0], u[1], u[2]] && v == [v[0], v[1], v[2]];
    }
  }

  lemma {:induction false} LowOf16(x: nat)
    requires x < 0x1_0000
    ensures Low(x, 16) == x
  {
    Arith.WordPowers();
  }

  lemma {:induction false} ZipIs(u: seq<Byte>, crc: seq<Word>)
    requires |u| == 3 && |crc| == 0x100
    ensures HashOf(u, crc) == Low(Xor(Outer(u), crc[u[1]]), 16)
  {
    Arith.WordPowers();
    hide Xor, And, Or, Low, Shl;
    OuterIs(u[0], u[2]);
    AndLow(Xor(Outer(u), crc[u[1]]), 16);
  }

  lemma {:induction false} OuterIs(a: Byte, c: Byte)
    ensures (var x: nat, y: nat := a, c; Or(c, Shl(a, 8)) == y + 0x100 * x)
  {
    assert Arith.Pow2(8) == 0x100 by {
      assert Arith.Pow2(4) == 16;
      Arith.Pow2Sum(4, 4);
    }
    hide Or, Arith.Pow2;
    OrAbove(c, a, 8);
  }
}
