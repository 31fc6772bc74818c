/** Huffman_Generate of HuffEnc.c:35-346: code lengths and canonical codes for the
    symbols of an alphabet, no code longer than maxLen. */
module HuffEnc {
  import opened Arith
  import opened Machine
  import opened Counting
  import opened HuffSort
  import opened HuffTree
  import opened HuffOptimal
  import opened HuffRun
  import opened HuffBuild
  import opened HuffClamp
  import opened HuffLevels
  import opened HuffLimit
  import opened HuffCodes
  import opened HuffSymbols
  import opened HuffResult
  import opened Sums
  import Sort

  // ---------- lengths ----------

  ghost function Lens(lens: seq<Byte>): (r: seq<nat>)
    ensures |r| == |lens| && forall i | 0 <= i < |lens| :: r[i] == lens[i]
  {
    seq(|lens|, i requires 0 <= i < |lens| => lens[i] as nat)
  }

  /** The symbols of the list are at the front of p. */
  ghost predicate SymbolsIn(ps: seq<Word>, ss: seq<nat>) {
    |ss| <= |ps| && forall j | 0 <= j < |ss| :: Sym(ps[j]) == ss[j]
  }

  lemma {:induction false} SymbolAt(ps: seq<Word>, ss: seq<nat>, j: nat)
    requires SymbolsIn(ps, ss) && j < |ss|
    ensures j < |ps| && Sym(ps[j]) == ss[j]
  {
  }

  /** The lengths still to give, when k codes of length len are left before the rest. */
  ghost predicate Rest(full: seq<nat>, m: nat, len: nat, k: nat, rest: seq<nat>) {
    m <= |full| && full[m..] == Repeat(len, k) + rest
  }

  lemma {:induction false} RestNext(full: seq<nat>, m: nat, len: nat, k: nat, rest: seq<nat>)
    requires Rest(full, m, len, k, rest)
    ensures k > 0 ==> m < |full| && full[m] == len && Rest(full, m + 1, len, k - 1, rest)
    ensures k == 0 ==> full[m..] == rest
  {
    if k > 0 {
      assert full[m..][0] == len;
      assert full[m + 1..] == full[m..][1..] == Repeat(len, k - 1) + rest;
    } else {
      assert Repeat(len, 0) + rest == rest;
    }
  }

  /** All the codes of one length. */
  method GiveLength(p: array<Word>, lens: array<Byte>, len: nat, k0: nat, m0: nat,
                    ghost ss: seq<nat>, ghost full: seq<nat>, ghost rest: seq<nat>)
    returns (m: nat)
    requires SymbolsIn(p[..], ss)
    requires len < 0x100 && Rest(full, m0, len, k0, rest)
    requires GivenTo(ss, full, Lens(lens[..]), m0)
    modifies lens
    ensures p[..] == old(p[..])
    ensures GivenTo(ss, full, Lens(lens[..]), m) && m <= |full| && full[m..] == rest
  {
    hide Rest, GivenTo, SymbolsIn, Sym;
    m := m0;
    var k := k0;
    while k != 0
      invariant p[..] == old(p[..])
      invariant Rest(full, m, len, k, rest)
      invariant GivenTo(ss, full, Lens(lens[..]), m)
      decreases k
    {
      RestNext(full, m, len, k, rest);
      GivenSizes(ss, full, Lens(lens[..]), m);
      SymbolAt(p[..], ss, m);
      ghost var ls := Lens(lens[..]);
      lens[Sym(p[m])] := len;
      assert Lens(lens[..]) == ls[ss[m] := full[m]];
      GiveNext(ss, full, ls, m, Lens(lens[..]));
      m := m + 1;
      k := k - 1;
    }
    RestNext(full, m, len, k, rest);
    GivenSizes(ss, full, Lens(lens[..]), m);
  }

  /** Counters that have no more leaves down to level top than there are symbols. */
  ghost predicate Enough(c: seq<nat>, top: nat, n: nat) {
    |c| == LEVELS && 1 <= top < LEVELS && c[0] == 0 && Items(c, top + 1) <= n
  }

  /** A length for each of n symbols, 0 for those that the levels down to v have no leaf for. */
  ghost function Padded(c: seq<nat>, v: nat, top: nat, n: nat): (r: seq<nat>)
    requires Enough(c, top, n) && v <= top
  {
    Expand(c, v) + Repeat(0, n - Items(c, top + 1))
  }

  lemma {:induction false} PaddedFacts(c: seq<nat>, top: nat, n: nat)
    requires Enough(c, top, n)
    ensures |Padded(c, top, top, n)| == n && AtMost(Padded(c, top, top, n), top)
    ensures Items(c, top + 1) < n ==> Padded(c, top, top, n)[n - 1] == 0
    ensures Items(c, top + 1) == n ==> Padded(c, top, top, n) == Expand(c, top)
  {
    ExpandFacts(c, top, top);
    hide Expand, Items, Kraft, Share, Pow2, Falling;
    var e, z := Expand(c, top), Repeat(0, n - Items(c, top + 1));
    assert z == [] ==> e + z == e;
  }

  lemma {:induction false} PaddedStart(c: seq<nat>, v: nat, top: nat, n: nat, full: seq<nat>, m: nat)
    requires Enough(c, top, n) && 1 <= v <= top && m <= |full| && full[m..] == Padded(c, v, top, n)
    ensures |c| == LEVELS && Rest(full, m, v, c[v], Padded(c, v - 1, top, n))
  {
    hide Items;
    assert Expand(c, v) == Repeat(v, c[v]) + Expand(c, v - 1);
  }

  lemma {:induction false} PaddedEnd(c: seq<nat>, top: nat, n: nat, full: seq<nat>, m: nat)
    requires Enough(c, top, n) && m <= |full| == n && full[m..] == Padded(c, 0, top, n)
    ensures forall k | m <= k < n :: full[k] == 0
  {
    hide Items;
    assert Expand(c, 0) == [];
    assert forall k | m <= k < n :: full[k] == full[m..][k - m];
  }

  /** The sorted symbols get the longest codes first (HuffEnc.c:309-322). */
  method GiveLengths(p: array<Word>, lens: array<Byte>, counters: array<nat>, top: nat, ghost ss: seq<nat>)
    requires SymbolsIn(p[..], ss) && Enough(counters[..], top, |ss|) && Listing(ss, lens.Length)
    requires forall i | 0 <= i < lens.Length :: lens[i] == 0
    modifies lens
    ensures p[..] == old(p[..]) && counters[..] == old(counters[..])
    ensures GivenTo(ss, Padded(counters[..], top, top, |ss|), Lens(lens[..]), |ss|)
  {
    hide *;
    ghost var c, n := counters[..], |ss|;
    ghost var full := Padded(c, top, top, n);
    PaddedFacts(c, top, n);
    NothingGiven(ss, full, lens[..], c, top);
    var len: nat := top;
    var m: nat := 0;
    while len != 0
      invariant len <= top && counters[..] == c && p[..] == old(p[..])
      invariant m <= |full| && full[m..] == Padded(c, len, top, n)
      invariant GivenTo(ss, full, Lens(lens[..]), m)
      decreases len
    {
      PaddedStart(c, len, top, n, full, m);
      m := GiveLength(p, lens, len, counters[len], m, ss, full, Padded(c, len - 1, top, n));
      len := len - 1;
    }
    PaddedEnd(c, top, n, full, m);
    GivenRest(ss, full, Lens(lens[..]), m);
  }

  lemma {:induction false} NothingGiven(ss: seq<nat>, full: seq<nat>, lens: seq<Byte>, c: seq<nat>, top: nat)
    requires Listing(ss, |lens|) && forall i | 0 <= i < |lens| :: lens[i] == 0
    requires Enough(c, top, |ss|) && |full| == |ss|
    ensures GivenTo(ss, full, Lens(lens), 0) && full[0..] == full && top < LEVELS < 0x100
  {
    hide Items;
  }

  // ---------- codes ----------

  ghost predicate Bounded(c: seq<nat>) {
    |c| == LEVELS && forall u | 0 <= u < LEVELS :: c[u] <= SYMBOLS
  }

  lemma {:induction false} FirstBound(c: seq<nat>, v: nat)
    requires v <= |c| && forall u | 0 <= u < |c| :: c[u] <= SYMBOLS
    ensures FirstCode(c, v) + 0x800 <= 0x800 * Pow2(v)
  {
    if v > 0 {
      FirstBound(c, v - 1);
    }
  }

  lemma {:induction false} CodeBound(c: seq<nat>, v: nat)
    requires Bounded(c) && v < LEVELS
    ensures FirstCode(c, v) <= 0x800_0000
  {
    hide FirstCode, Pow2;
    FirstBound(c, v);
    Pow2Monotone(v, 16);
    WordPowers();
  }

  /** The lengths below len have their first code, and `code` is that of len. */
  ghost predicate FirstsDone(c: seq<nat>, codes: seq<Word>, code: Word, len: nat) {
    && |codes| == LEVELS == |c| && len < LEVELS && code == FirstCode(c, len)
    && forall v | 0 <= v <= len :: codes[v] == FirstCode(c, v)
  }

  lemma {:induction false} FirstsNext(c: seq<nat>, codes: seq<Word>, code: Word, len: nat, code': Word)
    requires FirstsDone(c, codes, code, len) && len + 1 < LEVELS && code' == (code + c[len]) * 2
    ensures FirstsDone(c, codes[len + 1 := code'], code', len + 1)
  {
    hide FirstCode;
    FirstNext(c, len);
  }

  lemma {:induction false} FirstsFit(c: seq<nat>, codes: seq<Word>, code: Word, len: nat)
    requires FirstsDone(c, codes, code, len) && len + 1 < LEVELS && Bounded(c)
    ensures (code + c[len]) * 2 < 0x1_0000_0000
  {
    hide FirstCode;
    FirstNext(c, len);
    CodeBound(c, len + 1);
  }

  /** The first code of each length (HuffEnc.c:323-330). */
  method FirstCodes(counters: array<nat>, ghost ls: seq<nat>) returns (codes: array<Word>)
    requires Bounded(counters[..])
    ensures fresh(codes) && NextCodes(ls, counters[..], codes[..], 0)
  {
    ghost var c := counters[..];
    assert |c| == LEVELS;
    hide FirstCode, FirstsDone, NextCodes, Bounded;
    codes := new Word[LEVELS];
    codes[0] := 0;
    var code: Word := 0;
    FirstsStart(c, codes[..]);
    for len := 0 to LEVELS - 1
      invariant counters[..] == c
      invariant FirstsDone(c, codes[..], code, len)
    {
      FirstsFit(c, codes[..], code, len);
      assert counters[len] == c[len];
      ghost var was, old' := codes[..], code;
      code := (code + counters[len]) * 2;
      codes[len + 1] := code;
      FirstsNext(c, was, old', len, code);
      assert codes[..] == was[len + 1 := code];
    }
    FirstsAll(ls, c, codes[..], code);
  }

  lemma {:induction false} FirstsStart(c: seq<nat>, codes: seq<Word>)
    requires |codes| == LEVELS == |c| && codes[0] == 0
    ensures FirstsDone(c, codes, 0, 0)
  {
    FirstZero(c);
  }

  lemma {:induction false} FirstsAll(ls: seq<nat>, c: seq<nat>, codes: seq<Word>, code: Word)
    requires FirstsDone(c, codes, code, LEVELS - 1)
    ensures NextCodes(ls, c, codes, 0)
  {
    hide FirstCode;
  }

  lemma {:induction false} FirstZero(c: seq<nat>)
    ensures FirstCode(c, 0) == 0
  {
  }

  /** The codes that the next symbols get. */
  ghost predicate NextCodes(ls: seq<nat>, c: seq<nat>, codes: seq<Word>, k: nat) {
    && |codes| == LEVELS == |c| && k <= |ls|
    && forall v | 0 <= v < LEVELS :: codes[v] == FirstCode(c, v) + Count(ls, v, k)
  }

  lemma {:induction false} NextCode(ls: seq<nat>, c: seq<nat>, codes: seq<Word>, k: nat)
    requires NextCodes(ls, c, codes, k) && Bounded(c) && k < |ls| <= SYMBOLS && ls[k] < LEVELS
    ensures codes[ls[k]] == Canonical(ls, c, k) && codes[ls[k]] < 0x1000_0000
    ensures NextCodes(ls, c, codes[ls[k] := codes[ls[k]] + 1], k + 1)
  {
    CodeBound(c, ls[k]);
    hide FirstCode;
    var codes' := codes[ls[k] := codes[ls[k]] + 1];
    forall v | 0 <= v < LEVELS
      ensures codes'[v] == FirstCode(c, v) + Count(ls, v, k + 1)
    {
    }
  }

  /** Codes of one length are given out in the order of the symbols; symbols without a
      code are numbered in the same way (HuffEnc.c:332-344). */
  method GiveCodes(p: array<Word>, lens: array<Byte>, codes: array<Word>, ghost ls: seq<nat>, ghost c: seq<nat>)
    requires p != codes && p.Length == lens.Length <= SYMBOLS && ls == Lens(lens[..]) && Bounded(c)
    requires NextCodes(ls, c, codes[..], 0) && forall i | 0 <= i < |ls| :: ls[i] < LEVELS
    modifies p, codes
    ensures lens[..] == old(lens[..])
    ensures |c| == LEVELS && forall i | 0 <= i < p.Length :: p[i] == Canonical(ls, c, i)
  {
    assert |c| == LEVELS;
    hide NextCodes, Canonical, Bounded;
    for i := 0 to p.Length
      invariant lens[..] == old(lens[..])
      invariant NextCodes(ls, c, codes[..], i)
      invariant forall j | 0 <= j < i :: p[j] == Canonical(ls, c, j)
    {
      NextCode(ls, c, codes[..], i);
      NextSize(ls, c, codes[..], i);
      assert lens[..][i] == lens[i] == ls[i];
      var len := lens[i];
      var code := codes[len];
      p[i] := code;
      codes[len] := code + 1;
    }
  }

  lemma {:induction false} NextSize(ls: seq<nat>, c: seq<nat>, codes: seq<Word>, k: nat)
    requires NextCodes(ls, c, codes, k)
    ensures |codes| == LEVELS
  {
  }

  // ---------- the lengths of three symbols or more ----------

  lemma {:induction false} ExpandCount(c: seq<nat>, t: nat, v: nat)
    requires t < |c|
    ensures CountIn(Expand(c, t), v) == if 1 <= v <= t then c[v] else 0
  {
    if t > 0 {
      ExpandCount(c, t - 1, v);
      CountAppend(Repeat(t, c[t]), Expand(c, t - 1), v);
      CountRepeat(t, c[t], v);
    }
  }

  /** The counters are the histogram of the lengths. */
  lemma {:induction false} GivenHist(ss: seq<nat>, c: seq<nat>, ls: seq<nat>, top: nat, items: nat)
    requires Counted(c, top, items) && GivenTo(ss, Expand(c, top), ls, |ss|)
    ensures c == Hist(ls)
  {
    hide Share, Items, Expand, CountIn, Pow2;
    GivenPicked(ss, Expand(c, top), ls);
    forall v | 1 <= v < LEVELS
      ensures c[v] == CountIn(ls, v)
    {
      SortedCount(ls, ss, v);
      ExpandCount(c, top, v);
    }
  }

  /** Less frequent symbols come earlier in the list, where lengths are greater. */
  lemma {:induction false} LongerIfRarer(freqs: seq<Word>, ws: seq<Word>, full: seq<nat>, ls: seq<nat>, i: nat, j: nat)
    requires SortedSymbols(freqs, ws) && |ls| == |freqs| && GivenTo(Symbols(ws), full, ls, |ws|) && Falling(full)
    requires i < |ls| && j < |ls| && i != j && Rarer(freqs, i, j)
    ensures ls[i] >= ls[j]
  {
    var a :| 0 <= a < |ws| && Sym(ws[a]) == i;
    var b :| 0 <= b < |ws| && Sym(ws[b]) == j;
    RarerFirst(freqs, ws, a, b);
    hide SortedSymbols, Sym, Freq;
    assert Symbols(ws)[a] == i && Symbols(ws)[b] == j;
  }

  lemma {:induction false} RarerFirst(freqs: seq<Word>, ws: seq<Word>, a: nat, b: nat)
    requires SortedSymbols(freqs, ws) && a < |ws| && b < |ws| && Rarer(freqs, Sym(ws[a]), Sym(ws[b]))
    ensures a < b
  {
    assert ws[a] == Freq(ws[a]) * SYMBOLS + Sym(ws[a]) && ws[b] == Freq(ws[b]) * SYMBOLS + Sym(ws[b]);
  }

  /** The lengths are right, and optimal when they are the levels of the tree. */
  lemma {:induction false} GivenCoded(freqs: seq<Word>, ws: seq<Word>, c: seq<nat>, ls: seq<nat>, codes: seq<Word>,
                                      top: nat)
    requires SortedSymbols(freqs, ws) && |ls| == |freqs| == |codes| && Counted(c, top, |ws|)
    requires GivenTo(Symbols(ws), Expand(c, top), ls, |ws|)
    requires forall i | 0 <= i < |ls| :: ls[i] < LEVELS && codes[i] == Canonical(ls, Hist(ls), i)
    ensures Coded(freqs, ls, codes, top)
    ensures forall i | 0 <= i < |ls| :: ls[i] > 0 <==> freqs[i] > 0
  {
    hide *;
    CountedFacts(c, top, |ws|);
    var full := Expand(c, top);
    ExpandFacts(c, top, top);
    GivenHist(Symbols(ws), c, ls, top, |ws|);
    forall i | 0 <= i < |ls|
      ensures ls[i] <= top && (ls[i] > 0 <==> freqs[i] > 0)
    {
      GivenAtLeastOne(freqs, ws, full, ls, top, i);
    }
    forall i, j | 0 <= i < |ls| && 0 <= j < |ls| && Rarer(freqs, i, j)
      ensures ls[i] >= ls[j]
    {
      if i != j {
        LongerIfRarer(freqs, ws, full, ls, i, j);
      }
    }
    CodedIntro(freqs, ls, codes, top);
  }

  lemma {:induction false} CountedFacts(c: seq<nat>, top: nat, items: nat)
    requires Counted(c, top, items)
    ensures |c| == LEVELS && 1 <= top < LEVELS && c[0] == 0 && Items(c, top + 1) == items
    ensures Share(c, top + 1, top) == Pow2(top)
  {
    hide Items, Share, Pow2;
  }

  /** Node 0 has the deepest leaves. */
  lemma {:induction false} FirstLeafLevel(q: Queue)
    requires q.nodes == [] && Size(q) >= 2
    ensures LevelsOf(q).leaves != [] && LevelsOf(q).leaves[0] == Level(q, 0) + 1 && Falling(LevelsOf(q).leaves)
  {
    hide LevelsOf, Level, Gone, Run, NodesTaken;
    var c, ll, ln := LevelsBefore(q, 0);
    GoneZero(q);
    GoneOne(q);
    LevelsFall(q);
    RunZero(q);
  }

  lemma {:induction false} FallingAtMost(l: seq<nat>, top: nat)
    requires Falling(l) && l != []
    ensures AtMost(l, top) <==> l[0] <= top
  {
  }

  /** The clamp is used exactly when the deepest leaves are too deep. */
  lemma {:induction false} ClampedIff(ws: seq<Word>, top: nat)
    requires |ws| >= 2
    ensures Clamped(ws, 0, top) <==> !AtMost(LevelsOf(QueueOf(ws)).leaves, top)
  {
    hide LevelsOf, Level, AtMost, Falling;
    FirstLeafLevel(QueueOf(ws));
    FallingAtMost(LevelsOf(QueueOf(ws)).leaves, top);
  }

  /** Unless the clamp is used, the lengths are the levels of the tree. */
  lemma {:induction false} ExactLengths(ws: seq<Word>, c: seq<nat>, top: nat)
    requires Exact(c, ws, 0) && |ws| >= 2 && 1 <= top < LEVELS && AtMost(LevelsOf(QueueOf(ws)).leaves, top)
    ensures Expand(c, top) == LevelsOf(QueueOf(ws)).leaves
  {
    var q := QueueOf(ws);
    var l := LevelsOf(q).leaves;
    LevelsFall(q);
    RunZero(q);
    LeavesBelow(q);
    hide LevelsOf, QueueOf, CountIn, AtMost, Falling, AtLeastOne, Expand, Run;
    assert LevelsOf(q).nodes == [];
    forall v | 1 <= v <= top
      ensures CountIn(l, v) == c[v]
    {
      CountNone(v);
    }
    ExpandUnique(l, c, top);
  }

  lemma {:induction false} CountNone(v: nat)
    ensures CountIn([], v) == 0
  {
  }

  // ---------- two symbols or fewer ----------

  /** Exactly lo and hi have a code, of one bit. */
  ghost predicate Pair(ls: seq<nat>, lo: nat, hi: nat) {
    && lo < hi < |ls| && ls[lo] == 1 == ls[hi]
    && forall i | 0 <= i < |ls| && i != lo && i != hi :: ls[i] == 0
  }

  lemma {:induction false} PairCount(ls: seq<nat>, lo: nat, hi: nat, v: nat, k: nat)
    requires Pair(ls, lo, hi) && k <= |ls| && v >= 1
    ensures Count(ls, v, k) == (if v == 1 && k > lo then 1 else 0) + (if v == 1 && k > hi then 1 else 0)
  {
    if k > 0 {
      PairCount(ls, lo, hi, v, k - 1);
    }
  }

  lemma {:induction false} PairCoded(freqs: seq<Word>, ls: seq<nat>, codes: seq<Word>, lo: nat, hi: nat, top: nat)
    requires Pair(ls, lo, hi) && |freqs| == |ls| == |codes| && 1 <= top < LEVELS
    requires codes[lo] == 0 && codes[hi] == 1
    requires forall i | 0 <= i < |ls| && freqs[i] > 0 :: i == lo || i == hi
    ensures Coded(freqs, ls, codes, top)
  {
    var c := Hist(ls);
    forall v | 0 <= v < LEVELS
      ensures c[v] == if v == 1 then 2 else 0
    {
      if v > 0 {
        PairCount(ls, lo, hi, v, |ls|);
      }
    }
    hide Hist, Share, Pow2;
    RootCounted(c, top, top);
    PairCount(ls, lo, hi, 1, lo);
    PairCount(ls, lo, hi, 1, hi);
    FirstZero(c);
    FirstNext(c, 0);
    hide Count, FirstCode;
    CodedIntro(freqs, ls, codes, top);
  }

  /** Two symbols that occur: one bit each is the cheapest. */
  lemma {:induction false} PairOptimal(freqs: seq<Word>, ws: seq<Word>, ls: seq<nat>, lo: nat, hi: nat)
    requires Pair(ls, lo, hi) && |ls| == |freqs| && SortedSymbols(freqs, ws) && |ws| == 2
    requires forall k | 0 <= k < 2 :: Sym(ws[k]) == lo || Sym(ws[k]) == hi
    ensures Optimal(freqs, ls)
  {
    SortedListing(freqs, ws);
    TwoLevels(QueueOf(ws));
    var r := Picked(ls, Symbols(ws));
    hide SortedSymbols, Sym, LevelsOf, Optimal, QueueOf, Cost;
    assert r[0] == 1 && r[1] == 1;
    assert r == [1, 1];
    LengthsOptimal(freqs, ws, ls);
  }

  lemma {:induction false} TwoLevels(q: Queue)
    requires |q.leaves| == 2 && q.nodes == []
    ensures LevelsOf(q).leaves == [1, 1]
  {
    hide LevelsOf, Level, Run, Gone, Repeat, NodesTaken;
    RunZero(q);
    GoneZero(q);
    RootLevel(q);
    var c, ll, ln := LevelsBefore(q, 0);
    TwoAtLevel(Level(q, 0), ll);
  }

  lemma {:induction false} TwoAtLevel(m: nat, ll: seq<nat>)
    requires m == 0 && ll == []
    ensures Repeat(m + 1, 2) + ll == [1, 1]
  {
  }

  lemma {:induction false} TwoOnes(ls: seq<nat>, lo: nat, hi: nat)
    requires lo < hi < |ls| && forall i | 0 <= i < |ls| :: ls[i] == 0
    ensures Pair(ls[lo := 1][hi := 1], lo, hi)
  {
  }

  /** The two symbols that get a code (HuffEnc.c:134-152). */
  method TwoSymbols(p: array<Word>, num: nat, ghost ws: seq<Word>) returns (minCode: nat, maxCode: nat)
    requires num == |ws| <= 2 <= p.Length && p[..num] == ws
    requires forall k | 0 <= k < num :: Sym(ws[k]) < p.Length
    requires num == 2 ==> Sym(ws[0]) != Sym(ws[1])
    ensures minCode < maxCode < p.Length
    ensures forall k | 0 <= k < num :: Sym(ws[k]) == minCode || Sym(ws[k]) == maxCode
    ensures num < 2 ==> minCode == 0 && maxCode == if num == 1 && Sym(ws[0]) > 0 then Sym(ws[0]) else 1
  {
    hide Sym;
    assert forall k | 0 <= k < num :: p[k] == ws[k];
    minCode := 0;
    maxCode := 1;
    if num != 0 {
      maxCode := Sym(p[num - 1]);
      if num == 2 {
        minCode := Sym(p[0]);
        if minCode > maxCode {
          var temp := minCode;
          minCode := maxCode;
          maxCode := temp;
        }
      } else if maxCode == 0 {
        maxCode := maxCode + 1;
      }
    }
  }

  /** HuffEnc.c:134-158. */
  method TwoCodes(p: array<Word>, lens: array<Byte>, num: nat, ghost ws: seq<Word>) returns (minCode: nat, maxCode: nat)
    requires num == |ws| <= 2 <= p.Length == lens.Length && p[..num] == ws
    requires forall k | 0 <= k < num :: Sym(ws[k]) < p.Length
    requires num == 2 ==> Sym(ws[0]) != Sym(ws[1])
    requires forall i | 0 <= i < lens.Length :: lens[i] == 0
    modifies p, lens
    ensures Pair(Lens(lens[..]), minCode, maxCode) && minCode < maxCode < p.Length && p[minCode] == 0 && p[maxCode] == 1
    ensures forall k | 0 <= k < num :: Sym(ws[k]) == minCode || Sym(ws[k]) == maxCode
    ensures num < 2 ==> minCode == 0 && maxCode == if num == 1 && Sym(ws[0]) > 0 then Sym(ws[0]) else 1
  {
    hide Sym, Pair;
    ghost var ls := Lens(lens[..]);
    minCode, maxCode := TwoSymbols(p, num, ws);
    p[minCode] := 0;
    p[maxCode] := 1;
    lens[minCode] := 1;
    lens[maxCode] := 1;
    TwoOnes(ls, minCode, maxCode);
    assert Lens(lens[..]) == ls[minCode := 1][maxCode := 1];
  }

  // ---------- Huffman_Generate ----------

  /** memset of the lengths (HuffEnc.c:60). */
  method ClearLens(lens: array<Byte>)
    modifies lens
    ensures forall i | 0 <= i < lens.Length :: lens[i] == 0
  {
    for i := 0 to lens.Length
      invariant forall j | 0 <= j < i :: lens[j] == 0
    {
      lens[i] := 0;
    }
  }

  lemma {:induction false} PairResult(freqs: seq<Word>, ls: seq<nat>, ps: seq<Word>, ws: seq<Word>, lo: nat,
                                      hi: nat, top: nat)
    requires SortedSymbols(freqs, ws) && |ws| <= 2 && |freqs| == |ls| == |ps| && 1 <= top < LEVELS
    requires Pair(ls, lo, hi) && ps[lo] == 0 && ps[hi] == 1
    requires forall k | 0 <= k < |ws| :: Sym(ws[k]) == lo || Sym(ws[k]) == hi
    ensures Coded(freqs, ls, ps, top)
    ensures |ws| == 2 ==> Optimal(freqs, ls) && Shallow(freqs, top)
    ensures |ws| == 2 ==> forall i | 0 <= i < |ls| :: ls[i] > 0 <==> freqs[i] > 0
  {
    hide *;
    PairUsed(freqs, ws, lo, hi);
    PairCoded(freqs, ls, ps, lo, hi, top);
    if |ws| == 2 {
      PairOptimal(freqs, ws, ls, lo, hi);
      PairExact(freqs, ws, ls, lo, hi);
      TwoLevels(QueueOf(ws));
      OnesAtMost(top);
      ShallowIff(freqs, ws, top);
    }
  }

  /** No symbol from the n-th on occurs. */
  ghost predicate NoneFrom(freqs: seq<Word>, n: nat) {
    forall i | n <= i < |freqs| :: freqs[i] == 0
  }

  /** With one used symbol or none: besides it symbol 0 has a code, or symbol 1 if there is no other. */
  lemma {:induction false} FewCodes(freqs: seq<Word>, ws: seq<Word>, ls: seq<nat>, lo: nat, hi: nat)
    requires SortedSymbols(freqs, ws) && |ws| < 2 && |ls| == |freqs| && Pair(ls, lo, hi)
    requires lo == 0 && hi == if |ws| == 1 && Sym(ws[0]) > 0 then Sym(ws[0]) else 1
    ensures forall i | 0 <= i < |ls| ::
              ls[i] == if freqs[i] > 0 || i == 0 || (i == 1 && NoneFrom(freqs, 1)) then 1 else 0
  {
    hide Sym, Freq;
    if |ws| == 1 {
      assert forall i | 0 <= i < |freqs| && freqs[i] > 0 :: i == Sym(ws[0]);
      assert freqs[Sym(ws[0])] > 0;
    } else {
      assert forall i | 0 <= i < |freqs| :: freqs[i] == 0;
    }
  }

  /** Nothing is said of fewer than three. */
  lemma {:induction false} FewLimited(freqs: seq<Word>, ws: seq<Word>, ls: seq<nat>, top: nat)
    requires SortedSymbols(freqs, ws) && |ws| <= 2
    ensures Limited(freqs, ls, top)
  {
    hide SortedSymbols;
    forall ws' | SortedSymbols(freqs, ws')
      ensures ws' == ws
    {
      SortedUnique(freqs, ws, ws');
    }
  }

  lemma {:induction false} OnesAtMost(top: nat)
    requires top >= 1
    ensures AtMost([1, 1], top)
  {
  }

  lemma {:induction false} PairUsed(freqs: seq<Word>, ws: seq<Word>, lo: nat, hi: nat)
    requires SortedSymbols(freqs, ws)
    requires forall k | 0 <= k < |ws| :: Sym(ws[k]) == lo || Sym(ws[k]) == hi
    ensures forall i | 0 <= i < |freqs| && freqs[i] > 0 :: i == lo || i == hi
  {
    hide Sym, Freq;
    forall i | 0 <= i < |freqs| && freqs[i] > 0
      ensures i == lo || i == hi
    {
      var k :| 0 <= k < |ws| && Sym(ws[k]) == i;
    }
  }

  lemma {:induction false} PairExact(freqs: seq<Word>, ws: seq<Word>, ls: seq<nat>, lo: nat, hi: nat)
    requires SortedSymbols(freqs, ws) && |ws| == 2 && |freqs| == |ls| && Pair(ls, lo, hi)
    requires forall k | 0 <= k < |ws| :: Sym(ws[k]) == lo || Sym(ws[k]) == hi
    ensures forall i | 0 <= i < |ls| :: ls[i] > 0 <==> freqs[i] > 0
  {
    DistinctSymbols(freqs, ws);
    PairUsed(freqs, ws, lo, hi);
    hide SortedSymbols, Sym, Freq;
    assert Sym(ws[0]) != Sym(ws[1]);
  }

  lemma {:induction false} DistinctSymbols(freqs: seq<Word>, ws: seq<Word>)
    requires SortedSymbols(freqs, ws)
    ensures forall k | 0 <= k < |ws| :: Sym(ws[k]) < |freqs| && freqs[Sym(ws[k])] > 0
    ensures |ws| == 2 ==> Sym(ws[0]) != Sym(ws[1])
  {
    SortedListing(freqs, ws);
    hide Sym, Freq;
    assert forall k | 0 <= k < |ws| :: Symbols(ws)[k] == Sym(ws[k]);
  }

  /** The tree, and how many leaves there are per level (HuffEnc.c:159-308). With too many
      symbols for the limit it ends only if no node is left to place after the last leaf,
      and then the counters are those of the tree, whatever the limit. */
  method CountLevels(p: array<Word>, num: nat, top: nat, ghost ws: seq<Word>)
    returns (ok: bool, counters: array<nat>, ghost cut: seq<nat>, ghost x: nat)
    requires 3 <= num <= p.Length && num <= SYMBOLS && 1 <= top < LEVELS
    requires p[..num] == ws && Sum(Weights(ws)) <= 0x3F_FFFF && Sort.Ascending(Weights(ws))
    modifies p
    ensures fresh(counters) && counters.Length == LEVELS
    ensures ok <==> num <= Pow2(top) || Paired(Weights(ws))
    ensures ok ==> SymbolsIn(p[..], Symbols(ws))
    ensures num <= Pow2(top) ==> Counted(counters[..], top, num) && (Clamped(ws, 0, top) || Exact(counters[..], ws, 0))
    ensures num <= Pow2(top) ==> CutTree(ws, cut, x, top) && LoweredTimes(cut, counters[..], x, top)
    ensures ok && num > Pow2(top) ==> Counted(counters[..], LEVELS - 1, num)
  {
    MostSymbols(num, top);
    hide *;
    var b, k := BuildTree(p, num, ws);
    ghost var limit := if num <= Pow2(top) then top else LEVELS - 1;
    BuiltFacts(ws, p[..], k, b);
    counters := LevelsUp(p, num, b, limit, ws, k);
    ghost var c := counters[..];
    CountedFacts(c, limit, num - b);
    LastLevel();
    if num > Pow2(top) {
      StuckOrCounted(ws, c, k, b, top);
    }
    ok, cut, x := LevelsDown(p, counters, num, b, top, ws);
    if b == 0 && num <= Pow2(top) {
      cut, x := c, 0;
      FromCutStart(ws, c, 0, top);
      FromCutEnd(ws, c, 0, c, top);
    }
    if ok {
      SymbolsIntro(p[..], ws);
    }
  }

  lemma {:induction false} LastLevel()
    ensures LEVELS == 17
  {
  }

  lemma {:induction false} MostSymbols(num: nat, top: nat)
    requires num <= SYMBOLS && 1 <= top < LEVELS
    ensures num < 0x1_0000 && num <= Pow2(LEVELS - 1) && LEVELS == 17
  {
    WordPowers();
  }

  lemma {:induction false} BuiltFacts(ws: seq<Word>, ps: seq<Word>, k: nat, b: nat)
    requires Built(ws, ps, k, b) && |ws| >= 3 && Sort.Ascending(Weights(ws))
    ensures b < |ws| && b == Gone(QueueOf(ws), k) && LeavesEnd(QueueOf(ws), k)
    ensures b == 0 <==> Paired(Weights(ws))
  {
    hide Run, Gone, Paired, Linked;
    RunShape(QueueOf(ws), k);
    PairedIff(QueueOf(ws), k);
  }

  lemma {:induction false} SymbolsIntro(ps: seq<Word>, ws: seq<Word>)
    requires SameSymbols(ws, ps)
    ensures SymbolsIn(ps, Symbols(ws))
  {
    hide Sym;
  }

  /** Why the lengths of the last part are optimal, if the clamp is not used. */
  lemma {:induction false} ExactOptimal(freqs: seq<Word>, ws: seq<Word>, c: seq<nat>, ls: seq<nat>, top: nat)
    requires SortedSymbols(freqs, ws) && |ws| >= 2 && |ls| == |freqs| && 1 <= top < LEVELS
    requires |c| == LEVELS && GivenTo(Symbols(ws), Expand(c, top), ls, |ws|)
    requires Clamped(ws, 0, top) || Exact(c, ws, 0)
    requires AtMost(LevelsOf(QueueOf(ws)).leaves, top)
    ensures Optimal(freqs, ls)
  {
    hide *;
    ClampedIff(ws, top);
    ExactLengths(ws, c, top);
    GivenPicked(Symbols(ws), Expand(c, top), ls);
    LengthsOptimal(freqs, ws, ls);
  }

  /** Every symbol has a length where the counters are those of the limit. */
  lemma {:induction false} CountedEnough(c: seq<nat>, top: nat, n: nat)
    requires Counted(c, top, n) && n <= SYMBOLS
    ensures Enough(c, top, n) && Padded(c, top, top, n) == Expand(c, top) && Bounded(c)
  {
    CountedFacts(c, top, n);
    hide Counted, Items, Padded, Bounded;
    PaddedFacts(c, top, n);
    CountedBounded(c, top, n);
  }

  lemma {:induction false} CountedBounded(c: seq<nat>, top: nat, n: nat)
    requires Counted(c, top, n) && n <= SYMBOLS
    ensures Bounded(c)
  {
    hide Items, Share, Pow2;
    forall u | 0 <= u < LEVELS
      ensures c[u] <= SYMBOLS
    {
      if u <= top {
        ItemsRest(c, u + 1, top + 1);
        ItemsNext(c, u);
      }
    }
  }

  lemma {:induction false} ItemsNext(c: seq<nat>, u: nat)
    requires u < |c|
    ensures Items(c, u + 1) >= c[u]
  {
  }

  /** And otherwise the last symbol has none. */
  lemma {:induction false} CutOffShort(c: seq<nat>, top: nat, n: nat)
    requires Counted(c, LEVELS - 1, n) && n <= SYMBOLS && 1 <= top < LEVELS && n > Pow2(top)
    ensures Enough(c, top, n) && Bounded(c)
    ensures |Padded(c, top, top, n)| == n && Padded(c, top, top, n)[n - 1] == 0
  {
    CountedFacts(c, LEVELS - 1, n);
    LeavesCutOff(c, top, n);
    hide Counted, Items, Padded, Bounded, Pow2;
    PaddedFacts(c, top, n);
    CountedBounded(c, LEVELS - 1, n);
  }

  lemma {:induction false} LengthsBounded(ss: seq<nat>, c: seq<nat>, ls: seq<nat>, top: nat)
    requires Enough(c, top, |ss|) && GivenTo(ss, Padded(c, top, top, |ss|), ls, |ss|)
    ensures forall i | 0 <= i < |ls| :: ls[i] <= top < LEVELS
  {
    PaddedFacts(c, top, |ss|);
    hide Padded, Items;
    assert ss[..|ss|] == ss;
    forall i | 0 <= i < |ls|
      ensures ls[i] <= top
    {
      if i in ss {
        var k :| 0 <= k < |ss| && ss[k] == i;
        assert ls[i] == Padded(c, top, top, |ss|)[k];
      }
    }
  }

  /** Lengths and codes from the counters (HuffEnc.c:309-344). */
  method GiveAllCodes(p: array<Word>, lens: array<Byte>, counters: array<nat>, top: nat, ghost ss: seq<nat>)
    requires p.Length == lens.Length <= SYMBOLS && SymbolsIn(p[..], ss) && Listing(ss, lens.Length)
    requires Enough(counters[..], top, |ss|) && Bounded(counters[..])
    requires forall i | 0 <= i < lens.Length :: lens[i] == 0
    modifies p, lens
    ensures counters[..] == old(counters[..]) && counters.Length == LEVELS
    ensures GivenTo(ss, Padded(counters[..], top, top, |ss|), Lens(lens[..]), |ss|)
    ensures forall i | 0 <= i < p.Length :: lens[i] <= top < LEVELS
    ensures forall i | 0 <= i < p.Length :: p[i] == Canonical(Lens(lens[..]), counters[..], i)
  {
    hide *;
    ghost var c := counters[..];
    GiveLengths(p, lens, counters, top, ss);
    ghost var ls := Lens(lens[..]);
    LengthsBounded(ss, c, ls, top);
    var codes := FirstCodes(counters, ls);
    GiveCodes(p, lens, codes, ls, c);
  }

  /** Why a tree that is too deep leaves the lengths of the last part dearer. */
  lemma {:induction false} GivenShallow(freqs: seq<Word>, ws: seq<Word>, c: seq<nat>, ls: seq<nat>, top: nat)
    requires SortedSymbols(freqs, ws) && |ws| >= 2 && |ls| == |freqs| && Optimal(freqs, ls)
    requires Counted(c, top, |ws|) && GivenTo(Symbols(ws), Expand(c, top), ls, |ws|)
    ensures AtMost(LevelsOf(QueueOf(ws)).leaves, top)
  {
    CountedFacts(c, top, |ws|);
    ExpandFacts(c, top, top);
    hide *;
    GivenPicked(Symbols(ws), Expand(c, top), ls);
    FitsIntro(Expand(c, top), top);
    OptimalShallow(freqs, ws, ls, top);
  }

  lemma {:induction false} OrderedAscending(ws: seq<Word>)
    requires Ordered(QueueOf(ws))
    ensures Sort.Ascending(Weights(ws))
  {
  }

  /** The most frequent symbol has no code. */
  lemma {:induction false} LastUngiven(freqs: seq<Word>, ws: seq<Word>, full: seq<nat>, ls: seq<nat>)
    requires SortedSymbols(freqs, ws) && |ws| >= 3 && |ls| == |freqs| && |full| == |ws| && full[|ws| - 1] == 0
    requires GivenTo(Symbols(ws), full, ls, |ws|)
    ensures exists i :: 0 <= i < |freqs| && freqs[i] > 0 && ls[i] == 0
  {
    hide Sym, Freq;
    assert ls[Symbols(ws)[|ws| - 1]] == 0;
  }

  /** Why the lengths are those of the tree, or of its lowered leaves. */
  lemma {:induction false} GivenLimited(freqs: seq<Word>, ws: seq<Word>, c: seq<nat>, ls: seq<nat>, cut: seq<nat>,
                                        x: nat, top: nat)
    requires SortedSymbols(freqs, ws) && |ls| == |freqs| && Counted(c, top, |ws|)
    requires GivenTo(Symbols(ws), Expand(c, top), ls, |ws|)
    requires CutTree(ws, cut, x, top) && LoweredTimes(cut, c, x, top)
    ensures Limited(freqs, ls, top)
  {
    hide *;
    CountedFacts(c, top, |ws|);
    ExpandFacts(c, top, top);
    GivenHist(Symbols(ws), c, ls, top, |ws|);
    GivenPicked(Symbols(ws), Expand(c, top), ls);
    LimitedIntro(freqs, ws, ls, c, cut, x, top);
  }

  /** Three symbols or more: the tree, the levels, the lengths, the codes. Not ok where the
      search for a leaf reads on below its counters, which is as far as the model goes. */
  method TreeCodes(p: array<Word>, lens: array<Byte>, num: nat, top: nat, ghost freqs: seq<Word>,
                   ghost ws: seq<Word>) returns (ok: bool)
    requires p.Length == lens.Length == |freqs| <= SYMBOLS && 3 <= num <= p.Length && 1 <= top < LEVELS
    requires p[..num] == ws && SortedSymbols(freqs, ws) && Sum(Weights(ws)) <= 0x3F_FFFF
    requires forall i | 0 <= i < lens.Length :: lens[i] == 0
    modifies p, lens
    ensures ok <==> num <= Pow2(top) || Paired(Weights(ws))
    ensures num <= Pow2(top) ==> Coded(freqs, Lens(lens[..]), p[..], top)
    ensures num <= Pow2(top) ==> forall i | 0 <= i < |freqs| :: lens[i] > 0 <==> freqs[i] > 0
    ensures num <= Pow2(top) ==> (Optimal(freqs, Lens(lens[..])) <==> AtMost(LevelsOf(QueueOf(ws)).leaves, top))
    ensures num <= Pow2(top) ==> Limited(freqs, Lens(lens[..]), top)
    ensures ok && num > Pow2(top) ==> exists i :: 0 <= i < |freqs| && freqs[i] > 0 && lens[i] == 0
  {
    hide *;
    ghost var zero := lens[..];
    SortedOrdered(freqs, ws);
    OrderedAscending(ws);
    var counters;
    ghost var cut, x;
    ok, counters, cut, x := CountLevels(p, num, top, ws);
    if !ok {
      return;
    }
    assert lens[..] == zero;
    assert forall i | 0 <= i < lens.Length :: lens[i] == zero[i];
    ghost var c, ss := counters[..], Symbols(ws);
    SortedListing(freqs, ws);
    if num <= Pow2(top) {
      CountedEnough(c, top, num);
    } else {
      CutOffShort(c, top, num);
    }
    GiveAllCodes(p, lens, counters, top, ss);
    ghost var ls := Lens(lens[..]);
    if num <= Pow2(top) {
      GivenHist(ss, c, ls, top, num);
      GivenCoded(freqs, ws, c, ls, p[..], top);
      GivenLimited(freqs, ws, c, ls, cut, x, top);
      if AtMost(LevelsOf(QueueOf(ws)).leaves, top) {
        ExactOptimal(freqs, ws, c, ls, top);
      } else if Optimal(freqs, ls) {
        GivenShallow(freqs, ws, c, ls, top);
        assert false;
      }
    } else {
      LastUngiven(freqs, ws, Padded(c, top, top, num), ls);
    }
  }

  /** The whole function. It does what it promises exactly when the limit has as many words
      as there are used symbols. Otherwise the search for a leaf reads below its counters,
      unless the symbols pair off: then the function ends, and leaves a symbol without code. */
  method Generate(freqs: array<Word>, p: array<Word>, lens: array<Byte>, maxLen: nat) returns (ok: bool)
    requires freqs != p && freqs.Length == p.Length == lens.Length && Given(freqs[..])
    requires 1 <= maxLen <= 16
    modifies p, lens
    ensures freqs[..] == old(freqs[..])
    ensures ok <==> UsedCount(freqs[..]) <= Pow2(maxLen) || PairsOff(freqs[..])
    ensures ok ==> (Coded(freqs[..], Lens(lens[..]), p[..], maxLen) <==> UsedCount(freqs[..]) <= Pow2(maxLen))
    ensures ok && UsedCount(freqs[..]) > Pow2(maxLen) ==>
              exists i :: 0 <= i < lens.Length && freqs[i] > 0 && lens[i] == 0
    ensures 2 <= UsedCount(freqs[..]) <= Pow2(maxLen) ==>
              forall i | 0 <= i < lens.Length :: lens[i] > 0 <==> freqs[i] > 0
    ensures 2 <= UsedCount(freqs[..]) <= Pow2(maxLen) ==>
              (Optimal(freqs[..], Lens(lens[..])) <==> Shallow(freqs[..], maxLen))
    ensures 2 <= UsedCount(freqs[..]) <= Pow2(maxLen) ==> Limited(freqs[..], Lens(lens[..]), maxLen)
    ensures UsedCount(freqs[..]) < 2 ==> forall i | 0 <= i < lens.Length ::
              lens[i] == if freqs[i] > 0 || i == 0 || (i == 1 && NoneFrom(freqs[..], 1)) then 1 else 0
  {
    hide *;
    ghost var fs := freqs[..];
    ClearLens(lens);
    assert freqs[..] == fs;
    var num := SortSymbols(freqs, p);
    ghost var ws := p[..num];
    SortedSize(fs, ws);
    SortedTotal(fs, ws);
    DistinctSymbols(fs, ws);
    GivenFacts(fs);
    if num <= 2 {
      var lo, hi := TwoCodes(p, lens, num, ws);
      assert p[..][lo] == 0 && p[..][hi] == 1;
      PairResult(fs, Lens(lens[..]), p[..], ws, lo, hi, maxLen);
      FewLimited(fs, ws, Lens(lens[..]), maxLen);
      if num < 2 {
        FewCodes(fs, ws, Lens(lens[..]), lo, hi);
      }
      ok := true;
    } else {
      ok := TreeCodes(p, lens, num, maxLen, fs, ws);
      PairsOffIff(fs, ws);
      ShallowIff(fs, ws, maxLen);
    }
    if Coded(fs, Lens(lens[..]), p[..], maxLen) {
      CodedFits(fs, Lens(lens[..]), p[..], maxLen);
    }
  }

  lemma {:induction false} GivenFacts(freqs: seq<Word>)
    requires Given(freqs)
    ensures 2 <= |freqs| <= SYMBOLS && Total(freqs) <= 0x3F_FFFF && LEVELS == 17
  {
  }

  /** One bit for symbols that occur once each: three do not pair off, four do. */
  lemma {:induction false} OneBit()
    ensures Given([1, 1, 1]) && UsedCount([1, 1, 1]) > Pow2(1) && !PairsOff([1, 1, 1])
    ensures Given([1, 1, 1, 1]) && UsedCount([1, 1, 1, 1]) > Pow2(1) && PairsOff([1, 1, 1, 1])
  {
    assert Pow2(1) == 2;
  }

  /** So the conditions of HuffEnc.h:13-18 do not keep the search inside its counters. */
  method ThreeOnes() returns (ok: bool)
    ensures !ok
  {
    var freqs := new Word[3](_ => 1);
    var p, lens := new Word[3], new Byte[3];
    assert freqs[..] == [1, 1, 1];
    OneBit();
    ok := Generate(freqs, p, lens, 1);
  }
}
