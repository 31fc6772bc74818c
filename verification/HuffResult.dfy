/** What Huffman_Generate promises, and why: a complete canonical prefix code, and the
    cheapest one exactly when the unlimited tree is no deeper than the limit. */
module HuffResult {
  import opened Arith
  import opened Machine
  import opened HuffBuild
  import opened HuffCodes
  import opened HuffDepth
  import opened HuffLevels
  import opened HuffOptimal
  import opened HuffRun
  import opened HuffSort
  import opened HuffSymbols
  import opened HuffTies
  import opened HuffTree
  import opened Sums

  /** The m first symbols of the list have their length, all the others 0. */
  ghost predicate GivenTo(ss: seq<nat>, full: seq<nat>, ls: seq<nat>, m: nat) {
    && |full| == |ss| && m <= |ss| && Listing(ss, |ls|)
    && (forall k | 0 <= k < m :: ls[ss[k]] == full[k])
    && (forall i | 0 <= i < |ls| && i !in ss[..m] :: ls[i] == 0)
  }

  lemma {:induction false} GiveNext(ss: seq<nat>, full: seq<nat>, ls: seq<nat>, m: nat, ls': seq<nat>)
    requires GivenTo(ss, full, ls, m) && m < |ss| && |ls'| == |ls|
    requires ls' == ls[ss[m] := full[m]]
    ensures GivenTo(ss, full, ls', m + 1)
  {
    assert ss[..m + 1] == ss[..m] + [ss[m]];
  }

  lemma {:induction false} GivenSizes(ss: seq<nat>, full: seq<nat>, ls: seq<nat>, m: nat)
    requires GivenTo(ss, full, ls, m)
    ensures |full| == |ss| && m <= |ss| && forall k | 0 <= k < |ss| :: ss[k] < |ls|
  {
  }

  /** Where only zeros are left to give, all is given. */
  lemma {:induction false} GivenRest(ss: seq<nat>, full: seq<nat>, ls: seq<nat>, m: nat)
    requires GivenTo(ss, full, ls, m) && forall k | m <= k < |ss| :: full[k] == 0
    ensures GivenTo(ss, full, ls, |ss|)
  {
    forall k | m <= k < |ss|
      ensures ls[ss[k]] == 0
    {
      assert ss[k] !in ss[..m];
    }
    assert forall i | i in ss[..m] :: i in ss[..|ss|];
  }

  /** How many codes there are of each length below n. */
  ghost function CountsBelow(ls: seq<nat>, n: nat): (r: seq<nat>)
    requires n >= 1
    ensures |r| == n && r[0] == 0 && forall v | 1 <= v < n :: r[v] == CountIn(ls, v)
    ensures Histogram(ls, r)
  {
    seq(n, v requires 0 <= v < n => if v == 0 then 0 else CountIn(ls, v))
  }

  /** How many codes there are of each length. */
  ghost function Hist(ls: seq<nat>): (r: seq<nat>)
    ensures |r| == LEVELS && r[0] == 0 && forall v | 1 <= v < LEVELS :: r[v] == CountIn(ls, v)
    ensures Histogram(ls, r)
  {
    CountsBelow(ls, LEVELS)
  }

  /** Symbol i occurs less often than j, or as often and comes before it. */
  ghost predicate Rarer(freqs: seq<Word>, i: int, j: int)
    requires 0 <= i < |freqs| && 0 <= j < |freqs|
  {
    0 < freqs[i] && (freqs[i] < freqs[j] || (freqs[i] == freqs[j] && i < j))
  }

  /** A complete canonical prefix code, no length above top, in which a symbol that
      occurs less often, or as often and earlier, never has a shorter code. */
  ghost predicate Coded(freqs: seq<Word>, ls: seq<nat>, codes: seq<Word>, top: nat) {
    && |freqs| == |ls| == |codes| && 1 <= top < LEVELS
    && (forall i | 0 <= i < |ls| :: ls[i] <= top && (freqs[i] > 0 ==> ls[i] >= 1))
    && Share(Hist(ls), top + 1, top) == Pow2(top)
    && (forall i, j | 0 <= i < |ls| && 0 <= j < |ls| && Rarer(freqs, i, j) :: ls[i] >= ls[j])
    && (forall i | 0 <= i < |ls| && ls[i] >= 1 :: codes[i] == Canonical(ls, Hist(ls), i))
  }

  lemma {:induction false} CodedIntro(freqs: seq<Word>, ls: seq<nat>, codes: seq<Word>, top: nat)
    requires |freqs| == |ls| == |codes| && 1 <= top < LEVELS
    requires forall i | 0 <= i < |ls| :: ls[i] <= top && (freqs[i] > 0 ==> ls[i] >= 1)
    requires Share(Hist(ls), top + 1, top) == Pow2(top)
    requires forall i, j | 0 <= i < |ls| && 0 <= j < |ls| && Rarer(freqs, i, j) :: ls[i] >= ls[j]
    requires forall i | 0 <= i < |ls| && ls[i] >= 1 :: codes[i] == Canonical(ls, Hist(ls), i)
    ensures Coded(freqs, ls, codes, top)
  {
    hide Share, Hist, Pow2, Canonical;
  }

  /** In such a code each word begins where the words of shorter ones, and of earlier ones of its
      length, end. */
  lemma {:induction false} CodedPlace(freqs: seq<Word>, ls: seq<nat>, codes: seq<Word>, top: nat, i: nat)
    requires Coded(freqs, ls, codes, top) && i < |ls| && ls[i] >= 1
    ensures codes[i] * Pow2(top - ls[i]) == PlacesBefore(ls, i, |ls|, top)
  {
    hide Canonical, Share, Pow2, Hist, PlacesBefore, Histogram;
    CanonicalPlace(ls, Hist(ls), i, top);
  }

  /** In such a code no word begins another, and every word has its length. */
  lemma {:induction false} CodedPrefixFree(freqs: seq<Word>, ls: seq<nat>, codes: seq<Word>, top: nat, i: nat, j: nat)
    requires Coded(freqs, ls, codes, top) && i < |ls| && j < |ls| && ls[i] >= 1 && ls[j] >= 1
    ensures codes[i] < Pow2(ls[i])
    ensures i != j ==> !(Bits(codes[i], ls[i]) <= Bits(codes[j], ls[j]))
  {
    hide Canonical, Share, Pow2, Bits, Hist;
    CodeFits(ls, Hist(ls), i, top);
    if i != j {
      CanonicalPrefixFree(ls, Hist(ls), i, j, top);
    }
  }

  /** The words of the symbols that occur form a prefix code. */
  ghost predicate UsedPrefixFree(freqs: seq<Word>, words: seq<seq<bool>>)
    requires |words| == |freqs|
  {
    forall i, j | 0 <= i < |freqs| && 0 <= j < |freqs| && i != j && freqs[i] > 0 && freqs[j] > 0 ::
      !(words[i] <= words[j])
  }

  /** No prefix code at all, of whatever lengths, is cheaper. */
  ghost predicate Optimal(freqs: seq<Word>, ls: seq<nat>)
    requires |ls| == |freqs|
  {
    forall words: seq<seq<bool>> | |words| == |freqs| && UsedPrefixFree(freqs, words) ::
      Cost(Nats(freqs), ls) <= Cost(Nats(freqs), LengthsOf(words))
  }

  /** The unlimited Huffman tree has no leaf below level top. */
  ghost predicate Shallow(freqs: seq<Word>, top: nat) {
    forall ws | SortedSymbols(freqs, ws) && ws != [] :: AtMost(LevelsOf(QueueOf(ws)).leaves, top)
  }

  lemma {:induction false} AtMostSum(l: seq<nat>)
    ensures AtMost(l, Sum(l))
  {
    if l != [] {
      AtMostSum(l[1..]);
      forall i | 0 <= i < |l|
        ensures l[i] <= Sum(l)
      {
        assert i > 0 ==> l[i] == l[1..][i - 1];
      }
    }
  }

  lemma {:induction false} SortedOrdered(freqs: seq<Word>, ws: seq<Word>)
    requires SortedSymbols(freqs, ws)
    ensures Ordered(QueueOf(ws))
  {
    var w := Weights(ws);
    forall i, j | 0 <= i < j < |w|
      ensures w[i] <= w[j]
    {
      assert ws[i] < ws[j];
    }
  }

  /** The levels of the tree are the cheapest lengths that fit any code. */
  lemma {:induction false} TreeOptimal(freqs: seq<Word>, ws: seq<Word>, l: seq<nat>, top: nat)
    requires SortedSymbols(freqs, ws) && ws != [] && |l| == |ws| && Fits(l, top)
    ensures Cost(Weights(ws), LevelsOf(QueueOf(ws)).leaves) <= Cost(Weights(ws), l)
  {
    hide LevelsOf, Fits, SortedSymbols, Ordered, MergeCost;
    var q := QueueOf(ws);
    SortedOrdered(freqs, ws);
    LowerBound(q, l, top);
    LevelsCost(q);
    assert q.leaves + q.nodes == q.leaves;
    assert LevelsOf(q).nodes == [] && Cost([], []) == 0;
  }

  lemma {:induction false} UsedWords(freqs: seq<Word>, ws: seq<Word>, words: seq<seq<bool>>)
    requires SortedSymbols(freqs, ws) && |words| == |freqs| && UsedPrefixFree(freqs, words)
    ensures Listing(Symbols(ws), |words|) && PrefixFree(Picked(words, Symbols(ws)))
    ensures Picked(LengthsOf(words), Symbols(ws)) == LengthsOf(Picked(words, Symbols(ws)))
  {
    SortedListing(freqs, ws);
    var s := Symbols(ws);
    hide SortedSymbols, Sym;
    var r := Picked(words, s);
    forall i, j | 0 <= i < |r| && 0 <= j < |r| && i != j
      ensures !(r[i] <= r[j])
    {
      assert s[i] in s && s[j] in s;
      assert s[i] != s[j];
    }
  }

  lemma {:induction false} LengthsOptimal(freqs: seq<Word>, ws: seq<Word>, ls: seq<nat>)
    requires SortedSymbols(freqs, ws) && ws != [] && |ls| == |freqs|
    requires Listing(Symbols(ws), |ls|) && Picked(ls, Symbols(ws)) == LevelsOf(QueueOf(ws)).leaves
    ensures Optimal(freqs, ls)
  {
    hide LevelsOf, SortedSymbols, Cost, UsedPrefixFree, PrefixFree, Listing, Fits, Kraft, Sum;
    SortedCost(freqs, ws, ls);
    forall words: seq<seq<bool>> | |words| == |freqs| && UsedPrefixFree(freqs, words)
      ensures Cost(Nats(freqs), ls) <= Cost(Nats(freqs), LengthsOf(words))
    {
      UsedWords(freqs, ws, words);
      var r := Picked(words, Symbols(ws));
      var l := LengthsOf(r);
      SortedCost(freqs, ws, LengthsOf(words));
      AtMostSum(l);
      KraftInequality(r, Sum(l));
      FitsIntro(l, Sum(l));
      TreeOptimal(freqs, ws, l, Sum(l));
    }
  }

  lemma {:induction false} GivenPicked(ss: seq<nat>, full: seq<nat>, ls: seq<nat>)
    requires GivenTo(ss, full, ls, |ss|)
    ensures Listing(ss, |ls|) && OnlyListed(ls, ss) && Picked(ls, ss) == full
  {
    assert ss[..|ss|] == ss;
  }

  /** In a tree of two leaves or more none is at level 0. */
  lemma {:induction false} LeavesBelow(q: Queue)
    requires Size(q) >= 2
    ensures AtLeastOne(LevelsOf(q).leaves) && AtLeastOne(LevelsOf(q).nodes)
    decreases Size(q)
  {
    hide LevelsOf, Step, NodesTaken, Repeat;
    var c, ll, ln, m := LevelsStep(q);
    if Size(q) > 2 {
      LeavesBelow(Step(q));
      assert AtLeastOne(ll) && AtLeastOne(ln) by {
        assert forall i | 0 <= i < |ln| :: ln[i] == (ln + [m])[i];
      }
    } else {
      assert ll == [] && ln == [];
    }
    RepeatAtLeast(m, 2 - c, ll);
    RepeatAtLeast(m, c, ln);
  }

  lemma {:induction false} RepeatAtLeast(m: nat, k: nat, l: seq<nat>)
    requires AtLeastOne(l)
    ensures AtLeastOne(Repeat(m + 1, k) + l)
  {
  }

  lemma {:induction false} GivenAtLeastOne(freqs: seq<Word>, ws: seq<Word>, full: seq<nat>, ls: seq<nat>, top: nat,
                                           i: nat)
    requires SortedSymbols(freqs, ws) && |ls| == |freqs| && GivenTo(Symbols(ws), full, ls, |ws|)
    requires AtLeastOne(full) && AtMost(full, top) && i < |ls|
    ensures ls[i] <= top && (ls[i] > 0 <==> freqs[i] > 0)
  {
    SortedListing(freqs, ws);
    hide SortedSymbols, Sym, Freq;
    var ss := Symbols(ws);
    assert ss[..|ss|] == ss;
    if i in ss {
      var k :| 0 <= k < |ss| && ss[k] == i;
      assert ls[i] == full[k];
    }
  }

  // ---------- the tree as a code ----------

  /** Lengths for n symbols: those of the list as given, the others 0. */
  ghost function GiveAll(ss: seq<nat>, full: seq<nat>, n: nat, m: nat): (r: seq<nat>)
    requires |full| == |ss| && m <= |ss| && Listing(ss, n)
    ensures |r| == n
  {
    if m == 0 then Repeat(0, n) else GiveAll(ss, full, n, m - 1)[ss[m - 1] := full[m - 1]]
  }

  lemma {:induction false} GiveAllTo(ss: seq<nat>, full: seq<nat>, n: nat, m: nat)
    requires |full| == |ss| && m <= |ss| && Listing(ss, n)
    ensures GivenTo(ss, full, GiveAll(ss, full, n, m), m)
  {
    if m > 0 {
      GiveAllTo(ss, full, n, m - 1);
      hide Listing, GivenTo;
      GiveNext(ss, full, GiveAll(ss, full, n, m - 1), m - 1, GiveAll(ss, full, n, m));
    }
  }

  /** The counts of lengths that fall are the counts that they expand from. */
  lemma {:induction false} FallingExpand(l: seq<nat>, c: seq<nat>, top: nat)
    requires Falling(l) && AtMost(l, top) && AtLeastOne(l) && |c| == top + 1 && c[0] == 0
    requires forall v | 1 <= v <= top :: c[v] == CountIn(l, v)
    ensures Share(c, top + 1, top) == Kraft(l, top)
  {
    hide Falling, AtMost, AtLeastOne, CountIn, Share, Kraft, Expand;
    ExpandUnique(l, c, top);
    ExpandFacts(c, top, top);
  }

  /** The levels of the tree are the lengths of a canonical code. */
  lemma {:induction false} LevelsShare(ws: seq<Word>, ls: seq<nat>, top: nat)
    requires |ws| >= 2 && top >= 1 && AtMost(LevelsOf(QueueOf(ws)).leaves, top)
    requires Listing(Symbols(ws), |ls|) && OnlyListed(ls, Symbols(ws))
    requires Picked(ls, Symbols(ws)) == LevelsOf(QueueOf(ws)).leaves
    ensures Share(CountsBelow(ls, top + 1), top + 1, top) == Pow2(top)
  {
    hide LevelsOf, CountIn, AtMost, Falling, AtLeastOne, Share, Kraft, Pow2, Listing, OnlyListed, QueueOf;
    var q := QueueOf(ws);
    var l := LevelsOf(q).leaves;
    LevelsFall(q);
    LeavesBelow(q);
    LevelsNone(q, top);
    KraftExact(q, top);
    var c := CountsBelow(ls, top + 1);
    forall v | 1 <= v <= top
      ensures c[v] == CountIn(l, v)
    {
      SortedCount(ls, Symbols(ws), v);
    }
    FallingExpand(l, c, top);
  }

  lemma {:induction false} LevelsNone(q: Queue, top: nat)
    requires q.nodes == [] && Size(q) >= 1 && AtMost(LevelsOf(q).leaves, top)
    ensures LevelsAtMost(LevelsOf(q), top) && Kraft(LevelsOf(q).nodes, top) == 0
  {
    hide LevelsOf;
    assert LevelsOf(q).nodes == [];
  }

  /** The words of the canonical code with lengths ls. */
  ghost function CanonicalWords(ls: seq<nat>, c: seq<nat>): (r: seq<seq<bool>>)
    requires forall i | 0 <= i < |ls| :: ls[i] < |c|
    ensures |r| == |ls| && forall i | 0 <= i < |ls| :: r[i] == Bits(Canonical(ls, c, i), ls[i])
    ensures LengthsOf(r) == ls
  {
    seq(|ls|, i requires 0 <= i < |ls| => Bits(Canonical(ls, c, i), ls[i]))
  }

  lemma {:induction false} CanonicalUsed(freqs: seq<Word>, ls: seq<nat>, c: seq<nat>, top: nat)
    requires |ls| == |freqs| && |c| == top + 1 && Histogram(ls, c) && Share(c, top + 1, top) <= Pow2(top)
    requires forall i | 0 <= i < |ls| :: ls[i] <= top && (freqs[i] > 0 ==> ls[i] >= 1)
    ensures UsedPrefixFree(freqs, CanonicalWords(ls, c))
  {
    hide Histogram, Share, Pow2, Bits, Canonical;
    forall i, j | 0 <= i < |freqs| && 0 <= j < |freqs| && i != j && freqs[i] > 0 && freqs[j] > 0
      ensures !(CanonicalWords(ls, c)[i] <= CanonicalWords(ls, c)[j])
    {
      CanonicalPrefixFree(ls, c, i, j, top);
    }
  }

  /** A prefix code that costs as much as the tree. */
  lemma {:induction false} TreeWords(freqs: seq<Word>, ws: seq<Word>) returns (words: seq<seq<bool>>)
    requires SortedSymbols(freqs, ws) && |ws| >= 2
    ensures |words| == |freqs| && UsedPrefixFree(freqs, words)
    ensures Cost(Nats(freqs), LengthsOf(words)) == MergeCost(QueueOf(ws))
  {
    hide LevelsOf, SortedSymbols, Cost, MergeCost, UsedPrefixFree, GivenTo, AtMost, AtLeastOne, Share, Pow2,
      Listing, OnlyListed, QueueOf, Kraft, Sum, GiveAll, Histogram;
    var q := QueueOf(ws);
    var ss, l := Symbols(ws), LevelsOf(q).leaves;
    SortedListing(freqs, ws);
    LeavesBelow(q);
    AtMostSum(l);
    var top := Sum(l) + 1;
    AtMostMore(l, Sum(l), top);
    var ls := GiveAll(ss, l, |freqs|, |ss|);
    GiveAllTo(ss, l, |freqs|, |ss|);
    GivenPicked(ss, l, ls);
    LevelsShare(ws, ls, top);
    var c := CountsBelow(ls, top + 1);
    forall i | 0 <= i < |ls|
      ensures ls[i] <= top && (freqs[i] > 0 ==> ls[i] >= 1)
    {
      GivenAtLeastOne(freqs, ws, l, ls, top, i);
    }
    CanonicalUsed(freqs, ls, c, top);
    words := CanonicalWords(ls, c);
    SortedCost(freqs, ws, ls);
    LevelsCost(q);
    NoCost(q);
  }

  lemma {:induction false} NoCost(q: Queue)
    requires q.nodes == [] && Size(q) >= 1
    ensures Cost(q.nodes, LevelsOf(q).nodes) == 0
  {
    hide LevelsOf;
  }

  // ---------- optimal exactly when shallow ----------

  lemma {:induction false} SortedRanked(freqs: seq<Word>, ws: seq<Word>)
    requires SortedSymbols(freqs, ws)
    ensures Ranked(QueueOf(ws), [])
  {
    SortedOrdered(freqs, ws);
    hide Ordered;
  }

  /** Optimal lengths within the limit: then the tree is within the limit too. */
  lemma {:induction false} OptimalShallow(freqs: seq<Word>, ws: seq<Word>, ls: seq<nat>, top: nat)
    requires SortedSymbols(freqs, ws) && |ws| >= 2 && |ls| == |freqs| && Optimal(freqs, ls)
    requires Listing(Symbols(ws), |ls|) && Fits(Picked(ls, Symbols(ws)), top)
    ensures AtMost(LevelsOf(QueueOf(ws)).leaves, top)
  {
    hide SortedSymbols, Cost, UsedPrefixFree, Listing, Fits, LevelsOf, Ranked, MergeCost, AtMost, QueueOf;
    var words := TreeWords(freqs, ws);
    SortedCost(freqs, ws, ls);
    SortedRanked(freqs, ws);
    var l := Picked(ls, Symbols(ws));
    FitsUnder(QueueOf(ws), l, top);
    TreeUnder(QueueOf(ws), [], l, top, top);
  }

  lemma {:induction false} FitsUnder(q: Queue, l: seq<nat>, top: nat)
    requires q.nodes == [] && |l| == Size(q) >= 1 && Fits(l, top) && Cost(q.leaves, l) <= MergeCost(q)
    ensures Cheapest(q, [], l, top, top)
  {
    hide Cost, MergeCost, Kraft;
    assert q.leaves + q.nodes == q.leaves;
  }

  /** There is only one sorted list. */
  lemma {:induction false} SortedUnique(freqs: seq<Word>, ws: seq<Word>, ws': seq<Word>)
    requires SortedSymbols(freqs, ws) && SortedSymbols(freqs, ws')
    ensures ws == ws'
  {
    forall x: Word
      ensures x in ws <==> x in ws'
    {
      SortedMember(freqs, ws, x);
      SortedMember(freqs, ws', x);
    }
    hide Sym, Freq;
    RisingUnique(ws, ws');
  }

  lemma {:induction false} SortedMember(freqs: seq<Word>, ws: seq<Word>, x: Word)
    requires SortedSymbols(freqs, ws)
    ensures x in ws <==> Sym(x) < |freqs| && Freq(x) == freqs[Sym(x)] > 0
  {
    if Sym(x) < |freqs| && Freq(x) == freqs[Sym(x)] > 0 {
      var k :| 0 <= k < |ws| && Sym(ws[k]) == Sym(x);
      assert ws[k] == Freq(ws[k]) * SYMBOLS + Sym(ws[k]) && x == Freq(x) * SYMBOLS + Sym(x);
    }
  }

  lemma {:induction false} FirstIn(t: seq<Word>)
    requires t != []
    ensures t[0] in t
  {
  }

  lemma {:induction false} RisingUnique(s: seq<Word>, t: seq<Word>)
    requires forall i, j | 0 <= i < j < |s| :: s[i] < s[j]
    requires forall i, j | 0 <= i < j < |t| :: t[i] < t[j]
    requires forall x :: x in s <==> x in t
    ensures s == t
  {
    if s == [] {
      if t != [] {
        FirstIn(t);
        assert false;
      }
    } else {
      assert s[0] in t;
      assert t[0] in s;
      assert s[0] == t[0];
      forall x
        ensures x in s[1..] <==> x in t[1..]
      {
        assert x in s <==> x == s[0] || x in s[1..];
        assert x in t <==> x == t[0] || x in t[1..];
      }
      RisingUnique(s[1..], t[1..]);
      assert s == [s[0]] + s[1..] && t == [t[0]] + t[1..];
    }
  }

  lemma {:induction false} ShallowIff(freqs: seq<Word>, ws: seq<Word>, top: nat)
    requires SortedSymbols(freqs, ws) && ws != []
    ensures Shallow(freqs, top) <==> AtMost(LevelsOf(QueueOf(ws)).leaves, top)
  {
    forall ws' | SortedSymbols(freqs, ws') && ws' != []
      ensures ws' == ws
    {
      SortedUnique(freqs, ws, ws');
    }
    hide SortedSymbols, LevelsOf, AtMost, QueueOf;
  }

  // ---------- what the caller can check beforehand ----------

  /** No limit of top bits is ever too small for frequencies that sum to less than a
      Fibonacci number. */
  lemma {:induction false} LightIsShallow(freqs: seq<Word>, top: nat)
    requires Total(freqs) < Fib(top + 3)
    ensures Shallow(freqs, top)
  {
    forall ws | SortedSymbols(freqs, ws) && ws != []
      ensures AtMost(LevelsOf(QueueOf(ws)).leaves, top)
    {
      SortedTotal(freqs, ws);
      SortedRanked(freqs, ws);
      SortedAtLeast(freqs, ws);
      hide Fib, LevelsOf, SortedSymbols, Total;
      ShallowTree(QueueOf(ws), top);
    }
  }

  lemma {:induction false} SortedAtLeast(freqs: seq<Word>, ws: seq<Word>)
    requires SortedSymbols(freqs, ws)
    ensures AtLeast(QueueOf(ws).leaves, 1) && WeightOf(QueueOf(ws)) == Sum(Weights(ws)) && Ordered(QueueOf(ws))
  {
    SortedOrdered(freqs, ws);
    hide Ordered;
  }

  /** The used ones of the first n symbols. */
  ghost function UsedList(freqs: seq<Word>, n: nat): (r: seq<nat>)
    requires n <= |freqs|
    ensures forall k | 0 <= k < |r| :: r[k] < n && freqs[r[k]] > 0
    ensures forall j, k | 0 <= j < k < |r| :: r[j] != r[k]
    ensures forall i | 0 <= i < n && freqs[i] > 0 :: i in r
  {
    if n == 0 then [] else UsedList(freqs, n - 1) + (if freqs[n - 1] > 0 then [n - 1] else [])
  }

  lemma {:induction false} UsedListSize(freqs: seq<Word>)
    ensures Listing(UsedList(freqs, |freqs|), |freqs|) && |UsedList(freqs, |freqs|)| == UsedCount(freqs)
  {
    var s := UsedList(freqs, |freqs|);
    assert Listing(s, |freqs|);
    hide UsedList, UsedCount, Sum;
    UsedIsSum(freqs);
    SumListed(Marks(freqs), s);
    SumOnes(Picked(Marks(freqs), s));
  }

  /** With more used symbols than words of the limit no code fits at all. */
  lemma {:induction false} TooManySymbols(freqs: seq<Word>, words: seq<seq<bool>>, top: nat)
    requires |words| == |freqs| && UsedPrefixFree(freqs, words)
    requires forall i | 0 <= i < |freqs| && freqs[i] > 0 :: |words[i]| <= top
    ensures UsedCount(freqs) <= Pow2(top)
  {
    UsedListSize(freqs);
    var s := UsedList(freqs, |freqs|);
    var r := Picked(words, s);
    assert PrefixFree(r);
    assert AtMost(LengthsOf(r), top);
    hide PrefixFree, AtMost, UsedCount, Pow2, Kraft, UsedList;
    KraftInequality(r, top);
    KraftAtLeast(LengthsOf(r), top);
  }

  /** The words of a canonical code. */
  ghost function CodeWords(ls: seq<nat>, codes: seq<Word>): (r: seq<seq<bool>>)
    requires |codes| == |ls|
    ensures |r| == |ls| && forall i | 0 <= i < |ls| :: r[i] == Bits(codes[i], ls[i])
  {
    seq(|ls|, i requires 0 <= i < |ls| => Bits(codes[i], ls[i]))
  }

  /** So there is a code only for as many symbols as there are words of top bits. */
  lemma {:induction false} CodedFits(freqs: seq<Word>, ls: seq<nat>, codes: seq<Word>, top: nat)
    requires Coded(freqs, ls, codes, top)
    ensures UsedCount(freqs) <= Pow2(top)
  {
    hide Canonical, Share, Pow2, Bits, Hist, UsedCount;
    var words := CodeWords(ls, codes);
    forall i, j | 0 <= i < |freqs| && 0 <= j < |freqs| && i != j && freqs[i] > 0 && freqs[j] > 0
      ensures !(words[i] <= words[j])
    {
      CodedPrefixFree(freqs, ls, codes, top, i, j);
    }
    TooManySymbols(freqs, words, top);
  }

  lemma {:induction false} KraftAtLeast(l: seq<nat>, top: nat)
    requires AtMost(l, top)
    ensures Kraft(l, top) >= |l|
  {
    if l != [] {
      KraftTail(l, top);
      KraftAtLeast(l[1..], top);
    }
  }
}
