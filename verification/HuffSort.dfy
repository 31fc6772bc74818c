/** The first part of Huffman_Generate: the used symbols sorted by frequency
    (HuffEnc.c:47-132). A word holds the frequency above ten bits of symbol. */
module HuffSort {
  import opened Arith
  import opened Bitwise
  import opened Machine
  import opened Permutations
  import opened Counting
  import Sort

  const COUNTERS: nat := 208        // NUM_COUNTERS
  const SYMBOLS: nat := 1024        // 1 << NUM_BITS

  function Sym(w: Word): (r: nat)
    ensures r < SYMBOLS
  {
    w % SYMBOLS
  }

  function Freq(w: Word): nat { w / SYMBOLS }

  /** w & MASK is the symbol, w & FREQ_MASK the frequency in its place. */
  lemma {:induction false} MaskedWord(w: Word)
    ensures And(w, SYMBOLS - 1) == Sym(w)
    ensures And(w, Shl(0x3F_FFFF, 10)) == Freq(w) * SYMBOLS
  {
    WordPowers();
    AllOnes22();
    hide And, Pow2;
    AndLow(w, 10);
    AndShifted(w, 0x3F_FFFF, 10);
    AndLow(Shr(w, 10), 22);
  }

  lemma {:induction false} AllOnes22()
    ensures Pow2(22) == 0x40_0000
  {
    WordPowers();
    Pow2Sum(20, 2);
    assert Pow2(2) == 4;
  }

  /** A symbol, or'ed with a frequency in its place. */
  lemma {:induction false} PackedWord(i: nat, f: nat)
    requires i < SYMBOLS
    ensures Or(i, Shl(f, 10)) == i + f * SYMBOLS
  {
    WordPowers();
    hide Or, Pow2;
    OrAbove(i, f, 10);
  }

  ghost function Total(freqs: seq<Word>): nat {
    if freqs == [] then 0 else freqs[0] as nat + Total(freqs[1..])
  }

  /** How many symbols occur. */
  ghost function UsedCount(freqs: seq<Word>): nat {
    if freqs == [] then 0 else (if freqs[0] > 0 then 1 else 0) + UsedCount(freqs[1..])
  }

  lemma {:induction false} AtMostTotal(freqs: seq<Word>, i: nat)
    requires i < |freqs|
    ensures freqs[i] <= Total(freqs)
  {
    if i > 0 {
      AtMostTotal(freqs[1..], i - 1);
    }
  }

  /** The callers' side of the contract (HuffEnc.h:13-18). */
  ghost predicate Given(freqs: seq<Word>) {
    2 <= |freqs| <= SYMBOLS && Total(freqs) <= 0x3F_FFFF
  }

  lemma {:induction false} GivenAt(freqs: seq<Word>, i: nat)
    requires Given(freqs) && i < |freqs|
    ensures freqs[i] <= 0x3F_FFFF && i < SYMBOLS
  {
    AtMostTotal(freqs, i);
  }

  /** The words of the used symbols, in strictly rising order: by frequency, equal
      frequencies by symbol. */
  ghost predicate SortedSymbols(freqs: seq<Word>, ws: seq<Word>) {
    && (forall j, k | 0 <= j < k < |ws| :: ws[j] < ws[k])
    && (forall k | 0 <= k < |ws| :: Sym(ws[k]) < |freqs| && Freq(ws[k]) == freqs[Sym(ws[k])] > 0)
    && (forall i | 0 <= i < |freqs| && freqs[i] > 0 :: exists k :: 0 <= k < |ws| && Sym(ws[k]) == i)
  }

  // ---------- buckets ----------

  /** The counter of a frequency (CTR_ITEM_FOR_FREQ). */
  function Bucket(f: Word): (r: nat)
    ensures r < COUNTERS
  {
    if f >= COUNTERS - 1 then COUNTERS - 1 else f
  }

  /** Buckets are filled in the order 1, 2, ..., 207, 0. */
  function KeyOf(bucket: nat): nat {
    if bucket == 0 then COUNTERS else bucket
  }

  ghost function Keys(freqs: seq<Word>): (r: seq<nat>)
    ensures |r| == |freqs| && forall i | 0 <= i < |freqs| :: r[i] == KeyOf(Bucket(freqs[i]))
  {
    seq(|freqs|, i requires 0 <= i < |freqs| => KeyOf(Bucket(freqs[i])))
  }

  /** The first slot of the symbols that do not occur. */
  ghost function UnusedFrom(freqs: seq<Word>): nat {
    Below(Keys(freqs), COUNTERS, |freqs|)
  }

  /** HuffEnc.c:58-84. */
  method CountBuckets(freqs: array<Word>, counters: array<Word>)
    requires counters.Length == COUNTERS && freqs != counters && 2 <= freqs.Length <= SYMBOLS
    modifies counters
    ensures forall b | 0 <= b < COUNTERS :: counters[b] == Count(Keys(freqs[..]), KeyOf(b), freqs.Length)
  {
    hide Count;
    for b := 0 to COUNTERS
      invariant forall c | 0 <= c < b :: counters[c] == 0
    {
      counters[b] := 0;
    }
    ghost var ks := Keys(freqs[..]);
    var fp: nat := freqs.Length;
    while fp != 0
      invariant 0 <= fp <= freqs.Length
      invariant forall b | 0 <= b < COUNTERS ::
        counters[b] == Count(ks, KeyOf(b), freqs.Length) - Count(ks, KeyOf(b), fp)
      decreases fp
    {
      fp := fp - 1;
      var c := Bucket(freqs[fp]);
      assert ks[fp] == KeyOf(c);
      CountNext(ks, fp, c);
      CountMonotone(ks, KeyOf(c), fp + 1, freqs.Length);
      counters[c] := counters[c] + 1;
    }
    forall b | 0 <= b < COUNTERS
      ensures Count(ks, KeyOf(b), 0) == 0
    {
      CountZero(ks, KeyOf(b));
    }
  }

  lemma {:induction false} CountZero(ks: seq<nat>, v: nat)
    ensures Count(ks, v, 0) == 0
  {
  }

  /** The buckets below i have their first slot, and num is the next free one. */
  ghost predicate Summed(ks: seq<nat>, counters: seq<Word>, i: nat, num: nat) {
    && |counters| == COUNTERS && 1 <= i <= COUNTERS
    && num == Below(ks, i, |ks|)
    && (forall b | 1 <= b < i :: counters[b] == Below(ks, b, |ks|))
    && (forall b | i <= b < COUNTERS :: counters[b] == Count(ks, b, |ks|))
  }

  lemma {:induction false} SumNext(ks: seq<nat>, counters: seq<Word>, i: nat, num: nat)
    requires Summed(ks, counters, i, num) && i < COUNTERS && |ks| <= SYMBOLS
    ensures num + counters[i] <= SYMBOLS && Summed(ks, counters[i := num], i + 1, num + counters[i])
  {
    hide Below, Count;
    BelowNext(ks, i, |ks|);
  }

  lemma {:induction false} SumStart(ks: seq<nat>, counters: seq<Word>)
    requires |counters| == COUNTERS && forall i | 0 <= i < |ks| :: 1 <= ks[i]
    requires forall b | 0 <= b < COUNTERS :: counters[b] == Count(ks, KeyOf(b), |ks|)
    ensures Summed(ks, counters, 1, 0)
  {
    NoneBelow(ks, |ks|);
    hide Below, Count;
  }

  lemma {:induction false} SumDone(ks: seq<nat>, counters: seq<Word>, num: nat)
    requires Summed(ks, counters, COUNTERS, num) && num < 0x1_0000_0000
    ensures num == Below(ks, COUNTERS, |ks|)
    ensures forall b | 0 <= b < COUNTERS :: counters[0 := num][b] == Below(ks, KeyOf(b), |ks|)
  {
    hide Below, Count;
  }

  /** Counts become first slots; bucket 0 comes last (HuffEnc.c:94-103). */
  method SumBuckets(ghost ks: seq<nat>, counters: array<Word>) returns (num: nat)
    requires counters.Length == COUNTERS && |ks| <= SYMBOLS && forall i | 0 <= i < |ks| :: 1 <= ks[i] <= COUNTERS
    requires forall b | 0 <= b < COUNTERS :: counters[b] == Count(ks, KeyOf(b), |ks|)
    modifies counters
    ensures num == Below(ks, COUNTERS, |ks|) <= SYMBOLS
    ensures forall b | 0 <= b < COUNTERS :: counters[b] == Below(ks, KeyOf(b), |ks|)
  {
    hide Below, Count, Summed, KeyOf;
    SumStart(ks, counters[..]);
    SumNext(ks, counters[..], 1, 0);
    num := counters[1];
    counters[1] := 0;
    var i: nat := 2;
    while i != COUNTERS
      invariant 2 <= i <= COUNTERS && i % 2 == 0 && num <= SYMBOLS
      invariant Summed(ks, counters[..], i, num)
      decreases COUNTERS - i
    {
      SumNext(ks, counters[..], i, num);
      var c0, c1 := counters[i], counters[i + 1];
      counters[i] := num;
      num := num + c0;
      SumNext(ks, counters[..], i + 1, num);
      counters[i + 1] := num;
      num := num + c1;
      i := i + 2;
    }
    SumDone(ks, counters[..], num);
    counters[0] := num;
  }

  lemma {:induction false} NoneBelow(ks: seq<nat>, k: nat)
    requires k <= |ks| && forall i | 0 <= i < |ks| :: 1 <= ks[i]
    ensures Below(ks, 1, k) == 0
  {
    if k > 0 {
      NoneBelow(ks, k - 1);
    }
  }

  /** The word of symbol i (HuffEnc.c:112). */
  ghost function Packed(freqs: seq<Word>, i: nat): Word
    requires Given(freqs) && i < |freqs|
  {
    GivenAt(freqs, i);
    freqs[i] * SYMBOLS + i
  }

  /** The first k symbols are in their slots. */
  ghost predicate PlacedBefore(freqs: seq<Word>, ps: seq<Word>, k: nat) {
    && Given(freqs) && |ps| == |freqs| && k <= |freqs|
    && forall i: nat | i < k :: Slot(Keys(freqs), i) < |ps| && ps[Slot(Keys(freqs), i)] == Packed(freqs, i)
  }

  /** Every symbol is in its slot. */
  ghost predicate Placed(freqs: seq<Word>, ps: seq<Word>) {
    PlacedBefore(freqs, ps, |freqs|)
  }

  lemma {:induction false} PlacedNext(freqs: seq<Word>, ps: seq<Word>, k: nat)
    requires PlacedBefore(freqs, ps, k) && k < |freqs|
    ensures Slot(Keys(freqs), k) < |ps|
    ensures PlacedBefore(freqs, ps[Slot(Keys(freqs), k) := Packed(freqs, k)], k + 1)
  {
    hide Slot, Given, Packed, Keys;
    SlotFresh(Keys(freqs), k);
  }

  /** The next free slots after k symbols. */
  ghost predicate NextSlots(ks: seq<nat>, counters: seq<Word>, k: nat) {
    && |counters| == COUNTERS && k <= |ks|
    && forall b | 0 <= b < COUNTERS :: counters[b] == Below(ks, KeyOf(b), |ks|) + Count(ks, KeyOf(b), k)
  }

  lemma {:induction false} NextSlot(ks: seq<nat>, counters: seq<Word>, k: nat, c: nat)
    requires NextSlots(ks, counters, k) && k < |ks| <= SYMBOLS && c < COUNTERS && ks[k] == KeyOf(c)
    ensures counters[c] == Slot(ks, k) < |ks| && NextSlots(ks, counters[c := counters[c] + 1], k + 1)
  {
    SlotFresh(ks, k);
    hide Below;
    CountNext(ks, k, c);
  }

  lemma {:induction false} LastSlots(ks: seq<nat>, counters: seq<Word>)
    requires NextSlots(ks, counters, |ks|)
    ensures forall b | 0 <= b < COUNTERS :: counters[b] == Below(ks, KeyOf(b) + 1, |ks|)
  {
    hide Below, Count;
    forall b | 0 <= b < COUNTERS
      ensures counters[b] == Below(ks, KeyOf(b) + 1, |ks|)
    {
      BelowNext(ks, KeyOf(b), |ks|);
    }
  }

  /** HuffEnc.c:104-115. */
  method PlaceSymbols(freqs: array<Word>, counters: array<Word>, p: array<Word>)
    requires counters.Length == COUNTERS && freqs != counters && freqs != p && p != counters
    requires p.Length == freqs.Length && Given(freqs[..])
    requires forall b | 0 <= b < COUNTERS :: counters[b] == Below(Keys(freqs[..]), KeyOf(b), freqs.Length)
    modifies counters, p
    ensures Placed(freqs[..], p[..])
    ensures forall b | 0 <= b < COUNTERS :: counters[b] == Below(Keys(freqs[..]), KeyOf(b) + 1, freqs.Length)
  {
    hide *;
    ghost var fs := freqs[..];
    ghost var ks := Keys(fs);
    PlaceStart(fs, counters[..], p[..]);
    for i := 0 to freqs.Length
      invariant freqs[..] == fs
      invariant NextSlots(ks, counters[..], i) && PlacedBefore(fs, p[..], i)
    {
      var f := freqs[i];
      var c := Bucket(f);
      PlaceNext(fs, counters[..], p[..], i);
      var slot := counters[c];
      p[slot] := Or(i, Shl(f, 10));
      counters[c] := slot + 1;
    }
    LastSlots(ks, counters[..]);
    PlacedAll(fs, p[..]);
  }

  lemma {:induction false} PlaceStart(freqs: seq<Word>, counters: seq<Word>, ps: seq<Word>)
    requires Given(freqs) && |ps| == |freqs| && |counters| == COUNTERS
    requires forall b | 0 <= b < COUNTERS :: counters[b] == Below(Keys(freqs), KeyOf(b), |freqs|)
    ensures NextSlots(Keys(freqs), counters, 0) && PlacedBefore(freqs, ps, 0)
  {
    hide Slot, Keys, Packed, Below;
  }

  /** One symbol is placed. */
  lemma {:induction false} PlaceNext(freqs: seq<Word>, counters: seq<Word>, ps: seq<Word>, i: nat)
    requires NextSlots(Keys(freqs), counters, i) && PlacedBefore(freqs, ps, i) && i < |freqs|
    ensures Bucket(freqs[i]) < |counters| && counters[Bucket(freqs[i])] < |ps| && |ps| == |freqs| <= SYMBOLS < 0x1_0000
    ensures Or(i, Shl(freqs[i], 10)) < 0x1_0000_0000
    ensures NextSlots(Keys(freqs), counters[Bucket(freqs[i]) := counters[Bucket(freqs[i])] + 1], i + 1)
    ensures PlacedBefore(freqs, ps[counters[Bucket(freqs[i])] := Or(i, Shl(freqs[i], 10))], i + 1)
  {
    PlacedSize(freqs, ps, i);
    assert |counters| == COUNTERS;
    hide NextSlots, PlacedBefore, Slot, Or, Shl, Keys, Packed, Given;
    PlacedNext(freqs, ps, i);
    NextSlot(Keys(freqs), counters, i, Bucket(freqs[i]));
    PackedIs(freqs, i);
    PackedWord(i, freqs[i]);
  }

  lemma {:induction false} PlacedAll(freqs: seq<Word>, ps: seq<Word>)
    requires PlacedBefore(freqs, ps, |freqs|)
    ensures Placed(freqs, ps)
  {
  }

  lemma {:induction false} PlacedSize(freqs: seq<Word>, ps: seq<Word>, k: nat)
    requires PlacedBefore(freqs, ps, k)
    ensures |ps| == |freqs| <= SYMBOLS && Given(freqs)
  {
  }

  lemma {:induction false} PackedIs(freqs: seq<Word>, i: nat)
    requires Given(freqs) && i < |freqs|
    ensures Packed(freqs, i) == i + freqs[i] * SYMBOLS && i < SYMBOLS
    ensures Sym(Packed(freqs, i)) == i && Freq(Packed(freqs, i)) == freqs[i]
  {
  }

  lemma {:induction false} CountNext(ks: seq<nat>, i: nat, c: nat)
    requires i < |ks| && ks[i] == KeyOf(c) && c < COUNTERS
    ensures forall b: nat | b < COUNTERS ::
              Count(ks, KeyOf(b), i + 1) == Count(ks, KeyOf(b), i) + if b == c then 1 else 0
  {
  }

  // ---------- what the buckets hold ----------

  /** The symbol in slot k. */
  lemma {:induction false} PlacedAt(freqs: seq<Word>, ps: seq<Word>, k: nat) returns (i: nat)
    requires Placed(freqs, ps) && k < |ps|
    ensures i < |freqs| && Slot(Keys(freqs), i) == k && ps[k] == Packed(freqs, i)
    ensures Sym(ps[k]) == i && Freq(ps[k]) == freqs[i]
  {
    var ks := Keys(freqs);
    hide Slot, Given, Keys, Packed;
    var slots := seq(|ks|, i requires 0 <= i < |ks| => Slot(ks, i));
    forall i | 0 <= i < |slots|
      ensures slots[i] < |slots| && forall j | 0 <= j < i :: slots[j] != slots[i]
    {
      SlotFresh(ks, i);
    }
    i := SlotOf(slots, |ks|, k);
    PackedIs(freqs, i);
  }

  /** Which slots a key has. */
  lemma {:induction false} SlotKey(ks: seq<nat>, i: nat, v: nat)
    requires i < |ks|
    ensures Slot(ks, i) < Below(ks, v, |ks|) <==> ks[i] < v
  {
    hide Slot;
    SlotBounds(ks, i);
    if ks[i] < v {
      BelowMonotone(ks, ks[i] + 1, v);
    } else {
      BelowMonotone(ks, v, ks[i]);
    }
  }

  /** Among the buckets of one frequency the words rise. */
  lemma {:induction false} LowRises(freqs: seq<Word>, ps: seq<Word>, j: nat, k: nat)
    requires Placed(freqs, ps) && j < k < |ps| && j < Below(Keys(freqs), COUNTERS - 1, |freqs|) && k < UnusedFrom(freqs)
    ensures ps[j] < ps[k]
  {
    var ks := Keys(freqs);
    var a := PlacedAt(freqs, ps, j);
    var b := PlacedAt(freqs, ps, k);
    hide Slot, Given, Placed, Packed;
    PackedIs(freqs, a);
    PackedIs(freqs, b);
    SlotKey(ks, a, COUNTERS - 1);
    SlotKey(ks, b, COUNTERS);
    SlotOrder(ks, b, a);
    assert ks[a] == KeyOf(Bucket(freqs[a])) && ks[b] == KeyOf(Bucket(freqs[b]));
    hide Keys;
    assert ks[a] <= ks[b];
    assert freqs[a] == ks[a] <= freqs[b] && (ks[a] == ks[b] ==> freqs[a] == freqs[b]);
    assert ks[a] == ks[b] ==> a < b;
  }

  /** The slots before `UnusedFrom` hold the used symbols. */
  lemma {:induction false} UsedAt(freqs: seq<Word>, ps: seq<Word>, k: nat)
    requires Placed(freqs, ps) && k < |ps|
    ensures Sym(ps[k]) < |freqs| && Freq(ps[k]) == freqs[Sym(ps[k])]
    ensures k < UnusedFrom(freqs) <==> Freq(ps[k]) > 0
  {
    var a := PlacedAt(freqs, ps, k);
    hide Slot, Given, Placed, Packed;
    SlotKey(Keys(freqs), a, COUNTERS);
  }

  lemma {:induction false} UsedSlot(freqs: seq<Word>, ps: seq<Word>, i: nat) returns (k: nat)
    requires Placed(freqs, ps) && i < |freqs| && freqs[i] > 0
    ensures k < UnusedFrom(freqs) <= |ps| && Sym(ps[k]) == i
  {
    k := Slot(Keys(freqs), i);
    PackedIs(freqs, i);
    hide Slot, Given, Packed;
    UsedAt(freqs, ps, k);
  }

  lemma {:induction false} PlacedDistinct(freqs: seq<Word>, ps: seq<Word>, j: nat, k: nat)
    requires Placed(freqs, ps) && j < k < |ps|
    ensures ps[j] != ps[k]
  {
    var a := PlacedAt(freqs, ps, j);
    var b := PlacedAt(freqs, ps, k);
  }

  /** Sorting the last bucket sorts them all. */
  lemma {:induction false} LastBucketSorted(freqs: seq<Word>, ps: seq<Word>, ps': seq<Word>, lo: nat, num: nat)
    requires Placed(freqs, ps) && |ps'| == |ps|
    requires lo == Below(Keys(freqs), COUNTERS - 1, |freqs|) && num == UnusedFrom(freqs) && lo <= num <= |ps|
    requires Sort.Ascending(ps'[lo..num]) && multiset(ps'[lo..num]) == multiset(ps[lo..num])
    requires ps'[..lo] == ps[..lo]
    ensures SortedSymbols(freqs, ps'[..num])
  {
    hide Placed, UnusedFrom, Sort.Ascending, Below, Keys, Sym, Freq;
    var ws := ps'[..num];
    forall j, k | 0 <= j < k < num
      ensures ws[j] < ws[k]
    {
      LastBucketRises(freqs, ps, ps', lo, num, j, k);
    }
    forall k | 0 <= k < num
      ensures Sym(ws[k]) < |freqs| && Freq(ws[k]) == freqs[Sym(ws[k])] > 0
    {
      var k' := CameFrom(ps, ps', lo, num, k);
      UsedAt(freqs, ps, k');
    }
    forall i | 0 <= i < |freqs| && freqs[i] > 0
      ensures exists k :: 0 <= k < |ws| && Sym(ws[k]) == i
    {
      var k := UsedSlot(freqs, ps, i);
      var k' := CameFrom(ps', ps, lo, num, k);
      assert ws[k'] == ps[k];
    }
  }

  lemma {:induction false} CameFrom(ps: seq<Word>, ps': seq<Word>, lo: nat, num: nat, k: nat) returns (k': nat)
    requires |ps'| == |ps| && lo <= num <= |ps| && k < num
    requires multiset(ps'[lo..num]) == multiset(ps[lo..num]) && ps'[..lo] == ps[..lo]
    ensures k' < num && ps[k'] == ps'[k] && (k >= lo ==> k' >= lo) && (k < lo ==> k' == k)
  {
    if k < lo {
      k' := k;
      assert ps'[..lo][k] == ps[..lo][k];
    } else {
      assert ps'[k] == ps'[lo..num][k - lo] && ps'[k] in multiset(ps'[lo..num]);
      assert ps'[k] in ps[lo..num];
      var j :| 0 <= j < num - lo && ps[lo..num][j] == ps'[k];
      k' := lo + j;
    }
  }

  lemma {:induction false} LastBucketRises(freqs: seq<Word>, ps: seq<Word>, ps': seq<Word>, lo: nat, num: nat,
                                           j: nat, k: nat)
    requires Placed(freqs, ps) && |ps'| == |ps|
    requires lo == Below(Keys(freqs), COUNTERS - 1, |freqs|) && num == UnusedFrom(freqs) && lo <= num <= |ps|
    requires Sort.Ascending(ps'[lo..num]) && multiset(ps'[lo..num]) == multiset(ps[lo..num])
    requires ps'[..lo] == ps[..lo]
    requires j < k < num
    ensures ps'[j] < ps'[k]
  {
    if j < lo {
      var j' := CameFrom(ps, ps', lo, num, j);
      var k' := CameFrom(ps, ps', lo, num, k);
      LowRises(freqs, ps, j', k');
    } else {
      var s, t := ps[lo..num], ps'[lo..num];
      forall a, b | 0 <= a < b < |s|
        ensures s[a] != s[b]
      {
        PlacedDistinct(freqs, ps, lo + a, lo + b);
      }
      hide Placed, UnusedFrom, Below;
      Sort.DistinctAfterSort(s, t);
      assert t[j - lo] == ps'[j] && t[k - lo] == ps'[k];
      assert t[j - lo] <= t[k - lo] && t[j - lo] != t[k - lo];
    }
  }

  /** The sort (HuffEnc.c:47-132): the used symbols come first in p, in order. */
  method SortSymbols(freqs: array<Word>, p: array<Word>) returns (num: nat)
    requires freqs != p && p.Length == freqs.Length && Given(freqs[..])
    modifies p
    ensures num <= p.Length && SortedSymbols(freqs[..], p[..num])
  {
    hide *;
    var counters := new Word[COUNTERS];
    ghost var fs := freqs[..];
    KeysInRange(fs);
    CountBuckets(freqs, counters);
    num := SumBuckets(Keys(fs), counters);
    PlaceSymbols(freqs, counters, p);
    ghost var ps := p[..];
    BucketEnds(fs, ps);
    var lo, hi := counters[COUNTERS - 2], counters[COUNTERS - 1];
    LastBucketEnds(Keys(fs), counters[..], num);
    SortLast(p, lo, hi, fs);
  }

  lemma {:induction false} LastBucketEnds(ks: seq<nat>, counters: seq<Word>, num: nat)
    requires |counters| == COUNTERS && num == Below(ks, COUNTERS, |ks|)
    requires forall b | 0 <= b < COUNTERS :: counters[b] == Below(ks, KeyOf(b) + 1, |ks|)
    ensures counters[COUNTERS - 2] == Below(ks, COUNTERS - 1, |ks|) && counters[COUNTERS - 1] == num
  {
    hide Below;
  }

  /** The last bucket holds several frequencies (HuffEnc.c:116). */
  method SortLast(p: array<Word>, lo: nat, num: nat, ghost freqs: seq<Word>)
    requires Placed(freqs, p[..]) && lo == Below(Keys(freqs), COUNTERS - 1, |freqs|) && num == UnusedFrom(freqs)
    requires lo <= num <= p.Length
    modifies p
    ensures SortedSymbols(freqs, p[..num])
  {
    hide *;
    ghost var ps := p[..];
    Sort.HeapSort(p, lo, num - lo);
    assert p[lo..lo + (num - lo)] == p[..][lo..num] && ps[lo..lo + (num - lo)] == ps[lo..num];
    LastBucketSorted(freqs, ps, p[..], lo, num);
    assert p[..num] == p[..][..num];
  }

  lemma {:induction false} KeysInRange(freqs: seq<Word>)
    requires Given(freqs)
    ensures 2 <= |freqs| <= SYMBOLS && 2 <= COUNTERS && forall i | 0 <= i < |freqs| :: 1 <= Keys(freqs)[i] <= COUNTERS
  {
  }

  lemma {:induction false} BucketEnds(freqs: seq<Word>, ps: seq<Word>)
    requires Placed(freqs, ps)
    ensures Below(Keys(freqs), COUNTERS - 1, |freqs|) <= UnusedFrom(freqs) <= |ps| == |freqs|
    ensures UnusedFrom(freqs) == Below(Keys(freqs), COUNTERS, |freqs|)
  {
    BelowMonotone(Keys(freqs), COUNTERS - 1, COUNTERS);
  }
}
