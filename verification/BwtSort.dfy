/** BlockSort of BwtSort.c:410-628, for blocks of 1 to 2^20 bytes. */
module BwtSort {
  import opened Arith
  import opened Machine
  import opened Rotations
  import opened Permutations
  import opened BwtGroups
  import opened BwtSizes
  import opened BwtSortState
  import opened BwtSortGroup
  import opened BwtRadix
  import opened Counting
  import opened BwtPass
  import BwtKeys

  // ---------- sizes of the first groups ----------

  /** The slots before the end of pair v have their sizes. */
  ghost predicate SizedBelow(d: seq<Byte>, ws: seq<Word>, order: seq<nat>, rank: seq<Word>, v: nat) {
    && |ws| == |d| == |rank| && Placed(d, order, rank) && Permutation(order, |d|)
    && Order(ws) == order
    && Below(Pairs(d), v, |d|) <= |d|
    && Layout(ws[..Below(Pairs(d), v, |d|)], Firsts(order, rank, 0, |d|)[..Below(Pairs(d), v, |d|)])
    && (forall k | Below(Pairs(d), v, |d|) <= k < |d| :: ws[k] < INDEX)
  }

  /** Slots of one pair: the first of them, and only it, is the first of its group. */
  lemma {:induction false} PairFirsts(d: seq<Byte>, order: seq<nat>, rank: seq<Word>, v: nat, k: nat)
    requires Placed(d, order, rank) && Permutation(order, |d|)
    requires Below(Pairs(d), v, |d|) <= k < Below(Pairs(d), v + 1, |d|)
    ensures Firsts(order, rank, 0, |d|)[k] <==> k == Below(Pairs(d), v, |d|)
  {
    FirstsAt(order, rank, k);
    PlacedAt(d, order, rank, k);
    var p := order[k];
    assert rank[p] == Below(Pairs(d), Pair(d, p), |d|);
    hide Below, Slot, Permutation, Placed, Firsts;
    SlotBounds(Pairs(d), p);
    if Pair(d, p) < v {
      BelowMonotone(Pairs(d), Pair(d, p) + 1, v);
    } else if Pair(d, p) > v {
      BelowMonotone(Pairs(d), v + 1, Pair(d, p));
    }
  }

  /** Writes the size of the group of pair v. */
  method SizePair(d: seq<Byte>, v: nat, prev: nat, end: nat, indices: array<Word>, ghost order: seq<nat>,
                  ghost rank: seq<Word>)
    requires indices.Length == |d| <= INDEX && prev == Below(Pairs(d), v, |d|)
    requires end == Below(Pairs(d), v + 1, |d|) && prev < end <= |d|
    requires SizedBelow(d, indices[..], order, rank, v)
    modifies indices
    ensures SizedBelow(d, indices[..], order, rank, v + 1)
  {
    hide *;
    ghost var ws := indices[..];
    UnsizedClear(d, ws, order, rank, v, prev, end);
    SetGroupSize(indices, prev, end - prev);
    assert indices[..][prev..end] == indices[prev..prev + (end - prev)];
    SizedStep(d, ws, indices[..], order, rank, v, prev, end);
  }

  lemma {:induction false} UnsizedClear(d: seq<Byte>, ws: seq<Word>, order: seq<nat>, rank: seq<Word>,
                                        v: nat, prev: nat, end: nat)
    requires SizedBelow(d, ws, order, rank, v) && prev == Below(Pairs(d), v, |d|) && end <= |d|
    ensures |ws| == |d| && forall k | prev <= k < end :: ws[k] < INDEX
  {
    hide Layout, Placed, Permutation, Order, Below;
  }

  lemma {:induction false} SizedStep(d: seq<Byte>, ws: seq<Word>, ws': seq<Word>, order: seq<nat>, rank: seq<Word>,
                                     v: nat, prev: nat, end: nat)
    requires SizedBelow(d, ws, order, rank, v) && |ws'| == |ws|
    requires prev == Below(Pairs(d), v, |d|) && end == Below(Pairs(d), v + 1, |d|) && prev < end <= |d|
    requires forall k | 0 <= k < |ws| && !(prev <= k < end) :: ws'[k] == ws[k]
    requires forall k | prev <= k < end :: Pos(ws'[k]) == ws[k]
    requires Encoded(ws'[prev..end]) && (Live(ws'[prev]) <==> end - prev > 1)
    ensures SizedBelow(d, ws', order, rank, v + 1)
  {
    var first := Firsts(order, rank, 0, |d|);
    forall k | prev <= k < end
      ensures first[k] <==> k == prev
    {
      PairFirsts(d, order, rank, v, k);
    }
    assert Order(ws') == order by {
      hide Layout, Encoded, Placed;
      forall k | 0 <= k < |ws|
        ensures Order(ws')[k] == Order(ws)[k]
      {
        if prev <= k < end {
          BwtKeys.PosOfIndex(ws[k]);
        }
      }
    }
    hide Layout, Encoded, Placed, Permutation, Order, Below, Live;
    assert ws'[..end][..prev] == ws[..prev] && first[..end][..prev] == first[..prev];
    assert ws'[..end][prev..] == ws'[prev..end];
    BwtKeys.ExtendLayout(ws'[..end], prev, first[..end]);
  }

  /** Sizes of all the pairs that occur (BwtSort.c:515-526). */
  method SizePairs(d: seq<Byte>, counters: array<Word>, indices: array<Word>, ghost order: seq<nat>,
                   ghost rank: seq<Word>)
    requires counters != indices && counters.Length == VALUES && indices.Length == |d| <= INDEX
    requires forall v | 0 <= v < VALUES :: counters[v] == Below(Pairs(d), v + 1, |d|)
    requires SizedBelow(d, indices[..], order, rank, 0)
    modifies indices
    ensures SizedBelow(d, indices[..], order, rank, VALUES)
  {
    var prev := 0;
    BelowNext(Pairs(d), 0, |d|);
    hide SizedBelow, Below;
    for i := 0 to VALUES
      invariant forall v | 0 <= v < VALUES :: counters[v] == Below(Pairs(d), v + 1, |d|)
      invariant prev == Below(Pairs(d), i, |d|)
      invariant SizedBelow(d, indices[..], order, rank, i)
    {
      BelowMonotone(Pairs(d), i, i + 1);
      var end := counters[i];
      if end - prev == 0 {
        SizedSkip(d, indices[..], order, rank, i);
      } else {
        SizePair(d, i, prev, end, indices, order, rank);
        prev := end;
      }
    }
  }

  lemma {:induction false} SizedSkip(d: seq<Byte>, ws: seq<Word>, order: seq<nat>, rank: seq<Word>, v: nat)
    requires SizedBelow(d, ws, order, rank, v) && Below(Pairs(d), v + 1, |d|) == Below(Pairs(d), v, |d|)
    ensures SizedBelow(d, ws, order, rank, v + 1)
  {
    hide Layout, Placed, Permutation;
  }

  // ---------- BlockSort ----------

  /** The whole two-byte sort. */
  method RadixSort(n: nat, d: seq<Byte>, indices: array<Word>, temp: array<Word>, groups: array<Word>)
    requires indices != temp && groups != temp && indices != groups
    requires 0 < n == |d| == indices.Length == groups.Length <= INDEX && temp.Length == VALUES
    modifies indices, temp, groups
    ensures Ready(d, indices[..], groups[..], 2)
  {
    CountPairs(d, temp);
    SumCounts(d, temp);
    RankPairs(d, temp, groups);
    PlacePairs(d, temp, indices);
    ghost var order, rank := Order(indices[..]), groups[..];
    hide Below, Slot, Layout;
    PlacedWords(d, indices[..], rank);
    PlacedInvariant(d, order, rank);
    SizedStart(d, indices[..], rank);
    hide SizedBelow, Placed, Order, Invariant, Ready;
    SizePairs(d, temp, indices, order, rank);
    SizedReady(d, indices[..], order, rank);
  }

  lemma {:induction false} PlacedWords(d: seq<Byte>, ws: seq<Word>, rank: seq<Word>)
    requires |ws| == |rank| == |d| <= INDEX
    requires forall p | 0 <= p < |d| :: Slot(Pairs(d), p) < |d| && ws[Slot(Pairs(d), p)] == p
    requires forall p | 0 <= p < |d| :: rank[p] == Below(Pairs(d), Pair(d, p), |d|)
    ensures Placed(d, Order(ws), rank)
    ensures forall i | 0 <= i < |d| :: ws[i] < INDEX
  {
    forall p: nat | p < |d|
      ensures Order(ws)[Slot(Pairs(d), p)] == p
    {
      BwtKeys.PosOfIndex(ws[Slot(Pairs(d), p)]);
    }
    var slots := seq(|d|, p requires 0 <= p < |d| => Slot(Pairs(d), p));
    SlotsArePermutation(d, slots);
    hide Slot, Below;
    forall i | 0 <= i < |d|
      ensures ws[i] < INDEX
    {
      var p := SlotOf(slots, |d|, i);
      assert ws[Slot(Pairs(d), p)] == p;
    }
  }

  lemma {:induction false} SizedStart(d: seq<Byte>, ws: seq<Word>, rank: seq<Word>)
    requires |ws| == |rank| == |d| && Placed(d, Order(ws), rank)
    requires forall i | 0 <= i < |d| :: ws[i] < INDEX
    ensures SizedBelow(d, ws, Order(ws), rank, 0)
  {
    PlacedPermutation(d, Order(ws), rank);
    BelowNext(Pairs(d), 0, |d|);
    hide Placed, Below, Permutation;
    assert ws[..0] == [] && Firsts(Order(ws), rank, 0, |d|)[..0] == [];
  }

  lemma {:induction false} SizedReady(d: seq<Byte>, ws: seq<Word>, order: seq<nat>, rank: seq<Word>)
    requires SizedBelow(d, ws, order, rank, VALUES) && Invariant(d, order, rank, 2) && |d| <= INDEX
    ensures Ready(d, ws, rank, 2)
  {
    BelowAll(Pairs(d), VALUES, |d|);
    hide Placed, Below, Permutation, Layout, Invariant;
    assert ws[..|d|] == ws && Firsts(order, rank, 0, |d|)[..|d|] == Firsts(order, rank, 0, |d|);
  }

  /** NumRefBits (BwtSort.c:530-536): the spare bits above a rank, at most 12. */
  method RefBits(n: nat) returns (bits: nat)
    requires 0 < n <= INDEX
    ensures RefBitsFit(n, bits, VALUES)
  {
    WordPowers();
    hide Pow2;
    bits := 0;
    while (n - 1) / Pow2(bits) != 0
      invariant bits <= 20
      decreases 20 - bits
    {
      bits := bits + 1;
    }
    bits := 32 - bits;
    if bits > 12 {
      bits := 12;
    }
  }

  /** What is sorted without ties, or with ties by slot, is sorted as strings. */
  lemma {:induction false} SortedResult(d: seq<Byte>, ws: seq<Word>, rank: seq<Word>, ws': seq<Word>)
    requires |d| > 0 && |ws| == |ws'| == |d| && FullySorted(d, Order(ws), rank)
    requires forall k | 0 <= k < |d| :: ws'[k] == Pos(ws[k])
    ensures Permutation(ws', |d|)
    ensures forall a, b | 0 <= a < b < |d| ::
              LexLess(Rotation(d, ws'[a]), Rotation(d, ws'[b])) || Rotation(d, ws'[a]) == Rotation(d, ws'[b])
    ensures forall p | 0 <= p < |d| :: rank[p] < |d| && ws'[rank[p]] == p
  {
    var order := Order(ws);
    assert Permutation(ws', |d|);
    hide LexLess, Rotation, Before, Agree;
    forall a, b | 0 <= a < b < |d|
      ensures LexLess(Rotation(d, ws'[a]), Rotation(d, ws'[b])) || Rotation(d, ws'[a]) == Rotation(d, ws'[b])
    {
      assert ws'[a] == order[a] && ws'[b] == order[b];
      if Before(d, order[a], order[b]) {
        BeforeIsLexLess(d, order[a], order[b]);
      } else {
        AgreeIsEqual(d, order[a], order[b], |d|);
      }
    }
    forall p | 0 <= p < |d|
      ensures rank[p] < |d| && ws'[rank[p]] == p
    {
      var i := SlotOf(order, |d|, p);
    }
  }

  lemma {:induction false} PassResult(d: seq<Byte>, ws: seq<Word>, rank: seq<Word>, start: seq<Word>, h: nat,
                                      newLimit: nat)
    requires |d| > 0 && PassDone(d, ws, rank, start, h, newLimit)
    ensures |ws| == |rank| == |d| && exists first: seq<bool> :: |first| == |ws| && Layout(ws, first)
    ensures newLimit == 0 ==> FullySorted(d, Order(ws), rank)
    ensures newLimit > 0 ==> h < |d| && Ready(d, ws, rank, 2 * h)
  {
    hide FullySorted, Ready, Layout, Refines;
  }

  /** All the passes (BwtSort.c:538-611): until none leaves a group of two. */
  method SortPasses(n: nat, indices: array<Word>, temp: array<Word>, groups: array<Word>, ghost d: seq<Byte>)
    requires indices != temp && groups != temp && indices != groups
    requires 0 < n == |d| == indices.Length == groups.Length <= INDEX && temp.Length == VALUES
    requires Ready(d, indices[..], groups[..], 2)
    modifies indices, temp, groups
    ensures FullySorted(d, Order(indices[..]), groups[..])
    ensures exists first: seq<bool> :: |first| == n && Layout(indices[..], first)
  {
    hide Ready, RefBitsFit, PassDone, FullySorted, Layout, Order;
    var bits := RefBits(n);
    var h := 2;
    while true
      invariant Ready(d, indices[..], groups[..], h) && h >= 2
      decreases if h < n then n - h else 0
    {
      ghost var start := groups[..];
      var newLimit := Pass(n, h, bits, indices, temp, groups, d);
      PassResult(d, indices[..], groups[..], start, h, newLimit);
      if newLimit == 0 {
        break;
      }
      h := 2 * h;
    }
  }

  /** BlockSort: `indices` ends as the order of the rotations of the block, with no
      size bits left, and the result is the rank of rotation 0. */
  method BlockSort(indices: array<Word>, temp: array<Word>, groups: array<Word>, d: seq<Byte>) returns (r: Word)
    requires indices != temp && groups != temp && indices != groups
    requires 0 < |d| == indices.Length == groups.Length <= INDEX && temp.Length == VALUES
    modifies indices, temp, groups
    ensures Permutation(indices[..], |d|)
    ensures forall a, b | 0 <= a < b < |d| ::
              || LexLess(Rotation(d, indices[a]), Rotation(d, indices[b]))
              || Rotation(d, indices[a]) == Rotation(d, indices[b])
    ensures r < |d| && indices[r] == 0
    ensures forall p | 0 <= p < |d| :: groups[p] < |d| && indices[groups[p]] == p
  {
    hide Ready, FullySorted, Layout, Order, LexLess, Rotation, Permutation, Pos;
    RadixSort(|d|, d, indices, temp, groups);
    SortPasses(|d|, indices, temp, groups, d);
    ghost var ws := indices[..];
    ghost var first: seq<bool> :| |first| == |d| && Layout(ws, first);
    ClearSizes(|d|, indices, first);
    SortedResult(d, ws, groups[..], indices[..]);
    r := groups[0];
  }
}
