/** The two-byte counting sort that BlockSort starts with (BwtSort.c:419-513):
    where each position goes, and why the result is a good state for h = 2. */
module BwtRadix {
  import opened Machine
  import opened Arith
  import opened Rotations
  import opened Permutations
  import opened BwtGroups
  import opened Counting

  const VALUES: nat := 0x1_0000       // kNumHashValues

  /** Two bytes, as one number. */
  function PairOf(a: Byte, b: Byte): (r: nat)
    ensures r < VALUES
  {
    var hi: int, lo: int := a, b;
    hi * 0x100 + lo
  }

  /** The two bytes at position p. */
  function Pair(d: seq<Byte>, p: nat): (r: nat)
    requires p < |d|
    ensures r < VALUES
  {
    PairOf(d[p], d[if p + 1 == |d| then 0 else p + 1])
  }

  /** The keys of the sort. */
  ghost function Pairs(d: seq<Byte>): (r: seq<nat>)
    ensures |r| == |d| && forall p | 0 <= p < |d| :: r[p] == Pair(d, p)
  {
    seq(|d|, p requires 0 <= p < |d| => Pair(d, p))
  }

  /** What the placing loop leaves: position p in slot Slot(p), ranked by its pair. */
  ghost predicate Placed(d: seq<Byte>, order: seq<nat>, rank: seq<Word>) {
    && |order| == |rank| == |d|
    && (forall p: nat | p < |d| :: Slot(Pairs(d), p) < |d| && order[Slot(Pairs(d), p)] == p)
    && (forall p: nat | p < |d| :: rank[p] == Below(Pairs(d), Pair(d, p), |d|))
  }

  lemma {:induction false} SlotsArePermutation(d: seq<Byte>, slots: seq<nat>)
    requires |slots| == |d| && forall p | 0 <= p < |d| :: slots[p] == Slot(Pairs(d), p)
    ensures Permutation(slots, |d|)
  {
    forall p | 0 <= p < |d|
      ensures slots[p] < |d|
    {
      SlotBounds(Pairs(d), p);
    }
    forall p, q | 0 <= p < q < |d|
      ensures slots[p] != slots[q]
    {
      SlotOrder(Pairs(d), p, q);
      SlotOrder(Pairs(d), q, p);
    }
  }

  /** The position in slot i. */
  lemma {:induction false} PlacedAt(d: seq<Byte>, order: seq<nat>, rank: seq<Word>, i: nat)
    requires Placed(d, order, rank) && i < |d|
    ensures order[i] < |d| && Slot(Pairs(d), order[i]) == i
  {
    var slots := seq(|d|, p requires 0 <= p < |d| => Slot(Pairs(d), p));
    SlotsArePermutation(d, slots);
    var p := SlotOf(slots, |d|, i);
    assert order[Slot(Pairs(d), p)] == p;
  }

  lemma {:induction false} PlacedPermutation(d: seq<Byte>, order: seq<nat>, rank: seq<Word>)
    requires Placed(d, order, rank)
    ensures Permutation(order, |d|)
  {
    forall i | 0 <= i < |d|
      ensures order[i] < |d| && Slot(Pairs(d), order[i]) == i
    {
      PlacedAt(d, order, rank, i);
    }
    hide Slot, Placed;
  }

  /** The first slot of a pair that occurs holds that pair. */
  lemma {:induction false} PlacedLabelled(d: seq<Byte>, order: seq<nat>, rank: seq<Word>)
    requires Placed(d, order, rank) && Permutation(order, |d|)
    ensures Labelled(order, rank, |d|)
  {
    forall i | 0 <= i < |d|
      ensures rank[order[i]] <= i && rank[order[rank[order[i]]]] == rank[order[i]]
    {
      PlacedFirst(d, order, rank, i);
    }
    forall i, j | 0 <= i < j < |d|
      ensures rank[order[i]] <= rank[order[j]]
    {
      PlacedAt(d, order, rank, i);
      PlacedAt(d, order, rank, j);
      hide Slot, Permutation;
      SlotOrder(Pairs(d), order[j], order[i]);
      assert Pair(d, order[i]) <= Pair(d, order[j]);
      BelowMonotone(Pairs(d), Pair(d, order[i]), Pair(d, order[j]));
    }
  }

  lemma {:induction false} PlacedFirst(d: seq<Byte>, order: seq<nat>, rank: seq<Word>, i: nat)
    requires Placed(d, order, rank) && Permutation(order, |d|) && i < |d|
    ensures rank[order[i]] <= i && rank[order[rank[order[i]]]] == rank[order[i]]
  {
    PlacedAt(d, order, rank, i);
    SlotBounds(Pairs(d), order[i]);
    var r := rank[order[i]];
    PlacedAt(d, order, rank, r);
    hide Slot, Permutation;
    SlotBounds(Pairs(d), order[r]);
    SlotOrder(Pairs(d), order[r], order[i]);
    SlotOrder(Pairs(d), order[i], order[r]);
  }

  /** Pairs compare as the first two bytes do. */
  lemma {:induction false} PairOrder(d: seq<Byte>, x: nat, y: nat)
    requires x < |d| && y < |d|
    ensures Pair(d, x) < Pair(d, y) ==> Before(d, x, y)
    ensures Pair(d, x) == Pair(d, y) ==> Agree(d, x, y, 2)
  {
    TwoBytes(d, x);
    TwoBytes(d, y);
    hide At, Pair;
    if Pair(d, x) < Pair(d, y) {
      var k := if At(d, x, 0) < At(d, y, 0) then 0 else 1;
      assert Agree(d, x, y, k) && At(d, x, k) < At(d, y, k);
    } else if Pair(d, x) == Pair(d, y) {
      assert At(d, x, 0) == At(d, y, 0) && At(d, x, 1) == At(d, y, 1);
    }
  }

  lemma {:induction false} TwoBytes(d: seq<Byte>, p: nat)
    requires p < |d|
    ensures Pair(d, p) == 0x100 * (At(d, p, 0) as int) + At(d, p, 1)
  {
    DivModUnique(p + 0, |d|, 0, p);
    if p + 1 == |d| {
      DivModUnique(p + 1, |d|, 1, 0);
    } else {
      DivModUnique(p + 1, |d|, 0, p + 1);
    }
  }

  /** The counting sort establishes the invariant of the first pass. */
  lemma {:induction false} PlacedInvariant(d: seq<Byte>, order: seq<nat>, rank: seq<Word>)
    requires Placed(d, order, rank) && |d| > 0
    ensures Invariant(d, order, rank, 2)
  {
    PlacedPermutation(d, order, rank);
    PlacedLabelled(d, order, rank);
    hide Labelled, Permutation, Slot, Before, Agree;
    forall x: nat, y: nat | x < |d| && y < |d|
      ensures rank[x] < rank[y] ==> Before(d, x, y)
      ensures rank[x] == rank[y] ==> Agree(d, x, y, 2)
    {
      assert rank[x] == Below(Pairs(d), Pair(d, x), |d|) && rank[y] == Below(Pairs(d), Pair(d, y), |d|);
      SlotOrder(Pairs(d), x, y);
      SlotOrder(Pairs(d), y, x);
      PairOrder(d, x, y);
    }
  }

  /** Counts the pairs, cyclically, in the order of the source: the pair that wraps
      round comes first (BwtSort.c:421-448, whose loop is unrolled by four). */
  method CountPairs(d: seq<Byte>, counters: array<Word>)
    requires 0 < |d| <= 0x10_0000 && counters.Length == VALUES
    modifies counters
    ensures forall v | 0 <= v < VALUES :: counters[v] == Count(Pairs(d), v, |d|)
  {
    for i := 0 to VALUES
      invariant forall v | 0 <= v < i :: counters[v] == 0
    {
      counters[i] := 0;
    }
    var last := |d| - 1;
    var a := d[last];
    for j := 0 to |d|
      invariant a == d[if j == 0 then last else j - 1]
      invariant forall v | 0 <= v < VALUES ::
        counters[v] == if j == 0 then 0 else Count(Pairs(d), v, j - 1) + (if Pair(d, last) == v then 1 else 0)
    {
      var b := d[j];
      var v := PairOf(a, b);
      assert v == Pair(d, if j == 0 then last else j - 1);
      CountBound(d, v, j);
      counters[v] := counters[v] + 1;
      a := b;
    }
  }

  lemma CountBound(d: seq<Byte>, v: nat, j: nat)
    requires j < |d|
    ensures Count(Pairs(d), v, if j == 0 then 0 else j - 1) < |d|
  {
  }

  /** Turns the counts into first slots (BwtSort.c:461-476). */
  method SumCounts(d: seq<Byte>, counters: array<Word>)
    requires 0 < |d| <= 0x10_0000 && counters.Length == VALUES
    requires forall v | 0 <= v < VALUES :: counters[v] == Count(Pairs(d), v, |d|)
    modifies counters
    ensures forall v | 0 <= v < VALUES :: counters[v] == Below(Pairs(d), v, |d|)
  {
    var sum: Word := 0;
    BelowNext(Pairs(d), 0, |d|);
    for i := 0 to VALUES
      invariant sum == Below(Pairs(d), i, |d|)
      invariant forall v | 0 <= v < i :: counters[v] == Below(Pairs(d), v, |d|)
      invariant forall v | i <= v < VALUES :: counters[v] == Count(Pairs(d), v, |d|)
    {
      BelowNext(Pairs(d), i, |d|);
      var groupSize := counters[i];
      counters[i] := sum;
      sum := sum + groupSize;
    }
  }

  /** The rank of each position is the first slot of its pair (BwtSort.c:478-480). */
  method RankPairs(d: seq<Byte>, counters: array<Word>, groups: array<Word>)
    requires 0 < |d| == groups.Length && counters.Length == VALUES && counters != groups
    requires forall v | 0 <= v < VALUES :: counters[v] == Below(Pairs(d), v, |d|)
    modifies groups
    ensures forall p | 0 <= p < |d| :: groups[p] == Below(Pairs(d), Pair(d, p), |d|)
  {
    var i := 0;
    while i < |d| - 1
      invariant 0 <= i <= |d| - 1
      invariant forall p | 0 <= p < i :: groups[p] == Below(Pairs(d), Pair(d, p), |d|)
    {
      groups[i] := counters[PairOf(d[i], d[i + 1])];
      i := i + 1;
    }
    groups[i] := counters[PairOf(d[i], d[0])];
  }

  /** The first k positions are in their slots, and the counters are the next free slots. */
  ghost predicate PlacedBefore(d: seq<Byte>, counters: seq<Word>, ws: seq<Word>, k: nat) {
    && |counters| == VALUES && |ws| == |d| && k <= |d|
    && (forall v | 0 <= v < VALUES :: counters[v] == Below(Pairs(d), v, |d|) + Count(Pairs(d), v, k))
    && (forall p | 0 <= p < k :: Slot(Pairs(d), p) < |d| && ws[Slot(Pairs(d), p)] == p)
  }

  lemma {:induction false} PlaceNext(d: seq<Byte>, counters: seq<Word>, ws: seq<Word>, k: nat)
    requires PlacedBefore(d, counters, ws, k) && k < |d| <= 0x10_0000
    ensures Pair(d, k) < |counters| && counters[Pair(d, k)] < |ws| == |d|
    ensures PlacedBefore(d, counters[Pair(d, k) := counters[Pair(d, k)] + 1], ws[counters[Pair(d, k)] := k], k + 1)
  {
    hide Slot, Below, Pair;
    SlotFresh(Pairs(d), k);
    SlotIs(d, k);
  }

  lemma {:induction false} PlaceStart(d: seq<Byte>, counters: seq<Word>, ws: seq<Word>)
    requires |counters| == VALUES && |ws| == |d|
    requires forall v | 0 <= v < VALUES :: counters[v] == Below(Pairs(d), v, |d|)
    ensures PlacedBefore(d, counters, ws, 0)
  {
    hide Slot, Below;
  }

  lemma {:induction false} PlaceDone(d: seq<Byte>, counters: seq<Word>, ws: seq<Word>)
    requires PlacedBefore(d, counters, ws, |d|)
    ensures |counters| == VALUES && forall v | 0 <= v < VALUES :: counters[v] == Below(Pairs(d), v + 1, |d|)
    ensures |ws| == |d| && forall p | 0 <= p < |d| :: Slot(Pairs(d), p) < |d| && ws[Slot(Pairs(d), p)] == p
  {
    hide Slot, Below, Count;
    forall v | 0 <= v < VALUES
      ensures counters[v] == Below(Pairs(d), v + 1, |d|)
    {
      BelowNext(Pairs(d), v, |d|);
    }
  }

  /** Places the positions in turn (BwtSort.c:482-513, unrolled by two there). */
  method PlacePairs(d: seq<Byte>, counters: array<Word>, indices: array<Word>)
    requires 0 < |d| == indices.Length <= 0x10_0000 && counters.Length == VALUES && counters != indices
    requires forall v | 0 <= v < VALUES :: counters[v] == Below(Pairs(d), v, |d|)
    modifies counters, indices
    ensures forall v | 0 <= v < VALUES :: counters[v] == Below(Pairs(d), v + 1, |d|)
    ensures forall p | 0 <= p < |d| :: Slot(Pairs(d), p) < |d| && indices[Slot(Pairs(d), p)] == p
  {
    hide Slot, Below, Count, PlacedBefore, Pairs;
    PlaceStart(d, counters[..], indices[..]);
    for i := 0 to |d|
      invariant PlacedBefore(d, counters[..], indices[..], i)
    {
      PlaceNext(d, counters[..], indices[..], i);
      var a := PairOf(d[i], d[if i + 1 == |d| then 0 else i + 1]);
      var c := counters[a];
      indices[c] := i;
      counters[a] := c + 1;
    }
    ghost var cs, ws := counters[..], indices[..];
    PlaceDone(d, cs, ws);
    assert forall v | 0 <= v < VALUES :: counters[v] == cs[v];
  }

  lemma {:induction false} SlotIs(d: seq<Byte>, i: nat)
    requires i < |d|
    ensures Slot(Pairs(d), i) == Below(Pairs(d), Pair(d, i), |d|) + Count(Pairs(d), Pair(d, i), i)
  {
  }
}
