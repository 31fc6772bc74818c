/** What one call of SortGroup starts from and what it must leave, and the pure
    reasoning that carries one to the other on each of its exits. */
module BwtSortState {
  import opened Machine
  import opened Rotations
  import opened Permutations
  import opened BwtGroups
  import opened BwtSizes

  /** The order of positions that the index words hold. */
  ghost function Order(ws: seq<Word>): (r: seq<nat>)
    ensures |r| == |ws|
    ensures forall i | 0 <= i < |ws| :: r[i] == Pos(ws[i])
  {
    seq(|ws|, i requires 0 <= i < |ws| => Pos(ws[i]))
  }

  /** Which slots of a range are the first of their group. */
  ghost function Firsts(order: seq<nat>, rank: seq<Word>, off: nat, m: nat): (r: seq<bool>)
    requires off + m <= |order|
    requires forall i | off <= i < off + m :: order[i] < |rank|
    ensures |r| == m
    ensures forall k | 0 <= k < m :: r[k] <==> rank[order[off + k]] == off + k
  {
    seq(m, k requires 0 <= k < m => rank[order[off + k]] == off + k)
  }

  /** The sorter in the middle of a pass: sorted on h bytes, and refining the
      ranks `start` that the pass began with. */
  ghost predicate PassState(d: seq<Byte>, order: seq<nat>, rank: seq<Word>, start: seq<Word>, h: nat) {
    && Invariant(d, order, rank, h)
    && h < |d| && |start| == |d|
    && Within(order, rank, start)
    && Equal(d, start, h)
  }

  /** order', rank' is what becomes of order, rank when only the group in slots
      [off, off + m) is rearranged and split. */
  ghost predicate Touched(order: seq<nat>, rank: seq<Word>, order': seq<nat>, rank': seq<Word>, off: nat, m: nat) {
    && Permutation(order, |rank|) && off + m <= |rank|
    && |rank'| == |rank| && Permutation(order', |rank'|)
    && (forall i | 0 <= i < |rank| && !(off <= i < off + m) ::
          order'[i] == order[i] && rank'[order'[i]] == rank[order[i]])
    && (forall i | off <= i < off + m :: rank[order'[i]] == off)
    && (forall i | off <= i < off + m :: off <= rank'[order'[i]] <= i)
  }

  /** Every two members of the slots that still share a rank agree on h bytes. */
  ghost predicate Settled(d: seq<Byte>, order: seq<nat>, rank: seq<Word>, off: nat, m: nat, h: nat)
    requires |d| > 0
    requires Permutation(order, |rank|) && off + m <= |rank|
  {
    forall i, j | off <= i < off + m && off <= j < off + m && rank[order[i]] == rank[order[j]] ::
      Agree(d, order[i], order[j], h)
  }

  /** Some slot of the range shares its group with an earlier one. */
  ghost predicate Shared(order: seq<nat>, rank: seq<Word>, off: nat, m: nat)
    requires Permutation(order, |rank|) && off + m <= |rank|
  {
    exists i | off <= i < off + m :: rank[order[i]] != i
  }

  /** All that SortGroup promises about the group in slots [off, off + m). */
  ghost predicate GroupSorted(d: seq<Byte>, ws: seq<Word>, rank: seq<Word>, ws': seq<Word>, rank': seq<Word>,
                              start: seq<Word>, h: nat, off: nat, m: nat, again: bool) {
    && |ws'| == |ws|
    && PassState(d, Order(ws'), rank', start, h)
    && Touched(Order(ws), rank, Order(ws'), rank', off, m)
    && (forall i | 0 <= i < |ws| && !(off <= i < off + m) :: ws'[i] == ws[i])
    && (forall i | 0 <= i < |ws| :: start[Order(ws')[i]] == start[Order(ws)[i]])
    && Settled(d, Order(ws'), rank', off, m, 2 * h)
    && Layout(ws'[off..off + m], Firsts(Order(ws'), rank', off, m))
    && (again <==> Shared(Order(ws'), rank', off, m))
  }

  /** What SortGroup needs of the group it is given. */
  ghost predicate GroupGiven(d: seq<Byte>, ws: seq<Word>, rank: seq<Word>, start: seq<Word>, h: nat, off: nat, m: nat) {
    && PassState(d, Order(ws), rank, start, h)
    && |d| <= INDEX && 1 <= m && off + m <= |d|
    && WholeGroup(Order(ws), rank, off, m)
    && forall i | off <= i < off + m :: ws[i] < INDEX
  }

  /** The positions h bytes ahead of the members of group `off` all lie, by the
      ranks of the start of the pass, between the groups of slots left and
      left + range - 1. The current ranks may have moved on. */
  ghost predicate RangeHolds(d: seq<Byte>, order: seq<nat>, rank: seq<Word>, start: seq<Word>, h: nat, off: nat,
                             left: nat, range: nat) {
    && h < |d| == |start| == |rank| && Permutation(order, |d|)
    && 1 <= range && left + range <= |d|
    && forall x: nat | x < |d| && rank[x] == off ::
         start[order[left]] <= start[Ahead(|d|, x, h)] <= start[order[left + range - 1]]
  }

  /** A change confined to one group keeps the pass going. */
  lemma {:induction false} PassStep(d: seq<Byte>, order: seq<nat>, rank: seq<Word>, order': seq<nat>, rank': seq<Word>,
                                    start: seq<Word>, h: nat, off: nat, m: nat)
    requires PassState(d, order, rank, start, h) && off + m <= |d|
    requires WholeGroup(order, rank, off, m)
    requires Touched(order, rank, order', rank', off, m)
    requires forall i | off <= i < off + m :: rank'[order'[rank'[order'[i]]]] == rank'[order'[i]]
    requires forall i, j | off <= i < j < off + m :: rank'[order'[i]] <= rank'[order'[j]]
    requires forall i, j | off <= i < off + m && off <= j < off + m && rank'[order'[i]] < rank'[order'[j]] ::
               rank[Ahead(|d|, order'[i], h)] < rank[Ahead(|d|, order'[j], h)]
    ensures PassState(d, order', rank', start, h)
    ensures forall i | 0 <= i < |d| :: start[order'[i]] == start[order[i]]
  {
    Refine(d, order, rank, order', rank', off, m, h);
    WithinRefined(order, rank, order', rank', start, off, m);
  }
}
