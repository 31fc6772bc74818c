/** The state between two steps of the block sorter, read as mathematics: an
    order of the positions, a group rank for each position, and what the two
    promise about the rotations. Nothing here mentions machine words. */
module BwtGroups {
  import opened Machine
  import opened Permutations
  import opened Rotations

  /** The slots with one rank are consecutive and the rank is the first of them. */
  ghost predicate Labelled(order: seq<nat>, rank: seq<Word>, n: nat)
    requires Permutation(order, n) && |rank| == n
  {
    && (forall i | 0 <= i < n :: rank[order[i]] <= i)
    && (forall i | 0 <= i < n :: rank[order[rank[order[i]]]] == rank[order[i]])
    && (forall i, j | 0 <= i < j < n :: rank[order[i]] <= rank[order[j]])
  }

  /** A smaller rank means a strictly smaller rotation. */
  ghost predicate Ordered(d: seq<Byte>, rank: seq<Word>)
    requires |d| > 0 && |rank| == |d|
  {
    forall x: nat, y: nat | x < |d| && y < |d| && rank[x] < rank[y] :: Before(d, x, y)
  }

  /** Equal labels mean rotations equal on h bytes. */
  ghost predicate Equal(d: seq<Byte>, rank: seq<Word>, h: nat)
    requires |d| > 0 && |rank| == |d|
  {
    forall x: nat, y: nat | x < |d| && y < |d| && rank[x] == rank[y] :: Agree(d, x, y, h)
  }

  ghost predicate Invariant(d: seq<Byte>, order: seq<nat>, rank: seq<Word>, h: nat) {
    && |d| > 0 && |rank| == |d|
    && Permutation(order, |d|)
    && Labelled(order, rank, |d|)
    && Ordered(d, rank)
    && Equal(d, rank, h)
  }

  /** Slots [off, off + m) are one whole group. */
  ghost predicate WholeGroup(order: seq<nat>, rank: seq<Word>, off: nat, m: nat)
    requires Permutation(order, |rank|) && off + m <= |rank|
  {
    && (forall i | off <= i < off + m :: rank[order[i]] == off)
    && (forall i | off + m <= i < |rank| :: rank[order[i]] >= off + m)
  }

  /** One group, rearranged and split by the labels found h bytes ahead: the
      invariant survives. The labels ahead may be those of the group itself. */
  lemma {:induction false} Refine(d: seq<Byte>, order: seq<nat>, rank: seq<Word>, order': seq<nat>, rank': seq<Word>,
               off: nat, m: nat, h: nat)
    requires Invariant(d, order, rank, h) && h < |d| && off + m <= |d|
    requires WholeGroup(order, rank, off, m)
    requires Permutation(order', |d|) && |rank'| == |d|
    requires forall i | 0 <= i < |d| && !(off <= i < off + m) ::
               order'[i] == order[i] && rank'[order'[i]] == rank[order[i]]
    requires forall i | off <= i < off + m :: rank[order'[i]] == off
    requires forall i | off <= i < off + m :: off <= rank'[order'[i]] <= i
    requires forall i | off <= i < off + m :: rank'[order'[rank'[order'[i]]]] == rank'[order'[i]]
    requires forall i, j | off <= i < j < off + m :: rank'[order'[i]] <= rank'[order'[j]]
    requires forall i, j | off <= i < off + m && off <= j < off + m && rank'[order'[i]] < rank'[order'[j]] ::
               rank[Ahead(|d|, order'[i], h)] < rank[Ahead(|d|, order'[j], h)]
    ensures Invariant(d, order', rank', h)
  {
    var n := |d|;
    assert Labelled(order', rank', n) by {
      hide Ordered, Equal;
    }
    forall x: nat, y: nat | x < n && y < n
      ensures rank'[x] < rank'[y] ==> Before(d, x, y)
      ensures rank'[x] == rank'[y] ==> Agree(d, x, y, h)
    {
      var i := SlotOf(order', n, x);
      var j := SlotOf(order', n, y);
      if off <= i < off + m && off <= j < off + m {
        assert rank[x] == rank[y];
        assert Agree(d, x, y, h);
        if rank'[x] < rank'[y] {
          assert rank[Ahead(n, x, h)] < rank[Ahead(n, y, h)];
          assert Before(d, Ahead(n, x, h), Ahead(n, y, h));
          BeforeFromAhead(d, x, y, h);
        }
      } else {
        RefineOutside(order, rank, order', rank', off, m, i, j);
      }
    }
  }

  lemma {:induction false} RefineOutside(order: seq<nat>, rank: seq<Word>, order': seq<nat>, rank': seq<Word>,
                      off: nat, m: nat, i: nat, j: nat)
    requires Permutation(order, |rank|) && Labelled(order, rank, |rank|) && off + m <= |rank|
    requires WholeGroup(order, rank, off, m)
    requires Permutation(order', |rank|) && |rank'| == |rank|
    requires forall i | 0 <= i < |rank| && !(off <= i < off + m) ::
               order'[i] == order[i] && rank'[order'[i]] == rank[order[i]]
    requires forall i | off <= i < off + m :: rank[order'[i]] == off
    requires forall i | off <= i < off + m :: off <= rank'[order'[i]] <= i
    requires i < |rank| && j < |rank| && !(off <= i < off + m && off <= j < off + m)
    ensures rank'[order'[i]] < rank'[order'[j]] ==> rank[order'[i]] < rank[order'[j]]
    ensures rank'[order'[i]] == rank'[order'[j]] ==> rank[order'[i]] == rank[order'[j]]
  {
  }

  /** The labels of a pass, `rank`, refine those it started from, `start`. */
  ghost predicate Within(order: seq<nat>, rank: seq<Word>, start: seq<Word>)
    requires Permutation(order, |rank|) && |start| == |rank|
  {
    && (forall x: nat | x < |rank| :: rank[x] < |rank| && start[order[rank[x]]] == start[x])
    && (forall i, j | 0 <= i < j < |rank| :: start[order[i]] <= start[order[j]])
  }

  /** Rearranging and splitting one group stays within the labels the pass
      started from, slot by slot. */
  lemma {:induction false} WithinRefined(order: seq<nat>, rank: seq<Word>, order': seq<nat>, rank': seq<Word>,
                                         start: seq<Word>,
                      off: nat, m: nat)
    requires Permutation(order, |rank|) && Labelled(order, rank, |rank|) && off + m <= |rank|
    requires |start| == |rank| && Within(order, rank, start)
    requires WholeGroup(order, rank, off, m)
    requires Permutation(order', |rank|) && |rank'| == |rank|
    requires forall i | 0 <= i < |rank| && !(off <= i < off + m) ::
               order'[i] == order[i] && rank'[order'[i]] == rank[order[i]]
    requires forall i | off <= i < off + m :: rank[order'[i]] == off
    requires forall i | off <= i < off + m :: off <= rank'[order'[i]] <= i
    ensures forall i | 0 <= i < |rank| :: start[order'[i]] == start[order[i]]
    ensures Within(order', rank', start)
  {
    var n := |rank|;
    forall i | 0 <= i < n
      ensures start[order'[i]] == start[order[i]]
    {
      if off <= i < off + m {
        assert start[order[off]] == start[order'[i]];
        assert start[order[off]] == start[order[i]];
      }
    }
    forall x: nat | x < n
      ensures rank'[x] < n && start[order'[rank'[x]]] == start[x]
    {
      var i := SlotOf(order', n, x);
      if off <= i < off + m {
        var l := rank'[x];
        assert start[order[off]] == start[order'[l]];
      } else {
        assert rank'[x] == rank[x];
      }
    }
  }
}
