/** Why the other branches of SortGroup are right: a group that cannot be split,
    one in-place partition by rank, and two sorted parts side by side. */
module BwtRangeSort {
  import opened Machine
  import opened Rotations
  import opened Permutations
  import opened BwtGroups
  import opened BwtSizes
  import opened BwtSortState
  import BwtKeys

  /** A group of one is sorted as it stands. */
  lemma {:induction false} SingleSorted(d: seq<Byte>, ws: seq<Word>, rank: seq<Word>, start: seq<Word>, h: nat,
                                        off: nat)
    requires GroupGiven(d, ws, rank, start, h, off, 1)
    ensures GroupSorted(d, ws, rank, ws, rank, start, h, off, 1, false)
  {
    var order := Order(ws);
    assert Agree(d, order[off], order[off], 2 * h);
    BwtKeys.PosOfIndex(ws[off]);
    assert Encoded(ws[off..off + 1]);
    BlockIsLayout(ws[off..off + 1], Firsts(order, rank, off, 1));
  }

  /** Only the size words of the group are new. */
  ghost predicate Sized(ws: seq<Word>, ws': seq<Word>, off: nat, m: nat) {
    && |ws'| == |ws| && off + m <= |ws|
    && (forall i | 0 <= i < |ws| && !(off <= i < off + m) :: ws'[i] == ws[i])
    && (forall i | off <= i < off + m :: Pos(ws'[i]) == ws[i])
    && Encoded(ws'[off..off + m]) && (Live(ws'[off]) <==> m > 1)
  }

  lemma {:induction false} SizedOrder(ws: seq<Word>, ws': seq<Word>, off: nat, m: nat)
    requires Sized(ws, ws', off, m)
    requires forall i | off <= i < off + m :: ws[i] < INDEX
    ensures Order(ws') == Order(ws)
  {
    hide Encoded;
    forall i | 0 <= i < |ws|
      ensures Order(ws')[i] == Order(ws)[i]
    {
      if off <= i < off + m {
        BwtKeys.PosOfIndex(ws[i]);
      }
    }
  }

  /** All the members of the slots agree on h bytes, h bytes ahead. */
  ghost predicate Uniform(d: seq<Byte>, order: seq<nat>, h: nat, off: nat, m: nat) {
    && Permutation(order, |d|) && h < |d| && off + m <= |d|
    && forall i, j | off <= i < off + m && off <= j < off + m ::
         Agree(d, Ahead(|d|, order[i], h), Ahead(|d|, order[j], h), h)
  }

  /** A group whose members agree h bytes ahead stays one group, now good for 2h. */
  lemma {:induction false} UniformSorted(d: seq<Byte>, ws: seq<Word>, rank: seq<Word>, ws': seq<Word>, start: seq<Word>,
                                         h: nat, off: nat, m: nat)
    requires GroupGiven(d, ws, rank, start, h, off, m) && m >= 2
    requires Sized(ws, ws', off, m)
    requires Uniform(d, Order(ws), h, off, m)
    ensures GroupSorted(d, ws, rank, ws', rank, start, h, off, m, true)
  {
    hide PassState, Layout, Agree, Ahead, Settled, Firsts, Uniform;
    SizedOrder(ws, ws', off, m);
    GivenRanks(d, ws, rank, start, h, off, m);
    UniformLayout(ws', Order(ws), rank, off, m);
    GivenAgree(d, ws, rank, start, h, off, m);
    UniformSettled(d, Order(ws), rank, h, off, m);
  }

  lemma {:induction false} GivenAgree(d: seq<Byte>, ws: seq<Word>, rank: seq<Word>, start: seq<Word>, h: nat,
                                      off: nat, m: nat)
    requires GroupGiven(d, ws, rank, start, h, off, m)
    ensures |ws| == |d| > 0 && Permutation(Order(ws), |d|) && off + m <= |d|
    ensures forall i, j | off <= i < off + m && off <= j < off + m :: Agree(d, Order(ws)[i], Order(ws)[j], h)
  {
    hide Agree, Labelled, Ordered, Within;
  }

  lemma {:induction false} GivenRanks(d: seq<Byte>, ws: seq<Word>, rank: seq<Word>, start: seq<Word>, h: nat,
                                      off: nat, m: nat)
    requires GroupGiven(d, ws, rank, start, h, off, m)
    ensures |ws| == |rank| == |d| && Permutation(Order(ws), |d|) && h < |d| && off + m <= |d|
    ensures forall i | off <= i < off + m :: rank[Order(ws)[i]] == off
    ensures Touched(Order(ws), rank, Order(ws), rank, off, m)
  {
    hide Labelled, Ordered, Equal, Within;
  }

  /** One live block for the whole group. */
  lemma {:induction false} UniformLayout(ws: seq<Word>, order: seq<nat>, rank: seq<Word>, off: nat, m: nat)
    requires m >= 2 && off + m <= |ws| == |rank| && Permutation(order, |rank|)
    requires Encoded(ws[off..off + m]) && Live(ws[off])
    requires forall i | off <= i < off + m :: rank[order[i]] == off
    ensures Layout(ws[off..off + m], Firsts(order, rank, off, m)) && Shared(order, rank, off, m)
  {
    hide Encoded, Live, Layout;
    var first := Firsts(order, rank, off, m);
    assert rank[order[off + 1]] != off + 1;
    assert ws[off..off + m][0] == ws[off];
    BlockIsLayout(ws[off..off + m], first);
  }

  lemma {:induction false} UniformSettled(d: seq<Byte>, order: seq<nat>, rank: seq<Word>, h: nat, off: nat, m: nat)
    requires Uniform(d, order, h, off, m) && |rank| == |d| && |d| > 0
    requires forall i, j | off <= i < off + m && off <= j < off + m :: Agree(d, order[i], order[j], h)
    ensures Settled(d, order, rank, off, m, 2 * h)
  {
    hide Agree;
    forall i, j | off <= i < off + m && off <= j < off + m
      ensures Agree(d, order[i], order[j], 2 * h)
    {
      AgreeFromAhead(d, order[i], order[j], h);
    }
  }

  /** The members of the group, in some order. */
  ghost predicate Reordered(ws: seq<Word>, ws': seq<Word>, rank: seq<Word>, off: nat, m: nat) {
    && |ws'| == |ws| == |rank|
    && Touched(Order(ws), rank, Order(ws'), rank, off, m)
    && (forall i | 0 <= i < |ws| && !(off <= i < off + m) :: ws'[i] == ws[i])
    && (forall i | off <= i < off + m :: ws'[i] < INDEX)
  }

  lemma {:induction false} ReorderedSwap(ws: seq<Word>, ws': seq<Word>, rank: seq<Word>, off: nat, m: nat, i: nat,
                                         j: nat)
    requires Reordered(ws, ws', rank, off, m)
    requires off <= i < off + m && off <= j < off + m
    ensures Reordered(ws, ws'[i := ws'[j]][j := ws'[i]], rank, off, m)
  {
    var o', o'' := Order(ws'), Order(ws'[i := ws'[j]][j := ws'[i]]);
    assert o'' == o'[i := o'[j]][j := o'[i]];
  }

  /** The rank h bytes ahead of a position. */
  ghost function KeyAhead(rank: seq<Word>, h: nat, p: nat): nat
    requires p < |rank| && h < |rank|
  {
    rank[Ahead(|rank|, p, h)]
  }

  /** A partition by mid under way: [off, off + i) below it, [off + j, off + m) not. */
  ghost predicate Parting(ws0: seq<Word>, ws: seq<Word>, rank: seq<Word>, h: nat, off: nat, m: nat,
                          mid: nat, i: nat, j: nat) {
    && Reordered(ws0, ws, rank, off, m)
    && |ws0| == |ws| == |rank| && off + m <= |ws| && h < |ws| && i <= m && j <= m
    && (forall k | off <= k < off + m :: ws[k] < |ws|)
    && (forall k | off <= k < off + i :: KeyAhead(rank, h, ws[k]) < mid)
    && (forall k | off + j <= k < off + m :: KeyAhead(rank, h, ws[k]) >= mid)
  }

  lemma {:induction false} PartingSwap(ws0: seq<Word>, ws: seq<Word>, rank: seq<Word>, h: nat, off: nat, m: nat,
                                       mid: nat, i: nat, j: nat)
    requires Parting(ws0, ws, rank, h, off, m, mid, i, j + 1) && i < j < m
    requires off + m <= |ws| == |rank| && h < |ws| && ws[off + i] < |ws| && ws[off + j] < |ws|
    requires KeyAhead(rank, h, ws[off + i]) >= mid > KeyAhead(rank, h, ws[off + j])
    ensures Parting(ws0, ws[off + i := ws[off + j]][off + j := ws[off + i]], rank, h, off, m, mid, i + 1, j)
  {
    hide Reordered, KeyAhead;
    ReorderedSwap(ws0, ws, rank, off, m, off + i, off + j);
    var ws' := ws[off + i := ws[off + j]][off + j := ws[off + i]];
    forall k | off <= k < off + m
      ensures ws'[k] == if k == off + i then ws[off + j] else if k == off + j then ws[off + i] else ws[k]
    {
    }
  }

  lemma {:induction false} PartingAt(ws0: seq<Word>, ws: seq<Word>, rank: seq<Word>, h: nat, off: nat, m: nat,
                                     mid: nat, i: nat, j: nat, k: nat)
    requires Parting(ws0, ws, rank, h, off, m, mid, i, j) && k < m
    ensures off + m <= |ws| == |rank| && h < |ws| && ws[off + k] < |ws|
  {
  }

  lemma {:induction false} PartingGrow(ws0: seq<Word>, ws: seq<Word>, rank: seq<Word>, h: nat, off: nat, m: nat,
                                       mid: nat, i: nat, j: nat)
    requires Parting(ws0, ws, rank, h, off, m, mid, i, j)
    ensures off + m <= |ws| == |rank| && h < |ws| && i <= m && j <= m
    ensures i < m && ws[off + i] < |ws| && KeyAhead(rank, h, ws[off + i]) < mid ==>
              Parting(ws0, ws, rank, h, off, m, mid, i + 1, j)
    ensures 0 < j && ws[off + (j - 1)] < |ws| && KeyAhead(rank, h, ws[off + (j - 1)]) >= mid ==>
              Parting(ws0, ws, rank, h, off, m, mid, i, j - 1)
  {
    hide Reordered;
  }

  lemma {:induction false} PartingStart(d: seq<Byte>, ws: seq<Word>, rank: seq<Word>, start: seq<Word>, h: nat,
                                        off: nat, m: nat, mid: nat)
    requires GroupGiven(d, ws, rank, start, h, off, m)
    ensures Parting(ws, ws, rank, h, off, m, mid, 0, m)
  {
    forall k | off <= k < off + m
      ensures ws[k] == Order(ws)[k] < |ws|
    {
      BwtKeys.PosOfIndex(ws[k]);
    }
  }

  /** The parts of a partitioned group, right part relabelled. */
  ghost predicate Parted(ws: seq<Word>, rank: seq<Word>, ws': seq<Word>, rank': seq<Word>,
                         h: nat, off: nat, m: nat, cut: nat, mid: nat) {
    && h < |ws| == |rank| && 0 < cut < m
    && Reordered(ws, ws', rank, off, m) && |rank'| == |rank|
    && (forall i | off <= i < off + m :: ws'[i] < |rank|)
    && (forall i | off <= i < off + cut :: KeyAhead(rank, h, ws'[i]) < mid)
    && (forall i | off + cut <= i < off + m :: KeyAhead(rank, h, ws'[i]) >= mid)
    && (forall i | off + cut <= i < off + m :: rank'[ws'[i]] == off + cut)
    && (forall i | off <= i < off + cut :: rank'[ws'[i]] == off)
    && (forall i | 0 <= i < |ws| && !(off <= i < off + m) ::
          Pos(ws'[i]) < |ws| && rank'[Pos(ws'[i])] == rank[Pos(ws'[i])])
  }

  lemma {:induction false} PartedTouched(ws: seq<Word>, rank: seq<Word>, ws': seq<Word>, rank': seq<Word>,
                                         h: nat, off: nat, m: nat, cut: nat, mid: nat)
    requires Parted(ws, rank, ws', rank', h, off, m, cut, mid)
    ensures Touched(Order(ws), rank, Order(ws'), rank', off, m)
    ensures forall i | off <= i < off + m :: Order(ws')[i] == ws'[i]
  {
    hide KeyAhead;
    var order' := Order(ws');
    forall i | off <= i < off + m
      ensures order'[i] == ws'[i] && off <= rank'[order'[i]] <= i
    {
      BwtKeys.PosOfIndex(ws'[i]);
    }
  }

  lemma {:induction false} PartedPass(d: seq<Byte>, ws: seq<Word>, rank: seq<Word>, ws': seq<Word>, rank': seq<Word>,
                                      start: seq<Word>, h: nat, off: nat, m: nat, cut: nat, mid: nat)
    requires GroupGiven(d, ws, rank, start, h, off, m)
    requires Parted(ws, rank, ws', rank', h, off, m, cut, mid)
    ensures Touched(Order(ws), rank, Order(ws'), rank', off, m)
    ensures PassState(d, Order(ws'), rank', start, h)
    ensures forall i | 0 <= i < |d| :: start[Order(ws')[i]] == start[Order(ws)[i]]
  {
    PartedTouched(ws, rank, ws', rank', h, off, m, cut, mid);
    var order, order' := Order(ws), Order(ws');
    hide PassState, Touched, Reordered, Order;
    forall i, j | off <= i < off + m && off <= j < off + m && rank'[order'[i]] < rank'[order'[j]]
      ensures rank[Ahead(|d|, order'[i], h)] < rank[Ahead(|d|, order'[j], h)]
    {
      assert i < off + cut <= j;
      assert KeyAhead(rank, h, ws'[i]) < mid <= KeyAhead(rank, h, ws'[j]);
    }
    PassStep(d, order, rank, order', rank', start, h, off, m);
  }

  lemma {:induction false} PartedGroups(d: seq<Byte>, ws: seq<Word>, rank: seq<Word>, ws': seq<Word>, rank': seq<Word>,
                                      start: seq<Word>, h: nat, off: nat, m: nat, cut: nat, mid: nat)
    requires GroupGiven(d, ws, rank, start, h, off, m)
    requires Parted(ws, rank, ws', rank', h, off, m, cut, mid)
    ensures Touched(Order(ws), rank, Order(ws'), rank', off, m)
    ensures GroupGiven(d, ws', rank', start, h, off, cut)
    ensures WholeGroup(Order(ws'), rank', off + cut, m - cut)
    ensures forall i | 0 <= i < |d| :: start[Order(ws')[i]] == start[Order(ws)[i]]
  {
    PartedTouched(ws, rank, ws', rank', h, off, m, cut, mid);
    PartedPass(d, ws, rank, ws', rank', start, h, off, m, cut, mid);
    hide PassState, KeyAhead;
    assert |d| <= INDEX && off + m <= |d|;
    PartedWhole(ws, rank, ws', rank', h, off, m, cut, mid);
    hide Parted, GroupGiven;
  }

  lemma {:induction false} PartedWhole(ws: seq<Word>, rank: seq<Word>, ws': seq<Word>, rank': seq<Word>,
                                       h: nat, off: nat, m: nat, cut: nat, mid: nat)
    requires Parted(ws, rank, ws', rank', h, off, m, cut, mid) && off + m <= |ws| && |rank'| == |ws|
    requires Permutation(Order(ws), |rank|) && WholeGroup(Order(ws), rank, off, m)
    requires Touched(Order(ws), rank, Order(ws'), rank', off, m)
    ensures Permutation(Order(ws'), |rank'|)
    ensures WholeGroup(Order(ws'), rank', off, cut) && WholeGroup(Order(ws'), rank', off + cut, m - cut)
    ensures forall i | off <= i < off + cut :: ws'[i] < INDEX
  {
    hide KeyAhead;
    forall i | off <= i < off + m
      ensures Order(ws')[i] == ws'[i]
    {
      BwtKeys.PosOfIndex(ws'[i]);
    }
  }

  lemma {:induction false} StartAt(d: seq<Byte>, order: seq<nat>, rank: seq<Word>, start: seq<Word>, h: nat, y: nat)
    requires PassState(d, order, rank, start, h) && y < |d|
    ensures Permutation(order, |d|) && |rank| == |start| == |d|
    ensures rank[y] < |d| && start[order[rank[y]]] == start[y]
  {
  }

  lemma {:induction false} StartRises(d: seq<Byte>, order: seq<nat>, rank: seq<Word>, start: seq<Word>, h: nat,
                                      i: nat, j: nat)
    requires PassState(d, order, rank, start, h) && i <= j < |d|
    ensures |order| == |start| == |d| && order[i] < |d| && order[j] < |d|
    ensures start[order[i]] <= start[order[j]]
  {
  }

  /** The members of a whole group are in its slots. */
  lemma {:induction false} SlotOfMember(order: seq<nat>, rank: seq<Word>, off: nat, m: nat, x: nat) returns (i: nat)
    requires Permutation(order, |rank|) && off + m <= |rank| && WholeGroup(order, rank, off, m)
    requires Labelled(order, rank, |rank|) && 1 <= m && x < |rank| && rank[x] == off
    ensures off <= i < off + m && order[i] == x
  {
    i := SlotOf(order, |rank|, x);
  }

  lemma {:induction false} SlotOfGiven(d: seq<Byte>, ws: seq<Word>, rank: seq<Word>, start: seq<Word>, h: nat,
                                       off: nat, m: nat, x: nat) returns (i: nat)
    requires GroupGiven(d, ws, rank, start, h, off, m) && x < |rank| && rank[x] == off
    ensures off <= i < off + m <= |ws| == |rank| == |d| && ws[i] == x
  {
    i := SlotOfMember(Order(ws), rank, off, m, x);
    BwtKeys.PosOfIndex(ws[i]);
  }

  /** The next, smaller range for the members whose key is below mid. */
  lemma {:induction false} RangeBelow(d: seq<Byte>, ws: seq<Word>, rank: seq<Word>, start: seq<Word>, h: nat,
                                      off: nat, m: nat, left: nat, range: nat, mid: nat)
    requires GroupGiven(d, ws, rank, start, h, off, m)
    requires RangeHolds(d, Order(ws), rank, start, h, off, left, range)
    requires |rank| == |ws| && left < mid < left + range && off + m <= |ws| && h < |ws|
    requires forall i | off <= i < off + m :: ws[i] < |ws| && KeyAhead(rank, h, ws[i]) < mid
    ensures RangeHolds(d, Order(ws), rank, start, h, off, left, mid - left)
  {
    var order := Order(ws);
    GivenPass(d, ws, rank, start, h, off, m);
    hide GroupGiven, PassState, Order;
    forall x: nat | x < |d| && rank[x] == off
      ensures start[Ahead(|d|, x, h)] <= start[order[left + (mid - left) - 1]]
    {
      var i := SlotOfGiven(d, ws, rank, start, h, off, m, x);
      assert KeyAhead(rank, h, ws[i]) < mid;
      StartBelow(d, order, rank, start, h, Ahead(|d|, x, h), mid);
    }
  }

  lemma {:induction false} StartBelow(d: seq<Byte>, order: seq<nat>, rank: seq<Word>, start: seq<Word>, h: nat,
                                      y: nat, mid: nat)
    requires PassState(d, order, rank, start, h) && |rank| == |start| == |d| == |order| && y < |d|
    requires rank[y] < mid <= |d| && order[mid - 1] < |d|
    ensures start[y] <= start[order[mid - 1]]
  {
    hide PassState;
    StartAt(d, order, rank, start, h, y);
    StartRises(d, order, rank, start, h, rank[y], mid - 1);
  }

  lemma {:induction false} GivenPass(d: seq<Byte>, ws: seq<Word>, rank: seq<Word>, start: seq<Word>, h: nat,
                                     off: nat, m: nat)
    requires GroupGiven(d, ws, rank, start, h, off, m)
    ensures PassState(d, Order(ws), rank, start, h)
  {
  }

  lemma {:induction false} RangeAbove(d: seq<Byte>, ws: seq<Word>, rank: seq<Word>, start: seq<Word>, h: nat,
                                      off: nat, m: nat, left: nat, range: nat, mid: nat)
    requires GroupGiven(d, ws, rank, start, h, off, m)
    requires RangeHolds(d, Order(ws), rank, start, h, off, left, range)
    requires |rank| == |ws| && left < mid < left + range && off + m <= |ws| && h < |ws|
    requires forall i | off <= i < off + m :: ws[i] < |ws| && KeyAhead(rank, h, ws[i]) >= mid
    ensures RangeHolds(d, Order(ws), rank, start, h, off, mid, range - (mid - left))
  {
    var order := Order(ws);
    GivenPass(d, ws, rank, start, h, off, m);
    hide GroupGiven, PassState, Order;
    forall x: nat | x < |d| && rank[x] == off
      ensures start[order[mid]] <= start[Ahead(|d|, x, h)]
    {
      var i := SlotOfGiven(d, ws, rank, start, h, off, m, x);
      var y := Ahead(|d|, x, h);
      assert rank[y] == KeyAhead(rank, h, ws[i]);
      StartAt(d, order, rank, start, h, y);
      StartRises(d, order, rank, start, h, mid, rank[y]);
    }
  }

  /** A range of one: by the ranks of the start of the pass, all the members
      agree h bytes ahead, whatever the ranks are by now. */
  lemma {:induction false} RangeOfOne(d: seq<Byte>, order: seq<nat>, rank: seq<Word>, start: seq<Word>, h: nat,
                                      off: nat, m: nat, left: nat)
    requires PassState(d, order, rank, start, h) && RangeHolds(d, order, rank, start, h, off, left, 1)
    requires off + m <= |d| && WholeGroup(order, rank, off, m)
    ensures Uniform(d, order, h, off, m)
  {
    forall i, j | off <= i < off + m && off <= j < off + m
      ensures Agree(d, Ahead(|d|, order[i], h), Ahead(|d|, order[j], h), h)
    {
      assert start[Ahead(|d|, order[i], h)] == start[Ahead(|d|, order[j], h)];
    }
  }

  /** Rearranging the members changes neither what is given nor the range. */
  lemma {:induction false} ReorderedGiven(d: seq<Byte>, ws: seq<Word>, rank: seq<Word>, ws': seq<Word>,
                                          start: seq<Word>,
                                          h: nat, off: nat, m: nat)
    requires GroupGiven(d, ws, rank, start, h, off, m) && Reordered(ws, ws', rank, off, m)
    ensures GroupGiven(d, ws', rank, start, h, off, m)
    ensures |start| == |ws| == |ws'| == |d| && Permutation(Order(ws), |d|) && Permutation(Order(ws'), |d|)
    ensures forall i | 0 <= i < |d| :: start[Order(ws')[i]] == start[Order(ws)[i]]
  {
    PassStep(d, Order(ws), rank, Order(ws'), rank, start, h, off, m);
    assert WholeGroup(Order(ws'), rank, off, m);
    hide PassState;
  }

  lemma {:induction false} RangeMoved(d: seq<Byte>, order: seq<nat>, rank: seq<Word>, order': seq<nat>,
                                      rank': seq<Word>,
                                      start: seq<Word>, h: nat, off: nat, off': nat, left: nat, range: nat)
    requires RangeHolds(d, order, rank, start, h, off, left, range)
    requires Permutation(order', |d|) && |rank'| == |d|
    requires forall i | 0 <= i < |d| :: start[order'[i]] == start[order[i]]
    requires forall x: nat | x < |d| && rank'[x] == off' :: rank[x] == off
    ensures RangeHolds(d, order', rank', start, h, off', left, range)
  {
  }

  /** The ranges of the two parts, by the ranks before the right part got its own. */
  lemma {:induction false} LeftRange(d: seq<Byte>, ws: seq<Word>, rank: seq<Word>, rank': seq<Word>, start: seq<Word>,
                                     h: nat, off: nat, m: nat, cut: nat, left: nat, range: nat, mid: nat)
    requires PassState(d, Order(ws), rank, start, h) && RangeHolds(d, Order(ws), rank, start, h, off, left, range)
    requires GroupGiven(d, ws, rank', start, h, off, cut)
    requires |rank| == |rank'| == |ws| && left < mid < left + range && off + cut <= |ws| && h < |ws|
    requires forall i | off <= i < off + cut :: ws[i] < |ws| && rank[ws[i]] == off && KeyAhead(rank, h, ws[i]) < mid
    ensures RangeHolds(d, Order(ws), rank', start, h, off, left, mid - left)
  {
    var order := Order(ws);
    hide GroupGiven, PassState, Order;
    forall x: nat | x < |d| && rank'[x] == off
      ensures start[order[left]] <= start[Ahead(|d|, x, h)] <= start[order[left + (mid - left) - 1]]
    {
      var i := SlotOfGiven(d, ws, rank', start, h, off, cut, x);
      assert KeyAhead(rank, h, ws[i]) < mid;
      StartBelow(d, order, rank, start, h, Ahead(|d|, x, h), mid);
    }
  }

  lemma {:induction false} RightRange(d: seq<Byte>, ws: seq<Word>, rank: seq<Word>, rank': seq<Word>, start: seq<Word>,
                                      h: nat, off: nat, m: nat, cut: nat, left: nat, range: nat, mid: nat)
    requires PassState(d, Order(ws), rank, start, h) && RangeHolds(d, Order(ws), rank, start, h, off, left, range)
    requires PassState(d, Order(ws), rank', start, h) && cut < m
    requires |rank| == |rank'| == |ws| && left < mid < left + range && off + m <= |ws| <= INDEX && h < |ws|
    requires WholeGroup(Order(ws), rank', off + cut, m - cut)
    requires forall i | off + cut <= i < off + m ::
               ws[i] < |ws| && rank[ws[i]] == off && KeyAhead(rank, h, ws[i]) >= mid
    ensures RangeHolds(d, Order(ws), rank', start, h, off + cut, mid, range - (mid - left))
  {
    var order := Order(ws);
    PassLabelled(d, order, rank', start, h);
    hide PassState, WholeGroup, Labelled, Order, KeyAhead;
    forall x: nat | x < |d| && rank'[x] == off + cut
      ensures rank[x] == off && start[order[mid]] <= start[Ahead(|d|, x, h)]
    {
      RightStart(d, ws, rank, rank', start, h, off, m, cut, mid, x);
    }
    RangeCut(d, order, rank, rank', start, h, off, off + cut, left, range, mid);
  }

  lemma {:induction false} RightStart(d: seq<Byte>, ws: seq<Word>, rank: seq<Word>, rank': seq<Word>, start: seq<Word>,
                                      h: nat, off: nat, m: nat, cut: nat, mid: nat, x: nat)
    requires PassState(d, Order(ws), rank, start, h) && PassState(d, Order(ws), rank', start, h) && cut < m
    requires |rank| == |rank'| == |ws| == |d| == |start| && off + m <= |ws| <= INDEX && h < |ws| && mid < |ws|
    requires Permutation(Order(ws), |ws|) && WholeGroup(Order(ws), rank', off + cut, m - cut)
    requires forall i | off + cut <= i < off + m ::
               ws[i] < |ws| && rank[ws[i]] == off && KeyAhead(rank, h, ws[i]) >= mid
    requires x < |d| && rank'[x] == off + cut
    ensures start[Order(ws)[mid]] <= start[Ahead(|d|, x, h)]
    ensures rank[x] == off
  {
    hide PassState, WholeGroup, Permutation, Labelled, Ahead;
    var order := Order(ws);
    PassLabelled(d, order, rank', start, h);
    var i := SlotOfMember(order, rank', off + cut, m - cut, x);
    BwtKeys.PosOfIndex(ws[i]);
    hide Order;
    assert KeyAhead(rank, h, ws[i]) >= mid;
    StartAbove(d, order, rank, start, h, Ahead(|d|, x, h), mid);
  }

  lemma {:induction false} RangeCut(d: seq<Byte>, order: seq<nat>, rank: seq<Word>, rank': seq<Word>, start: seq<Word>,
                                    h: nat, off: nat, off': nat, left: nat, range: nat, mid: nat)
    requires RangeHolds(d, order, rank, start, h, off, left, range) && left < mid < left + range && |rank'| == |d|
    requires forall x: nat | x < |d| && rank'[x] == off' ::
               rank[x] == off && start[order[mid]] <= start[Ahead(|d|, x, h)]
    ensures RangeHolds(d, order, rank', start, h, off', mid, range - (mid - left))
  {
  }

  lemma {:induction false} PassLabelled(d: seq<Byte>, order: seq<nat>, rank: seq<Word>, start: seq<Word>, h: nat)
    requires PassState(d, order, rank, start, h)
    ensures |rank| == |start| == |d| && Permutation(order, |d|) && Labelled(order, rank, |d|)
  {
  }

  lemma {:induction false} StartAbove(d: seq<Byte>, order: seq<nat>, rank: seq<Word>, start: seq<Word>, h: nat,
                                      y: nat, mid: nat)
    requires PassState(d, order, rank, start, h) && |rank| == |start| == |d| == |order| && y < |d|
    requires mid <= rank[y] && mid < |d| && order[mid] < |d|
    ensures start[order[mid]] <= start[y]
  {
    hide PassState;
    StartAt(d, order, rank, start, h, y);
    StartRises(d, order, rank, start, h, mid, rank[y]);
  }

  /** Sorting the left part adds no member to the right one. */
  lemma {:induction false} RightMembers(order: seq<nat>, rank: seq<Word>, order': seq<nat>, rank': seq<Word>,
                                        off: nat, cut: nat)
    requires Touched(order, rank, order', rank', off, cut)
    ensures forall x: nat | x < |rank| && rank'[x] == off + cut :: rank[x] == off + cut
  {
    forall x: nat | x < |rank| && rank'[x] == off + cut
      ensures rank[x] == off + cut
    {
      var i := SlotOf(order', |rank|, x);
    }
  }

  /** What the first recursive call leaves the second one: its group, untouched. */
  lemma {:induction false} RightGiven(d: seq<Byte>, ws: seq<Word>, rank: seq<Word>, ws': seq<Word>, rank': seq<Word>,
                                      start: seq<Word>, h: nat, off: nat, cut: nat, m: nat, again: bool)
    requires GroupSorted(d, ws, rank, ws', rank', start, h, off, cut, again)
    requires |d| == |ws| <= INDEX && cut < m && off + m <= |d| && |rank| == |ws|
    requires WholeGroup(Order(ws), rank, off + cut, m - cut)
    requires forall i | off + cut <= i < off + m :: ws[i] < INDEX
    ensures GroupGiven(d, ws', rank', start, h, off + cut, m - cut)
  {
    hide PassState, Settled, Layout, Shared;
    RightGroup(Order(ws), rank, Order(ws'), rank', off, cut, m);
  }

  lemma {:induction false} RightGroup(order: seq<nat>, rank: seq<Word>, order': seq<nat>, rank': seq<Word>,
                                      off: nat, cut: nat, m: nat)
    requires Touched(order, rank, order', rank', off, cut) && cut < m && off + m <= |rank|
    requires WholeGroup(order, rank, off + cut, m - cut)
    ensures Permutation(order', |rank'|) && WholeGroup(order', rank', off + cut, m - cut)
  {
  }

  /** A rearranged stretch holds the positions it held. */
  lemma {:induction false} MemberStays(order: seq<nat>, rank: seq<Word>, order': seq<nat>, rank': seq<Word>,
                                       off: nat, m: nat, i: nat) returns (k: nat)
    requires Touched(order, rank, order', rank', off, m) && off <= i < off + m
    ensures off <= k < off + m && order[k] == order'[i]
  {
    k := SlotOf(order, |rank|, order'[i]);
    if !(off <= k < off + m) {
      assert false;
    }
  }

  lemma {:induction false} HalvesTouched(order0: seq<nat>, rank0: seq<Word>, order1: seq<nat>, rank1: seq<Word>,
                                         order2: seq<nat>, rank2: seq<Word>, order3: seq<nat>, rank3: seq<Word>,
                                         off: nat, cut: nat, m: nat)
    requires 0 < cut < m && Touched(order0, rank0, order1, rank1, off, m)
    requires Touched(order1, rank1, order2, rank2, off, cut)
    requires Touched(order2, rank2, order3, rank3, off + cut, m - cut)
    ensures Touched(order0, rank0, order3, rank3, off, m)
  {
    forall i | off <= i < off + m
      ensures rank0[order3[i]] == off
    {
      if i < off + cut {
        assert order3[i] == order2[i];
        var k := MemberStays(order1, rank1, order2, rank2, off, cut, i);
      } else {
        var k := MemberStays(order2, rank2, order3, rank3, off + cut, m - cut, i);
        assert order2[k] == order1[k];
      }
    }
  }

  lemma {:induction false} HalvesSettled(d: seq<Byte>, order2: seq<nat>, rank2: seq<Word>, order3: seq<nat>,
                                         rank3: seq<Word>,
                                         off: nat, cut: nat, m: nat, h: nat)
    requires |d| > 0 && 0 < cut < m && off + m <= |rank2|
    requires Touched(order2, rank2, order3, rank3, off + cut, m - cut)
    requires forall i | off <= i < off + cut :: off <= rank2[order2[i]] <= i
    requires Settled(d, order2, rank2, off, cut, h)
    requires Settled(d, order3, rank3, off + cut, m - cut, h)
    ensures Settled(d, order3, rank3, off, m, h)
    ensures Shared(order3, rank3, off, m) <==>
              Shared(order2, rank2, off, cut) || Shared(order3, rank3, off + cut, m - cut)
  {
    hide Agree;
    forall i, j | off <= i < off + m && off <= j < off + m && rank3[order3[i]] == rank3[order3[j]]
      ensures Agree(d, order3[i], order3[j], h)
    {
      if i < off + cut && j < off + cut {
        assert order3[i] == order2[i] && order3[j] == order2[j];
      }
    }
    forall i | off <= i < off + cut
      ensures rank3[order3[i]] == rank2[order2[i]]
    {
    }
  }

  lemma {:induction false} HalvesLayout(ws2: seq<Word>, order2: seq<nat>, rank2: seq<Word>,
                                        ws3: seq<Word>, order3: seq<nat>, rank3: seq<Word>, off: nat, cut: nat, m: nat)
    requires |ws2| == |ws3| == |rank2| && 0 < cut < m && off + m <= |ws2|
    requires Touched(order2, rank2, order3, rank3, off + cut, m - cut)
    requires forall i | 0 <= i < off + cut :: ws3[i] == ws2[i]
    requires Layout(ws2[off..off + cut], Firsts(order2, rank2, off, cut))
    requires Layout(ws3[off + cut..off + m], Firsts(order3, rank3, off + cut, m - cut))
    ensures Layout(ws3[off..off + m], Firsts(order3, rank3, off, m))
  {
    hide Layout;
    var f2, f3 := Firsts(order2, rank2, off, cut), Firsts(order3, rank3, off + cut, m - cut);
    assert ws3[off..off + cut] == ws2[off..off + cut];
    LayoutAppend(ws3[off..off + cut], f2, ws3[off + cut..off + m], f3);
    assert ws3[off..off + m] == ws3[off..off + cut] + ws3[off + cut..off + m];
    var f := Firsts(order3, rank3, off, m);
    forall k | 0 <= k < m
      ensures f[k] == (f2 + f3)[k]
    {
      if k < cut {
        assert order3[off + k] == order2[off + k];
      } else {
        assert order3[off + k] == order3[off + cut + (k - cut)];
      }
    }
    assert f == f2 + f3;
  }

  /** Two sorted halves of a partitioned group are the sorted group. */
  lemma {:induction false} HalvesSorted(d: seq<Byte>, ws0: seq<Word>, rank0: seq<Word>, ws1: seq<Word>,
                                        rank1: seq<Word>,
                                        ws2: seq<Word>, rank2: seq<Word>, ws3: seq<Word>, rank3: seq<Word>,
                                        start: seq<Word>, h: nat, off: nat, cut: nat, m: nat, again1: bool,
                                        again2: bool)
    requires |d| == |ws0| == |ws1| && |rank0| == |ws0| && 0 < cut < m && off + m <= |ws0| && |start| == |ws0|
    requires Touched(Order(ws0), rank0, Order(ws1), rank1, off, m)
    requires forall i | 0 <= i < |ws0| && !(off <= i < off + m) :: ws1[i] == ws0[i]
    requires forall i | 0 <= i < |ws0| :: start[Order(ws1)[i]] == start[Order(ws0)[i]]
    requires GroupSorted(d, ws1, rank1, ws2, rank2, start, h, off, cut, again1)
    requires GroupSorted(d, ws2, rank2, ws3, rank3, start, h, off + cut, m - cut, again2)
    ensures GroupSorted(d, ws0, rank0, ws3, rank3, start, h, off, m, again1 || again2)
  {
    hide Layout, Settled, Shared, PassState;
    HalvesTouched(Order(ws0), rank0, Order(ws1), rank1, Order(ws2), rank2, Order(ws3), rank3, off, cut, m);
    HalvesSettled(d, Order(ws2), rank2, Order(ws3), rank3, off, cut, m, 2 * h);
    HalvesLayout(ws2, Order(ws2), rank2, ws3, Order(ws3), rank3, off, cut, m);
    hide Touched;
  }
}
