/** Why the small-group branch of SortGroup is right: the sorted key words give a
    refinement of the group by the ranks h bytes ahead. */
module BwtSmallGroup {
  import opened Machine
  import opened Rotations
  import opened Permutations
  import opened BwtGroups
  import opened BwtSizes
  import opened BwtKeys
  import opened BwtSortState

  /** The data of the branch: the given group, its keys, the sorted words and
      what the relabelling loop left. */
  ghost predicate Relabelled(d: seq<Byte>, ws: seq<Word>, rank: seq<Word>, ws': seq<Word>, rank': seq<Word>,
                             h: nat, off: nat, m: nat, bits: nat, keys: seq<Word>, t: seq<Word>, moved: seq<Word>) {
    && bits > 0 && off + m <= |d| == |ws| == |ws'| == |rank| == |rank'| && h < |d| && |t| == m
    && Permutation(Order(ws), |d|)
    && WholeGroup(Order(ws), rank, off, m)
    && (forall i | off <= i < off + m :: ws[i] < INDEX)
    && KeyedBy(ws[off..off + m], rank, h, keys)
    && SortedKeyWords(t, keys, bits)
    && Members(ws[off..off + m], t, moved, bits)
    && TempState(ws'[off..off + m], t, moved, RunFirsts(t, bits), m, m)
    && (forall i | 0 <= i < |d| && !(off <= i < off + m) :: ws'[i] == ws[i])
    && RankState(rank', rank, t, moved, bits, off, m)
  }

  /** Slot off + k after the branch. */
  lemma {:induction false} SlotAfter(d: seq<Byte>, ws: seq<Word>, rank: seq<Word>, ws': seq<Word>, rank': seq<Word>,
                     h: nat, off: nat, m: nat, bits: nat, keys: seq<Word>, t: seq<Word>, moved: seq<Word>, k: nat)
    requires Relabelled(d, ws, rank, ws', rank', h, off, m, bits, keys, t, moved) && k < m
    ensures PlaceOf(t[k], bits) < m
    ensures Order(ws')[off + k] == moved[k] == Order(ws)[off + PlaceOf(t[k], bits)] < |d|
    ensures |rank'| == |d| && rank'[moved[k]] == off + RunStart(t, bits, k)
    ensures KeyOf(t[k], bits) == rank[Ahead(|d|, moved[k], h)]
    ensures rank[moved[k]] == off
  {
    hide RunStart, KeyOf, PlaceOf, Layout, SortedKeyWords, Members, TempState, RankState, Distinct;
    MemberAt(ws[off..off + m], t, moved, bits, k);
    KeyAt(t, keys, bits, k);
    KeyedAt(ws[off..off + m], rank, h, keys, PlaceOf(t[k], bits));
    hide KeyedBy;
    TempAt(ws'[off..off + m], t, moved, RunFirsts(t, bits), k);
    RankAt(rank', rank, t, moved, bits, off, k);
    PosOfIndex(ws[off + PlaceOf(t[k], bits)]);
  }

  lemma {:induction false} TempAt(ws: seq<Word>, t: seq<Word>, moved: seq<Word>, first: seq<bool>, k: nat)
    requires TempState(ws, t, moved, first, |ws|, |ws|) && k < |ws|
    ensures |moved| == |ws| && Pos(ws[k]) == moved[k]
  {
  }

  lemma {:induction false} RankAt(g: seq<Word>, was: seq<Word>, t: seq<Word>, moved: seq<Word>, bits: nat, off: nat,
                                  k: nat)
    requires bits > 0 && RankState(g, was, t, moved, bits, off, |t|) && k < |t|
    ensures |moved| == |t| && moved[k] < |g| && g[moved[k]] == off + RunStart(t, bits, k)
  {
  }

  lemma {:induction false} KeyAt(t: seq<Word>, keys: seq<Word>, bits: nat, k: nat)
    requires bits > 0 && SortedKeyWords(t, keys, bits) && k < |t|
    ensures |keys| == |t| && PlaceOf(t[k], bits) < |t| && KeyOf(t[k], bits) == keys[PlaceOf(t[k], bits)]
  {
  }

  lemma {:induction false} OutsideAfter(d: seq<Byte>, ws: seq<Word>, rank: seq<Word>, ws': seq<Word>, rank': seq<Word>,
                     h: nat, off: nat, m: nat, bits: nat, keys: seq<Word>, t: seq<Word>, moved: seq<Word>)
    requires Relabelled(d, ws, rank, ws', rank', h, off, m, bits, keys, t, moved)
    ensures bits > 0 && |ws| == |ws'| == |rank| == |rank'| == |d| && off + m <= |d| && |moved| == |t| == m
    ensures Permutation(Order(ws), |d|) && Distinct(moved)
    ensures forall i | 0 <= i < |d| && !(off <= i < off + m) :: Order(ws')[i] == Order(ws)[i]
    ensures forall x | 0 <= x < |d| && x !in moved :: rank'[x] == rank[x]
  {
    hide RunStart, KeyOf, PlaceOf, Layout, SortedKeyWords, TempState;
  }

  /** Members of a stretch, listed in another order in the same stretch. */
  lemma {:induction false} MovedPermutation(order: seq<nat>, order': seq<nat>, n: nat, off: nat, m: nat,
                                            moved: seq<nat>, place: seq<nat>)
    requires Permutation(order, n) && |order'| == n && off + m <= n && |moved| == |place| == m
    requires Distinct(moved)
    requires forall k | 0 <= k < m :: place[k] < m && order'[off + k] == moved[k] == order[off + place[k]]
    requires forall i | 0 <= i < n && !(off <= i < off + m) :: order'[i] == order[i]
    ensures Permutation(order', n)
    ensures forall i | 0 <= i < n && !(off <= i < off + m) :: order[i] !in moved
  {
    forall i | off <= i < off + m
      ensures order'[i] == moved[i - off] == order[off + place[i - off]] < n
    {
      var k := i - off;
      assert order'[off + k] == moved[k];
    }
    forall i, j | 0 <= i < j < n
      ensures order'[i] != order'[j]
    {
      if off <= i && j < off + m {
        assert moved[i - off] != moved[j - off];
      }
    }
  }

  lemma {:induction false} OrderAfter(d: seq<Byte>, ws: seq<Word>, rank: seq<Word>, ws': seq<Word>, rank': seq<Word>,
                     h: nat, off: nat, m: nat, bits: nat, keys: seq<Word>, t: seq<Word>, moved: seq<Word>)
    requires Relabelled(d, ws, rank, ws', rank', h, off, m, bits, keys, t, moved)
    ensures Touched(Order(ws), rank, Order(ws'), rank', off, m)
  {
    hide Relabelled, RunStart, KeyOf, PlaceOf, Distinct, Order, Ahead;
    OutsideAfter(d, ws, rank, ws', rank', h, off, m, bits, keys, t, moved);
    var n := |d|;
    var order, order' := Order(ws), Order(ws');
    var place := seq(m, k requires 0 <= k < m => PlaceOf(t[k], bits));
    forall k | 0 <= k < m
      ensures place[k] < m && order'[off + k] == moved[k] == order[off + place[k]]
    {
      SlotAfter(d, ws, rank, ws', rank', h, off, m, bits, keys, t, moved, k);
    }
    MovedPermutation(order, order', n, off, m, moved, place);
    forall i | off <= i < off + m
      ensures rank[order'[i]] == off && off <= rank'[order'[i]] <= i
    {
      SlotAfter(d, ws, rank, ws', rank', h, off, m, bits, keys, t, moved, i - off);
    }
  }

  /** The new ranks of a group rise with its slots, name their own first slot,
      and are ordered and equal as the old ranks h bytes ahead are. */
  ghost predicate SplitByKeys(order: seq<nat>, rank: seq<Word>, rank': seq<Word>, h: nat, off: nat, m: nat) {
    && h < |rank| == |rank'| && Permutation(order, |rank|) && off + m <= |rank|
    && (forall i | off <= i < off + m :: rank'[order[i]] < |rank| && rank'[order[rank'[order[i]]]] == rank'[order[i]])
    && (forall i, j | off <= i < off + m && off <= j < off + m :: PairByKeys(order, rank, rank', h, i, j))
  }

  ghost predicate PairByKeys(order: seq<nat>, rank: seq<Word>, rank': seq<Word>, h: nat, i: nat, j: nat)
    requires h < |rank| == |rank'| && Permutation(order, |rank|) && i < |rank| && j < |rank|
  {
    var x, y := order[i], order[j];
    && (i <= j ==> rank'[x] <= rank'[y])
    && (rank'[x] < rank'[y] ==> rank[Ahead(|rank|, x, h)] < rank[Ahead(|rank|, y, h)])
    && (rank'[x] == rank'[y] ==> rank[Ahead(|rank|, x, h)] == rank[Ahead(|rank|, y, h)])
  }

  lemma {:induction false} RunsAfter(d: seq<Byte>, ws: seq<Word>, rank: seq<Word>, ws': seq<Word>, rank': seq<Word>,
                     h: nat, off: nat, m: nat, bits: nat, keys: seq<Word>, t: seq<Word>, moved: seq<Word>, i: nat,
                     j: nat)
    requires Relabelled(d, ws, rank, ws', rank', h, off, m, bits, keys, t, moved) && i < m && j < m
    ensures |t| == m
    ensures RunStart(t, bits, i) < RunStart(t, bits, j) ==> KeyOf(t[i], bits) < KeyOf(t[j], bits)
    ensures RunStart(t, bits, i) == RunStart(t, bits, j) ==> KeyOf(t[i], bits) == KeyOf(t[j], bits)
    ensures RunStart(t, bits, RunStart(t, bits, i)) == RunStart(t, bits, i)
    ensures i <= j ==> RunStart(t, bits, i) <= RunStart(t, bits, j)
  {
    assert SortedKeyWords(t, keys, bits);
    hide Relabelled, RunStart, KeyOf, PlaceOf;
    RunsBySortedKey(t, keys, bits, i, j);
    RunStartMonotone(t, bits, i, i);
    if i <= j {
      RunStartMonotone(t, bits, i, j);
    }
  }

  lemma {:induction false} SplitAfter(d: seq<Byte>, ws: seq<Word>, rank: seq<Word>, ws': seq<Word>, rank': seq<Word>,
                     h: nat, off: nat, m: nat, bits: nat, keys: seq<Word>, t: seq<Word>, moved: seq<Word>)
    requires Relabelled(d, ws, rank, ws', rank', h, off, m, bits, keys, t, moved)
    requires bits > 0 && |t| == m && h < |rank| == |d| && off + m <= |rank|
    requires Touched(Order(ws), rank, Order(ws'), rank', off, m)
    ensures SplitByKeys(Order(ws'), rank, rank', h, off, m)
    ensures forall k | 0 <= k < m :: rank'[Order(ws')[off + k]] == off + RunStart(t, bits, k)
  {
    hide Relabelled, RunStart, KeyOf, PlaceOf, PairByKeys;
    var order' := Order(ws');
    forall k | 0 <= k < m
      ensures rank'[order'[off + k]] == off + RunStart(t, bits, k)
    {
      SlotAfter(d, ws, rank, ws', rank', h, off, m, bits, keys, t, moved, k);
    }
    forall i | off <= i < off + m
      ensures rank'[order'[i]] < |rank| && rank'[order'[rank'[order'[i]]]] == rank'[order'[i]]
    {
      PairAfter(d, ws, rank, ws', rank', h, off, m, bits, keys, t, moved, i - off, i - off);
    }
    forall i, j | off <= i < off + m && off <= j < off + m
      ensures PairByKeys(order', rank, rank', h, i, j)
    {
      PairAfter(d, ws, rank, ws', rank', h, off, m, bits, keys, t, moved, i - off, j - off);
    }
  }

  lemma {:induction false} PairAfter(d: seq<Byte>, ws: seq<Word>, rank: seq<Word>, ws': seq<Word>, rank': seq<Word>,
                     h: nat, off: nat, m: nat, bits: nat, keys: seq<Word>, t: seq<Word>, moved: seq<Word>, i: nat,
                     j: nat)
    requires Relabelled(d, ws, rank, ws', rank', h, off, m, bits, keys, t, moved) && i < m && j < m
    requires bits > 0 && h < |rank| == |d| == |rank'| && off + m <= |rank|
    requires Permutation(Order(ws'), |d|)
    ensures PairByKeys(Order(ws'), rank, rank', h, off + i, off + j)
    ensures var x := Order(ws')[off + i]; rank'[x] < |d| && rank'[Order(ws')[rank'[x]]] == rank'[x]
  {
    hide Relabelled, RunStart, KeyOf, PlaceOf;
    SlotAfter(d, ws, rank, ws', rank', h, off, m, bits, keys, t, moved, i);
    SlotAfter(d, ws, rank, ws', rank', h, off, m, bits, keys, t, moved, j);
    RunsAfter(d, ws, rank, ws', rank', h, off, m, bits, keys, t, moved, i, j);
    var r := RunStart(t, bits, i);
    SlotAfter(d, ws, rank, ws', rank', h, off, m, bits, keys, t, moved, r);
  }

  lemma {:induction false} SmallGroupSorted(d: seq<Byte>, ws: seq<Word>, rank: seq<Word>, ws': seq<Word>,
                                            rank': seq<Word>,
                     start: seq<Word>, h: nat, off: nat, m: nat, bits: nat, keys: seq<Word>, t: seq<Word>,
                     moved: seq<Word>)
    requires GroupGiven(d, ws, rank, start, h, off, m)
    requires Relabelled(d, ws, rank, ws', rank', h, off, m, bits, keys, t, moved)
    ensures GroupSorted(d, ws, rank, ws', rank', start, h, off, m, SomeShared(t, bits, m))
  {
    var order, order' := Order(ws), Order(ws');
    OrderAfter(d, ws, rank, ws', rank', h, off, m, bits, keys, t, moved);
    SplitAfter(d, ws, rank, ws', rank', h, off, m, bits, keys, t, moved);
    LayoutAfter(d, ws, rank, ws', rank', h, off, m, bits, keys, t, moved);
    SharedAfter(t, bits, order', rank', off, m);
    SplitIsSorted(d, ws, rank, ws', rank', start, h, off, m, SomeShared(t, bits, m));
  }

  lemma {:induction false} LayoutAfter(d: seq<Byte>, ws: seq<Word>, rank: seq<Word>, ws': seq<Word>, rank': seq<Word>,
                     h: nat, off: nat, m: nat, bits: nat, keys: seq<Word>, t: seq<Word>, moved: seq<Word>)
    requires Relabelled(d, ws, rank, ws', rank', h, off, m, bits, keys, t, moved)
    requires bits > 0 && off + m <= |ws'| && Touched(Order(ws), rank, Order(ws'), rank', off, m)
    requires forall k | 0 <= k < m :: rank'[Order(ws')[off + k]] == off + RunStart(t, bits, k)
    ensures Layout(ws'[off..off + m], Firsts(Order(ws'), rank', off, m))
    ensures forall i | 0 <= i < |ws| && !(off <= i < off + m) :: ws'[i] == ws[i]
  {
    TempDone(ws'[off..off + m], t, moved, RunFirsts(t, bits));
    assert forall i | 0 <= i < |ws| && !(off <= i < off + m) :: ws'[i] == ws[i];
    hide Layout, RunStart, Relabelled, TempState, Order;
    assert RunFirsts(t, bits) == Firsts(Order(ws'), rank', off, m);
  }

  lemma {:induction false} TempDone(ws: seq<Word>, t: seq<Word>, moved: seq<Word>, first: seq<bool>)
    requires TempState(ws, t, moved, first, |ws|, |ws|)
    ensures |first| == |ws| && Layout(ws, first)
  {
    hide Layout;
    assert ws[..|ws|] == ws && first[..|ws|] == first;
  }

  lemma {:induction false} SplitIsSorted(d: seq<Byte>, ws: seq<Word>, rank: seq<Word>, ws': seq<Word>, rank': seq<Word>,
                     start: seq<Word>, h: nat, off: nat, m: nat, again: bool)
    requires GroupGiven(d, ws, rank, start, h, off, m) && |ws'| == |ws|
    requires Touched(Order(ws), rank, Order(ws'), rank', off, m)
    requires SplitByKeys(Order(ws'), rank, rank', h, off, m)
    requires forall i | 0 <= i < |ws| && !(off <= i < off + m) :: ws'[i] == ws[i]
    requires Layout(ws'[off..off + m], Firsts(Order(ws'), rank', off, m))
    requires again <==> Shared(Order(ws'), rank', off, m)
    ensures GroupSorted(d, ws, rank, ws', rank', start, h, off, m, again)
  {
    hide Layout, Shared;
    var order, order' := Order(ws), Order(ws');
    forall i, j | off <= i < off + m && off <= j < off + m
      ensures i < j ==> rank'[order'[i]] <= rank'[order'[j]]
      ensures rank'[order'[i]] < rank'[order'[j]] ==>
                rank[Ahead(|d|, order'[i], h)] < rank[Ahead(|d|, order'[j], h)]
      ensures rank'[order'[i]] == rank'[order'[j]] ==>
                rank[Ahead(|d|, order'[i], h)] == rank[Ahead(|d|, order'[j], h)]
    {
      assert PairByKeys(order', rank, rank', h, i, j);
    }
    PassStep(d, order, rank, order', rank', start, h, off, m);
    SettledByKeys(d, order, rank, order', rank', h, off, m);
  }

  lemma {:induction false} SharedAfter(t: seq<Word>, bits: nat, order': seq<nat>, rank': seq<Word>, off: nat, m: nat)
    requires bits > 0 && |t| == m
    requires Permutation(order', |rank'|) && off + m <= |rank'|
    requires forall k | 0 <= k < m :: rank'[order'[off + k]] == off + RunStart(t, bits, k)
    ensures SomeShared(t, bits, m) <==> Shared(order', rank', off, m)
  {
    hide RunStart;
    if SomeShared(t, bits, m) {
      var k :| 0 <= k < m && RunStart(t, bits, k) != k;
      assert rank'[order'[off + k]] != off + k;
    }
    if Shared(order', rank', off, m) {
      var i :| off <= i < off + m && rank'[order'[i]] != i;
      assert rank'[order'[off + (i - off)]] == off + RunStart(t, bits, i - off);
    }
  }

  /** Members that still share a rank had equal keys, so they agree on 2h bytes. */
  lemma {:induction false} SettledByKeys(d: seq<Byte>, order: seq<nat>, rank: seq<Word>, order': seq<nat>,
                                         rank': seq<Word>,
                     h: nat, off: nat, m: nat)
    requires Invariant(d, order, rank, h) && h < |d| && off + m <= |d|
    requires Touched(order, rank, order', rank', off, m)
    requires forall i, j | off <= i < off + m && off <= j < off + m && rank'[order'[i]] == rank'[order'[j]] ::
               rank[Ahead(|d|, order'[i], h)] == rank[Ahead(|d|, order'[j], h)]
    ensures Settled(d, order', rank', off, m, 2 * h)
  {
    var n := |d|;
    forall i, j | off <= i < off + m && off <= j < off + m && rank'[order'[i]] == rank'[order'[j]]
      ensures Agree(d, order'[i], order'[j], 2 * h)
    {
      var x, y := order'[i], order'[j];
      assert rank[x] == rank[y];
      assert rank[Ahead(n, x, h)] == rank[Ahead(n, y, h)];
      AgreeFromAhead(d, x, y, h);
    }
  }
}
