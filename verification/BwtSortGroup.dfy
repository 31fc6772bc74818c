/** SortGroup of BwtSort.c:100-309, in the variant that keeps group sizes in the
    index words and sorts small groups by HeapSort (neither BLOCK_SORT_EXTERNAL_FLAGS
    nor BLOCK_SORT_USE_HEAP_SORT). The three regions of the caller's one buffer,
    index words, temporary words and group ranks, are three arrays here. */
module BwtSortGroup {
  import opened Machine
  import opened Arith
  import opened Rotations
  import opened Permutations
  import opened BwtGroups
  import opened BwtSizes
  import opened BwtKeys
  import opened BwtSortState
  import opened BwtSmallGroup
  import opened BwtRangeSort
  import Sort

  method SizeGroup(off: nat, m: nat, indices: array<Word>)
    requires 2 <= m <= INDEX && off + m <= indices.Length
    requires forall i | off <= i < off + m :: indices[i] < INDEX
    modifies indices
    ensures Sized(old(indices[..]), indices[..], off, m)
  {
    hide Encoded, Pos, Live;
    SetGroupSize(indices, off, m);
    assert indices[..][off..off + m] == indices[off..off + m];
  }

  /** A group whose members all have one key ahead: only its size is written. */
  method KeepGroup(off: nat, m: nat, h: nat, indices: array<Word>, groups: array<Word>,
                   ghost d: seq<Byte>, ghost start: seq<Word>)
    requires indices != groups && indices.Length == groups.Length == |d| && m >= 2
    requires GroupGiven(d, indices[..], groups[..], start, h, off, m)
    requires Uniform(d, Order(indices[..]), h, off, m)
    modifies indices
    ensures groups[..] == old(groups[..])
    ensures GroupSorted(d, old(indices[..]), groups[..], indices[..], groups[..], start, h, off, m, true)
  {
    ghost var ws := indices[..];
    GivenWords(d, ws, groups[..], start, h, off, m);
    assert forall i | off <= i < off + m :: indices[i] == ws[i];
    hide GroupGiven, GroupSorted, Uniform, Sized, Order;
    SizeGroup(off, m, indices);
    UniformSorted(d, ws, groups[..], indices[..], start, h, off, m);
  }

  lemma {:induction false} GivenWords(d: seq<Byte>, ws: seq<Word>, rank: seq<Word>, start: seq<Word>,
                                      h: nat, off: nat, m: nat)
    requires GroupGiven(d, ws, rank, start, h, off, m)
    ensures |ws| == |rank| == |d| <= INDEX && h < |d| && 1 <= m && off + m <= |d|
    ensures forall x | 0 <= x < |d| :: rank[x] < |d|
    ensures forall i | off <= i < off + m :: ws[i] < |d| && ws[i] < INDEX && Order(ws)[i] == ws[i] && rank[ws[i]] == off
  {
    forall i | off <= i < off + m
      ensures Order(ws)[i] == ws[i] < |d|
    {
      PosOfIndex(ws[i]);
    }
  }

  lemma {:induction false} GivenDistinct(d: seq<Byte>, ws: seq<Word>, rank: seq<Word>, start: seq<Word>,
                                         h: nat, off: nat, m: nat)
    requires GroupGiven(d, ws, rank, start, h, off, m)
    ensures off + m <= |ws| && forall i, j | off <= i < j < off + m :: ws[i] != ws[j]
  {
    GivenWords(d, ws, rank, start, h, off, m);
    GivenGroup(d, ws, rank, start, h, off, m);
    hide GroupGiven, WholeGroup;
  }

  lemma {:induction false} GivenWordAt(d: seq<Byte>, ws: seq<Word>, rank: seq<Word>, start: seq<Word>,
                                       h: nat, off: nat, m: nat, i: nat)
    requires GroupGiven(d, ws, rank, start, h, off, m) && off <= i < off + m
    ensures |ws| == |rank| == |d| && h < |d| && off + m <= |d|
    ensures ws[i] < |d| && Order(ws)[i] == ws[i]
  {
    PosOfIndex(ws[i]);
  }

  lemma {:induction false} SameKeysAgree(d: seq<Byte>, ws: seq<Word>, rank: seq<Word>, start: seq<Word>,
                                         h: nat, off: nat, m: nat, keys: seq<Word>)
    requires GroupGiven(d, ws, rank, start, h, off, m)
    requires KeyedBy(ws[off..off + m], rank, h, keys) && forall k | 0 <= k < m :: keys[k] == keys[0]
    ensures Uniform(d, Order(ws), h, off, m)
  {
    GivenGroup(d, ws, rank, start, h, off, m);
    hide GroupGiven, WholeGroup, KeyedBy;
    forall i, j | off <= i < off + m && off <= j < off + m
      ensures Agree(d, Ahead(|d|, Order(ws)[i], h), Ahead(|d|, Order(ws)[j], h), h)
    {
      PairAgrees(d, ws, rank, start, h, off, m, keys, i, j);
    }
  }

  lemma {:induction false} PairAgrees(d: seq<Byte>, ws: seq<Word>, rank: seq<Word>, start: seq<Word>,
                                      h: nat, off: nat, m: nat, keys: seq<Word>, i: nat, j: nat)
    requires GroupGiven(d, ws, rank, start, h, off, m)
    requires off + m <= |ws| == |d| && h < |d|
    requires KeyedBy(ws[off..off + m], rank, h, keys) && forall k | 0 <= k < m :: keys[k] == keys[0]
    requires off <= i < off + m && off <= j < off + m && Order(ws)[i] < |d| && Order(ws)[j] < |d|
    ensures Agree(d, Ahead(|d|, Order(ws)[i], h), Ahead(|d|, Order(ws)[j], h), h)
  {
    GivenWordAt(d, ws, rank, start, h, off, m, i);
    GivenWordAt(d, ws, rank, start, h, off, m, j);
    hide GroupGiven, KeyedBy, Agree, Order;
    var src := ws[off..off + m];
    assert src[i - off] == ws[i] && src[j - off] == ws[j];
    KeyedAt(src, rank, h, keys, i - off);
    KeyedAt(src, rank, h, keys, j - off);
    assert keys[i - off] == keys[j - off];
    GivenEqual(d, ws, rank, start, h, off, m, Ahead(|d|, ws[i], h), Ahead(|d|, ws[j], h));
  }

  lemma {:induction false} GivenEqual(d: seq<Byte>, ws: seq<Word>, rank: seq<Word>, start: seq<Word>,
                                      h: nat, off: nat, m: nat, x: nat, y: nat)
    requires GroupGiven(d, ws, rank, start, h, off, m)
    requires |rank| == |d| && x < |d| && y < |d| && rank[x] == rank[y]
    ensures Agree(d, x, y, h)
  {
    hide Agree;
  }

  /** The sorted key words name every member of the group once. */
  lemma {:induction false} RelabelGiven(ws: seq<Word>, rank: seq<Word>, off: nat, m: nat, bits: nat, keys: seq<Word>,
                                        t: seq<Word>, moved: seq<Word>)
    requires bits > 0 && off + m <= |ws| && |moved| == |t| == m
    requires SortedKeyWords(t, keys, bits)
    requires forall i | off <= i < off + m :: ws[i] < |rank| && rank[ws[i]] == off
    requires forall i, j | off <= i < j < off + m :: ws[i] != ws[j]
    requires forall k | 0 <= k < m :: PlaceOf(t[k], bits) < m && moved[k] == ws[off..off + m][PlaceOf(t[k], bits)]
    ensures Members(ws[off..off + m], t, moved, bits)
    ensures RankState(rank, rank, t, moved, bits, off, 0)
  {
    hide PlaceOf, KeyOf;
    forall k | 0 <= k < m
      ensures moved[k] == ws[off + PlaceOf(t[k], bits)] && moved[k] < |rank| && rank[moved[k]] == off
    {
    }
    forall i, j | 0 <= i < j < m
      ensures moved[i] != moved[j]
    {
      assert PlaceOf(t[i], bits) != PlaceOf(t[j], bits);
    }
  }

  lemma {:induction false} RelabelledHolds(d: seq<Byte>, ws: seq<Word>, rank: seq<Word>, ws': seq<Word>,
                                           rank': seq<Word>,
                     tw: seq<Word>, start: seq<Word>, h: nat, off: nat, m: nat, bits: nat, keys: seq<Word>,
                     t: seq<Word>, moved: seq<Word>)
    requires GroupGiven(d, ws, rank, start, h, off, m)
    requires bits > 0 && off + m <= |d| == |ws| == |rank| == |rank'| && h < |d| && |t| == |tw| == m
    requires KeyedBy(ws[off..off + m], rank, h, keys)
    requires SortedKeyWords(t, keys, bits)
    requires Members(ws[off..off + m], t, moved, bits)
    requires TempState(tw, t, moved, RunFirsts(t, bits), m, m)
    requires Replaced(ws, ws', off, tw)
    requires RankState(rank', rank, t, moved, bits, off, m)
    ensures Relabelled(d, ws, rank, ws', rank', h, off, m, bits, keys, t, moved)
  {
    hide GroupGiven, SortedKeyWords, Members, TempState, RankState, RunStart, Permutation, WholeGroup, KeyedBy, Order;
    GivenGroup(d, ws, rank, start, h, off, m);
  }

  lemma {:induction false} GivenGroup(d: seq<Byte>, ws: seq<Word>, rank: seq<Word>, start: seq<Word>,
                                      h: nat, off: nat, m: nat)
    requires GroupGiven(d, ws, rank, start, h, off, m)
    ensures |rank| == |d| && h < |d| && off + m <= |d|
    ensures Permutation(Order(ws), |d|) && WholeGroup(Order(ws), rank, off, m)
    ensures off + m <= |ws| && forall i | off <= i < off + m :: ws[i] < INDEX
  {
    hide WholeGroup, Ordered, Equal, Within, Labelled;
  }

  /** Copies the rearranged group over the old one (BwtSort.c:212-213). */
  method CopyBack(off: nat, m: nat, indices: array<Word>, temp: array<Word>)
    requires indices != temp && off + m <= indices.Length && m <= temp.Length
    modifies indices
    ensures Replaced(old(indices[..]), indices[..], off, temp[..m])
  {
    for j := 0 to m
      invariant indices[off..off + j] == temp[..j]
      invariant forall i | 0 <= i < indices.Length && !(off <= i < off + m) :: indices[i] == old(indices[i])
    {
      indices[off + j] := temp[j];
    }
    assert indices[..][off..off + m] == indices[off..off + m];
  }

  ghost predicate Replaced(ws: seq<Word>, ws': seq<Word>, off: nat, part: seq<Word>) {
    && |ws'| == |ws| && off + |part| <= |ws|
    && ws'[off..off + |part|] == part
    && (forall i | 0 <= i < |ws| && !(off <= i < off + |part|) :: ws'[i] == ws[i])
  }

  lemma {:induction false} KeysOf(src: seq<Word>, rank: seq<Word>, h: nat) returns (keys: seq<Word>)
    requires h < |rank| && forall k | 0 <= k < |src| :: src[k] < |rank|
    ensures KeyedBy(src, rank, h, keys)
  {
    keys := seq(|src|, k requires 0 <= k < |src| => rank[Ahead(|rank|, src[k], h)]);
  }

  /** Fills the temporary words and sorts them, unless the keys are all one. */
  method SortKeys(n: nat, h: nat, off: nat, m: nat, bits: nat,
                  indices: array<Word>, temp: array<Word>, groups: array<Word>, ghost keys: seq<Word>)
    returns (differ: bool)
    requires h < n && n == indices.Length == groups.Length && n * bits <= 0x1_0000_0000
    requires 1 <= m <= bits && off + m <= n && m <= temp.Length
    requires indices != temp && groups != temp
    requires forall k | 0 <= k < n :: groups[k] < n
    requires KeyedBy(indices[off..off + m], groups[..], h, keys)
    modifies temp
    ensures if differ then SortedKeyWords(temp[..m], keys, bits) else forall k | 0 <= k < m :: keys[k] == keys[0]
  {
    hide SortedKeyWords, KeyWords, Sort.Ascending;
    differ := FillKeys(n, h, off, m, bits, indices, temp, groups, keys);
    if differ {
      ghost var f := temp[..m];
      Sort.HeapSort(temp, 0, m);
      assert temp[0..0 + m] == temp[..m];
      SortKeyWords(f, temp[..m], keys, bits);
    }
  }

  ghost function MovedWords(ws: seq<Word>, off: nat, m: nat, t: seq<Word>, keys: seq<Word>, bits: nat): (r: seq<Word>)
    requires bits > 0 && |t| == m && off + m <= |ws| && SortedKeyWords(t, keys, bits)
    ensures |r| == m
    ensures forall k | 0 <= k < m :: PlaceOf(t[k], bits) < m && r[k] == ws[off..off + m][PlaceOf(t[k], bits)]
  {
    seq(m, k requires 0 <= k < m => ws[off..off + m][PlaceOf(t[k], bits)])
  }

  /** Rearranges and relabels a group by its sorted key words. */
  method ApplyKeys(n: nat, h: nat, off: nat, m: nat, bits: nat,
                   indices: array<Word>, temp: array<Word>, groups: array<Word>,
                   ghost d: seq<Byte>, ghost start: seq<Word>, ghost keys: seq<Word>)
    returns (again: bool)
    requires indices != temp && groups != temp && indices != groups
    requires n == |d| == indices.Length == groups.Length && h < n && off + m <= n
    requires 2 <= m <= temp.Length && bits > 0
    requires GroupGiven(d, indices[..], groups[..], start, h, off, m)
    requires KeyedBy(indices[off..off + m], groups[..], h, keys)
    requires SortedKeyWords(temp[..m], keys, bits)
    modifies indices, temp, groups
    ensures GroupSorted(d, old(indices[..]), old(groups[..]), indices[..], groups[..], start, h, off, m, again)
  {
    ghost var ws, rank, t := indices[..], groups[..], temp[..m];
    ghost var moved := MovedWords(ws, off, m, t, keys, bits);
    KeyedGiven(d, ws, rank, start, h, off, m, bits, keys, t, moved);
    hide MovedWords, KeyedBy, Replaced, GroupGiven, GroupSorted, Order, SortedKeyWords, Members,
      TempState, RankState, Relabelled, PlaceOf;
    assert indices[..][off..off + m] == indices[off..off + m];
    again := Relabel(off, m, bits, indices, temp, groups, t, moved);
    CopyBack(off, m, indices, temp);
    RelabelledHolds(d, ws, rank, indices[..], groups[..], temp[..m], start, h, off, m, bits, keys, t, moved);
    SmallGroupSorted(d, ws, rank, indices[..], groups[..], start, h, off, m, bits, keys, t, moved);
  }

  lemma {:induction false} KeyedGiven(d: seq<Byte>, ws: seq<Word>, rank: seq<Word>, start: seq<Word>,
                                      h: nat, off: nat, m: nat, bits: nat, keys: seq<Word>, t: seq<Word>,
                                      moved: seq<Word>)
    requires GroupGiven(d, ws, rank, start, h, off, m)
    requires |ws| == |rank| == |d| && h < |d| && off + m <= |d| && bits > 0 && |t| == m
    requires SortedKeyWords(t, keys, bits)
    requires moved == MovedWords(ws, off, m, t, keys, bits)
    ensures |d| <= INDEX && Members(ws[off..off + m], t, moved, bits)
    ensures RankState(rank, rank, t, moved, bits, off, 0)
  {
    GivenWords(d, ws, rank, start, h, off, m);
    GivenDistinct(d, ws, rank, start, h, off, m);
    hide GroupGiven, Order, PlaceOf, KeyOf;
    RelabelGiven(ws, rank, off, m, bits, keys, t, moved);
  }

  /** The branch for groups that fit the temporary words (BwtSort.c:123-215). */
  method SortSmallGroup(n: nat, h: nat, off: nat, m: nat, bits: nat,
                        indices: array<Word>, temp: array<Word>, groups: array<Word>,
                        ghost d: seq<Byte>, ghost start: seq<Word>)
    returns (again: bool)
    requires indices != temp && groups != temp && indices != groups
    requires n == |d| == indices.Length == groups.Length && n * bits <= 0x1_0000_0000
    requires 2 <= m <= bits && m <= temp.Length
    requires GroupGiven(d, indices[..], groups[..], start, h, off, m)
    modifies indices, temp, groups
    ensures GroupSorted(d, old(indices[..]), old(groups[..]), indices[..], groups[..], start, h, off, m, again)
  {
    ghost var ws, rank := indices[..], groups[..];
    GivenWords(d, ws, rank, start, h, off, m);
    ghost var keys := KeysOf(ws[off..off + m], rank, h);
    hide KeyedBy, GroupGiven, GroupSorted, Order, SortedKeyWords, Uniform;
    var differ := SortKeys(n, h, off, m, bits, indices, temp, groups, keys);
    if differ {
      again := ApplyKeys(n, h, off, m, bits, indices, temp, groups, d, start, keys);
    } else {
      SameKeysAgree(d, ws, rank, start, h, off, m, keys);
      KeepGroup(off, m, h, indices, groups, d, start);
      again := true;
    }
  }

  /** From slot j - 1 down to slot i, looks for a member with a rank below mid ahead. */
  method ScanDown(n: nat, h: nat, off: nat, m: nat, mid: nat, i: nat, jFrom: nat,
                  indices: array<Word>, groups: array<Word>, ghost ws0: seq<Word>)
    returns (j: nat)
    requires indices.Length == groups.Length == n && h < n && i < jFrom <= m && off + m <= n
    requires Parting(ws0, indices[..], groups[..], h, off, m, mid, i, jFrom)
    requires indices[off + i] < n && KeyAhead(groups[..], h, indices[off + i]) >= mid
    ensures i <= j < jFrom
    ensures Parting(ws0, indices[..], groups[..], h, off, m, mid, i, if j == i then i else j + 1)
    ensures j > i ==> indices[off + j] < n && KeyAhead(groups[..], h, indices[off + j]) < mid
  {
    hide Parting;
    j := jFrom - 1;
    while j > i
      invariant i <= j < jFrom
      invariant Parting(ws0, indices[..], groups[..], h, off, m, mid, i, j + 1)
    {
      PartingAt(ws0, indices[..], groups[..], h, off, m, mid, i, j + 1, j);
      var key := RankAhead(n, h, indices[off + j], groups);
      if key < mid {
        return;
      }
      PartingGrow(ws0, indices[..], groups[..], h, off, m, mid, i, j + 1);
      j := j - 1;
    }
    PartingGrow(ws0, indices[..], groups[..], h, off, m, mid, i, i + 1);
  }

  /** Moves the members with a rank below mid ahead to the front (BwtSort.c:257-278). */
  method Partition(n: nat, h: nat, off: nat, m: nat, mid: nat, indices: array<Word>, groups: array<Word>,
                   ghost ws0: seq<Word>)
    returns (i: nat)
    requires indices != groups && indices.Length == groups.Length == n && h < n && 1 <= m
    requires Parting(ws0, indices[..], groups[..], h, off, m, mid, 0, m)
    modifies indices
    ensures groups[..] == old(groups[..])
    ensures i <= m && Parting(ws0, indices[..], groups[..], h, off, m, mid, i, i)
  {
    hide Parting;
    var j := m;
    i := 0;
    PartingGrow(ws0, indices[..], groups[..], h, off, m, mid, i, j);
    while true
      invariant i < j <= m && off + m <= n
      invariant Parting(ws0, indices[..], groups[..], h, off, m, mid, i, j)
      decreases j - i
    {
      PartingAt(ws0, indices[..], groups[..], h, off, m, mid, i, j, i);
      var key := RankAhead(n, h, indices[off + i], groups);
      if key >= mid {
        j := ScanDown(n, h, off, m, mid, i, j, indices, groups, ws0);
        if i >= j {
          break;
        }
        PartingSwap(ws0, indices[..], groups[..], h, off, m, mid, i, j);
        ghost var ws := indices[..];
        indices[off + i], indices[off + j] := indices[off + j], indices[off + i];
        assert indices[..] == ws[off + i := ws[off + j]][off + j := ws[off + i]];
      } else {
        PartingGrow(ws0, indices[..], groups[..], h, off, m, mid, i, j);
      }
      i := i + 1;
      if i >= j {
        break;
      }
    }
  }

  /** Compares the ranks h bytes ahead of all the members (BwtSort.c:217-240). */
  method AllSame(n: nat, h: nat, off: nat, m: nat, indices: array<Word>, groups: array<Word>, ghost keys: seq<Word>)
    returns (same: bool)
    requires indices.Length == groups.Length == n && h < n && 1 <= m && off + m <= n
    requires KeyedBy(indices[off..off + m], groups[..], h, keys)
    ensures same ==> forall k | 0 <= k < m :: keys[k] == keys[0]
  {
    hide KeyedBy;
    KeyedAt(indices[off..off + m], groups[..], h, keys, 0);
    var group := RankAhead(n, h, indices[off], groups);
    for j := 1 to m
      invariant forall k | 0 <= k < j :: keys[k] == keys[0]
    {
      KeyedAt(indices[off..off + m], groups[..], h, keys, j);
      var g := RankAhead(n, h, indices[off + j], groups);
      if g != group {
        return false;
      }
    }
    same := true;
  }

  /** Slots [off + cut, off + j) have the new rank, every other slot its old one. */
  ghost predicate RightRanks(order: seq<nat>, rank: seq<Word>, rank': seq<Word>, off: nat, cut: nat, j: nat) {
    && |rank'| == |rank| && Permutation(order, |rank|) && cut <= j && off + j <= |rank|
    && (forall k | off + cut <= k < off + j :: rank'[order[k]] == off + cut)
    && (forall k | 0 <= k < |rank| && !(off + cut <= k < off + j) :: rank'[order[k]] == rank[order[k]])
  }

  lemma {:induction false} RightStep(order: seq<nat>, rank: seq<Word>, rank': seq<Word>, off: nat, cut: nat, j: nat,
                                     v: Word)
    requires RightRanks(order, rank, rank', off, cut, j) && off + j < |rank| && v == off + cut
    ensures order[off + j] < |rank'|
    ensures RightRanks(order, rank, rank'[order[off + j] := v], off, cut, j + 1)
  {
  }

  lemma {:induction false} PartedHolds(d: seq<Byte>, ws0: seq<Word>, ws: seq<Word>, rank: seq<Word>, rank': seq<Word>,
                                       start: seq<Word>, h: nat, off: nat, m: nat, cut: nat, mid: nat)
    requires GroupGiven(d, ws0, rank, start, h, off, m) && 0 < cut < m
    requires Parting(ws0, ws, rank, h, off, m, mid, cut, cut)
    requires RightRanks(Order(ws), rank, rank', off, cut, m)
    ensures Parted(ws0, rank, ws, rank', h, off, m, cut, mid)
  {
    PartingWords(ws0, ws, rank, h, off, m, mid, cut);
    hide GroupGiven, Reordered;
    forall i | off <= i < off + m
      ensures rank[ws[i]] == off
      ensures i < off + cut ==> rank'[ws[i]] == off
      ensures i >= off + cut ==> rank'[ws[i]] == off + cut
    {
      assert Order(ws)[i] == ws[i];
    }
  }

  lemma {:induction false} PartingWords(ws0: seq<Word>, ws: seq<Word>, rank: seq<Word>, h: nat, off: nat, m: nat,
                                        mid: nat, cut: nat)
    requires Parting(ws0, ws, rank, h, off, m, mid, cut, cut)
    ensures off + m <= |ws| == |rank| && Permutation(Order(ws), |ws|)
    ensures forall i | off <= i < off + m :: Order(ws)[i] == ws[i] < |ws| && rank[Order(ws)[i]] == off
  {
    hide KeyAhead;
    forall i | off <= i < off + m
      ensures Order(ws)[i] == ws[i]
    {
      PosOfIndex(ws[i]);
    }
  }

  /** Gives the right part of a partitioned group its new rank (BwtSort.c:298-302). */
  method RelabelRight(off: nat, m: nat, cut: nat, h: nat, mid: nat, indices: array<Word>, groups: array<Word>,
                      ghost d: seq<Byte>, ghost start: seq<Word>, ghost ws0: seq<Word>)
    requires indices != groups && indices.Length == groups.Length == |d| <= INDEX && 0 < cut < m && off + m <= |d|
    requires GroupGiven(d, ws0, groups[..], start, h, off, m)
    requires Parting(ws0, indices[..], groups[..], h, off, m, mid, cut, cut)
    modifies groups
    ensures Parted(ws0, old(groups[..]), indices[..], groups[..], h, off, m, cut, mid)
  {
    ghost var ws, rank := indices[..], groups[..];
    ghost var order := Order(ws);
    var group: Word := off + cut;
    PartingWords(ws0, ws, rank, h, off, m, mid, cut);
    assert RightRanks(order, rank, rank, off, cut, cut);
    hide Parting, GroupGiven, RightRanks, Permutation, Order, Parted;
    for j := cut to m
      invariant indices[..] == ws
      invariant RightRanks(order, rank, groups[..], off, cut, j)
    {
      ghost var g := groups[..];
      assert indices[off + j] == ws[off + j] == order[off + j];
      RightStep(order, rank, g, off, cut, j, group);
      groups[indices[off + j]] := group;
      assert groups[..] == g[order[off + j] := group];
    }
    PartedHolds(d, ws0, ws, rank, groups[..], start, h, off, m, cut, mid);
  }

  /** Narrows the range until mid splits the group, or until it cannot be split
      (BwtSort.c:247-288). Leaves range' == 1 in that case. */
  method SplitGroup(n: nat, h: nat, off: nat, m: nat, left: nat, range: nat, indices: array<Word>, groups: array<Word>,
                    ghost d: seq<Byte>, ghost start: seq<Word>, ghost ws0: seq<Word>)
    returns (cut: nat, left': nat, range': nat)
    requires indices != groups && indices.Length == groups.Length == n == |d| && h < n && 1 <= m
    requires ws0 == indices[..] && GroupGiven(d, ws0, groups[..], start, h, off, m)
    requires RangeHolds(d, Order(ws0), groups[..], start, h, off, left, range)
    modifies indices
    ensures groups[..] == old(groups[..])
    ensures 1 <= range'
    ensures RangeHolds(d, Order(indices[..]), groups[..], start, h, off, left', range')
    ensures range' > 1 ==> 0 < cut < m
    ensures Parting(ws0, indices[..], groups[..], h, off, m, left' + (range' + 1) / 2,
                    if range' > 1 then cut else 0, if range' > 1 then cut else m)
  {
    hide GroupGiven, RangeHolds, Parting;
    cut, left', range' := 0, left, range;
    RangeSize(d, Order(ws0), groups[..], start, h, off, left, range);
    PartingStart(d, ws0, groups[..], start, h, off, m, left + (range + 1) / 2);
    while true
      invariant groups[..] == old(groups[..])
      invariant 1 <= range'
      invariant RangeHolds(d, Order(indices[..]), groups[..], start, h, off, left', range')
      invariant Parting(ws0, indices[..], groups[..], h, off, m, left' + (range' + 1) / 2, 0, m)
      decreases range'
    {
      if range' <= 1 {
        return;
      }
      var mid := left' + (range' + 1) / 2;
      ghost var ws := indices[..];
      cut := Partition(n, h, off, m, mid, indices, groups, ws0);
      SplitRange(d, ws0, ws, indices[..], groups[..], start, h, off, m, left', range', mid, cut);
      if cut == 0 {
        range' := range' - (mid - left');
        left' := mid;
      } else if cut == m {
        range' := mid - left';
      } else {
        return;
      }
      PartingAgain(ws0, indices[..], groups[..], h, off, m, mid, left' + (range' + 1) / 2, cut);
    }
  }

  lemma {:induction false} RangeSize(d: seq<Byte>, order: seq<nat>, rank: seq<Word>, start: seq<Word>, h: nat, off: nat,
                                     left: nat, range: nat)
    requires RangeHolds(d, order, rank, start, h, off, left, range)
    ensures 1 <= range && left + range <= |d|
  {
  }

  lemma {:induction false} PartingAgain(ws0: seq<Word>, ws: seq<Word>, rank: seq<Word>, h: nat, off: nat, m: nat,
                                        mid: nat, mid': nat, cut: nat)
    requires Parting(ws0, ws, rank, h, off, m, mid, cut, cut)
    ensures Parting(ws0, ws, rank, h, off, m, mid', 0, m)
  {
    hide Reordered;
  }

  /** One partition step, and the range that holds after it. */
  lemma {:induction false} SplitRange(d: seq<Byte>, ws0: seq<Word>, ws: seq<Word>, ws': seq<Word>, rank: seq<Word>,
                                      start: seq<Word>, h: nat, off: nat, m: nat, left: nat, range: nat, mid: nat,
                                      cut: nat)
    requires GroupGiven(d, ws0, rank, start, h, off, m) && |d| == |ws0|
    requires Parting(ws0, ws, rank, h, off, m, mid, 0, m) && Parting(ws0, ws', rank, h, off, m, mid, cut, cut)
    requires RangeHolds(d, Order(ws), rank, start, h, off, left, range)
    requires range > 1 && mid == left + (range + 1) / 2
    ensures RangeHolds(d, Order(ws'), rank, start, h, off, left, range)
    ensures cut == 0 ==> RangeHolds(d, Order(ws'), rank, start, h, off, mid, range - (mid - left))
    ensures cut == m ==> RangeHolds(d, Order(ws'), rank, start, h, off, left, mid - left)
  {
    PartingReordered(ws0, ws, rank, h, off, m, mid, 0, m);
    PartingReordered(ws0, ws', rank, h, off, m, mid, cut, cut);
    PartingKeys(ws0, ws', rank, h, off, m, mid, cut);
    hide GroupGiven, Reordered, Parting;
    ReorderedGiven(d, ws0, rank, ws, start, h, off, m);
    ReorderedGiven(d, ws0, rank, ws', start, h, off, m);
    RangeMoved(d, Order(ws), rank, Order(ws'), rank, start, h, off, off, left, range);
    if cut == 0 {
      RangeAbove(d, ws', rank, start, h, off, m, left, range, mid);
    }
    if cut == m {
      RangeBelow(d, ws', rank, start, h, off, m, left, range, mid);
    }
  }

  lemma {:induction false} PartingReordered(ws0: seq<Word>, ws: seq<Word>, rank: seq<Word>, h: nat, off: nat, m: nat,
                                            mid: nat, i: nat, j: nat)
    requires Parting(ws0, ws, rank, h, off, m, mid, i, j)
    ensures Reordered(ws0, ws, rank, off, m)
    ensures |ws0| == |ws| == |rank| && off + m <= |ws| && h < |ws|
  {
  }

  lemma {:induction false} PartingKeys(ws0: seq<Word>, ws: seq<Word>, rank: seq<Word>, h: nat, off: nat, m: nat,
                                       mid: nat, cut: nat)
    requires Parting(ws0, ws, rank, h, off, m, mid, cut, cut)
    ensures |ws| == |rank| && off + m <= |ws| && h < |ws|
    ensures cut == 0 ==> forall i | off <= i < off + m :: ws[i] < |ws| && KeyAhead(rank, h, ws[i]) >= mid
    ensures cut == m ==> forall i | off <= i < off + m :: ws[i] < |ws| && KeyAhead(rank, h, ws[i]) < mid
  {
    hide Reordered, KeyAhead;
  }

  /** After the relabelling: all that the two recursive calls and the return need. */
  ghost predicate HalvesReady(d: seq<Byte>, ws0: seq<Word>, rank0: seq<Word>, ws: seq<Word>, rank: seq<Word>,
                              start: seq<Word>, h: nat, off: nat, m: nat, cut: nat, left: nat, range: nat, mid: nat) {
    && |d| == |ws0| == |rank0| == |ws| == |rank| == |start| <= INDEX && 0 < cut < m && off + m <= |d|
    && left < mid < left + range
    && Touched(Order(ws0), rank0, Order(ws), rank, off, m)
    && (forall i | 0 <= i < |ws0| && !(off <= i < off + m) :: ws[i] == ws0[i])
    && (forall i | 0 <= i < |d| :: start[Order(ws)[i]] == start[Order(ws0)[i]])
    && GroupGiven(d, ws, rank, start, h, off, cut)
    && WholeGroup(Order(ws), rank, off + cut, m - cut)
    && (forall i | off + cut <= i < off + m :: ws[i] < INDEX)
    && RangeHolds(d, Order(ws), rank, start, h, off, left, mid - left)
    && RangeHolds(d, Order(ws), rank, start, h, off + cut, mid, range - (mid - left))
  }

  lemma {:induction false} PartedReady(d: seq<Byte>, ws0: seq<Word>, rank0: seq<Word>, ws: seq<Word>, rank: seq<Word>,
                                       start: seq<Word>, h: nat, off: nat, m: nat, cut: nat, left: nat, range: nat,
                                       mid: nat)
    requires GroupGiven(d, ws0, rank0, start, h, off, m)
    requires Parted(ws0, rank0, ws, rank, h, off, m, cut, mid)
    requires RangeHolds(d, Order(ws), rank0, start, h, off, left, range) && left < mid < left + range
    ensures HalvesReady(d, ws0, rank0, ws, rank, start, h, off, m, cut, left, range, mid)
  {
    PartedGroups(d, ws0, rank0, ws, rank, start, h, off, m, cut, mid);
    PartedFacts(ws0, rank0, ws, rank, h, off, m, cut, mid);
    GivenSizes(d, ws0, rank0, start, h, off, m);
    hide GroupGiven, Parted, RangeHolds, Reordered, KeyAhead, WholeGroup, Touched;
    ReorderedGiven(d, ws0, rank0, ws, start, h, off, m);
    GivenPass(d, ws, rank0, start, h, off, m);
    GivenPass(d, ws, rank, start, h, off, cut);
    LeftRange(d, ws, rank0, rank, start, h, off, m, cut, left, range, mid);
    RightRange(d, ws, rank0, rank, start, h, off, m, cut, left, range, mid);
  }

  lemma {:induction false} PartedFacts(ws0: seq<Word>, rank0: seq<Word>, ws: seq<Word>, rank: seq<Word>,
                                       h: nat, off: nat, m: nat, cut: nat, mid: nat)
    requires Parted(ws0, rank0, ws, rank, h, off, m, cut, mid)
    ensures Reordered(ws0, ws, rank0, off, m) && h < |rank0| == |rank| == |ws| == |ws0| && 0 < cut < m
    ensures off + m <= |ws|
    ensures forall i | off <= i < off + cut :: ws[i] < |ws| && rank0[ws[i]] == off && KeyAhead(rank0, h, ws[i]) < mid
    ensures forall i | off + cut <= i < off + m ::
              ws[i] < |ws| && rank0[ws[i]] == off && KeyAhead(rank0, h, ws[i]) >= mid
    ensures forall i | off + cut <= i < off + m :: ws[i] < INDEX
    ensures forall i | 0 <= i < |ws0| && !(off <= i < off + m) :: ws[i] == ws0[i]
  {
    hide KeyAhead;
    forall i | off <= i < off + m
      ensures rank0[ws[i]] == off && ws[i] < INDEX
    {
      PosOfIndex(ws[i]);
    }
  }

  lemma {:induction false} GivenSizes(d: seq<Byte>, ws: seq<Word>, rank: seq<Word>, start: seq<Word>, h: nat,
                                      off: nat, m: nat)
    requires GroupGiven(d, ws, rank, start, h, off, m)
    ensures |ws| == |rank| == |start| == |d| <= INDEX && h < |d| && 1 <= m && off + m <= |d|
  {
  }

  lemma {:induction false} SortedTouches(d: seq<Byte>, ws: seq<Word>, rank: seq<Word>, ws': seq<Word>, rank': seq<Word>,
                                         start: seq<Word>, h: nat, off: nat, m: nat, again: bool)
    requires GroupSorted(d, ws, rank, ws', rank', start, h, off, m, again)
    ensures |ws'| == |ws| == |start| == |d| == |rank'| == |rank| && Permutation(Order(ws'), |d|)
    ensures Permutation(Order(ws), |d|)
    ensures Touched(Order(ws), rank, Order(ws'), rank', off, m)
    ensures forall i | 0 <= i < |ws| :: start[Order(ws')[i]] == start[Order(ws)[i]]
  {
    hide Settled, Layout, Shared, Within, Ordered, Equal, Labelled;
  }

  lemma {:induction false} HalvesParts(d: seq<Byte>, ws0: seq<Word>, rank0: seq<Word>, ws: seq<Word>, rank: seq<Word>,
                                       start: seq<Word>, h: nat, off: nat, m: nat, cut: nat, left: nat, range: nat,
                                       mid: nat)
    requires HalvesReady(d, ws0, rank0, ws, rank, start, h, off, m, cut, left, range, mid)
    ensures |d| == |ws0| == |rank0| == |ws| == |rank| == |start| <= INDEX && 0 < cut < m && off + m <= |d|
    ensures left < mid < left + range && Permutation(Order(ws), |d|)
    ensures GroupGiven(d, ws, rank, start, h, off, cut)
    ensures WholeGroup(Order(ws), rank, off + cut, m - cut)
    ensures forall i | off + cut <= i < off + m :: ws[i] < INDEX
    ensures RangeHolds(d, Order(ws), rank, start, h, off + cut, mid, range - (mid - left))
  {
    hide GroupGiven, WholeGroup, RangeHolds;
  }

  /** What the second recursive call is given once the first has returned. */
  lemma {:induction false} RightReady(d: seq<Byte>, ws0: seq<Word>, rank0: seq<Word>, ws: seq<Word>, rank: seq<Word>,
                                      ws': seq<Word>, rank': seq<Word>, start: seq<Word>, h: nat, off: nat, m: nat,
                                      cut: nat,
                                      left: nat, range: nat, mid: nat, again: bool)
    requires HalvesReady(d, ws0, rank0, ws, rank, start, h, off, m, cut, left, range, mid)
    requires GroupSorted(d, ws, rank, ws', rank', start, h, off, cut, again)
    ensures |ws'| == |ws| && GroupGiven(d, ws', rank', start, h, off + cut, m - cut)
    ensures RangeHolds(d, Order(ws'), rank', start, h, off + cut, mid, range - (mid - left))
  {
    hide *;
    HalvesParts(d, ws0, rank0, ws, rank, start, h, off, m, cut, left, range, mid);
    SortedTouches(d, ws, rank, ws', rank', start, h, off, cut, again);
    RightGiven(d, ws, rank, ws', rank', start, h, off, cut, m, again);
    RightMembers(Order(ws), rank, Order(ws'), rank', off, cut);
    RangeMoved(d, Order(ws), rank, Order(ws'), rank', start, h, off + cut, off + cut, mid, range - (mid - left));
  }

  lemma {:induction false} BothSorted(d: seq<Byte>, ws0: seq<Word>, rank0: seq<Word>, ws1: seq<Word>, rank1: seq<Word>,
                                      ws2: seq<Word>, rank2: seq<Word>, ws3: seq<Word>, rank3: seq<Word>,
                                      start: seq<Word>, h: nat, off: nat, m: nat, cut: nat,
                                      left: nat, range: nat, mid: nat, again1: bool, again2: bool)
    requires HalvesReady(d, ws0, rank0, ws1, rank1, start, h, off, m, cut, left, range, mid)
    requires GroupSorted(d, ws1, rank1, ws2, rank2, start, h, off, cut, again1)
    requires GroupSorted(d, ws2, rank2, ws3, rank3, start, h, off + cut, m - cut, again2)
    ensures GroupSorted(d, ws0, rank0, ws3, rank3, start, h, off, m, again1 || again2)
  {
    hide GroupSorted, GroupGiven, RangeHolds, WholeGroup;
    HalvesSorted(d, ws0, rank0, ws1, rank1, ws2, rank2, ws3, rank3, start, h, off, cut, m, again1, again2);
  }

  /** Members put in another order first: the result is the same. */
  lemma {:induction false} ReorderedSorted(d: seq<Byte>, ws0: seq<Word>, rank: seq<Word>, ws1: seq<Word>,
                                           ws2: seq<Word>, start: seq<Word>, h: nat, off: nat, m: nat)
    requires GroupGiven(d, ws0, rank, start, h, off, m) && Reordered(ws0, ws1, rank, off, m)
    requires GroupSorted(d, ws1, rank, ws2, rank, start, h, off, m, true)
    ensures GroupSorted(d, ws0, rank, ws2, rank, start, h, off, m, true)
  {
    ReorderedGiven(d, ws0, rank, ws1, start, h, off, m);
    hide PassState, Settled, Layout, Shared, WholeGroup, GroupGiven;
  }

  /** The exit at a range of one (BwtSort.c:250-256): nothing left to compare. */
  method KeepUnsplit(n: nat, h: nat, off: nat, m: nat, left: nat, indices: array<Word>, groups: array<Word>,
                     ghost d: seq<Byte>, ghost start: seq<Word>, ghost ws0: seq<Word>)
    requires indices != groups && indices.Length == groups.Length == n == |d| && m >= 2
    requires GroupGiven(d, ws0, groups[..], start, h, off, m) && Reordered(ws0, indices[..], groups[..], off, m)
    requires RangeHolds(d, Order(indices[..]), groups[..], start, h, off, left, 1)
    modifies indices
    ensures groups[..] == old(groups[..])
    ensures GroupSorted(d, ws0, groups[..], indices[..], groups[..], start, h, off, m, true)
  {
    ghost var ws1 := indices[..];
    ReorderedGiven(d, ws0, groups[..], ws1, start, h, off, m);
    GivenPass(d, ws1, groups[..], start, h, off, m);
    GivenGroup(d, ws1, groups[..], start, h, off, m);
    hide GroupGiven, GroupSorted, RangeHolds, Reordered, PassState, Uniform, WholeGroup;
    RangeOfOne(d, Order(ws1), groups[..], start, h, off, m, left);
    KeepGroup(off, m, h, indices, groups, d, start);
    ReorderedSorted(d, ws0, groups[..], ws1, indices[..], start, h, off, m);
  }

  /** SortGroup (BwtSort.c:100-309). */
  method SortGroup(n: nat, h: nat, off: nat, m: nat, numRefBits: nat,
                   indices: array<Word>, temp: array<Word>, groups: array<Word>, left: nat, range: nat,
                   ghost d: seq<Byte>, ghost start: seq<Word>)
    returns (again: bool)
    requires indices != temp && groups != temp && indices != groups
    requires n == |d| == indices.Length == groups.Length
    requires RefBitsFit(n, numRefBits, temp.Length)
    requires GroupGiven(d, indices[..], groups[..], start, h, off, m)
    requires RangeHolds(d, Order(indices[..]), groups[..], start, h, off, left, range)
    modifies indices, temp, groups
    ensures GroupSorted(d, old(indices[..]), old(groups[..]), indices[..], groups[..], start, h, off, m, again)
    decreases m
  {
    hide GroupGiven, GroupSorted, RangeHolds, Parting, Parted, Pow2, Order, KeyedBy, Reordered, HalvesReady, Uniform;
    ghost var ws0, rank0 := indices[..], groups[..];
    GivenSizes(d, ws0, rank0, start, h, off, m);
    if m <= 1 {
      SingleSorted(d, ws0, rank0, start, h, off);
      return false;
    }
    if m <= Pow2(numRefBits) && m <= range {
      assert n * Pow2(numRefBits) <= 0x1_0000_0000 && Pow2(numRefBits) <= temp.Length;
      again := SortSmallGroup(n, h, off, m, Pow2(numRefBits), indices, temp, groups, d, start);
      return;
    }
    ghost var keys := GivenKeys(d, ws0, rank0, start, h, off, m);
    var same := AllSame(n, h, off, m, indices, groups, keys);
    if same {
      SameKeysAgree(d, ws0, rank0, start, h, off, m, keys);
      KeepGroup(off, m, h, indices, groups, d, start);
      return true;
    }
    var cut, left', range' := SplitGroup(n, h, off, m, left, range, indices, groups, d, start, ws0);
    var mid := left' + (range' + 1) / 2;
    if range' <= 1 {
      PartingReordered(ws0, indices[..], groups[..], h, off, m, mid, 0, m);
      KeepUnsplit(n, h, off, m, left', indices, groups, d, start, ws0);
      return true;
    }
    RelabelRight(off, m, cut, h, mid, indices, groups, d, start, ws0);
    ghost var ws1, rank1 := indices[..], groups[..];
    PartedReady(d, ws0, rank0, ws1, rank1, start, h, off, m, cut, left', range', mid);
    ReadyLeft(d, ws0, rank0, ws1, rank1, start, h, off, m, cut, left', range', mid);
    var again1 := SortGroup(n, h, off, cut, numRefBits, indices, temp, groups, left', mid - left', d, start);
    ghost var ws2, rank2 := indices[..], groups[..];
    RightReady(d, ws0, rank0, ws1, rank1, ws2, rank2, start, h, off, m, cut, left', range', mid, again1);
    var again2 := SortGroup(n, h, off + cut, m - cut, numRefBits, indices, temp, groups, mid,
                            range' - (mid - left'), d, start);
    BothSorted(d, ws0, rank0, ws1, rank1, ws2, rank2, indices[..], groups[..], start, h, off, m, cut,
               left', range', mid, again1, again2);
    again := again1 || again2;
  }

  /** NumRefBits leaves room for rank and place in one word, and its groups fit `temp`. */
  predicate RefBitsFit(n: nat, numRefBits: nat, tempLength: nat) {
    n * Pow2(numRefBits) <= 0x1_0000_0000 && Pow2(numRefBits) <= tempLength
  }

  lemma {:induction false} GivenKeys(d: seq<Byte>, ws: seq<Word>, rank: seq<Word>, start: seq<Word>, h: nat,
                                     off: nat, m: nat)
    returns (keys: seq<Word>)
    requires GroupGiven(d, ws, rank, start, h, off, m)
    ensures off + m <= |ws| && KeyedBy(ws[off..off + m], rank, h, keys)
  {
    GivenWords(d, ws, rank, start, h, off, m);
    hide GroupGiven, Order;
    keys := KeysOf(ws[off..off + m], rank, h);
  }

  lemma {:induction false} ReadyLeft(d: seq<Byte>, ws0: seq<Word>, rank0: seq<Word>, ws: seq<Word>, rank: seq<Word>,
                              start: seq<Word>, h: nat, off: nat, m: nat, cut: nat, left: nat, range: nat, mid: nat)
    requires HalvesReady(d, ws0, rank0, ws, rank, start, h, off, m, cut, left, range, mid)
    ensures GroupGiven(d, ws, rank, start, h, off, cut)
    ensures RangeHolds(d, Order(ws), rank, start, h, off, left, mid - left)
  {
    hide GroupGiven, RangeHolds, Touched, WholeGroup;
  }
}
