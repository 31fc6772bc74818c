/** One pass over the groups, and the last loop that clears the sizes
    (BwtSort.c:538-628). */
module BwtPass {
  import opened Bitwise
  import opened Machine
  import opened Rotations
  import opened Permutations
  import opened BwtGroups
  import opened BwtSizes
  import opened BwtSortState
  import opened BwtSortGroup
  import BwtKeys
  import BwtRangeSort

  // ---------- reading the size words ----------

  /** Reads the size at slot i and clears its bits (BwtSort.c:562-571, 616-623). */
  method TakeSize(indices: array<Word>, i: nat, ghost first: seq<bool>) returns (size: nat, live: bool)
    requires i < indices.Length && |first| == indices.Length - i && Layout(indices[..][i..], first)
    modifies indices
    ensures size == SizeAt(old(indices[..])[i..]) && 1 <= size && i + size <= indices.Length
    ensures live == Live(old(indices[..])[i])
    ensures Taken(old(indices[..]), indices[..], i, size)
  {
    hide *;
    ghost var ws := indices[..];
    HeadRead(ws, i, first);
    size := Shr(And(indices[i], BIG - 1), 20);
    live := And(indices[i], LIVE) != 0;
    if And(indices[i], BIG) != 0 {
      size := size + Shl(Shr(indices[i + 1], 20), 10);
      indices[i + 1] := And(indices[i + 1], INDEX - 1);
    }
    indices[i] := And(indices[i], INDEX - 1);
    size := size + 1;
    HeadTaken(ws, indices[..], i, size, first);
  }

  /** What the masks and shifts read at slot i. */
  lemma {:induction false} HeadRead(ws: seq<Word>, i: nat, first: seq<bool>)
    requires i < |ws| && |first| == |ws| - i && Layout(ws[i..], first)
    ensures And(ws[i], BIG) != 0 ==> i + 1 < |ws| && And(ws[i + 1], INDEX - 1) == Pos(ws[i + 1]) < INDEX < 0x1_0000_0000
    ensures And(ws[i], INDEX - 1) == Pos(ws[i]) < INDEX < 0x1_0000_0000 && 1 <= BIG
    ensures And(ws[i], LIVE) != 0 <==> Live(ws[i])
    ensures SizeAt(ws[i..]) == Shr(And(ws[i], BIG - 1), 20) +
              (if And(ws[i], BIG) != 0 then Shl(Shr(ws[i + 1], 20), 10) else 0) + 1
  {
    HeadBlock(ws[i..], first);
    hide Layout, Block, And, Shr, Shl, SizeAt, Big, Live, High, Pos;
    HeadSize(ws[i..]);
    MaskedPos(ws[i]);
    if Big(ws[i]) {
      MaskedPos(ws[i + 1]);
    }
  }

  /** Clearing one or two words clears all there is. */
  lemma {:induction false} HeadTaken(ws: seq<Word>, ws': seq<Word>, i: nat, size: nat, first: seq<bool>)
    requires i < |ws| == |ws'| && |first| == |ws| - i && Layout(ws[i..], first) && size == SizeAt(ws[i..])
    requires ws'[i] == Pos(ws[i])
    requires forall k | 0 <= k < |ws| && k != i && !(k == i + 1 && And(ws[i], BIG) != 0) :: ws'[k] == ws[k]
    requires And(ws[i], BIG) != 0 ==> i + 1 < |ws| && ws'[i + 1] == Pos(ws[i + 1])
    ensures 1 <= size && i + size <= |ws| && Taken(ws, ws', i, size)
  {
    HeadBlock(ws[i..], first);
    MaskedFlags(ws[i]);
    hide Layout, Block, And, SizeAt, Big, Live, Pos;
    forall k | i <= k < i + size
      ensures ws'[k] == Pos(ws[k])
    {
      assert ws[k] == ws[i..][k - i];
    }
  }

  /** The size that the masks and shifts read at the head of ws. */
  lemma {:induction false} HeadSize(ws: seq<Word>)
    requires ws != [] && (Big(ws[0]) ==> |ws| > 1)
    ensures And(ws[0], BIG) != 0 <==> Big(ws[0])
    ensures And(ws[0], LIVE) != 0 <==> Live(ws[0])
    ensures SizeAt(ws) == Shr(And(ws[0], BIG - 1), 20) + (if Big(ws[0]) then Shl(Shr(ws[1], 20), 10) else 0) + 1
  {
    hide And, Shr, Shl, High, Big, Live;
    MaskedSize(ws[0]);
    MaskedFlags(ws[0]);
    if Big(ws[0]) {
      HighSize(ws[1]);
    }
  }

  /** The size bits of slots [i, i + size) are gone. */
  ghost predicate Taken(ws: seq<Word>, ws': seq<Word>, i: nat, size: nat) {
    && |ws'| == |ws| && i + size <= |ws|
    && (forall k | 0 <= k < |ws| && !(i <= k < i + size) :: ws'[k] == ws[k])
    && (forall k | i <= k < i + size :: ws'[k] == Pos(ws[k]))
  }

  lemma {:induction false} TakenWords(ws: seq<Word>, ws': seq<Word>, i: nat, size: nat)
    requires Taken(ws, ws', i, size)
    ensures |ws'| == |ws| && i + size <= |ws| && Order(ws') == Order(ws)
    ensures forall k | i <= k < i + size :: ws'[k] < INDEX
    ensures ws'[..i] == ws[..i]
  {
    forall k | 0 <= k < |ws|
      ensures Order(ws')[k] == Order(ws)[k]
    {
      if i <= k < i + size {
        BwtKeys.PosOfIndex(Pos(ws[k]));
      }
    }
  }

  /** What the head of a layout says. */
  lemma {:induction false} HeadBlock(ws: seq<Word>, first: seq<bool>)
    requires |ws| == |first| && ws != [] && Layout(ws, first)
    ensures SizeAt(ws) <= |ws| && Block(ws[..SizeAt(ws)], first[..SizeAt(ws)])
    ensures Layout(ws[SizeAt(ws)..], first[SizeAt(ws)..])
    ensures Big(ws[0]) ==> SizeAt(ws) > 1
    ensures forall k | 1 <= k < SizeAt(ws) && !(k == 1 && Big(ws[0])) :: Pos(ws[k]) == ws[k]
  {
    var s := SizeAt(ws);
    hide Layout;
    var head := ws[..s];
    assert Encoded(head);
    forall k | 1 <= k < s && !(k == 1 && Big(ws[0]))
      ensures Pos(ws[k]) == ws[k]
    {
      assert head[k] < INDEX;
      BwtKeys.PosOfIndex(ws[k]);
    }
  }

  // ---------- the words during a pass ----------

  /** Words before slot i are done; the last f of them are one pending block of
      finished groups; the words from i on are as the last pass left them. */
  ghost predicate PassWords(ws: seq<Word>, first: seq<bool>, i: nat, f: nat) {
    && |ws| == |first| && f <= i <= |ws|
    && Layout(ws[..i - f], first[..i - f])
    && (f > 0 ==> Encoded(ws[i - f..i]) && !Live(ws[i - f]))
    && (forall k | i - f <= k < i :: first[k])
    && Layout(ws[i..], first[i..])
  }

  lemma {:induction false} PendingDone(ws: seq<Word>, first: seq<bool>, i: nat, f: nat)
    requires PassWords(ws, first, i, f)
    ensures i <= |ws| == |first| && Layout(ws[..i], first[..i])
  {
    hide Layout, Encoded;
    if f > 0 {
      assert Block(ws[i - f..i], first[i - f..i]);
      BlockIsLayout(ws[i - f..i], first[i - f..i]);
      LayoutAppend(ws[..i - f], first[..i - f], ws[i - f..i], first[i - f..i]);
      assert ws[..i] == ws[..i - f] + ws[i - f..i] && first[..i] == first[..i - f] + first[i - f..i];
    }
  }

  /** The head of what is left: its size, and whether it is one group. */
  lemma {:induction false} NextBlock(ws: seq<Word>, first: seq<bool>, i: nat, f: nat)
    requires PassWords(ws, first, i, f) && i < |ws|
    ensures |first| == |ws|
    ensures i + SizeAt(ws[i..]) <= |ws|
    ensures Layout(ws[i + SizeAt(ws[i..])..], first[i + SizeAt(ws[i..])..])
    ensures i + SizeAt(ws[i..]) < |ws| ==> first[i + SizeAt(ws[i..])]
    ensures first[i]
    ensures Live(ws[i]) ==> SizeAt(ws[i..]) > 1 && forall k | i < k < i + SizeAt(ws[i..]) :: !first[k]
    ensures !Live(ws[i]) ==> forall k | i <= k < i + SizeAt(ws[i..]) :: first[k]
  {
    var tail, ft := ws[i..], first[i..];
    hide Layout, Encoded, SizeAt;
    HeadBlock(tail, ft);
    var s := SizeAt(tail);
    assert tail[s..] == ws[i + s..] && ft[s..] == first[i + s..];
    if i + s < |ws| {
      HeadBlock(ws[i + s..], first[i + s..]);
      BlockFirst(ws[i + s..], first[i + s..]);
    }
    BlockParts(tail[..s], ft[..s]);
    forall k | i <= k < i + s
      ensures first[k] == ft[..s][k - i]
    {
    }
  }

  lemma {:induction false} NextTail(ws: seq<Word>, first: seq<bool>, i: nat, f: nat, size: nat)
    requires PassWords(ws, first, i, f) && i < |ws| && size == SizeAt(ws[i..])
    ensures i + size <= |ws| == |first| && Layout(ws[i + size..], first[i + size..])
  {
    hide Layout, Live, PassWords;
    NextBlock(ws, first, i, f);
  }

  lemma {:induction false} BlockFirst(ws: seq<Word>, first: seq<bool>)
    requires |ws| == |first| && ws != [] && SizeAt(ws) <= |ws|
    requires Block(ws[..SizeAt(ws)], first[..SizeAt(ws)])
    ensures first[0]
  {
    hide Encoded;
  }

  lemma {:induction false} BlockParts(ws: seq<Word>, first: seq<bool>)
    requires |ws| == |first| && ws != [] && Block(ws, first)
    ensures first[0]
    ensures Live(ws[0]) ==> |ws| > 1 && forall k | 1 <= k < |ws| :: !first[k]
    ensures !Live(ws[0]) ==> forall k | 0 <= k < |ws| :: first[k]
  {
  }

  /** Adds finished groups of slots [i, i + size) to the pending block (BwtSort.c:572-584). */
  method MergeFinished(indices: array<Word>, i: nat, f: nat, size: nat)
    requires f <= i && 1 <= size && i + size <= indices.Length <= INDEX
    requires f > 0 ==> Encoded(indices[i - f..i])
    requires forall k | i <= k < i + size :: indices[k] < INDEX
    modifies indices
    ensures Merged(old(indices[..]), indices[..], i, f, size)
  {
    hide *;
    ghost var ws := indices[..];
    ClearPending(indices, i, f);
    ghost var ws1 := indices[..];
    ClearedWords(ws, ws1, i, f, size);
    SetFinishedGroupSize(indices, i - f, size + f);
    assert indices[..][i - f..i + size] == indices[i - f..i - f + (size + f)];
    MergedHolds(ws, ws1, indices[..], i, f, size);
  }

  lemma {:induction false} ClearedWords(ws: seq<Word>, ws1: seq<Word>, i: nat, f: nat, size: nat)
    requires f <= i && Taken(ws, ws1, i - f, f) && i + size <= |ws|
    requires forall k | i <= k < i + size :: ws[k] < INDEX
    ensures |ws1| == |ws|
    ensures forall k | i - f <= k < i + size :: ws1[k] < INDEX && Pos(ws1[k]) == ws1[k] == Pos(ws[k])
  {
    forall k | i - f <= k < i + size
      ensures ws1[k] < INDEX && Pos(ws1[k]) == ws1[k] == Pos(ws[k])
    {
      if k < i {
        BwtKeys.PosOfIndex(Pos(ws[k]));
      } else {
        BwtKeys.PosOfIndex(ws[k]);
      }
    }
  }

  lemma {:induction false} MergedHolds(ws: seq<Word>, ws1: seq<Word>, ws2: seq<Word>, i: nat, f: nat, size: nat)
    requires f <= i && 1 <= size && Taken(ws, ws1, i - f, f) && i + size <= |ws| == |ws2|
    requires forall k | i <= k < i + size :: ws[k] < INDEX
    requires forall k | 0 <= k < |ws| && !(i - f <= k < i + size) :: ws2[k] == ws1[k]
    requires forall k | i - f <= k < i + size :: Pos(ws2[k]) == ws1[k]
    requires Encoded(ws2[i - f..i + size]) && !Live(ws2[i - f])
    ensures Merged(ws, ws2, i, f, size)
  {
    hide Encoded, Live;
    ClearedWords(ws, ws1, i, f, size);
  }

  /** Clears the size of the pending block. */
  method ClearPending(indices: array<Word>, i: nat, f: nat)
    requires f <= i < indices.Length
    requires f > 0 ==> Encoded(indices[i - f..i])
    requires indices[i] < INDEX
    modifies indices
    ensures Taken(old(indices[..]), indices[..], i - f, f)
  {
    if f > 0 {
      ghost var block := indices[i - f..i];
      EncodedWords(block);
      assert forall k | i - f <= k < i :: indices[k] == block[k - (i - f)];
    } else {
      BwtKeys.PosOfIndex(indices[i]);
    }
    hide Encoded;
    indices[i - f] := Pos(indices[i - f]);
    if f > 1 {
      indices[i - f + 1] := Pos(indices[i - f + 1]);
    }
  }

  /** Slots [i - f, i + size) are one finished block. */
  ghost predicate Merged(ws: seq<Word>, ws': seq<Word>, i: nat, f: nat, size: nat) {
    && |ws'| == |ws| && f <= i && 1 <= size && i + size <= |ws|
    && (forall k | 0 <= k < |ws| && !(i - f <= k < i + size) :: ws'[k] == ws[k])
    && (forall k | i - f <= k < i + size :: Pos(ws'[k]) == Pos(ws[k]))
    && Encoded(ws'[i - f..i + size]) && !Live(ws'[i - f])
  }

  lemma {:induction false} EncodedWords(ws: seq<Word>)
    requires Encoded(ws)
    ensures forall k | 2 <= k < |ws| :: ws[k] < INDEX && Pos(ws[k]) == ws[k]
  {
    forall k | 2 <= k < |ws|
      ensures ws[k] < INDEX && Pos(ws[k]) == ws[k]
    {
      assert ws[k] < INDEX;
      BwtKeys.PosOfIndex(ws[k]);
    }
  }

  lemma {:induction false} WordsMerged(ws: seq<Word>, ws': seq<Word>, first: seq<bool>, i: nat, f: nat, size: nat)
    requires PassWords(ws, first, i, f) && i < |ws| == |ws'| && size == SizeAt(ws[i..]) && !Live(ws[i])
    requires i + size <= |ws|
    requires forall k | 0 <= k < |ws| && !(i - f <= k < i + size) :: ws'[k] == ws[k]
    requires Encoded(ws'[i - f..i + size]) && !Live(ws'[i - f])
    ensures PassWords(ws', first, i + size, f + size)
  {
    hide Layout, Encoded, SizeAt;
    NextBlock(ws, first, i, f);
    assert ws'[..i - f] == ws[..i - f];
    assert ws'[i + size..] == ws[i + size..];
    assert (i + size) - (f + size) == i - f;
  }

  /** A live group replaced by a finished piece of layout. */
  lemma {:induction false} WordsReplaced(ws: seq<Word>, first: seq<bool>, ws': seq<Word>, first': seq<bool>,
                                         i: nat, f: nat, size: nat)
    requires PassWords(ws, first, i, f) && i < |ws| == |ws'| == |first'| && size == SizeAt(ws[i..]) && i + size <= |ws|
    requires forall k | 0 <= k < |ws| && !(i <= k < i + size) :: ws'[k] == ws[k] && first'[k] == first[k]
    requires Layout(ws'[i..i + size], first'[i..i + size])
    ensures PassWords(ws', first', i + size, 0)
  {
    hide *;
    NextTail(ws, first, i, f, size);
    PendingDone(ws, first, i, f);
    SameEnds(ws, ws', i, size);
    SameEnds(first, first', i, size);
    PassPieces(ws', first', i, i + size);
  }

  lemma {:induction false} SameEnds<T>(s: seq<T>, s': seq<T>, i: nat, size: nat)
    requires |s| == |s'| && i + size <= |s|
    requires forall k | 0 <= k < |s| && !(i <= k < i + size) :: s'[k] == s[k]
    ensures s'[..i] == s[..i] && s'[i + size..] == s[i + size..]
  {
  }

  lemma {:induction false} PassPieces(ws: seq<Word>, first: seq<bool>, i: nat, j: nat)
    requires i <= j <= |ws| == |first|
    requires Layout(ws[..i], first[..i]) && Layout(ws[i..j], first[i..j]) && Layout(ws[j..], first[j..])
    ensures PassWords(ws, first, j, 0)
  {
    hide Layout, Encoded;
    LayoutAppend(ws[..i], first[..i], ws[i..j], first[i..j]);
    assert ws[..j] == ws[..i] + ws[i..j] && first[..j] == first[..i] + first[i..j];
  }

  /** Words without sizes are groups of one. */
  lemma {:induction false} ClearLayout(ws: seq<Word>, first: seq<bool>)
    requires |ws| == |first|
    requires forall k | 0 <= k < |ws| :: ws[k] < INDEX && first[k]
    ensures Layout(ws, first)
  {
    if ws != [] {
      ClearLayout(ws[1..], first[1..]);
      assert Encoded(ws[..1]);
      LayoutCons(ws[..1], first[..1], ws[1..], first[1..]);
      assert ws == ws[..1] + ws[1..] && first == first[..1] + first[1..];
    }
  }

  // ---------- the order and the ranks during a pass ----------

  /** What every pass starts from. */
  ghost predicate Ready(d: seq<Byte>, ws: seq<Word>, rank: seq<Word>, h: nat) {
    && |ws| == |d| <= INDEX
    && Invariant(d, Order(ws), rank, h)
    && Layout(ws, Firsts(Order(ws), rank, 0, |d|))
  }

  /** The slots before i are done. While h is less than the block, done means sorted
      on 2h bytes; otherwise it means ranked by the slot, the order staying `order0`. */
  ghost predicate Progress(d: seq<Byte>, order0: seq<nat>, start: seq<Word>, order: seq<nat>, rank: seq<Word>,
                           h: nat, i: nat) {
    && |d| > 0 && |rank| == |start| == |d| && i <= |d|
    && Permutation(order, |d|)
    && Labelled(order, rank, |d|)
    && (h < |d| ==> PassState(d, order, rank, start, h) && Settled(d, order, rank, 0, i, 2 * h))
    && (h >= |d| ==> order == order0 && forall t | 0 <= t < i :: rank[order[t]] == t)
  }

  /** Each of the first i slots is a group of its own. */
  ghost predicate Singles(order: seq<nat>, rank: seq<Word>, i: nat) {
    i <= |order| && forall t | 0 <= t < i :: order[t] < |rank| && rank[order[t]] == t
  }

  ghost predicate PassLoop(d: seq<Byte>, order0: seq<nat>, start: seq<Word>, ws: seq<Word>, rank: seq<Word>,
                           h: nat, i: nat, f: nat, newLimit: nat) {
    && |ws| == |d| <= INDEX
    && Progress(d, order0, start, Order(ws), rank, h, i)
    && PassWords(ws, Firsts(Order(ws), rank, 0, |d|), i, f)
    && (newLimit == 0 <==> Singles(Order(ws), rank, i))
  }

  lemma {:induction false} LoopStart(d: seq<Byte>, ws: seq<Word>, rank: seq<Word>, h: nat)
    requires Ready(d, ws, rank, h)
    ensures PassLoop(d, Order(ws), rank, ws, rank, h, 0, 0, 0)
  {
    var order, first := Order(ws), Firsts(Order(ws), rank, 0, |d|);
    assert Permutation(order, |d|) && Labelled(order, rank, |d|);
    WithinItself(order, rank);
    hide Invariant, Layout, Labelled, Within;
    assert ws[..0] == [] && first[..0] == [] && ws[0..] == ws && first[0..] == first;
    assert PassWords(ws, first, 0, 0);
    hide PassWords;
    assert Settled(d, order, rank, 0, 0, 2 * h);
    if h < |d| {
      StartsPass(d, order, rank, h);
    }
  }

  lemma {:induction false} WithinItself(order: seq<nat>, rank: seq<Word>)
    requires Permutation(order, |rank|) && Labelled(order, rank, |rank|)
    ensures Within(order, rank, rank)
  {
    forall x: nat | x < |rank|
      ensures rank[x] < |rank| && rank[order[rank[x]]] == rank[x]
    {
      var i := SlotOf(order, |rank|, x);
    }
  }

  lemma {:induction false} StartsPass(d: seq<Byte>, order: seq<nat>, rank: seq<Word>, h: nat)
    requires Invariant(d, order, rank, h) && h < |d| && |rank| == |d| == |order|
    requires Permutation(order, |d|) && Within(order, rank, rank)
    ensures PassState(d, order, rank, rank, h)
  {
    hide Ordered, Labelled, Permutation, Within;
  }

  lemma {:induction false} FirstsAt(order: seq<nat>, rank: seq<Word>, k: nat)
    requires Permutation(order, |rank|) && k < |rank|
    ensures Firsts(order, rank, 0, |rank|)[k] <==> rank[order[k]] == k
  {
    assert order[0 + k] == order[k];
  }

  /** The rank of a slot is the first slot of its group, and not behind it. */
  lemma {:induction false} LabelAt(order: seq<nat>, rank: seq<Word>, k: nat, j: nat)
    requires Permutation(order, |rank|) && Labelled(order, rank, |rank|) && j <= k < |rank|
    ensures rank[order[j]] <= rank[order[k]] <= k && rank[order[rank[order[k]]]] == rank[order[k]]
  {
    hide Permutation;
  }

  /** A group at the head of what is left is a whole group of the order. */
  lemma {:induction false} NextGroup(order: seq<nat>, rank: seq<Word>, first: seq<bool>, i: nat, m: nat)
    requires Permutation(order, |rank|) && Labelled(order, rank, |rank|) && i + m <= |rank| && 1 <= m
    requires first == Firsts(order, rank, 0, |rank|)
    requires first[i] && (i + m < |rank| ==> first[i + m])
    requires forall k | i < k < i + m :: !first[k]
    ensures WholeGroup(order, rank, i, m)
  {
    FirstsAt(order, rank, i);
    hide Labelled, Firsts, Permutation;
    forall k | i <= k < i + m
      ensures rank[order[k]] == i
    {
      LabelAt(order, rank, k, i);
      FirstsAt(order, rank, rank[order[k]]);
    }
    forall k | i + m <= k < |rank|
      ensures rank[order[k]] >= i + m
    {
      LabelAt(order, rank, k, i + m);
      FirstsAt(order, rank, i + m);
    }
  }

  /** At the start of a pass the whole block is in range. */
  lemma {:induction false} FullRange(d: seq<Byte>, order: seq<nat>, rank: seq<Word>, start: seq<Word>, h: nat, off: nat)
    requires PassState(d, order, rank, start, h)
    ensures RangeHolds(d, order, rank, start, h, off, 0, |d|)
  {
    hide PassState, Ahead, Labelled, Ordered, Equal, Within;
    FullRangeAt(d, order, rank, start, h);
    RangeIntro(d, order, rank, start, h, off);
  }

  lemma {:induction false} RangeIntro(d: seq<Byte>, order: seq<nat>, rank: seq<Word>, start: seq<Word>, h: nat,
                                      off: nat)
    requires h < |d| == |start| == |rank| && Permutation(order, |d|)
    requires forall x: nat | x < |d| :: start[order[0]] <= start[x] <= start[order[|d| - 1]]
    ensures RangeHolds(d, order, rank, start, h, off, 0, |d|)
  {
    hide Permutation, Ahead;
  }

  lemma {:induction false} FullRangeAt(d: seq<Byte>, order: seq<nat>, rank: seq<Word>, start: seq<Word>, h: nat)
    requires PassState(d, order, rank, start, h)
    ensures h < |d| == |start| == |rank| && Permutation(order, |d|)
    ensures forall x: nat | x < |d| :: start[order[0]] <= start[x] <= start[order[|d| - 1]]
  {
    hide Ordered, Equal, Labelled;
    forall x: nat | x < |d|
      ensures start[order[0]] <= start[x] <= start[order[|d| - 1]]
    {
      var i := SlotOf(order, |d|, x);
    }
  }

  // ---------- the steps of a pass ----------

  /** A finished block moves the pass on. */
  lemma {:induction false} ProgressFinished(d: seq<Byte>, order0: seq<nat>, start: seq<Word>, order: seq<nat>,
                                            rank: seq<Word>, h: nat, i: nat, j: nat)
    requires Progress(d, order0, start, order, rank, h, i) && i <= j <= |d|
    requires forall k | i <= k < j :: rank[order[k]] == k
    ensures Progress(d, order0, start, order, rank, h, j)
  {
    if h < |d| {
      hide PassState, Agree;
      forall a, b | 0 <= a < j && 0 <= b < j && rank[order[a]] == rank[order[b]]
        ensures Agree(d, order[a], order[b], 2 * h)
      {
        if a != b {
          assert a < i && b < i;
        } else {
          AgreeSelf(d, order[a], 2 * h);
        }
      }
    }
  }

  lemma {:induction false} AgreeSelf(d: seq<Byte>, x: nat, h: nat)
    requires |d| > 0
    ensures Agree(d, x, x, h)
  {
  }

  /** A group sorted by SortGroup moves the pass on. */
  lemma {:induction false} ProgressSorted(d: seq<Byte>, order0: seq<nat>, start: seq<Word>, order: seq<nat>,
                                          rank: seq<Word>,
                                          order': seq<nat>, rank': seq<Word>, h: nat, i: nat, m: nat)
    requires Progress(d, order0, start, order, rank, h, i) && h < |d|
    requires PassState(d, order', rank', start, h) && Touched(order, rank, order', rank', i, m)
    requires Settled(d, order', rank', i, m, 2 * h)
    ensures Progress(d, order0, start, order', rank', h, i + m)
  {
    BwtRangeSort.PassLabelled(d, order', rank', start, h);
    hide PassState, Agree;
    forall a, b | 0 <= a < i + m && 0 <= b < i + m && rank'[order'[a]] == rank'[order'[b]]
      ensures Agree(d, order'[a], order'[b], 2 * h)
    {
      if a < i && b < i {
        assert order'[a] == order[a] && order'[b] == order[b];
      } else {
        assert i <= a && i <= b;
      }
    }
  }

  /** Ties broken by slot (BwtSort.c:590-599). */
  lemma {:induction false} ProgressTies(d: seq<Byte>, order0: seq<nat>, start: seq<Word>, order: seq<nat>,
                                        rank: seq<Word>, rank': seq<Word>, h: nat, i: nat, m: nat)
    requires Progress(d, order0, start, order, rank, h, i) && h >= |d| && i + m <= |d| && |rank'| == |d|
    requires WholeGroup(order, rank, i, m)
    requires forall k | i <= k < i + m :: rank'[order[k]] == k
    requires forall k | 0 <= k < |d| && !(i <= k < i + m) :: rank'[order[k]] == rank[order[k]]
    ensures Progress(d, order0, start, order, rank', h, i + m)
  {
    assert Labelled(order, rank', |d|) by {
      forall k | 0 <= k < |d|
        ensures rank'[order[k]] <= k && rank'[order[rank'[order[k]]]] == rank'[order[k]]
      {
        if k >= i + m {
          assert rank[order[k]] >= i + m;
        } else if k < i {
          assert rank[order[k]] < i;
        }
      }
    }
  }

  /** One finished block. */
  method SkipFinished(n: nat, h: nat, i: nat, f: nat, newLimit: nat, size: nat, indices: array<Word>,
                      ghost d: seq<Byte>, ghost order0: seq<nat>, ghost start: seq<Word>,
                      ghost ws: seq<Word>, ghost rank: seq<Word>)
    requires n == |d| == indices.Length && i < n
    requires PassLoop(d, order0, start, ws, rank, h, i, f, newLimit)
    requires |ws| == n && size == SizeAt(ws[i..]) && i + size <= n && !Live(ws[i])
    requires Taken(ws, indices[..], i, size)
    modifies indices
    ensures PassLoop(d, order0, start, indices[..], rank, h, i + size, f + size, newLimit)
  {
    ghost var ws1 := indices[..];
    LoopPending(d, order0, start, ws, rank, h, i, f, newLimit);
    TakenWords(ws, ws1, i, size);
    assert f > 0 ==> indices[i - f..i] == ws1[..i][i - f..] == ws[..i][i - f..] == ws[i - f..i];
    assert forall k | i <= k < i + size :: indices[k] == ws1[k];
    hide PassLoop, Encoded, SizeAt, Live, Taken, Merged, Order;
    MergeFinished(indices, i, f, size);
    LoopFinished(d, order0, start, ws, ws1, indices[..], rank, h, i, f, newLimit, size);
  }

  lemma {:induction false} LoopPending(d: seq<Byte>, order0: seq<nat>, start: seq<Word>, ws: seq<Word>, rank: seq<Word>,
                                       h: nat, i: nat, f: nat, newLimit: nat)
    requires PassLoop(d, order0, start, ws, rank, h, i, f, newLimit)
    ensures |ws| == |d| <= INDEX && f <= i <= |ws| && (f > 0 ==> Encoded(ws[i - f..i]))
  {
    hide Progress, Layout, Encoded;
  }

  lemma {:induction false} LoopFinished(d: seq<Byte>, order0: seq<nat>, start: seq<Word>, ws: seq<Word>, ws1: seq<Word>,
                                        ws': seq<Word>, rank: seq<Word>, h: nat, i: nat, f: nat, newLimit: nat,
                                        size: nat)
    requires PassLoop(d, order0, start, ws, rank, h, i, f, newLimit)
    requires i < |ws| && size == SizeAt(ws[i..]) && !Live(ws[i])
    requires Taken(ws, ws1, i, size) && Merged(ws1, ws', i, f, size)
    ensures PassLoop(d, order0, start, ws', rank, h, i + size, f + size, newLimit)
  {
    hide PassLoop, PassWords, Encoded, SizeAt, Live, Progress, Taken, Merged, Order, Layout;
    LoopSizes(d, order0, start, ws, rank, h, i, f, newLimit);
    var order, first := Order(ws), Firsts(Order(ws), rank, 0, |d|);
    OrderMerged(ws, ws1, ws', i, f, size);
    NextBlock(ws, first, i, f);
    WordsTaken(ws, ws1, ws', i, f, size);
    WordsMerged(ws, ws', first, i, f, size);
    forall k | i <= k < i + size
      ensures rank[order[k]] == k
    {
      FirstsAt(order, rank, k);
    }
    ProgressFinished(d, order0, start, order, rank, h, i, i + size);
    LoopIntro(d, order0, start, ws', rank, h, i + size, f + size, newLimit);
  }

  lemma {:induction false} LoopSizes(d: seq<Byte>, order0: seq<nat>, start: seq<Word>, ws: seq<Word>, rank: seq<Word>,
                                     h: nat, i: nat, f: nat, newLimit: nat)
    requires PassLoop(d, order0, start, ws, rank, h, i, f, newLimit)
    ensures |ws| == |d| == |rank| <= INDEX && i <= |ws| && Permutation(Order(ws), |d|)
    ensures Progress(d, order0, start, Order(ws), rank, h, i)
    ensures PassWords(ws, Firsts(Order(ws), rank, 0, |d|), i, f)
    ensures newLimit == 0 <==> Singles(Order(ws), rank, i)
  {
    hide PassWords, Labelled, PassState, Settled, Permutation;
  }

  lemma {:induction false} LoopIntro(d: seq<Byte>, order0: seq<nat>, start: seq<Word>, ws: seq<Word>, rank: seq<Word>,
                                     h: nat, i: nat, f: nat, newLimit: nat)
    requires |ws| == |d| == |rank| <= INDEX && i <= |ws| && Permutation(Order(ws), |d|)
    requires Progress(d, order0, start, Order(ws), rank, h, i)
    requires PassWords(ws, Firsts(Order(ws), rank, 0, |d|), i, f)
    requires newLimit == 0 <==> Singles(Order(ws), rank, i)
    ensures PassLoop(d, order0, start, ws, rank, h, i, f, newLimit)
  {
    hide PassWords, Progress, Permutation;
  }

  lemma {:induction false} OrderMerged(ws: seq<Word>, ws1: seq<Word>, ws': seq<Word>, i: nat, f: nat, size: nat)
    requires Taken(ws, ws1, i, size) && Merged(ws1, ws', i, f, size)
    ensures |ws'| == |ws| && Order(ws') == Order(ws)
  {
    TakenWords(ws, ws1, i, size);
    hide Encoded, Taken;
    assert Order(ws') == Order(ws1);
  }

  lemma {:induction false} WordsTaken(ws: seq<Word>, ws1: seq<Word>, ws': seq<Word>, i: nat, f: nat, size: nat)
    requires Taken(ws, ws1, i, size) && Merged(ws1, ws', i, f, size)
    ensures |ws'| == |ws| && f <= i && i + size <= |ws|
    ensures forall k | 0 <= k < |ws| && !(i - f <= k < i + size) :: ws'[k] == ws[k]
    ensures Encoded(ws'[i - f..i + size]) && !Live(ws'[i - f])
  {
    hide Encoded, Live;
  }

  /** A live group at slot i, sizes cleared, is what SortGroup needs. */
  lemma {:induction false} LiveGroup(d: seq<Byte>, order0: seq<nat>, start: seq<Word>, ws: seq<Word>, ws1: seq<Word>,
                                     rank: seq<Word>, h: nat, i: nat, f: nat, newLimit: nat, size: nat)
    requires PassLoop(d, order0, start, ws, rank, h, i, f, newLimit)
    requires i < |ws| && size == SizeAt(ws[i..]) && Live(ws[i]) && Taken(ws, ws1, i, size)
    ensures Order(ws1) == Order(ws) && size >= 2 && i + size <= |d| == |rank| == |ws1|
    ensures Permutation(Order(ws1), |d|) && WholeGroup(Order(ws1), rank, i, size)
    ensures forall k | i <= k < i + size :: ws1[k] < INDEX
  {
    var first := Firsts(Order(ws), rank, 0, |d|);
    NextBlock(ws, first, i, f);
    TakenWords(ws, ws1, i, size);
    hide PassWords, Taken, Live, SizeAt, PassState, Settled, Order;
    NextGroup(Order(ws), rank, first, i, size);
  }

  lemma {:induction false} LiveGiven(d: seq<Byte>, order0: seq<nat>, start: seq<Word>, ws: seq<Word>, ws1: seq<Word>,
                                     rank: seq<Word>, h: nat, i: nat, f: nat, newLimit: nat, size: nat)
    requires PassLoop(d, order0, start, ws, rank, h, i, f, newLimit) && h < |d|
    requires i < |ws| && size == SizeAt(ws[i..]) && Live(ws[i]) && Taken(ws, ws1, i, size)
    ensures GroupGiven(d, ws1, rank, start, h, i, size)
    ensures RangeHolds(d, Order(ws1), rank, start, h, i, 0, |d|)
  {
    LiveGroup(d, order0, start, ws, ws1, rank, h, i, f, newLimit, size);
    hide PassWords, Taken, Live, SizeAt, Settled, PassState, WholeGroup, Labelled;
    assert PassState(d, Order(ws1), rank, start, h);
    FullRange(d, Order(ws1), rank, start, h, i);
  }

  lemma {:induction false} LoopSorted(d: seq<Byte>, order0: seq<nat>, start: seq<Word>, ws: seq<Word>, ws1: seq<Word>,
                                      ws2: seq<Word>, rank: seq<Word>, rank2: seq<Word>, h: nat, i: nat, f: nat,
                                      newLimit: nat, size: nat, again: bool)
    requires PassLoop(d, order0, start, ws, rank, h, i, f, newLimit) && h < |d|
    requires i < |ws| && size == SizeAt(ws[i..]) && Live(ws[i]) && Taken(ws, ws1, i, size)
    requires |rank| == |d| && GroupSorted(d, ws1, rank, ws2, rank2, start, h, i, size, again)
    ensures i + size <= |ws|
    ensures PassLoop(d, order0, start, ws2, rank2, h, i + size, 0, if again then i + size else newLimit)
  {
    LiveGroup(d, order0, start, ws, ws1, rank, h, i, f, newLimit, size);
    SortedTouches(d, ws1, rank, ws2, rank2, start, h, i, size, again);
    SortedWords(d, ws, ws1, ws2, rank, rank2, start, h, i, f, size, again);
    SortedParts(d, ws1, rank, ws2, rank2, start, h, i, size, again);
    hide PassState, Settled, WholeGroup, Live, SizeAt, Taken, PassWords, Order, Touched, Progress, GroupSorted, Shared;
    ProgressSorted(d, order0, start, Order(ws), rank, Order(ws2), rank2, h, i, size);
    if !again {
      Unshared(Order(ws2), rank2, i, size);
      SinglesStay(Order(ws), rank, Order(ws2), rank2, i, size, newLimit);
    }
  }

  lemma {:induction false} SortedParts(d: seq<Byte>, ws1: seq<Word>, rank: seq<Word>, ws2: seq<Word>, rank2: seq<Word>,
                                       start: seq<Word>, h: nat, i: nat, m: nat, again: bool)
    requires GroupSorted(d, ws1, rank, ws2, rank2, start, h, i, m, again)
    requires |d| > 0 && |rank2| == |d| && i + m <= |d| && Permutation(Order(ws2), |d|)
    ensures PassState(d, Order(ws2), rank2, start, h)
    ensures Settled(d, Order(ws2), rank2, i, m, 2 * h)
    ensures again <==> Shared(Order(ws2), rank2, i, m)
  {
    hide PassState, Settled, Layout, Shared, Touched;
  }

  lemma {:induction false} SortedWords(d: seq<Byte>, ws: seq<Word>, ws1: seq<Word>, ws2: seq<Word>,
                                       rank: seq<Word>, rank2: seq<Word>, start: seq<Word>, h: nat, i: nat, f: nat,
                                       size: nat, again: bool)
    requires |rank| == |d| == |ws| && i < |ws| && size == SizeAt(ws[i..]) && Taken(ws, ws1, i, size)
    requires Permutation(Order(ws), |d|) && PassWords(ws, Firsts(Order(ws), rank, 0, |d|), i, f)
    requires Order(ws1) == Order(ws) && GroupSorted(d, ws1, rank, ws2, rank2, start, h, i, size, again)
    requires |rank2| == |d| == |ws2| && Permutation(Order(ws2), |d|)
    ensures PassWords(ws2, Firsts(Order(ws2), rank2, 0, |d|), i + size, 0)
  {
    var first, first2 := Firsts(Order(ws), rank, 0, |d|), Firsts(Order(ws2), rank2, 0, |d|);
    hide Layout, SizeAt, Taken, PassWords, Order, Touched, GroupSorted, Permutation;
    SortedLayout(d, ws1, rank, ws2, rank2, start, h, i, size, again);
    TakenSame(ws, ws1, ws2, i, size);
    FirstsSplice(Order(ws), rank, Order(ws2), rank2, i, size);
    WordsReplaced(ws, first, ws2, first2, i, f, size);
  }

  lemma {:induction false} SortedLayout(d: seq<Byte>, ws1: seq<Word>, rank: seq<Word>, ws2: seq<Word>, rank2: seq<Word>,
                                        start: seq<Word>, h: nat, i: nat, m: nat, again: bool)
    requires GroupSorted(d, ws1, rank, ws2, rank2, start, h, i, m, again)
    requires |rank2| == |d| == |ws2| && Permutation(Order(ws2), |d|)
    ensures |ws2| == |ws1| && i + m <= |ws2|
    ensures Touched(Order(ws1), rank, Order(ws2), rank2, i, m)
    ensures forall k | 0 <= k < |ws1| && !(i <= k < i + m) :: ws2[k] == ws1[k]
    ensures Layout(ws2[i..i + m], Firsts(Order(ws2), rank2, i, m))
  {
    hide PassState, Settled, Layout, Shared;
  }

  lemma {:induction false} TakenSame(ws: seq<Word>, ws1: seq<Word>, ws2: seq<Word>, i: nat, size: nat)
    requires Taken(ws, ws1, i, size) && |ws2| == |ws1|
    requires forall k | 0 <= k < |ws1| && !(i <= k < i + size) :: ws2[k] == ws1[k]
    ensures |ws2| == |ws|
    ensures forall k | 0 <= k < |ws| && !(i <= k < i + size) :: ws2[k] == ws[k]
  {
  }

  lemma {:induction false} FirstsSplice(order: seq<nat>, rank: seq<Word>, order': seq<nat>, rank': seq<Word>,
                                        i: nat, m: nat)
    requires Touched(order, rank, order', rank', i, m)
    ensures |Firsts(order', rank', 0, |rank'|)| == |Firsts(order, rank, 0, |rank|)|
    ensures forall k | 0 <= k < |rank| && !(i <= k < i + m) ::
              Firsts(order', rank', 0, |rank'|)[k] == Firsts(order, rank, 0, |rank|)[k]
    ensures Firsts(order', rank', 0, |rank'|)[i..i + m] == Firsts(order', rank', i, m)
  {
    var f, f' := Firsts(order, rank, 0, |rank|), Firsts(order', rank', 0, |rank'|);
    forall k | 0 <= k < |rank|
      ensures f[k] <==> rank[order[k]] == k
      ensures f'[k] <==> rank'[order'[k]] == k
    {
      assert order[0 + k] == order[k] && order'[0 + k] == order'[k];
    }
    forall k | 0 <= k < m
      ensures f'[i..i + m][k] == Firsts(order', rank', i, m)[k]
    {
      assert f'[i..i + m][k] == f'[i + k];
    }
  }

  lemma {:induction false} Unshared(order: seq<nat>, rank: seq<Word>, i: nat, m: nat)
    requires Permutation(order, |rank|) && i + m <= |rank| && !Shared(order, rank, i, m)
    ensures forall k | i <= k < i + m :: rank[order[k]] == k
  {
  }

  lemma {:induction false} SinglesStay(order: seq<nat>, rank: seq<Word>, order': seq<nat>, rank': seq<Word>,
                                       i: nat, m: nat, newLimit: nat)
    requires Touched(order, rank, order', rank', i, m)
    requires newLimit == 0 <==> Singles(order, rank, i)
    requires forall k | i <= k < i + m :: rank'[order'[k]] == k
    ensures newLimit == 0 <==> Singles(order', rank', i + m)
  {
  }

  /** Ranks the members of a group by their slots (BwtSort.c:590-599). */
  method BreakTies(i: nat, m: nat, indices: array<Word>, groups: array<Word>, ghost order: seq<nat>)
    requires indices != groups && indices.Length == groups.Length == |order| && i + m <= |order| <= INDEX
    requires Permutation(order, |order|)
    requires forall k | i <= k < i + m :: indices[k] == order[k]
    modifies groups
    ensures forall k | i <= k < i + m :: groups[order[k]] == k
    ensures forall k | 0 <= k < |order| && !(i <= k < i + m) :: groups[order[k]] == old(groups[order[k]])
  {
    for j := 0 to m
      invariant forall k | i <= k < i + j :: groups[order[k]] == k
      invariant forall k | 0 <= k < |order| && !(i <= k < i + j) :: groups[order[k]] == old(groups[order[k]])
    {
      assert indices[i + j] == order[i + j];
      groups[indices[i + j]] := i + j;
    }
  }

  lemma {:induction false} LoopTies(d: seq<Byte>, order0: seq<nat>, start: seq<Word>, ws: seq<Word>, ws1: seq<Word>,
                                    rank: seq<Word>, rank2: seq<Word>, h: nat, i: nat, f: nat, newLimit: nat, size: nat)
    requires PassLoop(d, order0, start, ws, rank, h, i, f, newLimit) && h >= |d| && |rank2| == |d|
    requires i < |ws| && size == SizeAt(ws[i..]) && Live(ws[i]) && Taken(ws, ws1, i, size)
    requires Permutation(Order(ws), |d|)
    requires forall k | i <= k < i + size :: rank2[Order(ws)[k]] == k
    requires |rank| == |d|
    requires forall k | 0 <= k < |d| && !(i <= k < i + size) :: rank2[Order(ws)[k]] == rank[Order(ws)[k]]
    ensures i + size <= |ws|
    ensures PassLoop(d, order0, start, ws1, rank2, h, i + size, 0, newLimit)
  {
    hide PassState, Settled, Layout, WholeGroup, Live, SizeAt, Taken, PassWords, Order, Touched, Progress;
    LiveGroup(d, order0, start, ws, ws1, rank, h, i, f, newLimit, size);
    var order := Order(ws);
    var first, first2 := Firsts(order, rank, 0, |d|), Firsts(order, rank2, 0, |d|);
    TouchedTies(order, rank, rank2, i, size);
    FirstsSplice(order, rank, order, rank2, i, size);
    TakenSame(ws, ws1, ws1, i, size);
    TiesLayout(ws1[i..i + size], first2[i..i + size], order, rank2, i, size);
    WordsReplaced(ws, first, ws1, first2, i, f, size);
    ProgressTies(d, order0, start, order, rank, rank2, h, i, size);
    SinglesStay(order, rank, order, rank2, i, size, newLimit);
  }

  lemma {:induction false} TouchedTies(order: seq<nat>, rank: seq<Word>, rank2: seq<Word>, i: nat, m: nat)
    requires Permutation(order, |rank|) && |rank2| == |rank| && i + m <= |rank| && WholeGroup(order, rank, i, m)
    requires forall k | i <= k < i + m :: rank2[order[k]] == k
    requires forall k | 0 <= k < |rank| && !(i <= k < i + m) :: rank2[order[k]] == rank[order[k]]
    ensures Touched(order, rank, order, rank2, i, m)
  {
  }

  lemma {:induction false} TiesLayout(ws: seq<Word>, first: seq<bool>, order: seq<nat>, rank: seq<Word>, i: nat, m: nat)
    requires Permutation(order, |rank|) && i + m <= |rank| && |ws| == |first| == m
    requires first == Firsts(order, rank, i, m)
    requires forall k | i <= k < i + m :: rank[order[k]] == k
    requires forall k | 0 <= k < m :: ws[k] < INDEX
    ensures Layout(ws, first)
  {
    forall k | 0 <= k < m
      ensures first[k]
    {
      assert rank[order[i + k]] == i + k;
    }
    ClearLayout(ws, first);
  }

  // ---------- whole passes ----------

  /** Later rotations in the order are never smaller, and every rank is a slot. */
  ghost predicate FullySorted(d: seq<Byte>, order: seq<nat>, rank: seq<Word>)
    requires |d| > 0
  {
    && |rank| == |d| && Permutation(order, |d|)
    && (forall t | 0 <= t < |d| :: rank[order[t]] == t)
    && (forall a, b | 0 <= a < b < |d| :: Before(d, order[a], order[b]) || Agree(d, order[a], order[b], |d|))
  }

  lemma {:induction false} LoopEnd(d: seq<Byte>, order0: seq<nat>, start: seq<Word>, ws: seq<Word>, rank: seq<Word>,
                                   h: nat, f: nat, newLimit: nat)
    requires PassLoop(d, order0, start, ws, rank, h, |d|, f, newLimit) && h < |d|
    ensures Ready(d, ws, rank, 2 * h)
    ensures newLimit == 0 ==> FullySorted(d, Order(ws), rank)
  {
    LoopEndParts(d, order0, start, ws, rank, h, f, newLimit);
    hide *;
    SettledEqual(d, Order(ws), rank, start, h);
    LoopEndReady(d, ws, rank, 2 * h, f);
    if newLimit == 0 {
      SinglesSorted(d, Order(ws), rank, start, h);
    }
  }

  lemma {:induction false} LoopEndParts(d: seq<Byte>, order0: seq<nat>, start: seq<Word>, ws: seq<Word>,
                                        rank: seq<Word>,
                                        h: nat, f: nat, newLimit: nat)
    requires PassLoop(d, order0, start, ws, rank, h, |d|, f, newLimit) && h < |d|
    ensures |ws| == |rank| == |d| <= INDEX && Permutation(Order(ws), |d|)
    ensures PassState(d, Order(ws), rank, start, h) && Settled(d, Order(ws), rank, 0, |d|, 2 * h)
    ensures PassWords(ws, Firsts(Order(ws), rank, 0, |d|), |d|, f)
    ensures newLimit == 0 <==> Singles(Order(ws), rank, |d|)
  {
    hide PassState, Settled, PassWords, Labelled, Permutation;
  }

  lemma {:induction false} LoopEndReady(d: seq<Byte>, ws: seq<Word>, rank: seq<Word>, h: nat, f: nat)
    requires |ws| == |rank| == |d| <= INDEX && Invariant(d, Order(ws), rank, h) && Permutation(Order(ws), |d|)
    requires PassWords(ws, Firsts(Order(ws), rank, 0, |d|), |d|, f)
    ensures Ready(d, ws, rank, h)
  {
    var first := Firsts(Order(ws), rank, 0, |d|);
    PendingDone(ws, first, |d|, f);
    assert ws[..|d|] == ws && first[..|d|] == first;
    hide Invariant, Layout, PassWords, Permutation;
  }

  lemma {:induction false} SinglesSorted(d: seq<Byte>, order: seq<nat>, rank: seq<Word>, start: seq<Word>, h: nat)
    requires PassState(d, order, rank, start, h) && |rank| == |d| && Permutation(order, |d|)
    requires forall t | 0 <= t < |d| :: rank[order[t]] == t
    ensures FullySorted(d, order, rank)
  {
    hide Labelled, Within, Equal, Before, Agree;
    forall a, b | 0 <= a < b < |d|
      ensures Before(d, order[a], order[b])
    {
      assert rank[order[a]] < rank[order[b]];
    }
  }

  lemma {:induction false} SettledEqual(d: seq<Byte>, order: seq<nat>, rank: seq<Word>, start: seq<Word>, h: nat)
    requires PassState(d, order, rank, start, h)
    requires Permutation(order, |rank|) && |rank| == |d| && Settled(d, order, rank, 0, |d|, 2 * h)
    ensures Invariant(d, order, rank, 2 * h)
  {
    hide Agree, Before;
    forall x: nat, y: nat | x < |d| && y < |d| && rank[x] == rank[y]
      ensures Agree(d, x, y, 2 * h)
    {
      var a := SlotOf(order, |d|, x);
      var b := SlotOf(order, |d|, y);
    }
  }

  lemma {:induction false} LoopEndTies(d: seq<Byte>, order0: seq<nat>, start: seq<Word>, ws: seq<Word>, rank: seq<Word>,
                                       h: nat, f: nat, newLimit: nat)
    requires PassLoop(d, order0, start, ws, rank, h, |d|, f, newLimit) && h >= |d|
    requires Invariant(d, order0, start, h)
    ensures Layout(ws, Firsts(Order(ws), rank, 0, |d|))
    ensures FullySorted(d, Order(ws), rank)
  {
    var order, first := Order(ws), Firsts(Order(ws), rank, 0, |d|);
    PendingDone(ws, first, |d|, f);
    assert ws[..|d|] == ws && first[..|d|] == first;
    hide PassWords, Layout, Settled, Before;
    forall a, b | 0 <= a < b < |d|
      ensures Before(d, order[a], order[b]) || Agree(d, order[a], order[b], |d|)
    {
      if start[order[a]] == start[order[b]] {
        assert Agree(d, order[a], order[b], h);
      }
    }
  }

  /** Groups only split: ranks that are equal were equal, and ranks that differed differ
      in the same way. */
  ghost predicate Refines(start: seq<Word>, rank: seq<Word>) {
    && |start| == |rank|
    && (forall x, y | 0 <= x < |rank| && 0 <= y < |rank| && rank[x] == rank[y] :: start[x] == start[y])
    && (forall x, y | 0 <= x < |rank| && 0 <= y < |rank| && start[x] < start[y] :: rank[x] < rank[y])
  }

  lemma {:induction false} WithinRefines(order: seq<nat>, rank: seq<Word>, start: seq<Word>)
    requires Permutation(order, |rank|) && Labelled(order, rank, |rank|) && |start| == |rank|
    requires Within(order, rank, start)
    ensures Refines(start, rank)
  {
    hide Permutation, Labelled;
    forall x: nat, y: nat | x < |rank| && y < |rank|
      ensures rank[x] == rank[y] ==> start[x] == start[y]
      ensures start[x] < start[y] ==> rank[x] < rank[y]
    {
      var i := SlotOf(order, |rank|, x);
      var j := SlotOf(order, |rank|, y);
      if i <= j {
        LabelAt(order, rank, j, i);
      }
    }
  }

  /** Ranks that are slots of the order refine the ranks of that order. */
  lemma {:induction false} SlotsRefine(order: seq<nat>, rank: seq<Word>, start: seq<Word>)
    requires Permutation(order, |rank|) && |start| == |rank| && Labelled(order, start, |rank|)
    requires forall t | 0 <= t < |rank| :: rank[order[t]] == t
    ensures Refines(start, rank)
  {
    hide Permutation, Labelled;
    forall x: nat, y: nat | x < |rank| && y < |rank|
      ensures rank[x] == rank[y] ==> start[x] == start[y]
      ensures start[x] < start[y] ==> rank[x] < rank[y]
    {
      var i := SlotOf(order, |rank|, x);
      var j := SlotOf(order, |rank|, y);
      if j <= i {
        LabelAt(order, start, i, j);
      }
    }
  }

  lemma {:induction false} LoopRefines(d: seq<Byte>, order0: seq<nat>, start: seq<Word>, ws: seq<Word>, rank: seq<Word>,
                                       h: nat, f: nat, newLimit: nat)
    requires PassLoop(d, order0, start, ws, rank, h, |d|, f, newLimit)
    requires h >= |d| ==> Invariant(d, order0, start, h)
    ensures Refines(start, rank)
  {
    var order := Order(ws);
    hide PassWords, Settled, Ordered, Equal, Refines;
    if h < |d| {
      WithinRefines(order, rank, start);
    } else {
      SlotsRefine(order, rank, start);
    }
  }

  /** Words and ranks before a pass, and after: either good for 2h, or sorted, and in
      either case finer than before. */
  ghost predicate PassDone(d: seq<Byte>, ws: seq<Word>, rank: seq<Word>, start: seq<Word>, h: nat, newLimit: nat)
    requires |d| > 0
  {
    && |ws| == |rank| == |d| && Refines(start, rank)
    && (exists first: seq<bool> :: |first| == |ws| && Layout(ws, first))
    && (newLimit == 0 <==> FullySorted(d, Order(ws), rank))
    && (newLimit > 0 ==> h < |d| && Ready(d, ws, rank, 2 * h))
  }

  /** One pass (BwtSort.c:540-610). */
  method Pass(n: nat, h: nat, numRefBits: nat, indices: array<Word>, temp: array<Word>, groups: array<Word>,
              ghost d: seq<Byte>)
    returns (newLimit: nat)
    requires indices != temp && groups != temp && indices != groups
    requires 0 < n == |d| == indices.Length == groups.Length
    requires RefBitsFit(n, numRefBits, temp.Length)
    requires Ready(d, indices[..], groups[..], h)
    modifies indices, temp, groups
    ensures PassDone(d, indices[..], groups[..], old(groups[..]), h, newLimit)
  {
    ghost var ws0, start := indices[..], groups[..];
    ghost var order0 := Order(ws0);
    LoopStart(d, ws0, start, h);
    assert h >= n ==> Invariant(d, order0, start, h);
    hide PassLoop, Ready, RefBitsFit, Order, Layout, PassDone;
    newLimit := 0;
    var f := 0;
    var i := 0;
    while i < n
      invariant i <= n
      invariant PassLoop(d, order0, start, indices[..], groups[..], h, i, f, newLimit)
      invariant newLimit > 0 ==> h < n
    {
      i, f, newLimit := PassAt(n, h, i, f, newLimit, numRefBits, indices, temp, groups, d, order0, start);
    }
    PassEnds(d, order0, start, indices[..], groups[..], h, f, newLimit);
  }

  lemma {:induction false} PassEnds(d: seq<Byte>, order0: seq<nat>, start: seq<Word>, ws: seq<Word>, rank: seq<Word>,
                                    h: nat, f: nat, newLimit: nat)
    requires |d| > 0 && PassLoop(d, order0, start, ws, rank, h, |d|, f, newLimit) && |ws| == |d| == |rank|
    requires newLimit > 0 ==> h < |d|
    requires h >= |d| ==> Invariant(d, order0, start, h)
    ensures PassDone(d, ws, rank, start, h, newLimit)
  {
    hide Refines;
    LoopRefines(d, order0, start, ws, rank, h, f, newLimit);
    if h < |d| {
      LoopEnd(d, order0, start, ws, rank, h, f, newLimit);
      hide PassLoop, Layout, FullySorted, Invariant;
      assert Layout(ws, Firsts(Order(ws), rank, 0, |d|));
    } else {
      LoopEndTies(d, order0, start, ws, rank, h, f, newLimit);
      hide PassLoop, Layout, FullySorted, Invariant;
    }
  }

  /** A live group once h has reached the size of the block. */
  method RankTies(n: nat, h: nat, i: nat, f: nat, newLimit: nat, size: nat, indices: array<Word>, groups: array<Word>,
                  ghost d: seq<Byte>, ghost order0: seq<nat>, ghost start: seq<Word>, ghost ws: seq<Word>)
    requires indices != groups && i < n == |d| == indices.Length == groups.Length && h >= n
    requires PassLoop(d, order0, start, ws, groups[..], h, i, f, newLimit)
    requires |ws| == n && size == SizeAt(ws[i..]) && Live(ws[i]) && Taken(ws, indices[..], i, size)
    modifies groups
    ensures i + size <= n
    ensures PassLoop(d, order0, start, indices[..], groups[..], h, i + size, 0, newLimit)
  {
    ghost var ws1, rank := indices[..], groups[..];
    LiveGroup(d, order0, start, ws, ws1, rank, h, i, f, newLimit, size);
    GroupWords(ws1, i, size);
    assert n <= INDEX by {
      LoopPending(d, order0, start, ws, rank, h, i, f, newLimit);
    }
    ghost var order := Order(ws1);
    hide PassLoop, SizeAt, Live, Taken, Order, WholeGroup;
    BreakTies(i, size, indices, groups, order);
    LoopTies(d, order0, start, ws, ws1, rank, groups[..], h, i, f, newLimit, size);
  }

  /** The pass at one block of slots. */
  method PassAt(n: nat, h: nat, i: nat, f: nat, newLimit: nat, numRefBits: nat,
                   indices: array<Word>, temp: array<Word>, groups: array<Word>,
                   ghost d: seq<Byte>, ghost order0: seq<nat>, ghost start: seq<Word>)
    returns (i': nat, f': nat, newLimit': nat)
    requires indices != temp && groups != temp && indices != groups
    requires i < n == |d| == indices.Length == groups.Length
    requires RefBitsFit(n, numRefBits, temp.Length)
    requires PassLoop(d, order0, start, indices[..], groups[..], h, i, f, newLimit)
    requires newLimit > 0 ==> h < n
    modifies indices, temp, groups
    ensures i < i' <= n
    ensures PassLoop(d, order0, start, indices[..], groups[..], h, i', f', newLimit')
    ensures newLimit' > 0 ==> h < n
  {
    hide PassLoop, RefBitsFit, Order, Layout, SizeAt, Live, Taken;
    ghost var ws, rank := indices[..], groups[..];
    ghost var first := LoopTail(d, order0, start, ws, rank, h, i, f, newLimit);
    var size, live := TakeSize(indices, i, first);
    assert groups[..] == rank;
    i' := i + size;
    if !live {
      f', newLimit' := f + size, newLimit;
      SkipFinished(n, h, i, f, newLimit, size, indices, d, order0, start, ws, rank);
    } else if h >= n {
      f', newLimit' := 0, newLimit;
      RankTies(n, h, i, f, newLimit, size, indices, groups, d, order0, start, ws);
    } else {
      var again := SortLive(n, h, i, f, newLimit, size, numRefBits, indices, temp, groups, d, order0, start, ws);
      f', newLimit' := 0, if again then i + size else newLimit;
    }
  }

  /** A live group while h is less than the block. */
  method SortLive(n: nat, h: nat, i: nat, f: nat, newLimit: nat, size: nat, numRefBits: nat,
                  indices: array<Word>, temp: array<Word>, groups: array<Word>,
                  ghost d: seq<Byte>, ghost order0: seq<nat>, ghost start: seq<Word>, ghost ws: seq<Word>)
    returns (again: bool)
    requires indices != temp && groups != temp && indices != groups
    requires i < n == |d| == indices.Length == groups.Length && h < n
    requires RefBitsFit(n, numRefBits, temp.Length)
    requires PassLoop(d, order0, start, ws, groups[..], h, i, f, newLimit)
    requires |ws| == n && size == SizeAt(ws[i..]) && Live(ws[i]) && Taken(ws, indices[..], i, size)
    modifies indices, temp, groups
    ensures i + size <= n
    ensures PassLoop(d, order0, start, indices[..], groups[..], h, i + size, 0, if again then i + size else newLimit)
  {
    ghost var ws1, rank := indices[..], groups[..];
    hide PassLoop, SizeAt, Live, Taken, Order, GroupGiven, RangeHolds, GroupSorted, RefBitsFit;
    LiveGiven(d, order0, start, ws, ws1, rank, h, i, f, newLimit, size);
    again := SortGroup(n, h, i, size, numRefBits, indices, temp, groups, 0, n, d, start);
    LoopSorted(d, order0, start, ws, ws1, indices[..], rank, groups[..], h, i, f, newLimit, size, again);
  }

  lemma {:induction false} LoopTail(d: seq<Byte>, order0: seq<nat>, start: seq<Word>, ws: seq<Word>, rank: seq<Word>,
                                    h: nat, i: nat, f: nat, newLimit: nat) returns (first: seq<bool>)
    requires PassLoop(d, order0, start, ws, rank, h, i, f, newLimit)
    ensures i <= |ws| == |d| <= INDEX && |first| == |ws| - i && Layout(ws[i..], first)
  {
    hide Layout, Encoded;
    first := Firsts(Order(ws), rank, 0, |d|)[i..];
  }

  lemma {:induction false} GroupWords(ws: seq<Word>, i: nat, m: nat)
    requires i + m <= |ws| && forall k | i <= k < i + m :: ws[k] < INDEX
    ensures forall k | i <= k < i + m :: ws[k] == Order(ws)[k]
  {
    forall k | i <= k < i + m
      ensures ws[k] == Order(ws)[k]
    {
      BwtKeys.PosOfIndex(ws[k]);
    }
  }

  /** The last loop: clears what sizes are left (BwtSort.c:613-626). */
  method ClearSizes(n: nat, indices: array<Word>, ghost first: seq<bool>)
    requires n == indices.Length == |first| && Layout(indices[..], first)
    modifies indices
    ensures forall k | 0 <= k < n :: indices[k] == Pos(old(indices[k]))
  {
    hide Layout, SizeAt, Pos;
    ghost var ws := indices[..];
    var i := 0;
    assert ws[0..] == ws && first[0..] == first;
    while i < n
      invariant i <= n && Layout(ws[i..], first[i..])
      invariant indices[i..] == ws[i..]
      invariant forall k | 0 <= k < i :: indices[k] == Pos(ws[k])
    {
      HeadBlock(ws[i..], first[i..]);
      ghost var was := indices[..];
      assert was[i..] == ws[i..];
      var size, live := TakeSize(indices, i, first[i..]);
      assert ws[i..][size..] == ws[i + size..] && first[i..][size..] == first[i + size..];
      assert forall k | i <= k < n :: was[k] == ws[i..][k - i] == ws[k];
      assert indices[i + size..] == ws[i + size..];
      i := i + size;
    }
  }
}
