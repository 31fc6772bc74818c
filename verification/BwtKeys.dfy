/** The small-group branch of SortGroup (BwtSort.c:123-215): rank and place packed
    in one word, sorted, and turned back into an order, ranks and size words. */
module BwtKeys {
  import opened Machine
  import opened Arith
  import opened Bitwise
  import opened Rotations
  import opened BwtSizes
  import Sort

  /** The words sorted for a group: the rank h bytes ahead, and the place in the group. */
  ghost predicate KeyWords(f: seq<Word>, keys: seq<Word>, bits: nat)
    requires bits > 0
  {
    && |f| == |keys| <= bits
    && forall k | 0 <= k < |f| :: f[k] == keys[k] * bits + k
  }

  function KeyOf(w: Word, bits: nat): nat
    requires bits > 0
  {
    w / bits
  }

  function PlaceOf(w: Word, bits: nat): nat
    requires bits > 0
  {
    w % bits
  }

  /** What sorting the words does: t lists all the places, once each, by rising key. */
  ghost predicate SortedKeyWords(t: seq<Word>, keys: seq<Word>, bits: nat)
    requires bits > 0
  {
    && |t| == |keys| <= bits
    && (forall k | 0 <= k < |t| :: PlaceOf(t[k], bits) < |t| && KeyOf(t[k], bits) == keys[PlaceOf(t[k], bits)])
    && (forall i, j | 0 <= i < j < |t| :: PlaceOf(t[i], bits) != PlaceOf(t[j], bits))
    && (forall i, j | 0 <= i < j < |t| :: KeyOf(t[i], bits) <= KeyOf(t[j], bits))
  }

  lemma {:induction false} KeyWordParts(f: seq<Word>, keys: seq<Word>, bits: nat, k: nat)
    requires bits > 0 && KeyWords(f, keys, bits) && k < |f|
    ensures KeyOf(f[k], bits) == keys[k] && PlaceOf(f[k], bits) == k
  {
    DivModUnique(f[k], bits, keys[k], k);
  }

  lemma {:induction false} DivMonotone(a: nat, b: nat, n: nat)
    requires n > 0 && a <= b
    ensures a / n <= b / n
  {
    var k := a / n - b / n;
    assert a == n * (a / n) + a % n && b == n * (b / n) + b % n;
    assert k * n == n * (a / n) - n * (b / n);
    if k >= 1 {
      MulAtLeast(k, n);
    }
  }

  lemma {:induction false} SortKeyWords(f: seq<Word>, t: seq<Word>, keys: seq<Word>, bits: nat)
    requires bits > 0 && KeyWords(f, keys, bits)
    requires multiset(f) == multiset(t) && Sort.Ascending(t)
    ensures SortedKeyWords(t, keys, bits)
  {
    forall i, j | 0 <= i < j < |f|
      ensures f[i] != f[j]
    {
      KeyWordParts(f, keys, bits, i);
      KeyWordParts(f, keys, bits, j);
    }
    Sort.DistinctAfterSort(f, t);
    forall k | 0 <= k < |t|
      ensures PlaceOf(t[k], bits) < |t| && KeyOf(t[k], bits) == keys[PlaceOf(t[k], bits)]
      ensures f[PlaceOf(t[k], bits)] == t[k]
    {
      var s :| 0 <= s < |f| && f[s] == t[k];
      KeyWordParts(f, keys, bits, s);
    }
    forall i, j | 0 <= i < j < |t|
      ensures KeyOf(t[i], bits) <= KeyOf(t[j], bits)
    {
      DivMonotone(t[i], t[j], bits);
    }
  }

  /** The first place of the run of equal keys that place k belongs to. */
  ghost function RunStart(t: seq<Word>, bits: nat, k: nat): (r: nat)
    requires bits > 0 && k < |t|
    ensures r <= k
    ensures KeyOf(t[r], bits) == KeyOf(t[k], bits)
    ensures r == 0 || KeyOf(t[r], bits) != KeyOf(t[r - 1], bits)
  {
    if k == 0 || KeyOf(t[k], bits) != KeyOf(t[k - 1], bits) then k else RunStart(t, bits, k - 1)
  }

  lemma {:induction false} RunStartMonotone(t: seq<Word>, bits: nat, i: nat, j: nat)
    requires bits > 0 && i <= j < |t|
    ensures RunStart(t, bits, i) <= RunStart(t, bits, j)
    ensures RunStart(t, bits, RunStart(t, bits, i)) == RunStart(t, bits, i)
    decreases j
  {
    if i < j {
      RunStartMonotone(t, bits, i, j - 1);
    }
    var r := RunStart(t, bits, i);
    assert r == 0 || KeyOf(t[r], bits) != KeyOf(t[r - 1], bits);
  }

  lemma {:induction false} KeysRise(t: seq<Word>, keys: seq<Word>, bits: nat, i: nat, j: nat)
    requires bits > 0 && i <= j < |t| && SortedKeyWords(t, keys, bits)
    ensures KeyOf(t[i], bits) <= KeyOf(t[j], bits)
  {
  }

  /** In sorted words a later run has a larger key. */
  lemma {:induction false} RunsBySortedKey(t: seq<Word>, keys: seq<Word>, bits: nat, i: nat, j: nat)
    requires bits > 0 && i < |t| && j < |t| && SortedKeyWords(t, keys, bits)
    ensures RunStart(t, bits, i) < RunStart(t, bits, j) ==> KeyOf(t[i], bits) < KeyOf(t[j], bits)
    ensures RunStart(t, bits, i) == RunStart(t, bits, j) ==> KeyOf(t[i], bits) == KeyOf(t[j], bits)
  {
    hide KeyOf, PlaceOf, SortedKeyWords, RunStart;
    var a, b := RunStart(t, bits, i), RunStart(t, bits, j);
    if a < b {
      KeysRise(t, keys, bits, a, b - 1);
      KeysRise(t, keys, bits, b - 1, b);
    }
  }

  /** The keys of some members: their ranks h bytes ahead. */
  ghost predicate KeyedBy(src: seq<Word>, rank: seq<Word>, h: nat, keys: seq<Word>) {
    && h < |rank| && |keys| == |src|
    && forall k | 0 <= k < |src| :: src[k] < |rank| && keys[k] == rank[Ahead(|rank|, src[k], h)]
  }

  lemma {:induction false} KeyedAt(src: seq<Word>, rank: seq<Word>, h: nat, keys: seq<Word>, k: nat)
    requires KeyedBy(src, rank, h, keys) && k < |src|
    ensures h < |rank| && |keys| == |src|
    ensures src[k] < |rank| && keys[k] == rank[Ahead(|rank|, src[k], h)]
  {
  }

  /** The rank h bytes ahead of a position. */
  method RankAhead(n: nat, h: nat, p: Word, groups: array<Word>) returns (r: Word)
    requires p < n == groups.Length && h < n
    ensures r == groups[Ahead(n, p, h)]
  {
    var sp := p + h;
    if sp >= n {
      sp := sp - n;
    }
    r := groups[sp];
  }

  /** Fills the temporary words with the keys of a group (BwtSort.c:129-161). */
  method FillKeys(n: nat, h: nat, off: nat, m: nat, bits: nat,
                  indices: array<Word>, temp: array<Word>, groups: array<Word>, ghost keys: seq<Word>)
    returns (differ: bool)
    requires h < n && n == indices.Length == groups.Length && n * bits <= 0x1_0000_0000
    requires 1 <= m <= bits && off + m <= n && m <= temp.Length
    requires indices != temp && groups != temp
    requires forall k | 0 <= k < n :: groups[k] < n
    requires KeyedBy(indices[off..off + m], groups[..], h, keys)
    modifies temp
    ensures KeyWords(temp[..m], keys, bits)
    ensures differ <==> exists k | 0 <= k < m :: keys[k] != keys[0]
  {
    hide KeyedBy, Or, Xor;
    ghost var src := indices[off..off + m];
    KeyedAt(src, groups[..], h, keys, 0);
    var gPrev := RankAhead(n, h, indices[off], groups);
    KeyWordFits(gPrev, 0, n, bits);
    temp[0] := gPrev * bits;
    var gRes := 0;
    for j := 1 to m
      invariant KeyedBy(src, groups[..], h, keys) && src == indices[off..off + m]
      invariant forall k | 0 <= k < n :: groups[k] < n
      invariant forall k | 0 <= k < j :: temp[k] == keys[k] * bits + k
      invariant gRes != 0 <==> exists k | 0 <= k < j :: keys[k] != keys[0]
    {
      KeyedAt(src, groups[..], h, keys, j);
      var g := RankAhead(n, h, indices[off + j], groups);
      assert g == keys[j];
      KeyWordFits(g, j, n, bits);
      temp[j] := g * bits + j;
      XorIsZero(gPrev, g);
      OrIsZero(gRes, Xor(gPrev, g));
      gRes := Or(gRes, Xor(gPrev, g));
    }
    differ := gRes != 0;
  }

  lemma {:induction false} KeyWordFits(g: nat, j: nat, n: nat, bits: nat)
    requires g < n && j < bits && n * bits <= 0x1_0000_0000
    ensures 0 <= g * bits && g * bits + j < 0x1_0000_0000
  {
    assert n * bits == (n - 1 - g) * bits + g * bits + bits;
    MulNonNegative(n - 1 - g, bits);
    MulNonNegative(g, bits);
  }

  ghost function RunFirsts(t: seq<Word>, bits: nat): (r: seq<bool>)
    requires bits > 0
    ensures |r| == |t|
    ensures forall k | 0 <= k < |t| :: r[k] <==> RunStart(t, bits, k) == k
  {
    seq(|t|, k requires 0 <= k < |t| => RunStart(t, bits, k) == k)
  }

  /** The temporary words while a group is relabelled: [0, prev) closed blocks,
      [prev, j) the open run, then the sorted key words still to come. */
  ghost predicate TempState(ws: seq<Word>, t: seq<Word>, moved: seq<Word>, first: seq<bool>, prev: nat, j: nat) {
    && |ws| == |t| == |moved| == |first| && prev <= j <= |ws|
    && (forall k | j <= k < |ws| :: ws[k] == t[k])
    && (forall k | 0 <= k < j :: Pos(ws[k]) == moved[k])
    && (forall k | prev <= k < j :: ws[k] < INDEX)
    && (prev < j ==> first[prev])
    && (forall k | prev < k < j :: !first[k])
    && Layout(ws[..prev], first[..prev])
  }

  lemma {:induction false} TempPut(ws: seq<Word>, t: seq<Word>, moved: seq<Word>, first: seq<bool>, prev: nat, j: nat)
    requires TempState(ws, t, moved, first, prev, j) && j < |ws| && moved[j] < INDEX
    requires first[j] <==> prev == j
    ensures TempState(ws[j := moved[j]], t, moved, first, prev, j + 1)
  {
    hide Layout;
    assert ws[j := moved[j]][..prev] == ws[..prev];
  }

  lemma {:induction false} TempClosed(ws: seq<Word>, ws': seq<Word>, t: seq<Word>, moved: seq<Word>,
                                      first: seq<bool>, prev: nat, j: nat)
    requires TempState(ws, t, moved, first, prev, j) && prev < j
    requires |ws'| == |ws|
    requires forall k | 0 <= k < |ws| && !(prev <= k < j) :: ws'[k] == ws[k]
    requires forall k | prev <= k < j :: Pos(ws'[k]) == ws[k]
    requires Encoded(ws'[prev..j]) && (Live(ws'[prev]) <==> j - prev > 1)
    ensures TempState(ws', t, moved, first, j, j)
  {
    hide Layout, Encoded, Live;
    assert ws'[..prev] == ws[..prev];
    forall k | prev <= k < j
      ensures Pos(ws'[k]) == moved[k]
    {
      PosOfIndex(ws[k]);
    }
    assert ws'[..j][prev..] == ws'[prev..j];
    assert ws'[..j][..prev] == ws[..prev] && first[..j][..prev] == first[..prev];
    ExtendLayout(ws'[..j], prev, first[..j]);
  }

  lemma {:induction false} ExtendLayout(ws: seq<Word>, prev: nat, first: seq<bool>)
    requires prev < |ws| == |first|
    requires Layout(ws[..prev], first[..prev])
    requires Encoded(ws[prev..]) && (Live(ws[prev]) <==> |ws| - prev > 1)
    requires first[prev] && forall k | prev < k < |ws| :: !first[k]
    ensures Layout(ws, first)
  {
    hide Layout, Encoded;
    assert Block(ws[prev..], first[prev..]);
    BlockIsLayout(ws[prev..], first[prev..]);
    LayoutAppend(ws[..prev], first[..prev], ws[prev..], first[prev..]);
    assert ws == ws[..prev] + ws[prev..] && first == first[..prev] + first[prev..];
  }

  lemma {:induction false} PosOfIndex(w: Word)
    requires w < INDEX
    ensures Pos(w) == w
  {
  }

  ghost predicate Distinct(s: seq<int>) {
    forall i, k | 0 <= i < k < |s| :: s[i] != s[k]
  }

  /** The ranks while a group is relabelled: the first j members have theirs. */
  ghost predicate RankState(g: seq<Word>, was: seq<Word>, t: seq<Word>, moved: seq<Word>, bits: nat, off: nat, j: nat)
    requires bits > 0
  {
    && |g| == |was| && |t| == |moved| && j <= |t|
    && (forall k | 0 <= k < |moved| :: moved[k] < |g|)
    && (forall k | 0 <= k < j :: g[moved[k]] == off + RunStart(t, bits, k))
    && (forall k | j <= k < |moved| :: g[moved[k]] == off)
    && (forall x | 0 <= x < |g| && x !in moved :: g[x] == was[x])
  }

  lemma {:induction false} RankPut(g: seq<Word>, was: seq<Word>, t: seq<Word>, moved: seq<Word>, bits: nat,
                                   off: nat, j: nat, group: Word)
    requires bits > 0 && RankState(g, was, t, moved, bits, off, j) && j < |t|
    requires Distinct(moved)
    requires group == off + RunStart(t, bits, j)
    ensures RankState(g[moved[j] := group], was, t, moved, bits, off, j + 1)
  {
    hide RunStart;
  }

  lemma {:induction false} RunStep(t: seq<Word>, bits: nat, j: nat)
    requires bits > 0 && 1 <= j < |t|
    ensures RunStart(t, bits, 0) == 0
    ensures RunStart(t, bits, j) == if KeyOf(t[j], bits) != KeyOf(t[j - 1], bits) then j else RunStart(t, bits, j - 1)
  {
  }

  /** One of the first j places shares its group with an earlier one. */
  ghost predicate SomeShared(t: seq<Word>, bits: nat, j: nat)
    requires bits > 0 && j <= |t|
  {
    exists k | 0 <= k < j :: RunStart(t, bits, k) != k
  }

  lemma {:induction false} SharedStep(t: seq<Word>, bits: nat, j: nat)
    requires bits > 0 && 1 <= j < |t|
    ensures !SomeShared(t, bits, 1)
    ensures SomeShared(t, bits, j + 1) <==> SomeShared(t, bits, j) || RunStart(t, bits, j) != j
  {
    hide RunStart;
    RunStep(t, bits, j);
  }

  /** The members of the group in their new order. */
  ghost predicate Members(src: seq<Word>, t: seq<Word>, moved: seq<Word>, bits: nat)
    requires bits > 0
  {
    && |src| == |t| == |moved|
    && Distinct(moved)
    && forall k | 0 <= k < |t| :: PlaceOf(t[k], bits) < |t| && moved[k] == src[PlaceOf(t[k], bits)]
  }

  lemma {:induction false} MemberAt(src: seq<Word>, t: seq<Word>, moved: seq<Word>, bits: nat, k: nat)
    requires bits > 0 && Members(src, t, moved, bits) && k < |t|
    ensures |src| == |t| == |moved| && Distinct(moved)
    ensures PlaceOf(t[k], bits) < |t| && moved[k] == src[PlaceOf(t[k], bits)]
  {
  }

  /** Turns sorted key words into the rearranged group, its new ranks and its
      size words (BwtSort.c:164-210). */
  method Relabel(off: nat, m: nat, bits: nat, indices: array<Word>, temp: array<Word>, groups: array<Word>,
                 ghost t: seq<Word>, ghost moved: seq<Word>)
    returns (thereAreGroups: bool)
    requires bits > 0 && 2 <= m == |t| && m <= temp.Length && temp[..m] == t
    requires indices != temp && groups != temp && indices != groups
    requires off + m <= indices.Length == groups.Length <= INDEX
    requires Members(indices[off..off + m], t, moved, bits)
    requires RankState(groups[..], groups[..], t, moved, bits, off, 0)
    modifies temp, groups
    ensures TempState(temp[..m], t, moved, RunFirsts(t, bits), m, m)
    ensures RankState(groups[..], old(groups[..]), t, moved, bits, off, m)
    ensures thereAreGroups <==> SomeShared(t, bits, m)
  {
    hide Layout, RunStart, KeyOf, PlaceOf, Pos, TempState, RankState, SomeShared, Members, Distinct;
    ghost var src := indices[off..off + m];
    RunStep(t, bits, 1);
    SharedStep(t, bits, 1);
    MemberAt(src, t, moved, bits, 0);
    thereAreGroups := false;
    var group: Word := off;
    var cg := KeyOf(temp[0], bits);
    RelabelStart(groups[..], t, moved, bits, off);
    temp[0] := indices[off + PlaceOf(temp[0], bits)];
    assert temp[..m] == t[0 := moved[0]];
    var prev := 0;
    for j := 1 to m
      invariant prev == RunStart(t, bits, j - 1) && group == off + prev && cg == KeyOf(t[j - 1], bits)
      invariant indices[off..off + m] == src
      invariant TempState(temp[..m], t, moved, RunFirsts(t, bits), prev, j)
      invariant RankState(groups[..], old(groups[..]), t, moved, bits, off, j)
      invariant thereAreGroups <==> SomeShared(t, bits, j)
    {
      RunStep(t, bits, j);
      SharedStep(t, bits, j);
      MemberAt(src, t, moved, bits, j);
      TempNext(temp[..m], t, moved, RunFirsts(t, bits), prev, j);
      var val := temp[j];
      var cgCur := KeyOf(val, bits);
      if cgCur != cg {
        cg := cgCur;
        group := off + j;
        CloseRun(temp, m, prev, j, t, moved, RunFirsts(t, bits));
        prev := j;
      } else {
        thereAreGroups := true;
      }
      var ind := indices[off + PlaceOf(val, bits)];
      PutMember(temp, groups, m, prev, j, bits, off, ind, group, old(groups[..]), t, moved);
    }
    CloseRun(temp, m, prev, m, t, moved, RunFirsts(t, bits));
  }

  /** Stores one member of the group and its rank. */
  method PutMember(temp: array<Word>, groups: array<Word>, m: nat, prev: nat, j: nat, bits: nat, off: nat,
                   ind: Word, group: Word, ghost was: seq<Word>, ghost t: seq<Word>, ghost moved: seq<Word>)
    requires groups != temp && j < m == |t| == |moved| && m <= temp.Length && bits > 0
    requires TempState(temp[..m], t, moved, RunFirsts(t, bits), prev, j)
    requires RankState(groups[..], was, t, moved, bits, off, j)
    requires groups.Length <= INDEX && ind == moved[j]
    requires group == off + RunStart(t, bits, j) && (prev == j <==> RunStart(t, bits, j) == j)
    requires Distinct(moved)
    modifies temp, groups
    ensures TempState(temp[..m], t, moved, RunFirsts(t, bits), prev, j + 1)
    ensures RankState(groups[..], was, t, moved, bits, off, j + 1)
  {
    assert ind < groups.Length;
    hide RunStart, TempState, RankState, Distinct;
    TempPut(temp[..m], t, moved, RunFirsts(t, bits), prev, j);
    RankPut(groups[..], was, t, moved, bits, off, j, group);
    temp[j] := ind;
    groups[ind] := group;
    assert temp[..m] == old(temp[..m])[j := moved[j]];
    assert groups[..] == old(groups[..])[moved[j] := group];
  }

  lemma {:induction false} TempNext(ws: seq<Word>, t: seq<Word>, moved: seq<Word>, first: seq<bool>, prev: nat, j: nat)
    requires TempState(ws, t, moved, first, prev, j) && j < |ws|
    ensures |t| == |ws| && ws[j] == t[j]
  {
  }

  lemma {:induction false} RelabelStart(was: seq<Word>, t: seq<Word>, moved: seq<Word>, bits: nat, off: nat)
    requires bits > 0 && 1 <= |t| && |was| <= INDEX
    requires RankState(was, was, t, moved, bits, off, 0)
    ensures |moved| == |t| && TempState(t[0 := moved[0]], t, moved, RunFirsts(t, bits), 0, 1)
    ensures RankState(was, was, t, moved, bits, off, 1)
  {
    assert RunStart(t, bits, 0) == 0;
    PosOfIndex(moved[0]);
  }

  /** Writes the size of the open run at its head. */
  method CloseRun(temp: array<Word>, m: nat, prev: nat, j: nat,
                  ghost t: seq<Word>, ghost moved: seq<Word>, ghost first: seq<bool>)
    requires m <= temp.Length && prev < j <= m <= INDEX
    requires TempState(temp[..m], t, moved, first, prev, j)
    modifies temp
    ensures TempState(temp[..m], t, moved, first, j, j)
  {
    ghost var ws := temp[..m];
    assert forall k | prev <= k < j :: temp[k] == ws[k];
    hide Layout, Encoded, Pos;
    SetGroupSize(temp, prev, j - prev);
    hide TempState;
    assert temp[..m][prev..j] == temp[prev..prev + (j - prev)];
    TempClosed(ws, temp[..m], t, moved, first, prev, j);
  }
}
