/** Group sizes kept in the spare high bits of the index words (BwtSort.c:68-90):
    20 bits of position, 10 bits of size, a "big" bit that sends the rest of the
    size to the next word, and a "live" bit for groups that are not yet sorted. */
module BwtSizes {
  import opened Arith
  import opened Bitwise
  import opened Machine

  const INDEX: nat := 0x10_0000       // 1 << kNumBitsMax
  const LOW_SIZE: nat := 0x400        // 1 << kNumExtra0Bits
  const BIG: nat := 0x4000_0000
  const LIVE: nat := 0x8000_0000

  function Pos(w: Word): (r: nat)
    ensures r < INDEX
  {
    w % INDEX
  }

  function High(w: Word): nat { w / INDEX }

  predicate Big(w: Word) { High(w) / LOW_SIZE % 2 == 1 }

  predicate Live(w: Word) { w >= LIVE }

  // ---------- masks and shifts ----------

  /** w & kIndexMask is the position. */
  lemma {:induction false} MaskedPos(w: Word)
    ensures And(w, INDEX - 1) == Pos(w)
  {
    WordPowers();
    hide And, Pow2;
    AndLow(w, 20);
  }

  /** (w & ~0xC0000000) >> kNumBitsMax is the low part of the size. */
  lemma {:induction false} MaskedSize(w: Word)
    ensures Shr(And(w, BIG - 1), 20) == High(w) % LOW_SIZE
  {
    WordPowers();
    hide And, Pow2;
    AndLow(w, 30);
    LowSize(w, w / BIG, w % BIG / INDEX, w % INDEX);
  }

  lemma {:induction false} LowSize(w: nat, a: nat, b: nat, c: nat)
    requires w == a * BIG + b * INDEX + c && b < LOW_SIZE && c < INDEX
    ensures w % BIG / INDEX == w / INDEX % LOW_SIZE
  {
    assert w % BIG == b * INDEX + c;
    assert w / INDEX == a * LOW_SIZE + b;
  }

  /** w & 0x40000000 is the big bit, w & 0x80000000 the live bit. */
  lemma {:induction false} MaskedFlags(w: Word)
    ensures And(w, BIG) != 0 <==> Big(w)
    ensures And(w, LIVE) != 0 <==> Live(w)
  {
    WordPowers();
    hide And, Pow2;
    AndBit(w, 30);
    AndBit(w, 31);
  }

  /** (w >> kNumBitsMax) << kNumExtra0Bits is the high part. */
  lemma {:induction false} HighSize(w: Word)
    ensures Shl(Shr(w, 20), 10) == High(w) * LOW_SIZE
  {
    WordPowers();
  }

  /** The low part of a size is put above a bare position. */
  lemma {:induction false} OrSize(w: Word, s: nat)
    requires w < INDEX
    ensures Or(w, Shl(And(s, LOW_SIZE - 1), 20)) == w + s % LOW_SIZE * INDEX
  {
    WordPowers();
    hide And, Or, Pow2;
    AndLow(s, 10);
    OrAbove(w, s % LOW_SIZE, 20);
  }

  /** The live bit, with the low part of a size. */
  lemma {:induction false} OrLive(w: Word, s: nat)
    requires w < INDEX
    ensures Or(w, Or(LIVE, Shl(And(s, LOW_SIZE - 1), 20))) == w + LIVE + s % LOW_SIZE * INDEX
  {
    WordPowers();
    hide And, Or, Pow2;
    AndLow(s, 10);
    LiveSize(s % LOW_SIZE);
    OrAbove(w, 2 * LOW_SIZE + s % LOW_SIZE, 20);
  }

  lemma {:induction false} LiveSize(t: nat)
    requires t < LOW_SIZE
    ensures Or(LIVE, Shl(t, 20)) == LIVE + t * INDEX == Shl(2 * LOW_SIZE + t, 20)
  {
    WordPowers();
    hide And, Or, Pow2;
    AndCommutes(LIVE, Shl(t, 20));
    AndBit(Shl(t, 20), 31);
    OrDisjoint(LIVE, Shl(t, 20));
  }

  /** The big bit is clear until it is set. */
  lemma {:induction false} OrBig(w: Word, pos: nat, t: nat, live: bool)
    requires pos < INDEX && t < LOW_SIZE && w == pos + t * INDEX + (if live then LIVE else 0)
    ensures Or(w, BIG) == w + BIG
  {
    WordPowers();
    hide And, Or, Pow2;
    OrBit(w, 30);
  }

  /** The high part of a size is put above a bare position. */
  lemma {:induction false} OrHighSize(w: Word, s: nat)
    requires w < INDEX
    ensures Or(w, Shl(Shr(s, 10), 20)) == w + s / LOW_SIZE * INDEX
  {
    WordPowers();
    hide And, Or, Pow2;
    OrAbove(w, s / LOW_SIZE, 20);
  }

  /** The size stored at the head of ws, as BlockSort reads it back. */
  function SizeAt(ws: seq<Word>): (r: nat)
    requires |ws| > 0
    ensures r >= 1
  {
    High(ws[0]) % LOW_SIZE + (if Big(ws[0]) && |ws| > 1 then High(ws[1]) * LOW_SIZE else 0) + 1
  }

  /** ws carries its own length at its head and nothing anywhere else. */
  ghost predicate Encoded(ws: seq<Word>) {
    && |ws| > 0
    && SizeAt(ws) == |ws|
    && (Big(ws[0]) ==> |ws| > 1)
    && (forall k | 0 <= k < |ws| && k > 0 && !(k == 1 && Big(ws[0])) :: ws[k] < INDEX)
  }

  /** One block of the layout. `first` says of each slot whether it is the first
      of its group: a live block is one group, any other only has groups of one. */
  ghost predicate Block(ws: seq<Word>, first: seq<bool>)
    requires |ws| == |first|
  {
    && Encoded(ws)
    && (Live(ws[0]) ==> |ws| > 1 && first[0] && forall k | 1 <= k < |ws| :: !first[k])
    && (!Live(ws[0]) ==> forall k | 0 <= k < |ws| :: first[k])
  }

  /** The words are a row of blocks. */
  ghost predicate Layout(ws: seq<Word>, first: seq<bool>)
    requires |ws| == |first|
  {
    ws != [] ==>
      && SizeAt(ws) <= |ws|
      && Block(ws[..SizeAt(ws)], first[..SizeAt(ws)])
      && Layout(ws[SizeAt(ws)..], first[SizeAt(ws)..])
  }

  lemma {:induction false} BlockIsLayout(ws: seq<Word>, first: seq<bool>)
    requires |ws| == |first| && Block(ws, first)
    ensures Layout(ws, first)
  {
    assert ws[..|ws|] == ws && first[..|ws|] == first;
  }

  lemma {:induction false} LayoutAppend(ws: seq<Word>, first: seq<bool>, ws': seq<Word>, first': seq<bool>)
    requires |ws| == |first| && |ws'| == |first'|
    requires Layout(ws, first) && Layout(ws', first')
    ensures Layout(ws + ws', first + first')
  {
    if ws == [] {
      assert ws + ws' == ws' && first + first' == first';
    } else {
      hide Block, SizeAt, Layout;
      var k := FirstBlock(ws, first);
      LayoutAppend(ws[k..], first[k..], ws', first');
      LayoutCons(ws[..k], first[..k], ws[k..] + ws', first[k..] + first');
      CutAppend(ws, ws', k);
      CutAppend(first, first', k);
    }
  }

  lemma {:induction false} FirstBlock(ws: seq<Word>, first: seq<bool>) returns (k: nat)
    requires |ws| == |first| && ws != [] && Layout(ws, first)
    ensures 1 <= k <= |ws| && Block(ws[..k], first[..k]) && Layout(ws[k..], first[k..])
  {
    hide Block;
    k := SizeAt(ws);
  }

  lemma {:induction false} CutAppend<T>(s: seq<T>, t: seq<T>, k: nat)
    requires k <= |s|
    ensures s + t == s[..k] + (s[k..] + t)
  {
  }

  lemma {:induction false} LayoutCons(ws: seq<Word>, first: seq<bool>, ws': seq<Word>, first': seq<bool>)
    requires |ws| == |first| && |ws'| == |first'|
    requires Block(ws, first) && Layout(ws', first')
    ensures Layout(ws + ws', first + first')
  {
    var k := |ws|;
    assert SizeAt(ws + ws') == k;
    assert (ws + ws')[..k] == ws && (first + first')[..k] == first;
    assert (ws + ws')[k..] == ws' && (first + first')[k..] == first';
  }

  /** A word made of a position and twelve high bits. */
  lemma {:induction false} TaggedWord(w: Word, pos: nat, size: nat, big: bool, live: bool)
    requires pos < INDEX && size < LOW_SIZE
    requires w == pos + size * INDEX + (if big then BIG else 0) + (if live then LIVE else 0)
    ensures Pos(w) == pos && High(w) % LOW_SIZE == size && Big(w) == big && Live(w) == live
  {
    var tag := size + (if big then LOW_SIZE else 0) + (if live then 2 * LOW_SIZE else 0);
    assert w == pos + tag * INDEX;
    assert High(w) == tag;
  }

  /** A size in two pieces is read back whole. */
  lemma {:induction false} EncodedSize(ws: seq<Word>, pos: seq<Word>, live: bool)
    requires |ws| == |pos| && 1 <= |ws| <= INDEX
    requires forall k | 0 <= k < |pos| :: pos[k] < INDEX
    requires ws[0] == pos[0] + (|ws| - 1) % LOW_SIZE * INDEX + (if |ws| > LOW_SIZE then BIG else 0)
                      + (if live then LIVE else 0)
    requires |ws| > 1 ==> ws[1] == pos[1] + (if |ws| > LOW_SIZE then (|ws| - 1) / LOW_SIZE * INDEX else 0)
    requires forall k | 2 <= k < |ws| :: ws[k] == pos[k]
    ensures Encoded(ws) && (Live(ws[0]) <==> live)
    ensures forall k | 0 <= k < |ws| :: Pos(ws[k]) == pos[k]
  {
    TaggedWord(ws[0], pos[0], (|ws| - 1) % LOW_SIZE, |ws| > LOW_SIZE, live);
    if |ws| > LOW_SIZE {
      TaggedWord(ws[1], pos[1], (|ws| - 1) / LOW_SIZE, false, false);
      assert High(ws[1]) == (|ws| - 1) / LOW_SIZE;
    }
  }

  /** SetGroupSize (BwtSort.c:80-90). */
  method SetGroupSize(a: array<Word>, p: nat, size: nat)
    requires 1 <= size <= INDEX && p + size <= a.Length
    requires forall k | p <= k < p + size :: a[k] < INDEX
    modifies a
    ensures forall k | 0 <= k < a.Length && !(p <= k < p + size) :: a[k] == old(a[k])
    ensures forall k | p <= k < p + size :: Pos(a[k]) == old(a[k])
    ensures Encoded(a[p..p + size]) && (Live(a[p]) <==> size > 1)
  {
    hide And, Or, Shl, Shr, Encoded, Pos, Live;
    ghost var pos := a[p..p + size];
    var s := size - 1;
    if s != 0 {
      OrLive(a[p], s);
      a[p] := Or(a[p], Or(LIVE, Shl(And(s, LOW_SIZE - 1), 20)));
      if s >= LOW_SIZE {
        OrBig(a[p], pos[0], s % LOW_SIZE, true);
        a[p] := Or(a[p], BIG);
        OrHighSize(a[p + 1], s);
        a[p + 1] := Or(a[p + 1], Shl(Shr(s, 10), 20));
      }
    }
    EncodedSize(a[p..p + size], pos, s != 0);
    assert forall k | p <= k < p + size :: a[k] == a[p..p + size][k - p];
  }

  /** SetFinishedGroupSize (BwtSort.c:74-78). */
  method SetFinishedGroupSize(a: array<Word>, p: nat, size: nat)
    requires 1 <= size <= INDEX && p + size <= a.Length
    requires forall k | p <= k < p + size :: a[k] < INDEX
    modifies a
    ensures forall k | 0 <= k < a.Length && !(p <= k < p + size) :: a[k] == old(a[k])
    ensures forall k | p <= k < p + size :: Pos(a[k]) == old(a[k])
    ensures Encoded(a[p..p + size]) && !Live(a[p])
  {
    hide And, Or, Shl, Shr, Encoded, Pos, Live;
    ghost var pos := a[p..p + size];
    OrSize(a[p], size - 1);
    a[p] := Or(a[p], Shl(And(size - 1, LOW_SIZE - 1), 20));
    if size > LOW_SIZE {
      OrBig(a[p], pos[0], (size - 1) % LOW_SIZE, false);
      a[p] := Or(a[p], BIG);
      OrHighSize(a[p + 1], size - 1);
      a[p + 1] := Or(a[p + 1], Shl(Shr(size - 1, 10), 20));
    }
    EncodedSize(a[p..p + size], pos, false);
    assert forall k | p <= k < p + size :: a[k] == a[p..p + size][k - p];
  }
}
