/** The range coder of BCJ2 as it runs (Bcj2Enc.c, Bcj2.c): the encoder may run out of room in the
    middle of a carry, and the decoder out of bytes, and both go on later. */
module RangeCoder {
  import Arith
  import opened Machine
  import opened RangeNumber

  const PROBS: nat := 258
  const HALF: nat := 0x400

  function Shifts(e: Enc, k: nat): Enc
    decreases k
  {
    if k == 0 then e else Shifts(Shift(e), k - 1)
  }

  lemma {:induction false} FiveShifts(e: Enc)
    ensures Shifts(e, 5).out == Flushed(e)
  {
    hide Shift;
    var e1 := Shift(e);
    var e2 := Shift(e1);
    var e3 := Shift(e2);
    assert Shifts(e, 5) == Shifts(e1, 4) == Shifts(e2, 3) == Shifts(e3, 2);
    assert Shifts(e3, 2) == Shifts(Shift(e3), 1) == Shifts(Shift(Shift(e3)), 0);
  }

  lemma {:induction false} FillFront(b: Byte, k: nat)
    requires k > 0
    ensures Fill(b, k) == [b] + Fill(b, k - 1)
  {
    if k > 1 {
      FillFront(b, k - 1);
      assert [b] + Fill(b, k - 2) + [b] == [b] + (Fill(b, k - 2) + [b]);
    }
  }

  /** Writing one byte leaves what is to be written in all. */
  lemma {:induction false} SettledNext(e: Enc)
    requires e.cacheSize >= 1
    ensures (var b: Byte := (e.cache + e.low / WORD) % 0x100;
      if e.cacheSize == 1 then Settled(e) == e.out + [b]
      else Settled(Enc(e.low, e.range, 0xFF, e.cacheSize - 1, e.out + [b])) == Settled(e))
  {
    var b: Byte, c: Byte := (e.cache + e.low / WORD) % 0x100, (0xFF + e.low / WORD) % 0x100;
    if e.cacheSize > 1 {
      FillFront(c, e.cacheSize - 1);
      assert e.out + [b] + ([c] + Fill(c, e.cacheSize - 2)) == (e.out + [b]) + [c] + Fill(c, e.cacheSize - 2);
    } else {
      assert e.out + [b] + [] == e.out + [b];
    }
  }

  lemma {:induction false} CodedNormal(e: Enc, p: nat, bit: bool)
    requires e.range >= 0x1_0000
    ensures Coded(Normal(e), p, bit) == Coded(e, p, bit)
  {
    hide Shift, Bound;
  }

  lemma {:induction false} BoundIs(range: nat, p: nat)
    ensures Bound(range, p) == range / 0x800 * p
  {
  }

  lemma {:induction false} LearnedProbs(ps: seq<nat>, ctx: nat)
    requires Probs(ps) && ctx < |ps|
    ensures Prob(ps[ctx])
    ensures Probs(ps[ctx := ps[ctx] + (0x800 - ps[ctx]) / 0x20]) && Probs(ps[ctx := ps[ctx] - ps[ctx] / 0x20])
  {
    assert Prob(ps[ctx]);
  }

  /** A 1 takes away the 32nd part of the probability of a 0, and a 0 that of a 1. */
  ghost predicate DoubtFalls(p: int, p': int, bit: bool) {
    p' == if bit then p - p / 32 else 2048 - ((2048 - p) - (2048 - p) / 32)
  }

  /** A 0 leaves p parts in 2048 of the range, and a 1 the rest. */
  ghost predicate Narrows(range: int, p: int, range': int, bit: bool) {
    var part := range / 2048 * p;
    range' == if bit then range - part else part
  }

  /** The range that a decision finds: 24 bits or more. */
  ghost function Wide(range: int): int { if range < 0x100_0000 then 0x100 * range else range }

  /** The fields of CBcj2Enc that make up the coder; buf is what is written, room where it must stop. */
  class RangeEncoder {
    var low: nat
    var range: nat
    var cache: Byte
    var cacheSize: nat
    var flushRem: nat
    const probs: array<nat>
    var buf: seq<Byte>
    var room: nat

    ghost function Snap(): Enc
      reads this
    {
      Enc(low, range, cache, cacheSize, buf)
    }

    /** What holds also in the middle of a carry. */
    ghost predicate Valid()
      reads this, probs
    {
      && low + range <= 2 * WORD && 0x1_0000 <= range < WORD && cacheSize >= 1
      && probs.Length == PROBS && Probs(probs[..])
    }

    /** Bcj2Enc_Init (Bcj2Enc.c:22-42). */
    constructor ()
      ensures Valid() && fresh(probs) && Snap() == FirstEnc() && flushRem == 5 && probs.Length == 258
      ensures forall i | 0 <= i < 258 :: probs[i] == 1024
    {
      flushRem, cache, range, low, cacheSize := 5, 0, 0xFFFF_FFFF, 0, 1;
      buf, room := [], 0;
      probs := new nat[PROBS](_ => HALF);
    }

    /** The bytes known so far, with the carry (Bcj2Enc.c:64-76), as far as there is room. */
    method WriteKnown(high: nat) returns (stopped: bool)
      requires high == low / WORD && cacheSize >= 1 && |buf| <= room
      modifies this`cache, this`cacheSize, this`buf
      ensures old(buf) <= buf && |buf| <= room && |buf| + cacheSize == old(|buf| + cacheSize)
      ensures if stopped then cacheSize >= 1 && |buf| == room && Settled(Snap()) == Settled(old(Snap()))
              else cacheSize == 0 && buf == Settled(old(Snap()))
    {
      hide Settled;
      ghost var e := Snap();
      while cacheSize != 0
        invariant low == e.low && range == e.range && e.out <= buf && |buf| <= room
        invariant if cacheSize == 0 then buf == Settled(e) else Settled(Snap()) == Settled(e)
        invariant |buf| + cacheSize == |e.out| + e.cacheSize
        decreases cacheSize
      {
        if |buf| == room {
          return true;
        }
        SettledNext(Snap());
        buf := buf + [(cache + high) % 0x100];
        cache := 0xFF;
        cacheSize := cacheSize - 1;
      }
      return false;
    }

    /** Bcj2_RangeEnc_ShiftLow (Bcj2Enc.c:46-80). stopped: there was no room; the next call goes on
        where this one stopped. */
    method ShiftLow() returns (stopped: bool)
      requires low < 2 * WORD && cacheSize >= 1 && |buf| <= room
      modifies this`low, this`cache, this`cacheSize, this`buf
      ensures !stopped ==> Snap() == Shift(old(Snap()))
      ensures stopped ==> Shift(Snap()) == Shift(old(Snap())) && |buf| == room && low == old(low)
      ensures stopped ==> |buf| + cacheSize == old(|buf| + cacheSize)
      ensures old(buf) <= buf && |buf| <= room && low < 2 * WORD && cacheSize >= 1
    {
      hide Settled;
      ghost var e := Snap();
      var high, low32 := low / WORD, low % WORD;
      if low32 < 0xFF00_0000 || high != 0 {
        stopped := WriteKnown(high);
        if stopped {
          return;
        }
        cache := low32 / TOP;
      }
      cacheSize := cacheSize + 1;
      low := low32 % TOP * 0x100;
      stopped := false;
    }

    /** A decision with an adaptive probability (Bcj2Enc.c:183-192, 310-331). stopped: there was no
        room, nothing is decided, and the same call goes on later. */
    method Encode(ctx: nat, bit: bool) returns (stopped: bool)
      requires Valid() && ctx < PROBS && |buf| <= room
      modifies this`low, this`range, this`cache, this`cacheSize, this`buf, probs
      ensures Valid() && old(buf) <= buf && |buf| <= room
      ensures !stopped ==> Snap() == Coded(old(Snap()), old(probs[ctx]), bit)
      ensures !stopped ==> probs[..] == Learned(old(probs[..]), Choice(ctx, bit))
      ensures !stopped ==>
                DoubtFalls(old(probs[ctx]), probs[ctx], bit) && Narrows(Wide(old(range)), old(probs[ctx]), range, bit)
      ensures forall i | 0 <= i < PROBS && i != ctx :: probs[i] == old(probs[i])
      ensures stopped ==> Normal(Snap()) == Normal(old(Snap())) && probs[..] == old(probs[..]) && |buf| == room
      ensures stopped ==> |buf| + cacheSize == old(|buf| + cacheSize)
    {
      hide DoubtFalls, Narrows, Learned, Probs;
      ghost var e := Snap();
      if range < TOP {
        stopped := ShiftLow();
        if stopped {
          return;
        }
        range := range * 0x100;
      }
      assert Snap() == Normal(e);
      CodedNormal(e, probs[ctx], bit);
      Decide(ctx, bit);
      stopped := false;
    }

    /** The decision itself (Bcj2Enc.c:310-331). */
    method Decide(ctx: nat, bit: bool)
      requires Valid() && ctx < PROBS && range >= TOP
      modifies this`low, this`range, probs
      ensures Valid() && Snap() == Coded(old(Snap()), old(probs[ctx]), bit)
      ensures probs[..] == Learned(old(probs[..]), Choice(ctx, bit))
      ensures DoubtFalls(old(probs[ctx]), probs[ctx], bit) && Narrows(old(range), old(probs[ctx]), range, bit)
      ensures forall i | 0 <= i < PROBS && i != ctx :: probs[i] == old(probs[i])
    {
      hide Bound, Shift, Probs, Prob;
      ghost var ps := probs[..];
      var ttt := probs[ctx];
      LearnedProbs(ps, ctx);
      BoundInside(range, ttt);
      BoundIs(range, ttt);
      var bound := range / 0x800 * ttt;
      if bit {
        low := low + bound;
        range := range - bound;
        probs[ctx] := ttt - ttt / 0x20;
      } else {
        range := bound;
        probs[ctx] := ttt + (0x800 - ttt) / 0x20;
      }
    }

    /** The end of the stream (Bcj2Enc.c:363-365). */
    method Finish() returns (stopped: bool)
      requires low < 2 * WORD && cacheSize >= 1 && |buf| <= room
      modifies this`low, this`cache, this`cacheSize, this`buf, this`flushRem
      ensures old(buf) <= buf && |buf| <= room && low < 2 * WORD && cacheSize >= 1
      ensures Shifts(Snap(), flushRem) == Shifts(old(Snap()), old(flushRem))
      ensures if stopped then |buf| == room else flushRem == 0
      ensures stopped ==> flushRem < old(flushRem) || |buf| + cacheSize == old(|buf| + cacheSize)
      ensures flushRem <= old(flushRem)
      ensures !stopped && old(flushRem) == 5 ==> buf == Flushed(old(Snap()))
    {
      stopped := false;
      while flushRem != 0
        invariant old(buf) <= buf && |buf| <= room && low < 2 * WORD && cacheSize >= 1
        invariant Shifts(Snap(), flushRem) == Shifts(old(Snap()), old(flushRem)) && flushRem <= old(flushRem)
        invariant flushRem == old(flushRem) ==> |buf| + cacheSize == old(|buf| + cacheSize)
        decreases flushRem
      {
        stopped := ShiftLow();
        if stopped {
          return;
        }
        flushRem := flushRem - 1;
      }
      FiveShifts(old(Snap()));
    }
  }

  // ---------- the decoder ----------

  datatype Status = Ready | NeedsInput | DataError

  lemma {:induction false} FirstByteVal(f: seq<Byte>)
    ensures f != [] ==> Val(f[..1]) == f[0]
    ensures Val(f[..0]) == 0
  {
    if f != [] {
      assert f[..1] == [] + [f[0]];
      ValAdd([], f[0]);
    }
  }

  lemma {:induction false} NextByteVal(f: seq<Byte>, k: nat)
    requires k < |f|
    ensures (Val(f[..k]) % WORD * 0x100 + f[k]) % WORD == Val(f[..k + 1]) % WORD
  {
    assert f[..k + 1] == f[..k] + [f[k]];
    ValAdd(f[..k], f[k]);
    var v := Val(f[..k]);
    var q, r := v / WORD, v % WORD;
    assert v == WORD * q + r;
    var x, y: int := 0x100 * v + f[k], r * 0x100 + f[k];
    assert x == WORD * (0x100 * q) + y;
    assert y == WORD * (y / WORD) + y % WORD;
    Arith.DivModUnique(x, WORD, 0x100 * q + y / WORD, y % WORD);
    hide Val;
  }

  lemma {:induction false} FiveBytes(f: seq<Byte>)
    requires |f| >= 5 && f[0] == 0
    ensures Val(f[..5]) % WORD == Val(f[..5]) < WORD
  {
    FirstByte(f[..5]);
    FourBytes(f[1..5]);
    assert f[..5][1..] == f[1..5];
    hide Val;
  }

  lemma {:induction false} FourBytes(f: seq<Byte>)
    requires |f| == 4
    ensures Val(f) < WORD
  {
    var a, b, c := f[..1], f[..2], f[..3];
    assert a == [] + [f[0]] && b == a + [f[1]] && c == b + [f[2]] && f == c + [f[3]];
    ValAdd([], f[0]);
    ValAdd(a, f[1]);
    ValAdd(b, f[2]);
    ValAdd(c, f[3]);
    assert Val([]) == 0;
    hide Val;
  }

  /** The fields of CBcj2Dec that make up the coder; buf is what there is to read, pos how far it is read. */
  class RangeDecoder {
    var range: nat
    var code: nat
    const probs: array<nat>
    var buf: seq<Byte>
    var pos: nat

    ghost function Snap(): Dec
      reads this
    {
      Dec(range, code, pos)
    }

    ghost predicate Valid()
      reads this, probs
    {
      && 0x1_0000 <= range < WORD && code < range && pos <= |buf|
      && probs.Length == PROBS && Probs(probs[..])
    }

    /** Before the fifth byte range counts the bytes read. */
    ghost predicate Beginning()
      reads this, probs
    {
      && range == pos <= 5 && pos <= |buf| && code == Val(buf[..pos]) % WORD && (pos > 1 ==> buf[0] == 0)
      && probs.Length == PROBS && Probs(probs[..])
    }

    /** Bcj2Dec_Init (Bcj2.c:16-26). */
    constructor ()
      ensures Beginning() && fresh(probs) && buf == [] && probs.Length == 258
      ensures forall i | 0 <= i < 258 :: probs[i] == 1024
    {
      range, code, buf, pos := 0, 0, [], 0;
      probs := new nat[PROBS](_ => HALF);
    }

    method NextByte()
      requires Beginning() && range < 5 && pos < |buf| && (pos == 1 ==> buf[0] == 0)
      modifies this`range, this`code, this`pos
      ensures Beginning() && range == old(range) + 1
    {
      hide Val, Probs;
      NextByteVal(buf, pos);
      code := (code * 0x100 + buf[pos]) % WORD;
      pos := pos + 1;
      range := range + 1;
    }

    /** The first five bytes (Bcj2.c:32-51), of which the first must be 0. */
    method Begin() returns (status: Status)
      requires Beginning()
      modifies this`range, this`code, this`pos
      ensures status == Ready ==> Valid() && |buf| >= 5 && buf[0] == 0 && Snap() == FirstDec(buf)
      ensures status == NeedsInput ==> Beginning() && pos == |buf| < 5 && (|buf| >= 1 ==> buf[0] == 0)
      ensures status == DataError ==> |buf| >= 1 && (buf[0] == 0 ==> |buf| >= 5 && Val(buf[..5]) == 0xFFFF_FFFF)
    {
      hide Val, Probs;
      while range != 5
        invariant Beginning()
        decreases 5 - range
      {
        FirstByteVal(buf);
        if range == 1 && code != 0 {
          return DataError;
        }
        if pos == |buf| {
          return NeedsInput;
        }
        NextByte();
      }
      FiveBytes(buf);
      if code == 0xFFFF_FFFF {
        return DataError;
      }
      range := 0xFFFF_FFFF;
      return Ready;
    }

    /** One decision (Bcj2.c:98-108, 211-235). */
    method Decode(ctx: nat) returns (status: Status, bit: bool)
      requires Valid() && ctx < PROBS
      modifies this`range, this`code, this`pos, probs
      ensures Valid() && status != DataError
      ensures status == NeedsInput <==> old(range) < TOP && old(pos) == |buf|
      ensures status == NeedsInput ==> Snap() == old(Snap()) && probs[..] == old(probs[..])
      ensures status == Ready ==> (bit, Snap()) == Decoded(Refilled(old(Snap()), buf), old(probs[ctx]))
      ensures status == Ready ==> probs[..] == Learned(old(probs[..]), Choice(ctx, bit))
      ensures status == Ready ==>
                DoubtFalls(old(probs[ctx]), probs[ctx], bit) && Narrows(Wide(old(range)), old(probs[ctx]), range, bit)
      ensures forall i | 0 <= i < PROBS && i != ctx :: probs[i] == old(probs[i])
    {
      hide DoubtFalls, Narrows, Learned, Probs;
      ghost var d := Snap();
      if range < TOP {
        if pos == |buf| {
          return NeedsInput, false;
        }
        range := range * 0x100;
        code := (code * 0x100 + buf[pos]) % WORD;
        pos := pos + 1;
      }
      assert Snap() == Refilled(d, buf);
      hide Refilled;
      bit := Decide(ctx);
      return Ready, bit;
    }

    /** The decision itself (Bcj2.c:211-235). */
    method Decide(ctx: nat) returns (bit: bool)
      requires Valid() && ctx < PROBS && range >= TOP
      modifies this`range, this`code, probs
      ensures Valid() && (bit, Snap()) == Decoded(old(Snap()), old(probs[ctx]))
      ensures probs[..] == Learned(old(probs[..]), Choice(ctx, bit))
      ensures DoubtFalls(old(probs[ctx]), probs[ctx], bit) && Narrows(old(range), old(probs[ctx]), range, bit)
      ensures forall i | 0 <= i < PROBS && i != ctx :: probs[i] == old(probs[i])
      ensures (var part := old(range) / 2048 * old(probs[ctx]);
        (bit <==> old(code) >= part) && code == if bit then old(code) - part else old(code))
    {
      hide Bound, Probs, Prob;
      ghost var ps := probs[..];
      var ttt := probs[ctx];
      LearnedProbs(ps, ctx);
      BoundInside(range, ttt);
      BoundIs(range, ttt);
      var bound := range / 0x800 * ttt;
      bit := code >= bound;
      if bit {
        range := range - bound;
        code := code - bound;
        probs[ctx] := ttt - ttt / 0x20;
      } else {
        range := bound;
        probs[ctx] := ttt + (0x800 - ttt) / 0x20;
      }
    }
  }
}
