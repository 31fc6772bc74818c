/** The binary range coder of BCJ2 as arithmetic: what the encoder has written and still holds back
    is one exact number, and what the decoder holds is its distance from that number. */
module RangeNumber {
  import Arith
  import opened Machine

  const TOP: int := 0x100_0000
  const WORD: int := 0x1_0000_0000

  // ---------- bytes as a number ----------

  /** The value of bytes, the first the highest. */
  function Val(s: seq<Byte>): nat {
    if s == [] then 0 else 0x100 * Val(s[..|s| - 1]) + s[|s| - 1]
  }

  function Fill(b: Byte, k: nat): (r: seq<Byte>)
    ensures |r| == k
  {
    if k == 0 then [] else Fill(b, k - 1) + [b]
  }

  lemma {:induction false} ValAdd(s: seq<Byte>, b: Byte)
    ensures Val(s + [b]) == 0x100 * Val(s) + b
  {
    assert (s + [b])[..|s|] == s;
  }

  /** Adding one to a byte that is followed by FF bytes only. */
  lemma {:induction false} Carry(s: seq<Byte>, c: Byte, k: nat)
    requires c < 0xFF
    ensures Val(s + [c + 1] + Fill(0, k)) == Val(s + [c] + Fill(0xFF, k)) + 1
  {
    if k == 0 {
      ValAdd(s, c);
      ValAdd(s, c + 1);
      assert s + [c + 1] + [] == s + [c + 1] && s + [c] + [] == s + [c];
    } else {
      Carry(s, c, k - 1);
      var x, y := s + [c + 1] + Fill(0, k - 1), s + [c] + Fill(0xFF, k - 1);
      ValAdd(x, 0);
      ValAdd(y, 0xFF);
      assert s + [c + 1] + Fill(0, k) == x + [0] && s + [c] + Fill(0xFF, k) == y + [0xFF];
    }
  }

  // ---------- the encoder ----------

  /** low, range, cache, cacheSize, and the bytes written. */
  datatype Enc = Enc(low: nat, range: nat, cache: Byte, cacheSize: nat, out: seq<Byte>)

  /** The bytes written, the one held back, and the FF bytes behind it that a carry would change. */
  function Known(e: Enc): (r: seq<Byte>) {
    e.out + [e.cache] + Fill(0xFF, if e.cacheSize == 0 then 0 else e.cacheSize - 1)
  }

  /** The number that the encoder has so far. */
  function Number(e: Enc): nat { Val(Known(e)) * WORD + e.low }

  /** Of how many bytes it is. */
  function Digits(e: Enc): nat { |e.out| + e.cacheSize + 4 }

  /** There is room for r more: a carry stops at the byte held back. */
  predicate Fits(e: Enc, r: int) {
    && e.cacheSize >= 1 && r >= 1 && e.low + r <= 2 * WORD
    && (e.cache == 0xFF ==> e.low + r <= WORD)
  }

  /** What Bcj2_RangeEnc_ShiftLow writes when it writes: the bytes known, with the carry. */
  function Settled(e: Enc): (r: seq<Byte>) {
    var high := e.low / WORD;
    e.out + [(e.cache + high) % 0x100] + Fill((0xFF + high) % 0x100, if e.cacheSize == 0 then 0 else e.cacheSize - 1)
  }

  /** Whether the byte held back can be written: no carry can reach it any more, or one has. */
  predicate Ready(e: Enc) {
    e.low % WORD < 0xFF00_0000 || e.low >= WORD
  }

  /** Bcj2_RangeEnc_ShiftLow. */
  function Shift(e: Enc): (r: Enc) {
    var low := e.low % WORD;
    if Ready(e) then Enc(low % TOP * 0x100, e.range, low / TOP, 1, Settled(e))
    else Enc(low % TOP * 0x100, e.range, e.cache, e.cacheSize + 1, e.out)
  }

  lemma {:induction false} SettledVal(e: Enc, r: int)
    requires Fits(e, r)
    ensures Val(Settled(e)) == Val(Known(e)) + e.low / WORD && |Settled(e)| == |e.out| + e.cacheSize
  {
    if e.low >= WORD {
      assert e.low / WORD == 1;
      Carry(e.out, e.cache, e.cacheSize - 1);
    } else {
      assert e.low / WORD == 0;
    }
  }

  lemma {:induction false} LowParts(low: nat)
    ensures low == low / WORD * WORD + low % WORD && low % WORD == low % WORD / TOP * TOP + low % WORD % TOP
    ensures 0 <= low % WORD / TOP < 0x100 && 0 <= low % WORD % TOP < TOP
  {
  }

  lemma {:induction false} ShiftReady(e: Enc, r: int)
    requires Fits(e, r) && Ready(e)
    ensures Number(Shift(e)) == 0x100 * Number(e) && Digits(Shift(e)) == Digits(e) + 1
  {
    var f := Shift(e);
    LowParts(e.low);
    SettledVal(e, r);
    ValAdd(f.out, f.cache);
    assert f.out == Settled(e) && f.cache == e.low % WORD / TOP && f.cacheSize == 1
      && f.low == e.low % WORD % TOP * 0x100;
    assert Known(f) == f.out + [f.cache];
    assert Digits(f) == |Settled(e)| + 5;
    hide Known, Settled, Val, Shift;
  }

  lemma {:induction false} ShiftWaits(e: Enc, r: int)
    requires Fits(e, r) && !Ready(e)
    ensures Number(Shift(e)) == 0x100 * Number(e) && Digits(Shift(e)) == Digits(e) + 1
  {
    var f := Shift(e);
    LowParts(e.low);
    ValAdd(Known(e), 0xFF);
    assert Known(f) == Known(e) + [0xFF];
    assert f.low == (e.low - 0xFF00_0000) * 0x100;
    hide Known, Val;
  }

  lemma {:induction false} ShiftFits(e: Enc, r: int)
    requires Fits(e, r) && r < TOP
    ensures Fits(Shift(e), 0x100 * r)
  {
    LowParts(e.low);
    hide Settled;
  }

  /** A shift multiplies the number by 256, exactly, and leaves room for 256 times as much. */
  lemma {:induction false} ShiftNumber(e: Enc, r: int)
    requires Fits(e, r) && r < TOP
    ensures Number(Shift(e)) == 0x100 * Number(e) && Digits(Shift(e)) == Digits(e) + 1
    ensures Fits(Shift(e), 0x100 * r) && Shift(e).range == e.range
  {
    ShiftFits(e, r);
    if Ready(e) {
      ShiftReady(e, r);
    } else {
      ShiftWaits(e, r);
    }
    hide Number, Digits, Fits, Settled;
  }

  // ---------- one decision ----------

  /** A probability of 0, in 2048 parts, as the adaptation keeps it. */
  predicate Prob(p: int) { 31 <= p <= 2017 }

  function Bound(range: nat, p: nat): nat { range / 0x800 * p }

  /** The probability after a decision. */
  function Adapted(p: nat, bit: bool): (r: nat)
    requires Prob(p)
    ensures Prob(r)
  {
    if bit then p - p / 0x20 else p + (0x800 - p) / 0x20
  }

  /** Either part of the range is not empty, and one shift makes it large again. */
  lemma {:induction false} BoundInside(range: nat, p: nat)
    requires TOP <= range < WORD && Prob(p)
    ensures 0 < Bound(range, p) < range
    ensures 0x1_0000 <= Bound(range, p) && 0x1_0000 <= range - Bound(range, p)
  {
    var q := range / 0x800;
    assert range == 0x800 * q + range % 0x800 && q >= 0x2000;
    assert q * p >= q * 31 && q * p <= q * 2017 by {
      MulBetween(q, 31, p, 2017);
    }
  }

  lemma {:induction false} MulBetween(q: nat, a: nat, p: nat, b: nat)
    requires a <= p <= b
    ensures q * a <= q * p <= q * b
  {
    assert q * p == q * a + q * (p - a) && q * b == q * p + q * (b - p);
  }

  /** The range is made large before a decision. */
  function Normal(e: Enc): (r: Enc) {
    if e.range < TOP then Shift(e).(range := e.range * 0x100) else e
  }

  /** A decision: the lower part of the range for 0, the upper part for 1. */
  function Coded(e: Enc, p: nat, bit: bool): (r: Enc) {
    var n := Normal(e);
    var bound := Bound(n.range, p);
    if bit then n.(low := n.low + bound,
      range := if n.range > bound then n.range - bound else 0) else n.(range := bound)
  }

  /** What every decision keeps. */
  predicate Good(e: Enc) { Fits(e, e.range) && 0x1_0000 <= e.range < WORD }

  lemma {:induction false} NormalGood(e: Enc)
    requires Good(e)
    ensures Good(Normal(e)) && Normal(e).range >= TOP
    ensures if e.range < TOP then Number(Normal(e)) == 0x100 * Number(e) && Digits(Normal(e)) == Digits(e) + 1
            else Normal(e) == e
    ensures Normal(e).range == if e.range < TOP then 0x100 * e.range else e.range
  {
    if e.range < TOP {
      ShiftNumber(e, e.range);
      var f, g := Shift(e), Normal(e);
      assert Known(f) == Known(g);
    }
    hide Shift, Val, Known;
  }

  lemma {:induction false} CodedGood(e: Enc, p: nat, bit: bool)
    requires Good(e) && Prob(p)
    ensures Good(Coded(e, p, bit)) && Digits(Coded(e, p, bit)) == Digits(Normal(e))
    ensures (var n, f := Normal(e), Coded(e, p, bit);
      && Number(f) == Number(n) + (if bit then Bound(n.range, p) else 0)
      && f.range == (if bit then n.range - Bound(n.range, p) else Bound(n.range, p)) && 0 < f.range < n.range)
  {
    NormalGood(e);
    var n := Normal(e);
    BoundInside(n.range, p);
    var f := Coded(e, p, bit);
    assert Known(f) == Known(n);
    hide Normal, Val, Known, Bound;
  }

  // ---------- the end of the stream ----------

  /** Four shifts move all of low out. */
  lemma {:induction false} FourShifts(e: Enc)
    ensures Shift(Shift(Shift(Shift(e)))).low == 0
  {
    var e1 := Shift(e);
    var e2 := Shift(e1);
    var e3 := Shift(e2);
    LowMoves(e, 1);
    LowMoves(e1, 0x100);
    LowMoves(e2, 0x1_0000);
    LowMoves(e3, TOP);
    hide Shift;
  }

  /** Each leaves 8 more zero bits below. */
  lemma {:induction false} LowMoves(e: Enc, k: nat)
    requires (k == 1 || k == 0x100 || k == 0x1_0000 || k == TOP) && e.low % k == 0
    ensures Shift(e).low < WORD && Shift(e).low % (0x100 * k) == 0
  {
    var a := e.low % WORD % TOP;
    Arith.ModOfMod(e.low, TOP, 0x100, WORD);
    Arith.ModOfMod(e.low, k, TOP / k, TOP);
    assert a == k * (a / k) + a % k;
    assert a * 0x100 == a / k * (0x100 * k) + 0;
    Arith.DivModUnique(a * 0x100, 0x100 * k, a / k, 0);
    hide Settled;
  }

  /** The five shifts at the end of the stream (Bcj2Enc.c:363-365). */
  function Flushed(e: Enc): seq<Byte> { Shift(Shift(Shift(Shift(Shift(e))))).out }

  lemma {:induction false} FitsLess(e: Enc, r: int, r': int)
    requires Fits(e, r) && 1 <= r' <= r
    ensures Fits(e, r')
  {
  }

  lemma {:induction false} ShiftOne(e: Enc)
    requires Fits(e, 1)
    ensures Number(Shift(e)) == 0x100 * Number(e) && Digits(Shift(e)) == Digits(e) + 1 && Fits(Shift(e), 1)
  {
    ShiftNumber(e, 1);
    FitsLess(Shift(e), 0x100, 1);
    hide Shift, Number, Digits, Fits;
  }

  /** The stream is the number, digit by digit. */
  lemma {:induction false} FlushedVal(e: Enc)
    requires Good(e)
    ensures Val(Flushed(e)) == Number(e) && |Flushed(e)| == Digits(e)
  {
    hide *;
    GoodFits(e);
    var e1 := Shift(e);
    var e2 := Shift(e1);
    var e3 := Shift(e2);
    var e4 := Shift(e3);
    ShiftOne(e);
    ShiftOne(e1);
    ShiftOne(e2);
    ShiftOne(e3);
    ShiftOne(e4);
    FourShifts(e);
    LastShift(e4);
    FlushedIs(e);
  }

  lemma {:induction false} GoodFits(e: Enc)
    requires Good(e)
    ensures Fits(e, 1)
  {
  }

  lemma {:induction false} FlushedIs(e: Enc)
    ensures Flushed(e) == Shift(Shift(Shift(Shift(Shift(e))))).out
  {
  }

  lemma {:induction false} LastShift(e: Enc)
    requires e.low == 0 && Fits(e, 1)
    ensures (var f := Shift(e); Number(f) == 0x100_0000_0000 * Val(f.out) && Digits(f) == |f.out| + 5)
  {
    var f := Shift(e);
    assert f.cache == 0 && f.cacheSize == 1 && f.low == 0;
    ValAdd(f.out, 0);
    assert Known(f) == f.out + [0];
    hide Val, Settled;
  }

  // ---------- many decisions ----------

  /** Which probability a decision uses, and what it is. */
  datatype Choice = Choice(ctx: nat, bit: bool)

  predicate Probs(probs: seq<nat>) {
    forall i | 0 <= i < |probs| :: Prob(probs[i])
  }

  predicate Choices(cs: seq<Choice>, n: nat) {
    forall i | 0 <= i < |cs| :: cs[i].ctx < n
  }

  function Learned(probs: seq<nat>, c: Choice): (r: seq<nat>)
    requires Probs(probs) && c.ctx < |probs|
    ensures Probs(r) && |r| == |probs|
  {
    probs[c.ctx := Adapted(probs[c.ctx], c.bit)]
  }

  function EncodeAll(e: Enc, probs: seq<nat>, cs: seq<Choice>): Enc
    requires Probs(probs) && Choices(cs, |probs|)
    decreases |cs|
  {
    if cs == [] then e
    else EncodeAll(Coded(e, probs[cs[0].ctx], cs[0].bit), Learned(probs, cs[0]), cs[1..])
  }

  /** The stream read so far lies in the range. */
  predicate Within(e: Enc, f: seq<Byte>) {
    Digits(e) <= |f| && Number(e) <= Val(f[..Digits(e)]) < Number(e) + e.range
  }

  /** A stream that lies in the range after a decision lay in the range before it. */
  lemma {:induction false} WithinBefore(e: Enc, p: nat, bit: bool, f: seq<Byte>)
    requires Good(e) && Prob(p) && Within(Coded(e, p, bit), f)
    ensures Within(Normal(e), f) && Within(e, f)
  {
    NormalGood(e);
    CodedGood(e, p, bit);
    var n := Normal(e);
    BoundInside(n.range, p);
    if e.range < TOP {
      var d := Digits(e);
      ValAdd(f[..d], f[d]);
      assert f[..d + 1] == f[..d] + [f[d]];
    }
    hide Normal, Coded, Number, Digits, Val, Bound, Good;
  }

  lemma {:induction false} AllWithin(e: Enc, probs: seq<nat>, cs: seq<Choice>)
    requires Good(e) && Probs(probs) && Choices(cs, |probs|)
    ensures Good(EncodeAll(e, probs, cs)) && Within(e, Flushed(EncodeAll(e, probs, cs)))
    decreases |cs|
  {
    hide Good, Within, Coded, Flushed;
    if cs == [] {
      FlushedWithin(e);
    } else {
      CodedGood(e, probs[cs[0].ctx], cs[0].bit);
      AllWithin(Coded(e, probs[cs[0].ctx], cs[0].bit), Learned(probs, cs[0]), cs[1..]);
      WithinBefore(e, probs[cs[0].ctx], cs[0].bit, Flushed(EncodeAll(e, probs, cs)));
    }
  }

  lemma {:induction false} FlushedWithin(e: Enc)
    requires Good(e)
    ensures Within(e, Flushed(e))
  {
    FlushedVal(e);
    assert Flushed(e)[..Digits(e)] == Flushed(e);
    hide Flushed, Number, Digits, Val;
  }

  // ---------- the decoder ----------

  /** range, code, and how many bytes are read. */
  datatype Dec = Dec(range: nat, code: nat, pos: nat)

  /** One byte is read when the range is small. */
  function Refilled(d: Dec, f: seq<Byte>): (r: Dec) {
    if d.range < TOP && d.pos < |f| then Dec(d.range * 0x100, d.code * 0x100 + f[d.pos], d.pos + 1) else d
  }

  /** The bit, and what is left. */
  function Decoded(d: Dec, p: nat): (r: (bool, Dec)) {
    var bound := Bound(d.range, p);
    if d.code < bound then (false, d.(range := bound))
    else (true, d.(range := if d.range > bound then d.range - bound else 0, code := d.code - bound))
  }

  /** The decoder is where the encoder was: code is how far the stream is from the number. */
  predicate Linked(e: Enc, d: Dec, f: seq<Byte>) {
    && d.range == e.range && d.pos == Digits(e) <= |f| && d.code == Val(f[..d.pos]) - Number(e)
  }

  lemma {:induction false} RefillLinked(e: Enc, d: Dec, f: seq<Byte>)
    requires Good(e) && Linked(e, d, f) && Within(Normal(e), f)
    ensures Linked(Normal(e), Refilled(d, f), f)
    ensures e.range < TOP ==> d.pos < |f| && d.code < TOP
  {
    NormalGood(e);
    if e.range < TOP {
      var k := d.pos;
      ValAdd(f[..k], f[k]);
      assert f[..k + 1] == f[..k] + [f[k]];
    }
    hide Normal, Number, Digits, Val, Good;
  }

  /** The bit comes back, one byte at most is read for it, and code stays below the range. */
  lemma {:induction false} DecodesOne(e: Enc, d: Dec, f: seq<Byte>, p: nat, bit: bool)
    requires Good(e) && Prob(p) && Linked(e, d, f) && Within(Coded(e, p, bit), f)
    ensures Decoded(Refilled(d, f), p).0 == bit
    ensures Linked(Coded(e, p, bit), Decoded(Refilled(d, f), p).1, f)
      && Decoded(Refilled(d, f), p).1.code < Coded(e, p, bit).range
    ensures d.range < TOP ==> d.pos < |f|
  {
    WithinBefore(e, p, bit, f);
    RefillLinked(e, d, f);
    CodedGood(e, p, bit);
    hide Normal, Coded, Number, Digits, Val, Good, Bound, Refilled;
  }

  // ---------- there and back ----------

  function Contexts(cs: seq<Choice>): (r: seq<nat>)
    ensures |r| == |cs|
  {
    if cs == [] then [] else [cs[0].ctx] + Contexts(cs[1..])
  }

  function BitsOf(cs: seq<Choice>): (r: seq<bool>)
    ensures |r| == |cs|
  {
    if cs == [] then [] else [cs[0].bit] + BitsOf(cs[1..])
  }

  /** The bits for a sequence of contexts, and where the decoder is then. */
  function DecodeAll(d: Dec, f: seq<Byte>, probs: seq<nat>, ctxs: seq<nat>): (seq<bool>, Dec)
    requires Probs(probs) && forall i | 0 <= i < |ctxs| :: ctxs[i] < |probs|
    decreases |ctxs|
  {
    if ctxs == [] then ([], d)
    else
      var one := Decoded(Refilled(d, f), probs[ctxs[0]]);
      var rest := DecodeAll(one.1, f, Learned(probs, Choice(ctxs[0], one.0)), ctxs[1..]);
      ([one.0] + rest.0, rest.1)
  }

  /** The bytes that the decoder reads on the way are there. */
  predicate Supplied(d: Dec, f: seq<Byte>, probs: seq<nat>, ctxs: seq<nat>)
    requires Probs(probs) && forall i | 0 <= i < |ctxs| :: ctxs[i] < |probs|
    decreases |ctxs|
  {
    ctxs == [] ||
    (&& (d.range < TOP ==> d.pos < |f|)
     && var one := Decoded(Refilled(d, f), probs[ctxs[0]]);
     Supplied(one.1, f, Learned(probs, Choice(ctxs[0], one.0)), ctxs[1..]))
  }

  lemma {:induction false} ContextsAre(cs: seq<Choice>, n: nat)
    requires Choices(cs, n)
    ensures forall i | 0 <= i < |cs| :: Contexts(cs)[i] < n
  {
    if cs != [] {
      ContextsAre(cs[1..], n);
    }
  }

  lemma {:induction false} DecodesAll(e: Enc, d: Dec, probs: seq<nat>, cs: seq<Choice>, f: seq<Byte>)
    requires Good(e) && Probs(probs) && Choices(cs, |probs|)
    requires f == Flushed(EncodeAll(e, probs, cs)) && Linked(e, d, f)
    ensures forall i | 0 <= i < |cs| :: Contexts(cs)[i] < |probs|
    ensures Supplied(d, f, probs, Contexts(cs))
    ensures DecodeAll(d, f, probs, Contexts(cs)).0 == BitsOf(cs)
    ensures Linked(EncodeAll(e, probs, cs), DecodeAll(d, f, probs, Contexts(cs)).1, f)
    decreases |cs|
  {
    hide Good, Linked, Within, Coded, Flushed, Decoded, Refilled;
    ContextsAre(cs, |probs|);
    if cs != [] {
      var c := cs[0];
      var e' := Coded(e, probs[c.ctx], c.bit);
      CodedGood(e, probs[c.ctx], c.bit);
      AllWithin(e', Learned(probs, c), cs[1..]);
      DecodesOne(e, d, f, probs[c.ctx], c.bit);
      DecodesAll(e', Decoded(Refilled(d, f), probs[c.ctx]).1, Learned(probs, c), cs[1..], f);
      assert Contexts(cs)[1..] == Contexts(cs[1..]);
    }
  }

  /** Bcj2Enc_Init. */
  function FirstEnc(): Enc { Enc(0, 0xFFFF_FFFF, 0, 1, []) }

  /** After the five bytes that the decoder starts with. */
  function FirstDec(f: seq<Byte>): Dec
    requires |f| >= 5
  {
    Dec(0xFFFF_FFFF, Val(f[..5]), 5)
  }

  lemma {:induction false} FirstGood()
    ensures Good(FirstEnc()) && Digits(FirstEnc()) == 5 && Number(FirstEnc()) == 0
  {
    assert Known(FirstEnc()) == [0] + [];
    assert Val([0]) == 0x100 * Val([0][..0]) + 0;
  }

  /** A number below 2^32 in five bytes has a zero in front. */
  lemma {:induction false} FirstByte(f: seq<Byte>)
    requires |f| == 5
    ensures Val(f) >= WORD * f[0] && (f[0] == 0 ==> Val(f) == Val(f[1..]))
  {
    var a, b, c, d := f[..1], f[..2], f[..3], f[..4];
    assert a == [] + [f[0]] && b == a + [f[1]] && c == b + [f[2]] && d == c + [f[3]] && f == d + [f[4]];
    ValAdd([], f[0]);
    ValAdd(a, f[1]);
    ValAdd(b, f[2]);
    ValAdd(c, f[3]);
    ValAdd(d, f[4]);
    var x, y, z := f[1..2], f[1..3], f[1..4];
    assert x == [] + [f[1]] && y == x + [f[2]] && z == y + [f[3]] && f[1..] == z + [f[4]];
    ValAdd([], f[1]);
    ValAdd(x, f[2]);
    ValAdd(y, f[3]);
    ValAdd(z, f[4]);
    hide Val;
  }

  /** Whatever was decided and whatever was learned on the way, the decoder gets the decisions back.
      It accepts the start of the stream, reads all of it, and ends with code 0. */
  lemma {:induction false} RoundTrip(probs: seq<nat>, cs: seq<Choice>)
    requires Probs(probs) && Choices(cs, |probs|)
    ensures (var f := Flushed(EncodeAll(FirstEnc(), probs, cs));
      && |f| >= 5 && f[0] == 0 && FirstDec(f).code < 0xFFFF_FFFF
      && (forall i | 0 <= i < |cs| :: Contexts(cs)[i] < |probs|)
      && Supplied(FirstDec(f), f, probs, Contexts(cs))
      && DecodeAll(FirstDec(f), f, probs, Contexts(cs)).0 == BitsOf(cs)
      && DecodeAll(FirstDec(f), f, probs, Contexts(cs)).1.code == 0
      && DecodeAll(FirstDec(f), f, probs, Contexts(cs)).1.pos == |f|)
  {
    hide *;
    var e := FirstEnc();
    var f := Flushed(EncodeAll(e, probs, cs));
    FirstGood();
    AllWithin(e, probs, cs);
    FirstLinked(f);
    DecodesAll(e, FirstDec(f), probs, cs, f);
    FlushedVal(EncodeAll(e, probs, cs));
    LinkedEnd(EncodeAll(e, probs, cs), DecodeAll(FirstDec(f), f, probs, Contexts(cs)).1, f);
  }

  lemma {:induction false} FirstLinked(f: seq<Byte>)
    requires Within(FirstEnc(), f)
    ensures |f| >= 5 && f[0] == 0 && FirstDec(f).code < 0xFFFF_FFFF && Linked(FirstEnc(), FirstDec(f), f)
  {
    FirstGood();
    FirstByte(f[..5]);
    hide Val, Number, Digits;
  }

  lemma {:induction false} LinkedEnd(e: Enc, d: Dec, f: seq<Byte>)
    requires Linked(e, d, f) && Val(f) == Number(e) && |f| == Digits(e)
    ensures d.code == 0 && d.pos == |f|
  {
    assert f[..|f|] == f;
    hide Val, Number, Digits;
  }
}
