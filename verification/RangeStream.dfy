/** A whole stream of the BCJ2 range coder: decisions are encoded into buffers that run full and
    decoded from buffers that run empty, and come back (Bcj2Enc.c, Bcj2.c). */
module RangeStream {
  import opened Machine
  import opened RangeNumber
  import opened RangeCoder
  import opened RangeCost

  /** The probabilities that both sides start with. */
  function FirstProbs(): (r: seq<nat>)
    ensures |r| == PROBS && Probs(r)
  {
    seq(PROBS, _ => HALF)
  }

  /** One decision, in as many calls as it takes: after each that stops, the caller gives room. */
  method EncodeOne(enc: RangeEncoder, c: Choice)
    requires enc.Valid() && c.ctx < PROBS && |enc.buf| <= enc.room
    modifies enc, enc.probs
    ensures enc.Valid() && |enc.buf| <= enc.room && enc.flushRem == old(enc.flushRem)
    ensures enc.Snap() == Coded(old(enc.Snap()), old(enc.probs[c.ctx]), c.bit)
    ensures enc.probs[..] == Learned(old(enc.probs[..]), c)
  {
    hide Normal, Coded, Shift;
    ghost var e, ps := enc.Snap(), enc.probs[..];
    var stopped := enc.Encode(c.ctx, c.bit);
    while stopped
      invariant enc.Valid() && |enc.buf| <= enc.room && enc.flushRem == old(enc.flushRem)
      invariant stopped ==> |enc.buf| == enc.room && Normal(enc.Snap()) == Normal(e) && enc.probs[..] == ps
      invariant !stopped ==> enc.Snap() == Coded(e, ps[c.ctx], c.bit) && enc.probs[..] == Learned(ps, c)
      decreases stopped, enc.cacheSize
    {
      var more :| more >= 1;
      enc.room := enc.room + more;
      assert enc.probs[c.ctx] == ps[c.ctx];
      CodedNormal(e, ps[c.ctx], c.bit);
      CodedNormal(enc.Snap(), ps[c.ctx], c.bit);
      stopped := enc.Encode(c.ctx, c.bit);
    }
  }

  /** The end of the stream, likewise. */
  method FinishAll(enc: RangeEncoder)
    requires enc.low < 2 * WORD && enc.cacheSize >= 1 && |enc.buf| <= enc.room && enc.flushRem == 5
    modifies enc
    ensures enc.buf == Flushed(old(enc.Snap()))
  {
    hide Shift, Flushed, Shifts;
    ghost var e := enc.Snap();
    var stopped := enc.Finish();
    while stopped
      invariant enc.low < 2 * WORD && enc.cacheSize >= 1 && |enc.buf| <= enc.room
      invariant stopped ==> |enc.buf| == enc.room
      invariant !stopped ==> enc.flushRem == 0
      invariant Shifts(enc.Snap(), enc.flushRem) == Shifts(e, 5)
      decreases stopped, enc.flushRem, enc.cacheSize
    {
      var more :| more >= 1;
      enc.room := enc.room + more;
      stopped := enc.Finish();
    }
    NoShifts(enc.Snap());
    FiveShifts(e);
  }

  lemma {:induction false} NoShifts(e: Enc)
    ensures Shifts(e, 0) == e
  {
  }

  lemma {:induction false} EncodeNext(e: Enc, probs: seq<nat>, cs: seq<Choice>, i: nat)
    requires Probs(probs) && Choices(cs, |probs|) && i < |cs|
    ensures EncodeAll(e, probs, cs[i..]) ==
            EncodeAll(Coded(e, probs[cs[i].ctx], cs[i].bit), Learned(probs, cs[i]), cs[i + 1..])
  {
    hide Coded;
    assert cs[i..][1..] == cs[i + 1..];
  }

  /** The first decision of a context halves the range. */
  lemma {:induction false} FirstHalf(c: Choice)
    requires c.ctx < 258
    ensures Choices([c], PROBS)
    ensures (var e := EncodeAll(FirstEnc(), FirstProbs(), [c]);
      && Number(e) == (if c.bit then 0x7FFF_FC00 else 0)
      && e.range == (if c.bit then 0x8000_03FF else 0x7FFF_FC00))
  {
    var e := FirstEnc();
    FirstGood();
    CodedGood(e, FirstProbs()[c.ctx], c.bit);
    NormalGood(e);
    assert [c][..] == [c] && [c][1..] == [];
    hide Number, Digits, Good, Shift;
  }

  /** All decisions, and the end. */
  method Encode(cs: seq<Choice>) returns (f: seq<Byte>)
    requires Choices(cs, PROBS)
    ensures f == Flushed(EncodeAll(FirstEnc(), FirstProbs(), cs))
    ensures (forall i | 0 <= i < |cs| :: cs[i] == cs[0]) ==> |f| <= 199 + |cs| / 256
  {
    hide EncodeAll, Flushed, Coded;
    var enc := new RangeEncoder();
    assert enc.probs[..] == FirstProbs() && cs[0..] == cs;
    ghost var end := EncodeAll(FirstEnc(), FirstProbs(), cs);
    for i := 0 to |cs|
      invariant fresh(enc) && fresh(enc.probs) && enc.Valid() && |enc.buf| <= enc.room && enc.flushRem == 5
      invariant EncodeAll(enc.Snap(), enc.probs[..], cs[i..]) == end
    {
      EncodeNext(enc.Snap(), enc.probs[..], cs, i);
      EncodeOne(enc, cs[i]);
    }
    NothingToEncode(enc.Snap(), enc.probs[..], cs[|cs|..]);
    FinishAll(enc);
    f := enc.buf;
    if forall i | 0 <= i < |cs| :: cs[i] == cs[0] {
      EqualsAreShort(cs);
    }
  }

  /** A long run of equal decisions takes 199 bytes and one for every 256. */
  lemma {:induction false} EqualsAreShort(cs: seq<Choice>)
    requires Choices(cs, PROBS) && forall i | 0 <= i < |cs| :: cs[i] == cs[0]
    ensures |Flushed(EncodeAll(FirstEnc(), FirstProbs(), cs))| <= 199 + |cs| / 256
  {
    hide Good, Digits, Number, Flushed, EncodeAll;
    var c := if cs == [] then Choice(0, false) else cs[0];
    FirstGood();
    AllWithin(FirstEnc(), FirstProbs(), cs);
    FlushedVal(EncodeAll(FirstEnc(), FirstProbs(), cs));
    assert cs == Equals(c.ctx, c.bit, |cs|);
    RunIsShort(FirstEnc(), FirstProbs(), c.ctx, c.bit, |cs|);
  }

  lemma {:induction false} NothingToEncode(e: Enc, probs: seq<nat>, cs: seq<Choice>)
    requires Probs(probs) && cs == []
    ensures EncodeAll(e, probs, cs) == e
  {
  }

  // ---------- the other way ----------

  /** What the decoder makes of the first five bytes. */
  ghost predicate Begins(f: seq<Byte>) {
    |f| >= 5 && f[0] == 0 && Val(f[..5]) < 0xFFFF_FFFF
  }

  /** A decoder that holds the first part of f, where it has read as far as d. */
  ghost predicate Reading(dec: RangeDecoder, f: seq<Byte>)
    reads dec, dec.probs
  {
    dec.Valid() && dec.buf <= f
  }

  /** The start, from as many pieces as it takes. */
  method BeginAll(dec: RangeDecoder, f: seq<Byte>) returns (status: Status)
    requires dec.Beginning() && dec.buf == []
    modifies dec
    ensures dec.probs[..] == old(dec.probs[..])
    ensures status == Ready <==> Begins(f)
    ensures status == NeedsInput <==> |f| < 5 && (f != [] ==> f[0] == 0)
    ensures status == Ready ==> Reading(dec, f) && dec.Snap() == FirstDec(f)
  {
    hide Val;
    status := dec.Begin();
    while status == NeedsInput && |dec.buf| < |f|
      invariant dec.buf <= f && dec.probs[..] == old(dec.probs[..])
      invariant status == NeedsInput ==> dec.Beginning() && |dec.buf| < 5 && (dec.buf != [] ==> dec.buf[0] == 0)
      invariant status == Ready ==> dec.Valid() && |dec.buf| >= 5 && dec.buf[0] == 0 && dec.Snap() == FirstDec(dec.buf)
      invariant status == Ready ==> FirstDec(dec.buf).code < 0xFFFF_FFFF
      invariant status == DataError ==> |dec.buf| >= 1
      invariant status == DataError && dec.buf[0] == 0 ==> |dec.buf| >= 5 && Val(dec.buf[..5]) == 0xFFFF_FFFF
      decreases |f| - |dec.buf|
    {
      var more :| |dec.buf| < more <= |f|;
      assert f[..more][..dec.pos] == dec.buf[..dec.pos];
      dec.buf := f[..more];
      status := dec.Begin();
    }
    assert |dec.buf| >= 5 ==> dec.buf[..5] == f[..5];
  }

  /** One decision, likewise. */
  method DecodeOne(dec: RangeDecoder, f: seq<Byte>, ctx: nat) returns (status: Status, bit: bool)
    requires Reading(dec, f) && ctx < PROBS
    modifies dec, dec.probs
    ensures status != DataError && Reading(dec, f)
    ensures status == NeedsInput <==> old(dec.range) < TOP && old(dec.pos) == |f|
    ensures status == Ready ==> (bit, dec.Snap()) == Decoded(Refilled(old(dec.Snap()), f), old(dec.probs[ctx]))
    ensures status == Ready ==> dec.probs[..] == Learned(old(dec.probs[..]), Choice(ctx, bit))
  {
    hide Decoded, Learned;
    ghost var d, ps := dec.Snap(), dec.probs[..];
    if dec.pos == |dec.buf| < |f| {
      var more :| |dec.buf| < more <= |f|;
      dec.buf := f[..more];
    }
    assert dec.Snap() == d && dec.probs[..] == ps && dec.probs[ctx] == ps[ctx];
    assert Refilled(d, dec.buf) == Refilled(d, f);
    hide Refilled;
    status, bit := dec.Decode(ctx);
  }

  lemma {:induction false} DecodeNext(d: Dec, f: seq<Byte>, probs: seq<nat>, ctxs: seq<nat>, i: nat)
    requires Probs(probs) && i < |ctxs| && forall k | 0 <= k < |ctxs| :: ctxs[k] < |probs|
    ensures (var one := Decoded(Refilled(d, f), probs[ctxs[i]]);
      var learned := Learned(probs, Choice(ctxs[i], one.0));
      && DecodeAll(d, f, probs, ctxs[i..]).0 == [one.0] + DecodeAll(one.1, f, learned, ctxs[i + 1..]).0
      && DecodeAll(d, f, probs, ctxs[i..]).1 == DecodeAll(one.1, f, learned, ctxs[i + 1..]).1
      && (Supplied(d, f, probs, ctxs[i..]) <==>
          (d.range < TOP ==> d.pos < |f|) && Supplied(one.1, f, learned, ctxs[i + 1..])))
  {
    hide Decoded, Refilled;
    assert ctxs[i..][1..] == ctxs[i + 1..];
  }

  /** Any stream at all, right or wrong, in pieces: the bits for a sequence of contexts. */
  method Decode(f: seq<Byte>, ctxs: seq<nat>) returns (status: Status, bits: seq<bool>, ghost end: Dec)
    requires forall k | 0 <= k < |ctxs| :: ctxs[k] < PROBS
    ensures status == Ready <==> Begins(f) && Supplied(FirstDec(f), f, FirstProbs(), ctxs)
    ensures status == DataError <==> !Begins(f) && !(|f| < 5 && (f != [] ==> f[0] == 0))
    ensures status == Ready ==> (bits, end) == DecodeAll(FirstDec(f), f, FirstProbs(), ctxs)
  {
    hide DecodeAll, Supplied, Decoded, Refilled, Begins, FirstDec;
    var dec := new RangeDecoder();
    assert dec.probs[..] == FirstProbs() && ctxs[0..] == ctxs;
    bits := [];
    status := BeginAll(dec, f);
    end := dec.Snap();
    if status != Ready {
      return;
    }
    var i := 0;
    BeginsLong(f);
    ghost var all := DecodeAll(FirstDec(f), f, FirstProbs(), ctxs);
    ghost var enough := Supplied(FirstDec(f), f, FirstProbs(), ctxs);
    while i < |ctxs|
      invariant fresh(dec) && fresh(dec.probs) && i <= |ctxs| && Reading(dec, f) && status == Ready
      invariant all.0 == bits + DecodeAll(dec.Snap(), f, dec.probs[..], ctxs[i..]).0
      invariant all.1 == DecodeAll(dec.Snap(), f, dec.probs[..], ctxs[i..]).1
      invariant enough <==> Supplied(dec.Snap(), f, dec.probs[..], ctxs[i..])
    {
      DecodeNext(dec.Snap(), f, dec.probs[..], ctxs, i);
      var bit;
      status, bit := DecodeOne(dec, f, ctxs[i]);
      if status != Ready {
        return;
      }
      bits := bits + [bit];
      i := i + 1;
    }
    end := dec.Snap();
    NothingToDecode(end, f, dec.probs[..], ctxs[i..]);
    assert bits + [] == bits;
  }

  lemma {:induction false} BeginsLong(f: seq<Byte>)
    requires Begins(f)
    ensures |f| >= 5
  {
  }

  lemma {:induction false} NothingToDecode(d: Dec, f: seq<Byte>, probs: seq<nat>, ctxs: seq<nat>)
    requires Probs(probs) && ctxs == []
    ensures DecodeAll(d, f, probs, ctxs) == ([], d) && Supplied(d, f, probs, ctxs)
  {
  }

  /** Whatever room the encoder is given and in whatever pieces the decoder gets the stream: the
      decisions come back, all of the stream is read, and the code ends as 0. */
  method Transfer(cs: seq<Choice>) returns (bits: seq<bool>)
    requires Choices(cs, PROBS)
    ensures bits == BitsOf(cs)
  {
    hide *;
    var f := Encode(cs);
    RoundTrip(FirstProbs(), cs);
    StreamBegins(f);
    var status;
    ghost var end;
    status, bits, end := Decode(f, Contexts(cs));
    assert status == Ready && end.code == 0 && end.pos == |f|;
  }

  lemma {:induction false} StreamBegins(f: seq<Byte>)
    requires |f| >= 5 && f[0] == 0 && FirstDec(f).code < 0xFFFF_FFFF
    ensures Begins(f)
  {
  }
}
