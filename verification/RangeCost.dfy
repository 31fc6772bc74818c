/** What decisions cost: the parts of the range, how fast a probability learns, and how few bytes a
    long run of equal decisions takes. */
module RangeCost {
  import Arith
  import opened RangeNumber

  // ---------- one decision ----------

  /** A 0 leaves the number and takes p parts of the range in 2048, up to the rounding of one
      division; a 1 moves the number by that and takes the rest. */
  lemma {:induction false} Shares(e: Enc, p: nat, bit: bool)
    requires Good(e) && 31 <= p <= 2017
    ensures (var n, r := Normal(e), Coded(e, p, bit);
      var part := r.range - (if bit then n.range else 0);
      && 0x100_0000 <= n.range < 0x1_0000_0000 && n.range == (if e.range < 0x100_0000 then 0x100 * e.range else e.range)
      && (!bit ==> Number(r) == Number(n) && r.range * 2048 <= n.range * p < (r.range + p) * 2048)
      && (bit ==> (var zero := n.range - r.range;
            Number(r) == Number(n) + zero && zero * 2048 <= n.range * p < (zero + p) * 2048)))
  {
    hide Normal, Coded, Number, Bound, Digits, Good;
    NormalGood(e);
    CodedGood(e, p, bit);
    GoodRange(Normal(e));
    BoundRounds(Normal(e).range, p);
  }

  lemma {:induction false} GoodRange(e: Enc)
    requires Good(e)
    ensures 0x1_0000 <= e.range < 0x1_0000_0000
  {
  }

  lemma {:induction false} BoundRounds(range: nat, p: nat)
    requires p > 0
    ensures Bound(range, p) * 2048 <= range * p < (Bound(range, p) + p) * 2048
  {
    var q, r := range / 2048, range % 2048;
    Arith.MulMonotone(p, r, 2047);
    Arith.MulNonNegative(p, r);
    Arith.MulDistributes(p, 2048 * q, r);
    Associates(p, q);
    assert range == 2048 * q + r;
  }

  lemma {:induction false} Associates(p: nat, q: nat)
    ensures p * (2048 * q) == 2048 * (q * p)
  {
  }

  /** How far the probability is from certainty that a decision is bit. */
  function Doubt(p: nat, bit: bool): int { if bit then p else 2048 - p }

  /** A decision takes away the 32nd part of the doubt that there will be another like it. */
  lemma {:induction false} Learns(p: nat, bit: bool)
    requires 31 <= p <= 2017
    ensures (var d := if bit then p else 2048 - p;
      Adapted(p, bit) == if bit then d - d / 32 else 2048 - (d - d / 32))
    ensures bit ==> Adapted(p, bit) <= p
    ensures !bit ==> Adapted(p, bit) >= p
  {
  }

  // ---------- how fast doubt goes ----------

  function Fading(d: nat, n: nat): nat {
    if n == 0 then d else Fading(d - d / 32, n - 1)
  }

  lemma {:induction false} FadingMore(d: nat, m: nat, n: nat)
    ensures Fading(d, m + n) == Fading(Fading(d, m), n)
    decreases m
  {
    if m > 0 {
      FadingMore(d - d / 32, m - 1, n);
    }
  }

  lemma {:induction false} FadingNext(d: nat, n: nat)
    ensures Fading(d, n + 1) == Fading(d, n) - Fading(d, n) / 32
  {
    FadingMore(d, n, 1);
    assert Fading(Fading(d, n), 1) == Fading(Fading(d, n) - Fading(d, n) / 32, 0);
  }

  /** As long as it is 32 c, it loses c. */
  lemma {:induction false} FadingLinear(d: nat, c: nat, n: nat)
    requires c > 0 && d < 64 * c
    ensures Fading(d, n) < 32 * c || Fading(d, n) < 64 * c - n * c
    decreases n
  {
    if n > 0 {
      FadingLinear(d, c, n - 1);
      FadingNext(d, n - 1);
      Arith.MulDistributes(c, n, 1);
      hide Fading;
    }
  }

  lemma {:induction false} Halved(d: nat, c: nat)
    requires c > 0 && d < 64 * c
    ensures Fading(d, 32) < 32 * c
  {
    FadingLinear(d, c, 32);
    hide Fading;
  }

  /** After 192 equal decisions the probability is as close to certainty as it gets. */
  lemma {:induction false} FadesIn192(d: nat)
    requires d < 2048
    ensures Fading(d, 192) < 32
  {
    hide Fading;
    var a := Fading(d, 32);
    Halved(d, 32);
    var b := Fading(a, 32);
    Halved(a, 16);
    FadingMore(d, 32, 32);
    var c := Fading(b, 32);
    Halved(b, 8);
    FadingMore(d, 64, 32);
    var x := Fading(c, 32);
    Halved(c, 4);
    FadingMore(d, 96, 32);
    var y := Fading(x, 32);
    Halved(x, 2);
    FadingMore(d, 128, 32);
    Halved(y, 1);
    FadingMore(d, 160, 32);
  }

  // ---------- a run of equal decisions ----------

  function Equals(ctx: nat, bit: bool, n: nat): (r: seq<Choice>)
    ensures |r| == n && forall i | 0 <= i < n :: r[i] == Choice(ctx, bit)
  {
    seq(n, _ => Choice(ctx, bit))
  }

  lemma {:induction false} EqualsTail(ctx: nat, bit: bool, n: nat)
    requires n > 0
    ensures Equals(ctx, bit, n)[1..] == Equals(ctx, bit, n - 1) && Equals(ctx, bit, n)[0] == Choice(ctx, bit)
  {
  }

  /** Next to certain that a decision is bit. */
  predicate Sure(p: nat, bit: bool) { 31 <= p <= 2017 && Doubt(p, bit) < 32 }

  lemma {:induction false} SureStays(p: nat, bit: bool)
    requires Sure(p, bit)
    ensures Sure(Adapted(p, bit), bit)
  {
  }

  /** Then a decision costs less than the 64th part of the range. */
  lemma {:induction false} SureIsCheap(e: Enc, p: nat, bit: bool)
    requires Good(e) && Sure(p, bit)
    ensures Good(Coded(e, p, bit)) && Normal(e).range >= 0x100_0000
    ensures Coded(e, p, bit).range * 64 >= Normal(e).range * 63
    ensures Digits(Coded(e, p, bit)) == Digits(e) + (if e.range < 0x100_0000 then 1 else 0)
    ensures Normal(e).range == if e.range < 0x100_0000 then 0x100 * e.range else e.range
  {
    hide Normal, Coded, Number, Bound, Digits, Good;
    NormalGood(e);
    CodedGood(e, p, bit);
    SureBound(Normal(e).range, p, bit);
  }

  lemma {:induction false} SureBound(range: nat, p: nat, bit: bool)
    requires range >= 0x100_0000 && Sure(p, bit)
    ensures (if bit then range - Bound(range, p) else Bound(range, p)) * 64 >= range * 63
  {
    var q := range / 2048;
    assert range == 2048 * q + range % 2048 && q >= 0x2000;
    if bit {
      Arith.MulMonotone(q, p, 31);
    } else {
      Arith.MulMonotone(q, 2017, p);
    }
  }

  /** At least so much of the range is left k decisions after a byte. */
  function RangeLeft(k: nat): nat
    requires k <= 256
  {
    if k < 32 then 63 * 0x10_0000 * (64 - k)
    else if k < 64 then 63 * 0x8_0000 * (96 - k)
    else if k < 96 then 63 * 0x4_0000 * (128 - k)
    else if k < 128 then 63 * 0x2_0000 * (160 - k)
    else if k < 160 then 63 * 0x1_0000 * (192 - k)
    else if k < 192 then 63 * 0x8000 * (224 - k)
    else if k < 224 then 63 * 0x4000 * (256 - k)
    else 63 * 0x2000 * (288 - k)
  }

  lemma {:induction false} RangeLeftNext(k: nat)
    requires k < 256
    ensures RangeLeft(k) * 63 >= RangeLeft(k + 1) * 64 && RangeLeft(k) >= 0x100_0000
  {
  }

  lemma {:induction false} RangeLeftEnds()
    ensures RangeLeft(0) == 0xFC00_0000 && RangeLeft(256) == 0xFC_0000
  {
  }

  lemma {:induction false} EncodeStep(e: Enc, probs: seq<nat>, ctx: nat, bit: bool, n: nat)
    requires Probs(probs) && ctx < |probs| && n > 0
    ensures Choices(Equals(ctx, bit, n), |probs|) && 31 <= probs[ctx] <= 2017
    ensures (var learned := Learned(probs, Choice(ctx, bit));
      && learned[ctx] == Adapted(probs[ctx], bit)
      && EncodeAll(e, probs, Equals(ctx, bit, n)) ==
         EncodeAll(Coded(e, probs[ctx], bit), learned, Equals(ctx, bit, n - 1)))
  {
    hide Coded, Adapted, Equals;
    EqualsTail(ctx, bit, n);
    assert Prob(probs[ctx]);
  }

  lemma {:induction false} EncodeNone(e: Enc, probs: seq<nat>, ctx: nat, bit: bool)
    requires Probs(probs) && ctx < |probs|
    ensures EncodeAll(e, probs, Equals(ctx, bit, 0)) == e
  {
  }

  /** From k decisions after a byte: a byte for every 256 more. */
  lemma {:induction false} SureRun(e: Enc, probs: seq<nat>, ctx: nat, bit: bool, n: nat, k: nat)
    requires Good(e) && Probs(probs) && ctx < |probs| && Sure(probs[ctx], bit)
    requires 1 <= k <= 256 && e.range >= RangeLeft(k)
    ensures Digits(EncodeAll(e, probs, Equals(ctx, bit, n))) <= Digits(e) + (n + k - 1) / 256
    decreases n
  {
    hide *;
    if n == 0 {
      EncodeNone(e, probs, ctx, bit);
    } else {
      EncodeStep(e, probs, ctx, bit, n);
      SureIsCheap(e, probs[ctx], bit);
      SureStays(probs[ctx], bit);
      RangeLeftEnds();
      var k' := if k < 256 then k + 1 else if e.range < 0x100_0000 then 1 else 256;
      if k < 256 {
        RangeLeftNext(k);
      } else {
        RangeLeftNext(0);
      }
      SureRun(Coded(e, probs[ctx], bit), Learned(probs, Choice(ctx, bit)), ctx, bit, n - 1, k');
    }
  }

  /** From anywhere. */
  lemma {:induction false} SureRunStart(e: Enc, probs: seq<nat>, ctx: nat, bit: bool, n: nat)
    requires Good(e) && Probs(probs) && ctx < |probs| && Sure(probs[ctx], bit)
    ensures Digits(EncodeAll(e, probs, Equals(ctx, bit, n))) <= Digits(e) + 2 + n / 256
  {
    hide *;
    if n == 0 {
      EncodeNone(e, probs, ctx, bit);
    } else {
      EncodeStep(e, probs, ctx, bit, n);
      SureIsCheap(e, probs[ctx], bit);
      SureStays(probs[ctx], bit);
      RangeLeftEnds();
      SureRun(Coded(e, probs[ctx], bit), Learned(probs, Choice(ctx, bit)), ctx, bit, n - 1, 256);
    }
  }

  /** At first, a byte for each of the decisions that it takes to learn. */
  lemma {:induction false} LearningRun(e: Enc, probs: seq<nat>, ctx: nat, bit: bool, n: nat, m: nat)
    requires Good(e) && Probs(probs) && ctx < |probs| && m <= n && Fading(Doubt(probs[ctx], bit), m) < 32
    ensures Digits(EncodeAll(e, probs, Equals(ctx, bit, n))) <= Digits(e) + m + 2 + (n - m) / 256
    decreases m
  {
    hide Good, Coded, Number, Digits, Adapted, EncodeAll, Equals, Normal, Fading, Learned, Bound;
    if m == 0 {
      FadingNone(Doubt(probs[ctx], bit));
      assert Prob(probs[ctx]);
      SureRunStart(e, probs, ctx, bit, n);
    } else {
      EncodeStep(e, probs, ctx, bit, n);
      CodedGood(e, probs[ctx], bit);
      NormalGood(e);
      Learns(probs[ctx], bit);
      FadingFirst(Doubt(probs[ctx], bit), m);
      LearningRun(Coded(e, probs[ctx], bit), Learned(probs, Choice(ctx, bit)), ctx, bit, n - 1, m - 1);
    }
  }

  lemma {:induction false} FadingNone(d: nat)
    ensures Fading(d, 0) == d
  {
  }

  lemma {:induction false} FadingFirst(d: nat, m: nat)
    requires m > 0
    ensures Fading(d, m) == Fading(d - d / 32, m - 1)
  {
  }

  /** Whatever the probability was, a run of equal decisions takes no more than a byte for every 256
      of them, and 194 in all besides. */
  lemma {:induction false} RunIsShort(e: Enc, probs: seq<nat>, ctx: nat, bit: bool, n: nat)
    requires Good(e) && Probs(probs) && ctx < |probs|
    ensures Choices(Equals(ctx, bit, n), |probs|)
    ensures Digits(EncodeAll(e, probs, Equals(ctx, bit, n))) <= Digits(e) + 194 + n / 256
  {
    hide Good, Number, Digits, EncodeAll, Fading;
    assert Prob(probs[ctx]);
    if n < 192 {
      ShortRun(e, probs, ctx, bit, n);
    } else {
      FadesIn192(Doubt(probs[ctx], bit));
      LearningRun(e, probs, ctx, bit, n, 192);
    }
  }

  /** No decision takes more than a byte. */
  lemma {:induction false} ShortRun(e: Enc, probs: seq<nat>, ctx: nat, bit: bool, n: nat)
    requires Good(e) && Probs(probs) && ctx < |probs|
    ensures Digits(EncodeAll(e, probs, Equals(ctx, bit, n))) <= Digits(e) + n
    decreases n
  {
    hide Good, Coded, Number, Digits, Adapted, EncodeAll, Equals, Normal, Learned, Bound;
    if n == 0 {
      EncodeNone(e, probs, ctx, bit);
    } else {
      EncodeStep(e, probs, ctx, bit, n);
      CodedGood(e, probs[ctx], bit);
      NormalGood(e);
      ShortRun(Coded(e, probs[ctx], bit), Learned(probs, Choice(ctx, bit)), ctx, bit, n - 1);
    }
  }
}
