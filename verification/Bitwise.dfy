/** The bit operators of the source, on integers: their definition, bit by bit, and what
    they come to where they take a field out of a word or put one in. */
module Bitwise {
  import opened Arith

  /** a & b */
  function And(a: nat, b: nat): nat {
    if a == 0 || b == 0 then 0 else 2 * And(a / 2, b / 2) + (if a % 2 == 1 && b % 2 == 1 then 1 else 0)
  }

  /** a | b */
  function Or(a: nat, b: nat): nat {
    if a == 0 then b else if b == 0 then a
    else 2 * Or(a / 2, b / 2) + (if a % 2 == 1 || b % 2 == 1 then 1 else 0)
  }

  /** a ^ b */
  function Xor(a: nat, b: nat): nat {
    if a == 0 then b else if b == 0 then a
    else 2 * Xor(a / 2, b / 2) + (if a % 2 != b % 2 then 1 else 0)
  }

  lemma {:induction false} XorIsZero(a: nat, b: nat)
    ensures Xor(a, b) == 0 <==> a == b
  {
    if a != 0 && b != 0 {
      XorIsZero(a / 2, b / 2);
    }
  }

  lemma {:induction false} OrIsZero(a: nat, b: nat)
    ensures Or(a, b) == 0 <==> a == 0 && b == 0
  {
    if a != 0 && b != 0 {
      OrIsZero(a / 2, b / 2);
    }
  }

  lemma {:induction false} AndCommutes(a: nat, b: nat)
    ensures And(a, b) == And(b, a)
  {
    if a != 0 && b != 0 {
      AndCommutes(a / 2, b / 2);
    }
  }

  /** Setting bits that are clear is an addition. */
  lemma {:induction false} OrDisjoint(a: nat, b: nat)
    requires And(a, b) == 0
    ensures Or(a, b) == a + b
  {
    if a != 0 && b != 0 {
      OrDisjoint(a / 2, b / 2);
    }
  }

  lemma {:induction false} HalfMod(w: nat, x: nat)
    requires x >= 1
    ensures w % (2 * x) == 2 * (w / 2 % x) + w % 2
  {
    var q, r := w / 2 / x, w / 2 % x;
    assert w / 2 == x * q + r;
    assert w == q * (2 * x) + (2 * r + w % 2);
    DivModUnique(w, 2 * x, q, 2 * r + w % 2);
  }

  lemma {:induction false} AndNext(a: nat, b: nat)
    ensures And(a, b) == 2 * And(a / 2, b / 2) + (if a % 2 == 1 && b % 2 == 1 then 1 else 0)
  {
  }

  /** One bit more of a mask of ones. */
  lemma {:induction false} AndOnes(w: nat, x: nat)
    requires x >= 1
    ensures And(w, 2 * x - 1) == 2 * And(w / 2, x - 1) + w % 2
  {
    AndNext(w, 2 * x - 1);
    hide And;
    assert (2 * x - 1) / 2 == x - 1;
  }

  /** The k low bits of w. */
  function Low(w: nat, k: nat): nat { w % Pow2(k) }

  lemma {:induction false} LowNext(w: nat, k: nat)
    ensures Low(w, 0) == 0 && Low(w, k + 1) == 2 * Low(w / 2, k) + w % 2
  {
    HalfMod(w, Pow2(k));
  }

  /** Masking with k ones is the remainder by 2^k. */
  lemma {:induction false} AndLow(w: nat, k: nat)
    ensures And(w, Pow2(k) - 1) == Low(w, k)
  {
    hide And, Low, Pow2;
    if k == 0 {
      LowNext(w, 0);
      AndNothing(w);
    } else {
      AndLow(w / 2, k - 1);
      LowNext(w, k - 1);
      Pow2Next(k - 1);
      AndOnes(w, Pow2(k - 1));
    }
  }

  lemma {:induction false} AndNothing(w: nat)
    ensures And(w, Pow2(0) - 1) == 0
  {
  }

  /** a << k */
  function Shl(a: nat, k: nat): nat {
    MulNonNegative(a, Pow2(k));
    a * Pow2(k)
  }

  /** a >> k */
  function Shr(a: nat, k: nat): nat {
    DivNonNegative(a, Pow2(k));
    a / Pow2(k)
  }

  lemma {:induction false} ShlNext(a: nat, k: nat)
    ensures Shl(a, 0) == a && Shl(a, k + 1) == 2 * Shl(a, k)
  {
    assert a * (2 * Pow2(k)) == 2 * (a * Pow2(k));
  }

  lemma {:induction false} ShrNext(a: nat, k: nat)
    ensures Shr(a, 0) == a && Shr(a, k + 1) == Shr(a / 2, k)
  {
    HalfDiv(a, Pow2(k));
    assert a / 1 == a;
  }

  /** A mask with k zeros at its end works on what is left of a shift by k. */
  lemma {:induction false} AndShifted(w: nat, m: nat, k: nat)
    ensures And(w, Shl(m, k)) == Shl(And(Shr(w, k), m), k)
    decreases k
  {
    hide Shl, Shr, Pow2;
    if k == 0 {
      ShlNext(m, 0);
      ShrNext(w, 0);
      ShlNext(And(w, m), 0);
    } else {
      AndShifted(w / 2, m, k - 1);
      ShlNext(m, k - 1);
      ShrNext(w, k - 1);
      ShlNext(And(Shr(w, k), m), k - 1);
      EvenMask(w, Shl(m, k - 1));
    }
  }

  lemma {:induction false} EvenMask(w: nat, b: nat)
    ensures And(w, 2 * b) == 2 * And(w / 2, b)
  {
  }

  /** Bits above those of w are clear in w. */
  lemma {:induction false} OrAbove(w: nat, m: nat, k: nat)
    requires w < Pow2(k)
    ensures Or(w, Shl(m, k)) == w + Shl(m, k)
  {
    AndShifted(w, m, k);
    DivModUnique(w, Pow2(k), 0, w);
    assert Shl(0, k) == 0;
    OrDisjoint(w, Shl(m, k));
  }

  /** Testing one bit. */
  lemma {:induction false} AndBit(w: nat, k: nat)
    ensures And(w, Pow2(k)) == Shl(Shr(w, k) % 2, k)
  {
    AndShifted(w, 1, k);
    AndLow(Shr(w, k), 1);
    assert Pow2(1) == 2 && Shl(1, k) == Pow2(k);
  }

  /** Setting one bit that is clear. */
  lemma {:induction false} OrBit(w: nat, k: nat)
    requires Shr(w, k) % 2 == 0
    ensures Or(w, Pow2(k)) == w + Pow2(k)
  {
    AndBit(w, k);
    assert Shl(0, k) == 0;
    OrDisjoint(w, Pow2(k));
  }

  lemma {:induction false} XorNext(a: nat, b: nat)
    ensures Xor(a, b) == 2 * Xor(a / 2, b / 2) + (if a % 2 != b % 2 then 1 else 0)
  {
    assert Xor(a / 2, 0) == a / 2 && Xor(0, b / 2) == b / 2;
  }

  /** Inverting the k low bits. */
  lemma {:induction false} XorLow(w: nat, k: nat)
    ensures Xor(w, Pow2(k) - 1) == w - Low(w, k) + (Pow2(k) - 1 - Low(w, k))
  {
    hide Xor, Low, Pow2;
    LowNext(w, 0);
    if k == 0 {
      XorNothing(w);
    } else {
      XorLow(w / 2, k - 1);
      LowNext(w, k - 1);
      Pow2Next(k - 1);
      var x := Pow2(k - 1);
      XorNext(w, 2 * x - 1);
      assert (2 * x - 1) / 2 == x - 1 && (2 * x - 1) % 2 == 1;
    }
  }

  lemma {:induction false} XorNothing(w: nat)
    ensures Xor(w, Pow2(0) - 1) == w && Pow2(0) == 1
  {
  }
}
