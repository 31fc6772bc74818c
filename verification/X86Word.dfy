/** What the x86 converter does to one operand, and why it can be undone. */
module X86Word {
  import Arith
  import opened Machine

  const WORDS: int := 0x1_0000_0000
  const NEAR: int := 0x100_0000

  /** v += c, or v -= c, in 32 bits. */
  function Shift(v: Word, c: Word, encoding: bool): (r: Word) {
    if encoding then (v + c) % WORDS else (v - c) % WORDS
  }

  lemma {:induction false} ShiftBack(v: Word, c: Word, encoding: bool)
    ensures Shift(Shift(v, c, encoding), c, !encoding) == v
  {
  }

  /** A byte that could be the sign of a near operand: 00 or FF. */
  predicate Sign(b: int) {
    b == 0 || b == 0xFF
  }

  /** The operand, with the sign in its upper byte. */
  predicate Near(v: Word) {
    v < NEAR || v >= WORDS - NEAR
  }

  lemma {:induction false} FlipParts(v: Word, m: nat)
    requires m == 0x100 || m == 0x1_0000 || m == 0x100_0000
    ensures (var r := v / m * m + (m - 1 - v % m); 0 <= r < WORDS && r / m == v / m && r % m == m - 1 - v % m)
  {
    var q, l := v / m, v % m;
    assert v == m * q + l;
    assert q * m == m * q;
    if m == 0x100 {
      assert q < 0x100_0000;
    } else if m == 0x1_0000 {
      assert q < 0x1_0000;
    } else {
      assert q < 0x100;
    }
    Arith.DivModUnique(q * m + (m - 1 - l), m, q, m - 1 - l);
  }

  /** All bits below m inverted. */
  function Flip(v: Word, m: nat): (r: Word)
    requires m == 0x100 || m == 0x1_0000 || m == 0x100_0000
    ensures r / m == v / m && r % m == m - 1 - v % m
  {
    FlipParts(v, m);
    v / m * m + (m - 1 - v % m)
  }

  /** The byte just below m. */
  function ByteBelow(v: Word, m: nat): (r: Byte)
    requires m == 0x100 || m == 0x1_0000 || m == 0x100_0000
  {
    v % m / (m / 0x100)
  }

  /** Which byte is to stay distinguishable, as the power above it; 0 for none. */
  predicate Guard(m: nat) {
    m == 0 || m == 0x100 || m == 0x1_0000 || m == 0x100_0000
  }

  /** A move by c; where that makes a sign of the guarded byte, the bits from there down are
      inverted and moved once more. */
  function Moved(x: Word, c: Word, m: nat, encoding: bool): (r: Word)
    requires Guard(m)
  {
    var y := Shift(x, c, encoding);
    if m > 0 && Sign(ByteBelow(y, m)) then Shift(Flip(y, m), c, encoding) else y
  }

  /** The 25 bits of an operand, with the sign on top. */
  function Biased(v: Word): (r: Word) { (v + NEAR) % WORDS }

  /** The operand that has these 25 bits. */
  function Operand(z: Word): (r: Word) { (z % (2 * NEAR) - NEAR) % WORDS }

  /** The conversion of an operand: its 25 bits are moved. */
  function Converted(v: Word, c: Word, m: nat, encoding: bool): (r: Word)
    requires Guard(m)
  {
    Operand(Moved(Biased(v), c, m, encoding))
  }

  /** The powers of 2 in question. */
  predicate Power(m: int) {
    m == 0x100 || m == 0x1_0000 || m == 0x100_0000 || m == 2 * NEAR
  }

  lemma {:induction false} WordMod(x: int, m: int)
    requires Power(m)
    ensures x % WORDS % m == x % m
  {
    Arith.ModOfMod(x, m, WORDS / m, WORDS);
  }

  lemma {:induction false} SumMod(v: int, w: int, c: int, m: int)
    requires m > 0 && v % m == w % m
    ensures (v + c) % m == (w + c) % m
  {
    var p, q := v / m, w / m;
    assert v == m * p + v % m && w == m * q + w % m;
    var a, b := (v + c) / m, (v + c) % m;
    assert v + c == m * a + b;
    assert w + c == (a + q - p) * m + b by {
      assert (a + q - p) * m == m * a + m * q - m * p;
    }
    Arith.DivModUnique(w + c, m, a + q - p, b);
  }

  function Signed(c: int, encoding: bool): int { if encoding then c else -c }

  /** Moving sees nothing of the upper bits. */
  lemma {:induction false} ShiftLow(v: Word, w: Word, c: Word, m: int, encoding: bool)
    requires Power(m) && v % m == w % m
    ensures Shift(v, c, encoding) % m == Shift(w, c, encoding) % m
  {
    var d := Signed(c, encoding);
    WordMod(v + d, m);
    WordMod(w + d, m);
    SumMod(v, w, d, m);
  }

  lemma {:induction false} PowerMod(x: int, y: int, m: int)
    requires Power(m) && x % (2 * NEAR) == y % (2 * NEAR)
    ensures x % m == y % m
  {
    Arith.ModOfMod(x, m, 2 * NEAR / m, 2 * NEAR);
    Arith.ModOfMod(y, m, 2 * NEAR / m, 2 * NEAR);
  }

  /** Below m, inverting commutes with inverting: two moves around it cancel. */
  lemma {:induction false} FlippedLow(x: Word, c: Word, m: nat, encoding: bool)
    requires Guard(m) && m > 0
    ensures (var y := Shift(x, c, encoding); Shift(Flip(y, m), c, encoding) % m == m - 1 - x % m)
  {
    var d := Signed(c, encoding);
    var y := Shift(x, c, encoding);
    WordMod(x + d, m);
    WordMod(Flip(y, m) + d, m);
    var u := Flip(y, m);
    assert y % m == (x + d) % m && u % m == m - 1 - y % m;
    InverseMod(x, d, u, m);
  }

  lemma {:induction false} InverseMod(x: int, d: int, u: int, m: int)
    requires m > 0 && u % m == m - 1 - (x + d) % m
    ensures (u + d) % m == m - 1 - x % m
  {
    var a, b, e := x / m, (x + d) / m, u / m;
    assert x == m * a + x % m && x + d == m * b + (x + d) % m && u == m * e + u % m;
    assert u + d == (e + b - a) * m + (m - 1 - x % m) by {
      assert (e + b - a) * m == m * e + m * b - m * a;
    }
    Arith.DivModUnique(u + d, m, e + b - a, m - 1 - x % m);
  }

  lemma {:induction false} FlipAgain(y: Word, y': Word, m: nat)
    requires Guard(m) && m > 0 && y' % (2 * NEAR) == Flip(y, m) % (2 * NEAR)
    ensures Flip(y', m) % (2 * NEAR) == y % (2 * NEAR)
  {
    PowerMod(y', Flip(y, m), m);
    var k := m - 1 - 2 * (y' % m);
    assert Flip(y', m) == y' + k by {
      assert y' == m * (y' / m) + y' % m;
    }
    assert Flip(y, m) + k == y by {
      assert y == m * (y / m) + y % m;
    }
    SumMod(y', Flip(y, m), k, 2 * NEAR);
  }

  lemma {:induction false} ByteInverse(v: Word, w: Word, m: nat)
    requires Guard(m) && m > 0
    ensures v % m == w % m ==> ByteBelow(v, m) == ByteBelow(w, m)
    ensures v % m == m - 1 - w % m ==> ByteBelow(v, m) == 0xFF - ByteBelow(w, m)
  {
  }

  lemma {:induction false} NearBiased(v: Word)
    requires Near(v)
    ensures Operand(Biased(v)) == v
  {
    assert Biased(v) == if v < NEAR then v + NEAR else v - (WORDS - NEAR);
  }

  lemma {:induction false} BiasedMod(v: Word, m: nat)
    requires Guard(m) && m > 0
    ensures Biased(v) % m == v % m
  {
    WordMod(v + NEAR, m);
    var q, r := v / m, v % m;
    assert v == m * q + r;
    if m == 0x100 {
      Arith.DivModUnique(v + NEAR, m, q + 0x1_0000, r);
    } else if m == 0x1_0000 {
      Arith.DivModUnique(v + NEAR, m, q + 0x100, r);
    } else {
      Arith.DivModUnique(v + NEAR, m, q + 1, r);
    }
  }

  lemma {:induction false} BiasedNear(z: Word)
    ensures Biased(Operand(z)) % (2 * NEAR) == z % (2 * NEAR) && Near(Operand(z))
  {
    BiasedBack(z % (2 * NEAR));
  }

  /** Taking the bias off and putting it on again, of 25 bits. */
  lemma {:induction false} BiasedBack(r: nat)
    requires r < 2 * NEAR
    ensures (r - NEAR) % WORDS == (if r >= NEAR then r - NEAR else r + WORDS - NEAR)
    ensures Near((r - NEAR) % WORDS) && Biased((r - NEAR) % WORDS) == r
  {
  }

  lemma {:induction false} SameOperand(z: Word, w: Word)
    requires z % (2 * NEAR) == w % (2 * NEAR)
    ensures Operand(z) == Operand(w)
  {
  }

  lemma {:induction false} PlainBack(x: Word, x': Word, c: Word, m: nat, encoding: bool)
    requires Guard(m) && (m > 0 ==> !Sign(ByteBelow(x, m)) && !Sign(ByteBelow(Shift(x, c, encoding), m)))
    requires x' % (2 * NEAR) == Shift(x, c, encoding) % (2 * NEAR)
    ensures Moved(x', c, m, !encoding) % (2 * NEAR) == x % (2 * NEAR)
  {
    ShiftBack(x, c, encoding);
    ShiftLow(x', Shift(x, c, encoding), c, 2 * NEAR, !encoding);
    var y' := Shift(x', c, !encoding);
    if m > 0 {
      PowerMod(y', x, m);
      ByteInverse(y', x, m);
    }
    hide Shift, Flip, ByteBelow;
  }

  lemma {:induction false} FlippedBack(x: Word, x': Word, c: Word, m: nat, encoding: bool)
    requires Guard(m) && m > 0 && Sign(ByteBelow(Shift(x, c, encoding), m))
    requires x' % (2 * NEAR) == Shift(Flip(Shift(x, c, encoding), m), c, encoding) % (2 * NEAR)
    ensures Moved(x', c, m, !encoding) % (2 * NEAR) == x % (2 * NEAR)
  {
    var y := Shift(x, c, encoding);
    ShiftBack(x, c, encoding);
    ShiftBack(Flip(y, m), c, encoding);
    ShiftLow(x', Shift(Flip(y, m), c, encoding), c, 2 * NEAR, !encoding);
    var y' := Shift(x', c, !encoding);
    PowerMod(y', Flip(y, m), m);
    ByteInverse(y', y, m);
    FlipAgain(y, y', m);
    ShiftLow(Flip(y', m), y, c, 2 * NEAR, !encoding);
    hide Shift, Flip, ByteBelow;
  }

  lemma {:induction false} MovedGuard(x: Word, c: Word, m: nat, encoding: bool)
    requires Guard(m) && m > 0 && !Sign(ByteBelow(x, m))
    ensures !Sign(ByteBelow(Moved(x, c, m, encoding), m))
  {
    FlippedLow(x, c, m, encoding);
    ByteInverse(Moved(x, c, m, encoding), x, m);
    hide Shift, Flip, ByteBelow;
  }

  lemma {:induction false} ByteOfBiased(v: Word, m: nat)
    requires Guard(m) && m > 0
    ensures ByteBelow(Biased(v), m) == ByteBelow(v, m)
  {
    BiasedMod(v, m);
    ByteInverse(Biased(v), v, m);
    hide ByteBelow, Biased;
  }

  /** The converted operand is near again, its guarded byte is no sign, and the opposite
      conversion restores it. */
  lemma {:induction false} ConvertedBack(v: Word, c: Word, m: nat, encoding: bool)
    requires Guard(m) && Near(v) && (m > 0 ==> !Sign(ByteBelow(v, m)))
    ensures (var r := Converted(v, c, m, encoding);
      Near(r) && (m > 0 ==> !Sign(ByteBelow(r, m))) && Converted(r, c, m, !encoding) == v)
  {
    var x := Biased(v);
    var z := Moved(x, c, m, encoding);
    var r := Operand(z);
    var x' := Biased(r);
    NearBiased(v);
    BiasedNear(z);
    if m > 0 {
      ByteOfBiased(v, m);
      ByteOfBiased(r, m);
      MovedGuard(x, c, m, encoding);
      PowerMod(x', z, m);
      ByteInverse(x', z, m);
    }
    MovedBack(x, x', c, m, encoding);
    SameOperand(Moved(x', c, m, !encoding), x);
    hide Moved, ByteBelow, Near, Sign, Biased, Operand;
  }

  lemma {:induction false} MovedBack(x: Word, x': Word, c: Word, m: nat, encoding: bool)
    requires Guard(m) && (m > 0 ==> !Sign(ByteBelow(x, m)))
    requires x' % (2 * NEAR) == Moved(x, c, m, encoding) % (2 * NEAR)
    ensures Moved(x', c, m, !encoding) % (2 * NEAR) == x % (2 * NEAR)
  {
    hide Shift, Flip, ByteBelow, Sign;
    if m > 0 && Sign(ByteBelow(Shift(x, c, encoding), m)) {
      FlippedBack(x, x', c, m, encoding);
    } else {
      PlainBack(x, x', c, m, encoding);
    }
  }
}
