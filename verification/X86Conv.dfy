/** The x86 converter over an array (Bra86.c), and over data that comes in pieces. */
module X86Conv {
  import opened Arith
  import opened Bitwise
  import opened Machine
  import opened X86Word
  import opened X86Law
  import opened X86Scan

  /** What is still to do from p, with this mask, is what was to do at the start, whatever
      bytes may follow. */
  ghost predicate Going(was: seq<Byte>, mask0: nat, now: seq<Byte>, p: nat, mask: nat, pc: int, encoding: bool) {
    && |now| == |was| && mask < 8
    && forall rest: seq<Byte> :: Scan(was + rest, 0, mask0, pc, encoding) == Scan(now + rest, p, mask, pc, encoding)
  }

  lemma {:induction false} GoingStart(was: seq<Byte>, mask: nat, pc: int, encoding: bool)
    requires mask < 8
    ensures Going(was, mask, was, 0, mask, pc, encoding)
  {
  }

  lemma {:induction false} GoingNext(was: seq<Byte>, mask0: nat, now: seq<Byte>, p: nat, mask: nat, now': seq<Byte>,
                                     p': nat, mask': nat, pc: int, encoding: bool)
    requires Going(was, mask0, now, p, mask, pc, encoding) && |now'| == |now| && mask' < 8
    requires forall rest: seq<Byte> ::
               Scan(now + rest, p, mask, pc, encoding) == Scan(now' + rest, p', mask', pc, encoding)
    ensures Going(was, mask0, now', p', mask', pc, encoding)
  {
    hide Scan;
  }

  /** Another byte. */
  lemma {:induction false} GoingSkip(was: seq<Byte>, mask0: nat, now: seq<Byte>, p: nat, mask: nat, pc: int,
                                     encoding: bool)
    requires Going(was, mask0, now, p, mask, pc, encoding) && p < |now| && !Opcode(now[p])
    ensures Going(was, mask0, now, p + 1, mask / 2, pc, encoding)
  {
    forall rest: seq<Byte>
      ensures Scan(now + rest, p, mask, pc, encoding) == Scan(now + rest, p + 1, mask / 2, pc, encoding)
    {
      ScanSkips(now + rest, p, mask, pc, encoding);
    }
    hide Scan;
    GoingNext(was, mask0, now, p, mask, now, p + 1, mask / 2, pc, encoding);
  }

  /** An opcode that stays. */
  lemma {:induction false} GoingKeep(was: seq<Byte>, mask0: nat, now: seq<Byte>, p: nat, mask: nat, pc: int,
                                     encoding: bool)
    requires Going(was, mask0, now, p, mask, pc, encoding) && p + 5 <= |now| && Opcode(now[p])
      && !Converts(now, p, mask)
    ensures Going(was, mask0, now, p + 1, Kept(mask), pc, encoding)
  {
    forall rest: seq<Byte>
      ensures Scan(now + rest, p, mask, pc, encoding) == Scan(now + rest, p + 1, Kept(mask), pc, encoding)
    {
      var s := now + rest;
      assert s[..p + 5] == now[..p + 5];
      ConvertsPrefix(now, s, p, mask);
      ScanStays(s, p, mask, pc, encoding);
    }
    hide Scan;
    GoingNext(was, mask0, now, p, mask, now, p + 1, Kept(mask), pc, encoding);
  }

  lemma {:induction false} ConvertsPrefix(s: seq<Byte>, t: seq<Byte>, i: nat, mask: nat)
    requires i + 5 <= |s| && i + 5 <= |t| && s[..i + 5] == t[..i + 5]
    ensures s[i] == t[i] && (Converts(s, i, mask) <==> Converts(t, i, mask)) && Read(s, i + 1) == Read(t, i + 1)
  {
    assert forall j | 0 <= j < i + 5 :: s[j] == s[..i + 5][j] == t[j];
    hide Opcode, Sign;
  }

  /** An opcode with its operand converted. */
  lemma {:induction false} GoingConvert(was: seq<Byte>, mask0: nat, now: seq<Byte>, p: nat, mask: nat, pc: int,
                                        encoding: bool)
    requires Going(was, mask0, now, p, mask, pc, encoding) && p + 5 <= |now| && Converts(now, p, mask)
    ensures Single(mask) && Going(was, mask0, Changed(now, p, mask, pc, encoding), p + 5, 0, pc, encoding)
  {
    ConvertsParts(now, p, mask);
    var now' := Changed(now, p, mask, pc, encoding);
    forall rest: seq<Byte>
      ensures Scan(now + rest, p, mask, pc, encoding) == Scan(now' + rest, p + 5, 0, pc, encoding)
    {
      var s := now + rest;
      assert s[..p + 5] == now[..p + 5];
      ConvertsPrefix(now, s, p, mask);
      ScanConverts(s, p, mask, pc, encoding);
      WritePrefix(now, rest, p + 1, Converted(Read(now, p + 1), Target(pc, p), GuardOf(mask), encoding));
    }
    hide Scan, Write, Read, Converted, Converts;
    GoingNext(was, mask0, now, p, mask, now', p + 5, 0, pc, encoding);
  }

  lemma {:induction false} WritePrefix(s: seq<Byte>, rest: seq<Byte>, i: nat, v: Word)
    requires i + 4 <= |s|
    ensures Write(s + rest, i, v) == Write(s, i, v) + rest
  {
    WrittenAt(s, i, v);
    WrittenAt(s + rest, i, v);
    hide Write;
  }

  /** What a call promises: with the next call on what is left and whatever follows, from the
      mask and the address it ended with, all comes out as in one scan. */
  ghost predicate Called(was: seq<Byte>, state0: nat, now: seq<Byte>, p: nat, state: nat, pc: int, encoding: bool) {
    && |now| == |was| && p <= |now| && state < 8
    && forall rest: seq<Byte> ::
        Scan(was + rest, 0, state0, pc, encoding) == now[..p] + Scan(now[p..] + rest, 0, state, pc + p, encoding)
  }

  lemma {:induction false} GoingEnd(was: seq<Byte>, state0: nat, now: seq<Byte>, p: nat, state: nat, pc: int,
                                    encoding: bool)
    requires Going(was, state0, now, p, state, pc, encoding) && p <= |now|
    ensures Called(was, state0, now, p, state, pc, encoding)
  {
    forall rest: seq<Byte>
      ensures Scan(was + rest, 0, state0, pc, encoding) == now[..p] + Scan(now[p..] + rest, 0, state, pc + p, encoding)
    {
      var s := now + rest;
      ScanSuffix(s, p, 0, state, pc, encoding);
      assert s[..p] == now[..p] && s[p..] == now[p..] + rest;
    }
  }

  // ---------- the bit operators of the source ----------

  /** BR86_NEED_CONV_FOR_MS_BYTE. */
  predicate NeedsConversion(b: nat) {
    And(b + 1, 0xFE) == 0
  }

  lemma {:induction false} NeedsIsSign(b: nat)
    ensures NeedsConversion(b) <==> Sign(b % 0x100)
  {
    assert Pow2(1) == 2 && Shl(0x7F, 1) == 0xFE;
    AndShifted(b + 1, 0x7F, 1);
    assert Pow2(7) == 0x80 by {
      Pow2Sum(4, 3);
      assert Pow2(4) == 16 && Pow2(3) == 8;
    }
    AndLow(Shr(b + 1, 1), 7);
    assert Shr(b + 1, 1) == (b + 1) / 2;
    NeedsMod(b);
  }

  lemma {:induction false} NeedsMod(b: nat)
    ensures (b + 1) / 2 % 0x80 == 0 <==> Sign(b % 0x100)
  {
    var q, r := b / 0x100, b % 0x100;
    assert b == 0x100 * q + r;
    if r == 0xFF {
      assert (b + 1) / 2 == 0x80 * (q + 1);
    } else {
      assert (b + 1) / 2 == 0x80 * q + (r + 1) / 2;
      DivModUnique((b + 1) / 2, 0x80, q, (r + 1) / 2);
    }
  }

  lemma {:induction false} TopMask(x: Word)
    ensures And(x, 0xFE00_0000) == x / 0x200_0000 * 0x200_0000
  {
    hide And, Pow2;
    BytePowers();
    AndShifted(x, 0x7F, 25);
    var q := x / 0x200_0000;
    assert Shr(x, 25) == q < 0x80;
    AndLow(q, 7);
    assert Low(q, 7) == q;
    assert Shl(0x7F, 25) == 0xFE00_0000 && Shl(q, 25) == q * 0x200_0000;
  }

  /** The mask for near operands. */
  lemma {:induction false} NearMask(v: Word)
    ensures And(Biased(v), 0xFE00_0000) == 0 <==> Near(v)
  {
    TopMask(Biased(v));
    hide And;
    assert Biased(v) == if v < WORDS - NEAR then v + NEAR else v - (WORDS - NEAR);
  }

  lemma {:induction false} OperandMask(z: Word)
    ensures (And(z, 0x1FF_FFFF) - 0x100_0000) % WORDS == Operand(z)
  {
    BytePowers();
    AndLow(z, 25);
    hide And;
  }

  /** The guarded byte and the bits below it, by a mask that counts bytes. */
  lemma {:induction false} GuardBits(y: Word, mask: nat)
    requires mask == 1 || mask == 2 || mask == 4
    ensures (var k := Shl(mask / 2, 3);
      && Shl(0x100, k) > 0
      && (NeedsConversion(Shr(y, k)) <==> Sign(ByteBelow(y, GuardOf(mask))))
      && Xor(y, Shl(0x100, k) - 1) == Flip(y, GuardOf(mask)))
  {
    BytePowers();
    var k := Shl(mask / 2, 3);
    assert k == 8 * (mask / 2);
    NeedsIsSign(Shr(y, k));
    GuardDigit(y, mask, k);
    hide *;
    BytePowers();
    GuardFlip(y, mask, k);
  }

  lemma {:induction false} GuardDigit(y: Word, mask: nat, k: nat)
    requires (mask == 1 || mask == 2 || mask == 4) && k == 8 * (mask / 2)
    ensures Shr(y, k) % 0x100 == ByteBelow(y, GuardOf(mask))
  {
    BytePowers();
    DivOfMod(y, Pow2(k), 0x100, GuardOf(mask));
    hide Pow2;
  }

  lemma {:induction false} GuardFlip(y: Word, mask: nat, k: nat)
    requires (mask == 1 || mask == 2 || mask == 4) && k == 8 * (mask / 2)
    ensures Shl(0x100, k) > 0 && Xor(y, Shl(0x100, k) - 1) == Flip(y, GuardOf(mask))
  {
    hide Xor, Flip, GuardOf;
    GuardPower(mask, k);
    XorLow(y, k + 8);
    FlipIs(y, GuardOf(mask));
    hide *;
  }

  lemma {:induction false} GuardPower(mask: nat, k: nat)
    requires (mask == 1 || mask == 2 || mask == 4) && k == 8 * (mask / 2)
    ensures Pow2(k + 8) == GuardOf(mask) == Shl(0x100, k)
  {
    BytePowers();
    Pow2Sum(8, k);
  }

  lemma {:induction false} FlipIs(y: Word, m: nat)
    requires m == 0x100 || m == 0x1_0000 || m == 0x100_0000
    ensures Flip(y, m) == y - y % m + (m - 1 - y % m)
  {
    assert y == m * (y / m) + y % m;
  }

  // ---------- the converter ----------

  method GetUi32(data: array<Byte>, p: nat) returns (v: Word)
    requires p + 4 <= data.Length
    ensures v == Read(data[..], p)
  {
    JoinParts(data[p], data[p + 1], data[p + 2], data[p + 3]);
    var a: int, b: int, c: int, d: int := data[p], data[p + 1], data[p + 2], data[p + 3];
    v := a + 0x100 * b + 0x1_0000 * c + 0x100_0000 * d;
  }

  method SetUi32(data: array<Byte>, p: nat, v: Word)
    requires p + 4 <= data.Length
    modifies data
    ensures data[..] == Write(old(data[..]), p, v)
  {
    PartsJoin(v);
    data[p] := v % 0x100;
    data[p + 1] := v / 0x100 % 0x100;
    data[p + 2] := v / 0x1_0000 % 0x100;
    data[p + 3] := v / 0x100_0000;
  }

  /** Four bytes in search of an opcode, after one that stayed (Bra86.c:69-80). p ends behind it. */
  method SearchFour(data: array<Byte>, p0: nat, mask0: nat, ghost was: seq<Byte>, ghost state: nat, ghost pc: int,
                    ghost encoding: bool)
    returns (p: nat, mask: nat, found: bool)
    requires p0 + 4 <= data.Length && Going(was, state, data[..], p0, mask0, pc, encoding)
    ensures mask < 8 && p0 < p <= p0 + 4 && (mask0 == 0 ==> mask == 0)
    ensures found ==> Opcode(data[p - 1]) && Going(was, state, data[..], p - 1, mask, pc, encoding)
    ensures !found ==> mask == 0 && Going(was, state, data[..], p, mask, pc, encoding)
  {
    GoingMask(was, state, data[..], p0, mask0, pc, encoding);
    hide *;
    p, mask := p0 + 4, mask0;
    if Opcode(data[p0]) {
      return p - 3, mask, true;
    }
    GoingSkip(was, state, data[..], p0, mask, pc, encoding);
    mask := mask / 2;
    if Opcode(data[p0 + 1]) {
      return p - 2, mask, true;
    }
    GoingSkip(was, state, data[..], p0 + 1, mask, pc, encoding);
    mask := mask / 2;
    if Opcode(data[p0 + 2]) {
      return p - 1, mask, true;
    }
    GoingSkip(was, state, data[..], p0 + 2, mask, pc, encoding);
    mask := 0;
    if Opcode(data[p0 + 3]) {
      return p, mask, true;
    }
    GoingSkip(was, state, data[..], p0 + 3, mask, pc, encoding);
    return p, mask, false;
  }

  lemma {:induction false} GoingMask(was: seq<Byte>, mask0: nat, now: seq<Byte>, p: nat, mask: nat, pc: int,
                                     encoding: bool)
    requires Going(was, mask0, now, p, mask, pc, encoding)
    ensures mask < 8 && |now| == |was|
  {
    hide Scan;
  }

  /** The main loop: the same with an empty mask, until the end (Bra86.c:126-139). */
  method SearchOn(data: array<Byte>, p0: nat, lim: nat, ghost was: seq<Byte>, ghost state: nat, ghost pc: int,
                  ghost encoding: bool)
    returns (p: nat, found: bool)
    requires p0 < lim && lim + 4 == data.Length && Going(was, state, data[..], p0, 0, pc, encoding)
    ensures p0 < p < lim + 4
    ensures found ==> Opcode(data[p - 1]) && Going(was, state, data[..], p - 1, 0, pc, encoding)
    ensures !found ==> lim <= p && Going(was, state, data[..], p, 0, pc, encoding)
  {
    hide *;
    p, found := p0, false;
    while p < lim && !found
      invariant p0 <= p < lim + 4 && (found ==> p0 < p)
      invariant found ==> Opcode(data[p - 1]) && Going(was, state, data[..], p - 1, 0, pc, encoding)
      invariant !found ==> Going(was, state, data[..], p, 0, pc, encoding)
      decreases lim + 4 - p
    {
      var mask;
      p, mask, found := SearchFour(data, p, 0, was, state, pc, encoding);
    }
  }

  /** Whether the bytes before forbid the conversion of the operand at p (Bra86.c:91-98). */
  method Forbidden(data: array<Byte>, p: nat, mask: nat) returns (no: bool)
    requires 0 < mask < 8 && 1 <= p && p + 4 <= data.Length && Opcode(data[p - 1])
    ensures no ==> !Converts(data[..], p - 1, mask)
    ensures !no ==> Single(mask) && !Sign(data[p + mask / 2])
  {
    hide *;
    ForbiddenIs(data[..], p, mask);
    if mask > 4 || mask == 3 {
      return true;
    }
    return NeedsConversion(data[p + mask / 2]);
  }

  lemma {:induction false} ForbiddenIs(s: seq<Byte>, p: nat, mask: nat)
    requires 0 < mask < 8 && 1 <= p && p + 4 <= |s|
    ensures mask > 4 || mask == 3 || NeedsConversion(s[p + mask / 2]) ==> !Converts(s, p - 1, mask)
    ensures Single(mask) <==> !(mask > 4 || mask == 3)
    ensures NeedsConversion(s[p + mask / 2]) <==> Sign(s[p + mask / 2])
  {
    NeedsIsSign(s[p + mask / 2]);
    assert s[p + mask / 2] % 0x100 == s[p + mask / 2];
    hide NeedsConversion, Opcode, Sign;
  }

  /** The arithmetic on the 25 bits x (Bra86.c:104-120). */
  method MoveBits(x: Word, c: Word, mask: nat, encoding: bool) returns (v: Word)
    requires Single(mask)
    ensures v == Moved(x, c, GuardOf(mask), encoding)
  {
    hide *;
    GuardIs(mask);
    ShiftIs(x, c, encoding);
    MovedIs(x, c, GuardOf(mask), encoding);
    v := if encoding then (x + c) % 0x1_0000_0000 else (x - c) % 0x1_0000_0000;
    if mask > 0 {
      GuardBits(v, mask);
      var k := Shl(mask / 2, 3);
      if NeedsConversion(Shr(v, k)) {
        v := Xor(v, Shl(0x100, k) - 1);
        ShiftIs(v, c, encoding);
        v := if encoding then (v + c) % 0x1_0000_0000 else (v - c) % 0x1_0000_0000;
      }
    }
  }

  lemma {:induction false} ShiftIs(v: Word, c: Word, encoding: bool)
    ensures Shift(v, c, encoding) == if encoding then (v + c) % 0x1_0000_0000 else (v - c) % 0x1_0000_0000
  {
  }

  lemma {:induction false} MovedIs(x: Word, c: Word, m: nat, encoding: bool)
    requires Guard(m)
    ensures (var y := Shift(x, c, encoding);
      && (m == 0 ==> Moved(x, c, m, encoding) == y)
      && (m > 0 ==> Moved(x, c, m, encoding) == if Sign(ByteBelow(y, m)) then Shift(Flip(y, m), c, encoding) else y))
  {
    hide Shift, Sign, ByteBelow, Flip;
  }

  /** The operand at p, if its upper byte is a sign (Bra86.c:101-124, 148-159). */
  method ConvertOperand(data: array<Byte>, p: nat, mask: nat, pc: Word, encoding: bool) returns (done: bool)
    requires 1 <= p && p + 4 <= data.Length && Opcode(data[p - 1]) && Single(mask)
    requires mask > 0 ==> !Sign(data[p + mask / 2])
    modifies data
    ensures done <==> old(Converts(data[..], p - 1, mask))
    ensures data[..] == if done then old(Changed(data[..], p - 1, mask, pc, encoding)) else old(data[..])
  {
    hide *;
    ghost var now := data[..];
    var v := GetUi32(data, p);
    GuardIs(mask);
    OperandNear(now, p, mask);
    var x: Word := (v + 0x100_0000) % 0x1_0000_0000;
    if And(x, 0xFE00_0000) != 0 {
      return false;
    }
    var c: Word := (pc + p + 4) % 0x1_0000_0000;
    v := MoveBits(x, c, mask, encoding);
    OperandChanged(now, p, mask, pc, v, encoding);
    v := (And(v, 0x1FF_FFFF) - 0x100_0000) % 0x1_0000_0000;
    SetUi32(data, p, v);
    return true;
  }

  lemma {:induction false} BiasedIs(v: Word)
    ensures Biased(v) == (v + 0x100_0000) % 0x1_0000_0000
  {
  }

  lemma {:induction false} OperandNear(s: seq<Byte>, p: nat, mask: nat)
    requires 1 <= p && p + 4 <= |s| && Opcode(s[p - 1]) && Single(mask) && (mask > 0 ==> !Sign(s[p + mask / 2]))
    ensures Converts(s, p - 1, mask) <==> And((Read(s, p) + 0x100_0000) % 0x1_0000_0000, 0xFE00_0000) == 0
  {
    hide *;
    var v := Read(s, p);
    NearMask(v);
    ReadBytes(s, p);
    ConvertsIs(s, p - 1, mask);
    BiasedIs(v);
  }

  lemma {:induction false} OperandChanged(s: seq<Byte>, p: nat, mask: nat, pc: Word, v: Word, encoding: bool)
    requires 1 <= p && p + 4 <= |s| && Single(mask)
    requires v == Moved((Read(s, p) + 0x100_0000) % 0x1_0000_0000, (pc + p + 4) % 0x1_0000_0000, GuardOf(mask),
      encoding)
    ensures Write(s, p, (And(v, 0x1FF_FFFF) - 0x100_0000) % 0x1_0000_0000) == Changed(s, p - 1, mask, pc, encoding)
  {
    OperandMask(v);
    hide And, Read, Single, Write, Operand, Moved, GuardOf;
  }

  lemma {:induction false} ConvertsIs(s: seq<Byte>, i: nat, mask: nat)
    requires i + 5 <= |s| && Opcode(s[i]) && Single(mask) && (mask > 0 ==> !Sign(s[i + 1 + mask / 2]))
    ensures Converts(s, i, mask) <==> Sign(s[i + 4])
  {
    hide Opcode, Sign;
  }

  /** z7_BranchConvSt_X86 (Bra86.c:45-175): p is how far the data is converted, state the mask there. */
  method Convert(data: array<Byte>, pc: Word, state0: nat, encoding: bool) returns (p: nat, state: nat)
    requires state0 < 8
    modifies data
    ensures p <= data.Length < p + 5 && state < 8
    ensures Called(old(data[..]), state0, data[..], p, state, pc, encoding)
    ensures Obeys(old(data[..]), data[..], state0, pc, encoding)
    ensures (forall b | b in old(data[..]) :: b != 0xE8 && b != 0xE9) ==> data[..] == old(data[..])
    ensures state0 == 0 ==> FirstMoved(old(data[..]), data[..], pc, encoding)
  {
    hide *;
    ghost var was := data[..];
    GoingStart(was, state0, pc, encoding);
    p, state := 0, state0;
    if data.Length < 5 {
      GoingEnd(was, state0, data[..], p, state, pc, encoding);
      CalledWhole(was, state0, data[..], p, state, pc, encoding);
      return;
    }
    var lim, plain := data.Length - 4, false;
    while p < lim
      invariant p <= lim + 4 && Going(was, state0, data[..], p, state, pc, encoding) && state < 8
      invariant plain ==> state == 0
      decreases lim + 4 - p
    {
      var found;
      if plain {
        p, found := SearchOn(data, p, lim, was, state0, pc, encoding);
      } else {
        p, state, found := SearchFour(data, p, state, was, state0, pc, encoding);
      }
      if !found {
        plain := true;
      } else if p > lim {
        p := p - 1;
        break;
      } else {
        ghost var now := data[..];
        var no := false;
        if state != 0 {
          no := Forbidden(data, p, state);
        } else {
          NoMask();
        }
        if !no {
          no := ConvertOperand(data, p, state, pc, encoding);
          no := !no;
        }
        if no {
          GoingKeep(was, state0, now, p - 1, state, pc, encoding);
          KeptIs(state);
          state := Or(state / 2, 4);
          plain := false;
        } else {
          GoingConvert(was, state0, now, p - 1, state, pc, encoding);
          p, state, plain := p + 4, 0, true;
        }
      }
    }
    GoingEnd(was, state0, data[..], p, state, pc, encoding);
    CalledWhole(was, state0, data[..], p, state, pc, encoding);
  }

  /** With fewer than five bytes left the buffer is as one scan leaves it. */
  lemma {:induction false} CalledWhole(was: seq<Byte>, state0: nat, now: seq<Byte>, p: nat, state: nat, pc: int,
                                       encoding: bool)
    requires Called(was, state0, now, p, state, pc, encoding) && |now| < p + 5 && state0 < 8
    ensures Obeys(was, now, state0, pc, encoding)
    ensures (forall b | b in was :: b != 0xE8 && b != 0xE9) ==> now == was
    ensures state0 == 0 ==> FirstMoved(was, now, pc, encoding)
  {
    hide Called, Scan, Obeys, FirstMoved;
    CalledAt(was, state0, now, p, state, pc, encoding, []);
    assert was + [] == was && now[p..] + [] == now[p..] && now[..p] + now[p..] == now;
    ScanEnds(now[p..], 0, state, pc + p, encoding);
    ScanObeys(was, state0, pc, encoding);
    ObeysPlainly(was, now, state0, pc, encoding);
  }

  lemma {:induction false} NoMask()
    ensures Single(0)
  {
  }

  lemma {:induction false} KeptIs(mask: nat)
    requires mask < 8
    ensures Or(mask / 2, 4) == Kept(mask) < 8
  {
    OrDisjoint(mask / 2, 4);
  }

  // ---------- data in pieces ----------

  /** One turn of the loop that Bra.h:76-90 shows: what is read, the buffer after the call, and
      what the call returns. */
  datatype Turn = Turn(more: seq<Byte>, now: seq<Byte>, p: nat, state: nat)

  /** Each turn appends to what the last one left, and goes on with its address and mask. */
  ghost predicate Streamed(left: seq<Byte>, state: nat, pc: Word, turns: seq<Turn>, encoding: bool)
    decreases |turns|
  {
    turns == [] ||
    (var q := turns[0];
      && Called(left + q.more, state, q.now, q.p, q.state, pc, encoding) && q.p <= |q.now| < q.p + 5
      && Streamed(q.now[q.p..], q.state, (pc + q.p) % WORDS, turns[1..], encoding))
  }

  ghost function Input(turns: seq<Turn>): seq<Byte> {
    if turns == [] then [] else turns[0].more + Input(turns[1..])
  }

  /** What is converted, and at the end what is left. */
  ghost function Output(left: seq<Byte>, turns: seq<Turn>): seq<Byte>
    decreases |turns|
  {
    if turns == [] then left
    else if turns[0].p > |turns[0].now| then []
    else turns[0].now[..turns[0].p] + Output(turns[0].now[turns[0].p..], turns[1..])
  }

  /** However the data is cut, it comes out as in one scan. */
  lemma {:induction false} CutsUnseen(left: seq<Byte>, state: nat, pc: Word, turns: seq<Turn>, encoding: bool)
    requires |left| < 5 && Streamed(left, state, pc, turns, encoding)
    ensures Output(left, turns) == Scan(left + Input(turns), 0, state, pc, encoding)
    decreases |turns|
  {
    hide Scan, Called;
    if turns == [] {
      assert left + Input(turns) == left;
      ScanEnds(left, 0, state, pc, encoding);
    } else {
      var q, rest := turns[0], Input(turns[1..]);
      var next: Word := (pc + q.p) % WORDS;
      assert left + Input(turns) == (left + q.more) + rest;
      CalledAt(left + q.more, state, q.now, q.p, q.state, pc, encoding, rest);
      CutsUnseen(q.now[q.p..], q.state, next, turns[1..], encoding);
      ScanWraps(q.now[q.p..] + rest, 0, q.state, next, pc + q.p, encoding);
    }
  }

  lemma {:induction false} CalledAt(was: seq<Byte>, state0: nat, now: seq<Byte>, p: nat, state: nat, pc: int,
                                    encoding: bool, rest: seq<Byte>)
    requires Called(was, state0, now, p, state, pc, encoding)
    ensures p <= |now|
    ensures Scan(was + rest, 0, state0, pc, encoding) == now[..p] + Scan(now[p..] + rest, 0, state, pc + p, encoding)
  {
    hide Scan;
  }

  /** So it is what the law makes of the whole. */
  lemma {:induction false} StreamObeys(state: nat, pc: Word, turns: seq<Turn>, encoding: bool)
    requires state < 8 && Streamed([], state, pc, turns, encoding)
    ensures Obeys(Input(turns), Output([], turns), state, pc, encoding)
  {
    hide Obeys, Scan;
    CutsUnseen([], state, pc, turns, encoding);
    assert [] + Input(turns) == Input(turns);
    ScanObeys(Input(turns), state, pc, encoding);
  }

  /** Decoding undoes encoding, from any address and mask, however the data is cut on either side. */
  lemma {:induction false} StreamBack(state: nat, pc: Word, turns: seq<Turn>, turns': seq<Turn>, encoding: bool)
    requires state < 8 && Streamed([], state, pc, turns, encoding) && Streamed([], state, pc, turns', !encoding)
    requires Input(turns') == Output([], turns)
    ensures Output([], turns') == Input(turns)
  {
    CutsUnseen([], state, pc, turns, encoding);
    CutsUnseen([], state, pc, turns', !encoding);
    assert [] + Input(turns) == Input(turns) && [] + Input(turns') == Input(turns');
    ScanBack(Input(turns), 0, state, pc, encoding);
  }
}
