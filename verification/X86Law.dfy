/** What the x86 converter leaves, byte by byte: which calls and jumps it changes, and to what. Nothing
    here speaks of scans, masks and words, except for the mask that a buffer starts with. */
module X86Law {
  import Arith
  import opened Bitwise
  import opened Machine
  import opened X86Word
  import opened X86Scan

  /** What a byte is to the converter: nothing to it, the opcode of a call or jump that stays or of one
      that is converted, or a byte of an operand that is converted. */
  datatype Role = Other | Stays | Changes | Inside

  /** Whether an opcode stayed at j; before the buffer the mask tells, its highest bit the last byte. */
  ghost predicate Stayed(roles: seq<Role>, mask: nat, j: int) {
    if j >= 0 then j < |roles| && roles[j] == Stays
    else if j == -1 then mask / 4 % 2 == 1
    else if j == -2 then mask / 2 % 2 == 1
    else j == -3 && mask % 2 == 1
  }

  /** No two of the three bytes before i are opcodes that stayed, and the upper operand byte of the one
      that did, which is an operand byte of i as well, is neither 00 nor FF. */
  ghost predicate Clear(s: seq<Byte>, roles: seq<Role>, mask: nat, i: nat)
    requires i + 5 <= |s|
  {
    var a, b, c := Stayed(roles, mask, i - 1), Stayed(roles, mask, i - 2), Stayed(roles, mask, i - 3);
    && !(a && b) && !(a && c) && !(b && c)
    && (a ==> s[i + 3] != 0 && s[i + 3] != 0xFF)
    && (b ==> s[i + 2] != 0 && s[i + 2] != 0xFF)
    && (c ==> s[i + 1] != 0 && s[i + 1] != 0xFF)
  }

  ghost predicate After(roles: seq<Role>, i: int, e: int) {
    0 <= i - e < |roles| && roles[i - e] == Changes
  }

  /** A call (E8) or jump (E9) with a whole operand whose upper byte is 00 or FF is converted where the
      bytes before are clear; any other stays. */
  ghost predicate RoleAt(s: seq<Byte>, roles: seq<Role>, mask: nat, i: nat)
    requires i < |s| == |roles|
  {
    && (roles[i] == Inside <==> After(roles, i, 1) || After(roles, i, 2) || After(roles, i, 3) || After(roles, i, 4))
    && (roles[i] != Inside ==>
          var opcode := i + 5 <= |s| && (s[i] == 0xE8 || s[i] == 0xE9);
          && (roles[i] == Changes <==> opcode && (s[i + 4] == 0 || s[i + 4] == 0xFF) && Clear(s, roles, mask, i))
          && (roles[i] == Stays <==> opcode && roles[i] != Changes))
  }

  ghost predicate Roles(s: seq<Byte>, roles: seq<Role>, mask: nat) {
    |roles| == |s| && forall i: nat | i < |s| :: RoleAt(s, roles, mask, i)
  }

  /** An operand as a number: three bytes and a sign. */
  ghost function Number(s: seq<Byte>, i: nat): int
    requires i + 5 <= |s|
  {
    s[i + 1] as int + 0x100 * s[i + 2] as int + 0x1_0000 * s[i + 3] as int
    - (if s[i + 4] == 0xFF then 0x100_0000 else 0)
  }

  /** The bits of n below m, all inverted. */
  ghost function Inverted(n: int, m: int): int
    requires m > 0
  {
    n - n % m + (m - 1 - n % m)
  }

  /** The number moved by k; where that makes 00 or FF of the byte below m, the bits below m are
      inverted and the number is moved once more. m is 1 where there is no such byte. */
  ghost function MovedBy(n: int, k: int, m: int): int
    requires m == 1 || m == 0x100 || m == 0x1_0000 || m == 0x100_0000
  {
    if m > 1 && ((n + k) % m / (m / 0x100) == 0 || (n + k) % m / (m / 0x100) == 0xFF) then Inverted(n + k, m) + k
    else n + k
  }

  /** Up to which byte of the operand at i the earlier opcode reaches. */
  ghost function Reach(roles: seq<Role>, mask: nat, i: nat): (m: int)
    ensures m == 1 || m == 0x100 || m == 0x1_0000 || m == 0x100_0000
  {
    if Stayed(roles, mask, i - 1) then 0x100_0000
    else if Stayed(roles, mask, i - 2) then 0x1_0000
    else if Stayed(roles, mask, i - 3) then 0x100 else 1
  }

  /** Encoding adds the address of the next instruction to the operand, decoding subtracts it, modulo
      2^25; everything else stays. */
  ghost predicate ValueAt(s: seq<Byte>, t: seq<Byte>, roles: seq<Role>, mask: nat, pc: int, encoding: bool, i: nat)
    requires i < |s| == |t| == |roles|
  {
    && (roles[i] != Inside ==> t[i] == s[i])
    && (roles[i] == Changes && i + 5 <= |s| ==>
          var k := if encoding then pc + i + 5 else -(pc + i + 5);
          && (t[i + 4] == 0 || t[i + 4] == 0xFF)
          && (Number(t, i) - MovedBy(Number(s, i), k, Reach(roles, mask, i))) % 0x200_0000 == 0)
  }

  ghost predicate Law(s: seq<Byte>, t: seq<Byte>, roles: seq<Role>, mask: nat, pc: int, encoding: bool) {
    && |t| == |s| && Roles(s, roles, mask)
    && forall i: nat | i < |s| :: ValueAt(s, t, roles, mask, pc, encoding, i)
  }

  // ---------- one byte more in front ----------

  /** The mask behind a byte, as the scan has it. */
  lemma {:induction false} StayedBehind(roles: seq<Role>, mask: nat, mask': nat, r: Role, j: int)
    requires mask < 8 && (r == Other || r == Stays) && j >= -3
    requires mask' == if r == Stays then mask / 2 + 4 else mask / 2
    ensures Stayed(roles, mask', j) == Stayed([r] + roles, mask, j + 1)
  {
  }

  lemma {:induction false} AfterBehind(roles: seq<Role>, r: Role, i: nat, e: nat)
    requires (r == Other || r == Stays) && 1 <= e <= 4
    ensures After(roles, i, e) == After([r] + roles, i + 1, e)
  {
  }

  lemma {:induction false} ClearBehind(s: seq<Byte>, roles: seq<Role>, mask: nat, mask': nat, r: Role, i: nat)
    requires mask < 8 && (r == Other || r == Stays) && s != [] && i + 6 <= |s|
    requires mask' == if r == Stays then mask / 2 + 4 else mask / 2
    ensures Clear(s[1..], roles, mask', i) == Clear(s, [r] + roles, mask, i + 1)
    ensures Reach(roles, mask', i) == Reach([r] + roles, mask, i + 1)
  {
    StayedBehind(roles, mask, mask', r, i - 1);
    StayedBehind(roles, mask, mask', r, i - 2);
    StayedBehind(roles, mask, mask', r, i - 3);
    hide Stayed;
  }

  lemma {:induction false} RoleBehind(s: seq<Byte>, roles: seq<Role>, mask: nat, mask': nat, r: Role, i: nat)
    requires mask < 8 && (r == Other || r == Stays) && s != [] && i + 1 < |s| == |roles| + 1
    requires mask' == if r == Stays then mask / 2 + 4 else mask / 2
    requires RoleAt(s[1..], roles, mask', i)
    ensures RoleAt(s, [r] + roles, mask, i + 1)
  {
    hide After, Clear;
    AfterBehind(roles, r, i, 1);
    AfterBehind(roles, r, i, 2);
    AfterBehind(roles, r, i, 3);
    AfterBehind(roles, r, i, 4);
    if i + 6 <= |s| {
      ClearBehind(s, roles, mask, mask', r, i);
    }
  }

  lemma {:induction false} ValueBehind(s: seq<Byte>, t: seq<Byte>, roles: seq<Role>, mask: nat, mask': nat, r: Role,
                                       pc: int, encoding: bool, i: nat)
    requires mask < 8 && (r == Other || r == Stays) && s != [] && i + 1 < |s| == |t| == |roles| + 1
    requires mask' == if r == Stays then mask / 2 + 4 else mask / 2
    requires ValueAt(s[1..], t[1..], roles, mask', pc + 1, encoding, i)
    ensures ValueAt(s, t, [r] + roles, mask, pc, encoding, i + 1)
  {
    hide Reach, MovedBy;
    if i + 6 <= |s| {
      ClearBehind(s, roles, mask, mask', r, i);
    }
  }

  lemma {:induction false} LawBehind(s: seq<Byte>, t: seq<Byte>, roles: seq<Role>, mask: nat, mask': nat, r: Role,
                                     pc: int, encoding: bool)
    requires mask < 8 && (r == Other || r == Stays) && s != [] && |t| == |s| && t[0] == s[0]
    requires mask' == if r == Stays then mask / 2 + 4 else mask / 2
    requires Law(s[1..], t[1..], roles, mask', pc + 1, encoding) && RoleAt(s, [r] + roles, mask, 0)
    ensures Law(s, t, [r] + roles, mask, pc, encoding)
  {
    hide RoleAt, ValueAt;
    forall i: nat | i < |s|
      ensures RoleAt(s, [r] + roles, mask, i) && ValueAt(s, t, [r] + roles, mask, pc, encoding, i)
    {
      if i > 0 {
        RoleBehind(s, roles, mask, mask', r, i - 1);
        ValueBehind(s, t, roles, mask, mask', r, pc, encoding, i - 1);
      } else {
        FirstKept(s, t, roles, mask, r, pc, encoding);
      }
    }
  }

  lemma {:induction false} FirstKept(s: seq<Byte>, t: seq<Byte>, roles: seq<Role>, mask: nat, r: Role, pc: int,
                                     encoding: bool)
    requires (r == Other || r == Stays) && s != [] && |t| == |s| == |roles| + 1 && t[0] == s[0]
    ensures ValueAt(s, t, [r] + roles, mask, pc, encoding, 0)
  {
  }

  // ---------- a converted opcode in front ----------

  ghost function Five(roles: seq<Role>): (r: seq<Role>)
    ensures |r| == |roles| + 5 && r[0] == Changes && r[1] == r[2] == r[3] == r[4] == Inside
    ensures forall j | 0 <= j < |roles| :: r[j + 5] == roles[j]
  {
    [Changes, Inside, Inside, Inside, Inside] + roles
  }

  lemma {:induction false} StayedPast(roles: seq<Role>, mask: nat, j: int)
    requires j >= -3
    ensures Stayed(roles, 0, j) == Stayed(Five(roles), mask, j + 5)
  {
  }

  lemma {:induction false} AfterPast(roles: seq<Role>, i: nat, e: nat)
    requires 1 <= e <= 4
    ensures After(roles, i, e) == After(Five(roles), i + 5, e)
  {
  }

  lemma {:induction false} ClearPast(s: seq<Byte>, roles: seq<Role>, mask: nat, i: nat)
    requires i + 10 <= |s|
    ensures Clear(s[5..], roles, 0, i) == Clear(s, Five(roles), mask, i + 5)
    ensures Reach(roles, 0, i) == Reach(Five(roles), mask, i + 5)
  {
    hide Stayed, Five;
    StayedPast(roles, mask, i - 1);
    StayedPast(roles, mask, i - 2);
    StayedPast(roles, mask, i - 3);
    assert forall k | 0 <= k < |s| - 5 :: s[5..][k] == s[k + 5];
  }

  lemma {:induction false} RolePast(s: seq<Byte>, roles: seq<Role>, mask: nat, i: nat)
    requires i + 5 < |s| == |roles| + 5 && RoleAt(s[5..], roles, 0, i)
    ensures RoleAt(s, Five(roles), mask, i + 5)
  {
    hide After, Clear, Five;
    AfterPast(roles, i, 1);
    AfterPast(roles, i, 2);
    AfterPast(roles, i, 3);
    AfterPast(roles, i, 4);
    if i + 10 <= |s| {
      ClearPast(s, roles, mask, i);
    }
  }

  lemma {:induction false} ValuePast(s: seq<Byte>, t: seq<Byte>, roles: seq<Role>, mask: nat, pc: int, encoding: bool,
                                     i: nat)
    requires i + 5 < |s| == |t| == |roles| + 5 && ValueAt(s[5..], t[5..], roles, 0, pc + 5, encoding, i)
    ensures ValueAt(s, t, Five(roles), mask, pc, encoding, i + 5)
  {
    hide Reach, MovedBy, Five;
    if i + 10 <= |s| {
      ClearPast(s, roles, mask, i);
    }
  }

  lemma {:induction false} FirstRoles(s: seq<Byte>, t: seq<Byte>, roles: seq<Role>, mask: nat, pc: int,
                                      encoding: bool, i: nat)
    requires 1 <= i < 5 <= |s| == |t| == |roles| + 5
    ensures RoleAt(s, Five(roles), mask, i) && ValueAt(s, t, Five(roles), mask, pc, encoding, i)
  {
    hide Clear, MovedBy, Reach, Number;
    assert After(Five(roles), i, i);
  }

  lemma {:induction false} LawPast(s: seq<Byte>, t: seq<Byte>, roles: seq<Role>, mask: nat, pc: int, encoding: bool)
    requires 5 <= |s| == |t| && Law(s[5..], t[5..], roles, 0, pc + 5, encoding)
    requires RoleAt(s, Five(roles), mask, 0) && ValueAt(s, t, Five(roles), mask, pc, encoding, 0)
    ensures Law(s, t, Five(roles), mask, pc, encoding)
  {
    hide RoleAt, ValueAt, Five;
    forall i: nat | i < |s|
      ensures RoleAt(s, Five(roles), mask, i) && ValueAt(s, t, Five(roles), mask, pc, encoding, i)
    {
      if i >= 5 {
        RolePast(s, roles, mask, i - 5);
        ValuePast(s, t, roles, mask, pc, encoding, i - 5);
      } else if i > 0 {
        FirstRoles(s, t, roles, mask, pc, encoding, i);
      }
    }
  }

  // ---------- the operand ----------

  lemma {:induction false} OpcodeIs(b: Byte)
    ensures Opcode(b) <==> b == 0xE8 || b == 0xE9
  {
    hide And, Arith.Pow2;
    BytePowers();
    ShiftedMask();
    AndShifted(b, 0x7F, 1);
    AndLow(Shr(b, 1), 7);
    HalfByte(b);
  }

  lemma {:induction false} ShiftedMask()
    ensures Shl(0x7F, 1) == 0xFE && Arith.Pow2(1) == 2
  {
  }

  lemma {:induction false} HalfByte(b: Byte)
    ensures Shr(b, 1) == b / 2 && Low(b / 2, 7) == b / 2 && Shl(b / 2, 1) == b / 2 * 2
  {
    BytePowers();
    ShiftedMask();
  }

  /** The operand word and its number. */
  lemma {:induction false} NumberIs(s: seq<Byte>, i: nat)
    requires i + 5 <= |s| && Sign(s[i + 4])
    ensures Near(Read(s, i + 1)) && -0x100_0000 <= Number(s, i) < 0x100_0000
    ensures Biased(Read(s, i + 1)) == Number(s, i) + 0x100_0000
  {
    hide Near, Sign, Biased;
    ReadBytes(s, i + 1);
    SignedWord(s[i + 1], s[i + 2], s[i + 3], s[i + 4]);
  }

  lemma {:induction false} SignedWord(a: Byte, b: Byte, c: Byte, d: Byte)
    requires Sign(d)
    ensures (var v, low := Join(a, b, c, d), a as int + 0x100 * b as int + 0x1_0000 * c as int;
      && 0 <= v < WORDS && 0 <= low < 0x100_0000
      && Biased(v) == low - (if d == 0xFF then 0x100_0000 else 0) + 0x100_0000)
  {
    JoinParts(a, b, c, d);
    var v := Join(a, b, c, d);
    BiasedSum(v);
  }

  lemma {:induction false} BiasedSum(v: Word)
    ensures Biased(v) == if v < WORDS - NEAR then v + NEAR else v - (WORDS - NEAR)
  {
  }

  /** What is equal modulo 2^32 is equal modulo what divides it. */
  lemma {:induction false} SameBelow(x: int, y: int, m: int)
    requires x == y % WORDS && (m == 0x100 || m == 0x1_0000 || m == 0x100_0000 || m == 0x200_0000)
    ensures x % m == y % m
  {
    var q, r := y / WORDS, y / WORDS * (WORDS / m);
    assert y == WORDS * q + x;
    assert WORDS * q == m * r;
    var a, b := x / m, x % m;
    assert x == m * a + b && y == m * (r + a) + b;
    Arith.DivModUnique(y, m, r + a, b);
  }

  /** One move of the biased number, in 32 bits. */
  lemma {:induction false} ShiftMoves(x: Word, c: Word, k: int, n: int, encoding: bool, m: int)
    requires m == 0x100 || m == 0x1_0000 || m == 0x100_0000 || m == 0x200_0000
    requires (x - n) % 0x200_0000 == 0x100_0000 && (c - (if encoding then k else -k)) % WORDS == 0
    ensures (Shift(x, c, encoding) - (n + k)) % 0x200_0000 == 0x100_0000
    ensures m < 0x200_0000 ==> Shift(x, c, encoding) % m == (n + k) % m
  {
    var y := if encoding then x + c else x - c;
    SameBelow(Shift(x, c, encoding), y, 0x200_0000);
    SameBelow(Shift(x, c, encoding), y, m);
    MovesModulo(x, c, k, n, encoding);
    if m < 0x200_0000 {
      HalfBias(y, n + k, m);
    }
    SumOfMods(Shift(x, c, encoding), y, n + k);
  }

  lemma {:induction false} MovesModulo(x: int, c: int, k: int, n: int, encoding: bool)
    requires (x - n) % 0x200_0000 == 0x100_0000 && (c - (if encoding then k else -k)) % WORDS == 0
    ensures ((if encoding then x + c else x - c) - (n + k)) % 0x200_0000 == 0x100_0000
  {
    var j := if encoding then c - k else -(c + k);
    var q := (c - (if encoding then k else -k)) / WORDS;
    assert c - (if encoding then k else -k) == WORDS * q;
    var p := (x - n) / 0x200_0000;
    assert x - n == 0x200_0000 * p + 0x100_0000;
    var e := if encoding then 0x80 * q else -(0x80 * q);
    Arith.DivModUnique((if encoding then x + c else x - c) - (n + k), 0x200_0000, p + e, 0x100_0000);
  }

  lemma {:induction false} HalfBias(y: int, n: int, m: int)
    requires (y - n) % 0x200_0000 == 0x100_0000 && (m == 0x100 || m == 0x1_0000 || m == 0x100_0000)
    ensures y % m == n % m
  {
    var p := (y - n) / 0x200_0000;
    assert y - n == 0x200_0000 * p + 0x100_0000;
    var f := 0x100_0000 / m;
    var a, b := n / m, n % m;
    assert n == m * a + b;
    assert 0x200_0000 * p + 0x100_0000 == m * (2 * f * p + f);
    assert y == m * (2 * f * p + f + a) + b;
    Arith.DivModUnique(y, m, 2 * f * p + f + a, b);
  }

  lemma {:induction false} SumOfMods(x: int, y: int, n: int)
    requires x % 0x200_0000 == y % 0x200_0000 && (y - n) % 0x200_0000 == 0x100_0000
    ensures (x - n) % 0x200_0000 == 0x100_0000
  {
  }

  /** The byte below m, and the bits inverted, of two numbers that are the same below m. */
  lemma {:induction false} SameInverted(y: Word, n: int, m: int)
    requires m == 0x100 || m == 0x1_0000 || m == 0x100_0000
    requires (y - n) % 0x200_0000 == 0x100_0000 && y % m == n % m
    ensures ByteBelow(y, m) == n % m / (m / 0x100)
    ensures (Flip(y, m) - Inverted(n, m)) % 0x200_0000 == 0x100_0000
  {
    assert y == y / m * m + y % m;
    assert Flip(y, m) == y - y % m + (m - 1 - y % m);
  }

  /** The moved word, and the moved number. */
  lemma {:induction false} MovedIsMoved(x: Word, c: Word, k: int, n: int, g: nat, m: int, encoding: bool)
    requires Guard(g) && m == (if g == 0 then 1 else g)
    requires (x - n) % 0x200_0000 == 0x100_0000 && (c - (if encoding then k else -k)) % WORDS == 0
    ensures (Moved(x, c, g, encoding) - MovedBy(n, k, m)) % 0x200_0000 == 0x100_0000
  {
    hide Shift, Flip, ByteBelow, Inverted;
    var y := Shift(x, c, encoding);
    if g == 0 {
      ShiftMoves(x, c, k, n, encoding, 0x200_0000);
    } else {
      ShiftMoves(x, c, k, n, encoding, g);
      SameInverted(y, n + k, g);
      if Sign(ByteBelow(y, g)) {
        ShiftMoves(Flip(y, g), c, k, Inverted(n + k, g), encoding, g);
      }
    }
  }

  /** 25 bits written back as an operand. */
  lemma {:induction false} OperandNumber(t: seq<Byte>, i: nat, z: Word)
    requires i + 5 <= |t| && Read(t, i + 1) == Operand(z)
    ensures (t[i + 4] == 0 || t[i + 4] == 0xFF) && Number(t, i) == z % 0x200_0000 - 0x100_0000
  {
    hide Read, Number, Operand, Near, ByteBelow;
    BiasedNear(z);
    ReadBytes(t, i + 1);
    NumberIs(t, i);
    BiasedBack(z % 0x200_0000);
    OperandIs(z);
  }

  lemma {:induction false} OperandIs(z: Word)
    ensures Operand(z) == (z % 0x200_0000 - NEAR) % WORDS && NEAR == 0x100_0000
  {
  }

  lemma {:induction false} SameNumber(z: int, n: int)
    requires (z - n) % 0x200_0000 == 0x100_0000
    ensures (z % 0x200_0000 - 0x100_0000 - n) % 0x200_0000 == 0
  {
  }

  /** The bits of the operand after the opcode at the front. */
  lemma {:induction false} BitsMoved(s: seq<Byte>, mask: nat, pc: int, encoding: bool, k: int, m: int)
    requires 5 <= |s| && Single(mask) && Sign(s[4]) && m == (if mask == 0 then 1 else GuardOf(mask))
    requires k == if encoding then pc + 5 else -(pc + 5)
    ensures m > 0 && (m == 1 || m == 0x100 || m == 0x1_0000 || m == 0x100_0000)
    ensures (Moved(Biased(Read(s, 1)), Target(pc, 0), GuardOf(mask), encoding) - MovedBy(Number(s, 0), k, m))
            % 0x200_0000 == 0x100_0000
  {
    hide *;
    GuardIs(mask);
    GuardSizes(mask);
    TargetIs(pc);
    NumberIs(s, 0);
    BiasedNumber(Biased(Read(s, 1)), Number(s, 0));
    MovedIsMoved(Biased(Read(s, 1)), Target(pc, 0), k, Number(s, 0), GuardOf(mask), m, encoding);
  }

  lemma {:induction false} GuardSizes(mask: nat)
    requires Single(mask)
    ensures GuardOf(mask) == 0 || GuardOf(mask) == 0x100 || GuardOf(mask) == 0x1_0000 || GuardOf(mask) == 0x100_0000
  {
  }

  /** The operand after the opcode at the front. */
  lemma {:induction false} OperandMoved(s: seq<Byte>, mask: nat, pc: int, encoding: bool, k: int, m: int)
    requires 5 <= |s| && Converts(s, 0, mask) && Single(mask) && m == (if mask == 0 then 1 else GuardOf(mask))
    requires k == if encoding then pc + 5 else -(pc + 5)
    ensures m > 0 && (m == 1 || m == 0x100 || m == 0x1_0000 || m == 0x100_0000)
    ensures (var t := Changed(s, 0, mask, pc, encoding);
      && |t| == |s| && t[0] == s[0] && (t[4] == 0 || t[4] == 0xFF)
      && (Number(t, 0) - MovedBy(Number(s, 0), k, m)) % 0x200_0000 == 0)
  {
    hide *;
    ConvertsSign(s, mask);
    BitsMoved(s, mask, pc, encoding, k, m);
    ChangedReads(s, mask, pc, encoding);
    var z := Moved(Biased(Read(s, 1)), Target(pc, 0), GuardOf(mask), encoding);
    OperandNumber(Changed(s, 0, mask, pc, encoding), 0, z);
    SameNumber(z, MovedBy(Number(s, 0), k, m));
  }

  lemma {:induction false} BiasedNumber(x: int, n: int)
    requires x == n + 0x100_0000
    ensures (x - n) % 0x200_0000 == 0x100_0000
  {
  }

  lemma {:induction false} TargetIs(pc: int)
    ensures (Target(pc, 0) - (pc + 5)) % WORDS == 0
  {
  }

  lemma {:induction false} ConvertsSign(s: seq<Byte>, mask: nat)
    requires 5 <= |s| && Converts(s, 0, mask)
    ensures Sign(s[4]) && Single(mask) && Opcode(s[0])
  {
  }

  lemma {:induction false} ChangedReads(s: seq<Byte>, mask: nat, pc: int, encoding: bool)
    requires 5 <= |s| && Single(mask)
    ensures (var t := Changed(s, 0, mask, pc, encoding);
      && |t| == |s| && t[0] == s[0]
      && Read(t, 1) == Operand(Moved(Biased(Read(s, 1)), Target(pc, 0), GuardOf(mask), encoding))
      && t[5..] == s[5..])
  {
    var w := Converted(Read(s, 1), Target(pc, 0), GuardOf(mask), encoding);
    ReadWritten(s, 1, w);
    WrittenAt(s, 1, w);
    hide Read, Write, Moved, Biased, Operand;
  }

  // ---------- the whole scan ----------

  /** With a mask of a single opcode or none, and where it reaches. */
  lemma {:induction false} ClearIs(s: seq<Byte>, roles: seq<Role>, mask: nat)
    requires 5 <= |s| && mask < 8
    ensures Clear(s, roles, mask, 0) <==> Single(mask) && (mask > 0 ==> !Sign(s[1 + mask / 2]))
    ensures Single(mask) ==> Reach(roles, mask, 0) == if mask == 0 then 1 else GuardOf(mask)
  {
  }

  lemma {:induction false} FirstRole(s: seq<Byte>, roles: seq<Role>, mask: nat)
    requires 5 <= |s| == |roles| && mask < 8
    requires roles[0] == (if !Opcode(s[0]) then Other else if Converts(s, 0, mask) then Changes else Stays)
    ensures RoleAt(s, roles, mask, 0)
  {
    OpcodeIs(s[0]);
    ClearIs(s, roles, mask);
    hide Clear, Single, Opcode;
  }

  lemma {:induction false} FirstValue(s: seq<Byte>, t: seq<Byte>, roles: seq<Role>, mask: nat, pc: int, encoding: bool)
    requires 5 <= |s| == |t| == |roles| && mask < 8 && Converts(s, 0, mask) && roles[0] == Changes
    requires Single(mask) && t[..5] == Changed(s, 0, mask, pc, encoding)[..5]
    ensures ValueAt(s, t, roles, mask, pc, encoding, 0)
  {
    ClearIs(s, roles, mask);
    GuardIs(mask);
    OperandMoved(s, mask, pc, encoding, if encoding then pc + 5 else -(pc + 5), if mask == 0 then 1 else GuardOf(mask));
    hide *;
    var u := Changed(s, 0, mask, pc, encoding);
    SameFront(t, u);
    ValueFrom(s, u, t, roles, mask, pc, encoding);
  }

  lemma {:induction false} SameFront(t: seq<Byte>, u: seq<Byte>)
    requires |t| >= 5 && |u| >= 5 && t[..5] == u[..5]
    ensures t[0] == u[0] && t[1] == u[1] && t[2] == u[2] && t[3] == u[3] && t[4] == u[4]
  {
    assert forall j | 0 <= j < 5 :: t[j] == t[..5][j] == u[..5][j] == u[j];
  }

  lemma {:induction false} ValueFrom(s: seq<Byte>, u: seq<Byte>, t: seq<Byte>, roles: seq<Role>, mask: nat, pc: int,
                                     encoding: bool)
    requires 5 <= |s| == |t| == |roles| == |u| && roles[0] == Changes && u[0] == s[0]
    requires t[0] == u[0] && t[1] == u[1] && t[2] == u[2] && t[3] == u[3] && t[4] == u[4]
    requires u[4] == 0 || u[4] == 0xFF
    requires (var k := if encoding then pc + 5 else -(pc + 5);
      (Number(u, 0) - MovedBy(Number(s, 0), k, Reach(roles, mask, 0))) % 0x200_0000 == 0)
    ensures ValueAt(s, t, roles, mask, pc, encoding, 0)
  {
    hide MovedBy, Reach;
    assert Number(t, 0) == Number(u, 0);
    hide Number;
  }

  lemma {:induction false} TooShort(s: seq<Byte>, mask: nat, pc: int, encoding: bool) returns (roles: seq<Role>)
    requires |s| < 5
    ensures Law(s, s, roles, mask, pc, encoding)
  {
    roles := seq(|s|, _ => Other);
  }

  /** Whatever the bytes, the mask, the address and the direction. */
  lemma {:induction false} ScanLaw(s: seq<Byte>, mask: nat, pc: int, encoding: bool) returns (roles: seq<Role>)
    requires mask < 8
    ensures Law(s, Scan(s, 0, mask, pc, encoding), roles, mask, pc, encoding)
    decreases |s|
  {
    hide *;
    var t := Scan(s, 0, mask, pc, encoding);
    if |s| < 5 {
      ScanEnds(s, 0, mask, pc, encoding);
      roles := TooShort(s, mask, pc, encoding);
    } else if Opcode(s[0]) && Converts(s, 0, mask) {
      ConvertsSign(s, mask);
      ScanConverts(s, 0, mask, pc, encoding);
      ChangedReads(s, mask, pc, encoding);
      var u := Changed(s, 0, mask, pc, encoding);
      ScanSuffix(u, 5, 0, 0, pc, encoding);
      var rest := ScanLaw(s[5..], 0, pc + 5, encoding);
      LawSize(s[5..], t[5..], rest, 0, pc + 5, encoding);
      roles := Five(rest);
      FirstRole(s, roles, mask);
      assert t[..5] == u[..5];
      FirstValue(s, t, roles, mask, pc, encoding);
      LawPast(s, t, rest, mask, pc, encoding);
    } else {
      var r := if Opcode(s[0]) then Stays else Other;
      var mask' := if Opcode(s[0]) then mask / 2 + 4 else mask / 2;
      if Opcode(s[0]) {
        ScanStays(s, 0, mask, pc, encoding);
        KeptIsHalf(mask);
      } else {
        ScanSkips(s, 0, mask, pc, encoding);
      }
      ScanSuffix(s, 1, 0, mask', pc, encoding);
      var rest := ScanLaw(s[1..], mask', pc + 1, encoding);
      LawSize(s[1..], t[1..], rest, mask', pc + 1, encoding);
      roles := [r] + rest;
      FirstRole(s, roles, mask);
      LawBehind(s, t, rest, mask, mask', r, pc, encoding);
    }
  }

  lemma {:induction false} KeptIsHalf(mask: nat)
    ensures Kept(mask) == mask / 2 + 4
  {
  }

  lemma {:induction false} LawSize(s: seq<Byte>, t: seq<Byte>, roles: seq<Role>, mask: nat, pc: int, encoding: bool)
    requires Law(s, t, roles, mask, pc, encoding)
    ensures |roles| == |s| == |t|
  {
    hide RoleAt, ValueAt;
  }

  // ---------- what the law fixes ----------

  /** Bytes that are no calls and no jumps stay as they are. */
  lemma {:induction false} NothingToConvert(s: seq<Byte>, t: seq<Byte>, roles: seq<Role>, mask: nat, pc: int,
                                            encoding: bool)
    requires Law(s, t, roles, mask, pc, encoding) && forall i | 0 <= i < |s| :: s[i] != 0xE8 && s[i] != 0xE9
    ensures t == s
  {
    forall i: nat | i < |s|
      ensures t[i] == s[i]
    {
      assert RoleAt(s, roles, mask, i) && ValueAt(s, t, roles, mask, pc, encoding, i);
      NoneBefore(s, roles, mask, i, 1);
      NoneBefore(s, roles, mask, i, 2);
      NoneBefore(s, roles, mask, i, 3);
      NoneBefore(s, roles, mask, i, 4);
      hide After, Clear, ValueAt;
      KeptWhere(s, t, roles, mask, pc, encoding, i);
    }
  }

  lemma {:induction false} KeptWhere(s: seq<Byte>, t: seq<Byte>, roles: seq<Role>, mask: nat, pc: int, encoding: bool,
                                     i: nat)
    requires i < |s| == |t| == |roles| && ValueAt(s, t, roles, mask, pc, encoding, i) && roles[i] != Inside
    ensures t[i] == s[i]
  {
  }

  lemma {:induction false} NotChanged(s: seq<Byte>, roles: seq<Role>, mask: nat, j: nat)
    requires Roles(s, roles, mask) && j < |s| && s[j] != 0xE8 && s[j] != 0xE9
    ensures roles[j] != Changes
  {
    assert RoleAt(s, roles, mask, j);
    hide After, Clear;
  }

  lemma {:induction false} NoneBefore(s: seq<Byte>, roles: seq<Role>, mask: nat, i: nat, e: nat)
    requires Roles(s, roles, mask) && forall j | 0 <= j < |s| :: s[j] != 0xE8 && s[j] != 0xE9
    requires i < |s| && 1 <= e <= 4
    ensures !After(roles, i, e)
  {
    hide RoleAt;
    if i >= e {
      NotChanged(s, roles, mask, i - e);
    }
  }

  /** The bytes that a buffer starts with have at most one reading. */
  lemma {:induction false} OneReading(s: seq<Byte>, a: seq<Role>, b: seq<Role>, mask: nat, n: nat)
    requires Roles(s, a, mask) && Roles(s, b, mask) && n <= |s|
    ensures a[..n] == b[..n]
    decreases n
  {
    if n > 0 {
      OneReading(s, a, b, mask, n - 1);
      SameRole(s, a, b, mask, n - 1);
      assert a[..n] == a[..n - 1] + [a[n - 1]] && b[..n] == b[..n - 1] + [b[n - 1]];
    }
  }

  lemma {:induction false} SameRole(s: seq<Byte>, a: seq<Role>, b: seq<Role>, mask: nat, i: nat)
    requires Roles(s, a, mask) && Roles(s, b, mask) && i < |s| && a[..i] == b[..i]
    ensures a[i] == b[i]
  {
    assert RoleAt(s, a, mask, i) && RoleAt(s, b, mask, i);
    assert forall j | 0 <= j < i :: a[j] == a[..i][j] == b[..i][j] == b[j];
    assert Stayed(a, mask, i - 1) == Stayed(b, mask, i - 1);
    assert Stayed(a, mask, i - 2) == Stayed(b, mask, i - 2);
    assert Stayed(a, mask, i - 3) == Stayed(b, mask, i - 3);
    hide Stayed;
  }

  lemma {:induction false} SameOperand(s: seq<Byte>, t: seq<Byte>, i: nat)
    requires i + 5 <= |s| == |t| && (Number(s, i) - Number(t, i)) % 0x200_0000 == 0
    requires (s[i + 4] == 0 || s[i + 4] == 0xFF) && (t[i + 4] == 0 || t[i + 4] == 0xFF)
    ensures s[i + 1] == t[i + 1] && s[i + 2] == t[i + 2] && s[i + 3] == t[i + 3] && s[i + 4] == t[i + 4]
  {
    var a, b: int, c: int := s[i + 1] as int, s[i + 2], s[i + 3];
    var a', b': int, c': int := t[i + 1] as int, t[i + 2], t[i + 3];
    var x, y := if s[i + 4] == 0xFF then 1 else 0, if t[i + 4] == 0xFF then 1 else 0;
    assert Number(s, i) == a + 0x100 * b + 0x1_0000 * c - 0x100_0000 * x;
    assert Number(t, i) == a' + 0x100 * b' + 0x1_0000 * c' - 0x100_0000 * y;
    hide Number;
    SmallMod(Number(s, i) - Number(t, i));
    SameDigits(a + 0x100 * b, a' + 0x100 * b', c - 0x100 * x, c' - 0x100 * y, 0x1_0000);
    SameDigits(a, a', b, b', 0x100);
    SameDigits(c, c', -x, -y, 0x100);
  }

  lemma {:induction false} SmallMod(d: int)
    requires -0x200_0000 < d < 0x200_0000 && d % 0x200_0000 == 0
    ensures d == 0
  {
  }

  lemma {:induction false} SameDigits(a: int, a': int, b: int, b': int, m: nat)
    requires m > 0 && 0 <= a < m && 0 <= a' < m && a + m * b == a' + m * b'
    ensures a == a' && b == b'
  {
    Arith.DivModUnique(a + m * b, m, b, a);
    Arith.DivModUnique(a + m * b, m, b', a');
  }

  lemma {:induction false} BothMod(x: int, y: int, n: int)
    requires (x - n) % 0x200_0000 == 0 && (y - n) % 0x200_0000 == 0
    ensures (x - y) % 0x200_0000 == 0
  {
  }

  /** And one result. */
  lemma {:induction false} OneResult(s: seq<Byte>, t: seq<Byte>, u: seq<Byte>, a: seq<Role>, b: seq<Role>, mask: nat,
                                     pc: int, encoding: bool)
    requires Law(s, t, a, mask, pc, encoding) && Law(s, u, b, mask, pc, encoding)
    ensures t == u
  {
    OneReading(s, a, b, mask, |s|);
    assert a == a[..|s|] == b[..|s|] == b;
    forall i: nat | i < |s|
      ensures t[i] == u[i]
    {
      assert RoleAt(s, a, mask, i);
      assert ValueAt(s, t, a, mask, pc, encoding, i) && ValueAt(s, u, a, mask, pc, encoding, i);
      hide Law, Roles, Clear, ValueAt;
      if a[i] != Inside {
        KeptWhere(s, t, a, mask, pc, encoding, i);
        KeptWhere(s, u, a, mask, pc, encoding, i);
      } else {
        var e := if After(a, i, 1) then 1 else if After(a, i, 2) then 2 else if After(a, i, 3) then 3 else 4;
        OperandsSame(s, t, u, a, mask, pc, encoding, i - e);
      }
    }
  }

  lemma {:induction false} OperandsSame(s: seq<Byte>, t: seq<Byte>, u: seq<Byte>, a: seq<Role>, mask: nat, pc: int,
                                        encoding: bool, i: nat)
    requires Law(s, t, a, mask, pc, encoding) && Law(s, u, a, mask, pc, encoding) && i < |s| && a[i] == Changes
    ensures i + 5 <= |s| == |t| == |u|
    ensures t[i + 1] == u[i + 1] && t[i + 2] == u[i + 2] && t[i + 3] == u[i + 3] && t[i + 4] == u[i + 4]
  {
    assert RoleAt(s, a, mask, i) && ValueAt(s, t, a, mask, pc, encoding, i) && ValueAt(s, u, a, mask, pc, encoding, i);
    hide Law, Roles, Clear, After, MovedBy, Number, Reach;
    var k := if encoding then pc + i + 5 else -(pc + i + 5);
    BothMod(Number(t, i), Number(u, i), MovedBy(Number(s, i), k, Reach(a, mask, i)));
    SameOperand(t, u, i);
  }

  /** What becomes of s, by the law. */
  ghost predicate Obeys(s: seq<Byte>, t: seq<Byte>, mask: nat, pc: int, encoding: bool) {
    exists roles: seq<Role> :: Law(s, t, roles, mask, pc, encoding)
  }

  /** A call or jump right at the start of the data, with an upper operand byte of 00 or FF, has its
      operand moved by the address of the next instruction. */
  ghost predicate FirstMoved(s: seq<Byte>, t: seq<Byte>, pc: int, encoding: bool) {
    |t| == |s| && (5 <= |s| && (s[0] == 0xE8 || s[0] == 0xE9) && (s[4] == 0 || s[4] == 0xFF) ==>
      && t[0] == s[0] && (t[4] == 0 || t[4] == 0xFF)
      && (Number(t, 0) - (Number(s, 0) + if encoding then pc + 5 else -(pc + 5))) % 0x200_0000 == 0)
  }

  /** What the law says at once: without calls and jumps nothing is changed, and the first call is moved. */
  lemma {:induction false} ObeysPlainly(s: seq<Byte>, t: seq<Byte>, mask: nat, pc: int, encoding: bool)
    requires Obeys(s, t, mask, pc, encoding)
    ensures (forall b | b in s :: b != 0xE8 && b != 0xE9) ==> t == s
    ensures mask == 0 ==> FirstMoved(s, t, pc, encoding)
  {
    hide Law, FirstMoved;
    var roles :| Law(s, t, roles, mask, pc, encoding);
    if forall b | b in s :: b != 0xE8 && b != 0xE9 {
      assert forall i | 0 <= i < |s| :: s[i] in s;
      NothingToConvert(s, t, roles, mask, pc, encoding);
    }
    if mask == 0 {
      FirstIsMoved(s, t, roles, pc, encoding);
    }
  }

  lemma {:induction false} FirstIsMoved(s: seq<Byte>, t: seq<Byte>, roles: seq<Role>, pc: int, encoding: bool)
    requires Law(s, t, roles, 0, pc, encoding)
    ensures FirstMoved(s, t, pc, encoding)
  {
    if 5 <= |s| {
      assert RoleAt(s, roles, 0, 0) && ValueAt(s, t, roles, 0, pc, encoding, 0);
    }
    hide Number;
  }

  lemma {:induction false} ScanObeys(s: seq<Byte>, mask: nat, pc: int, encoding: bool)
    requires mask < 8
    ensures Obeys(s, Scan(s, 0, mask, pc, encoding), mask, pc, encoding)
  {
    hide Law, Scan;
    var roles := ScanLaw(s, mask, pc, encoding);
  }
}
