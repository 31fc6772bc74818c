/** The x86 converter as a scan over bytes: which calls and jumps it converts, why the opposite
    scan finds the same ones, and what a scan cut into parts does. */
module X86Scan {
  import Arith
  import opened Bitwise
  import opened Machine
  import opened X86Word

  /** E8 or E9, as the source tests it. */
  predicate Opcode(b: Byte) {
    And(b, 0xFE) == 0xE8
  }

  lemma {:induction false} BytePowers()
    ensures Arith.Pow2(0) == 1 && Arith.Pow2(3) == 8 && Arith.Pow2(7) == 0x80 && Arith.Pow2(8) == 0x100
    ensures Arith.Pow2(16) == 0x1_0000 && Arith.Pow2(24) == 0x100_0000 && Arith.Pow2(25) == 0x200_0000
  {
    assert Arith.Pow2(4) == 16 && Arith.Pow2(3) == 8;
    Arith.Pow2Sum(4, 3);
    Arith.Pow2Sum(4, 4);
    Arith.Pow2Sum(8, 8);
    Arith.Pow2Sum(16, 8);
  }

  /** Four bytes as a word, the lowest first. */
  function Join(a: int, b: int, c: int, d: int): (r: int) {
    a + 0x100 * b + 0x1_0000 * c + 0x100_0000 * d
  }

  lemma {:induction false} JoinParts(a: Byte, b: Byte, c: Byte, d: Byte)
    ensures (var v := Join(a, b, c, d);
      && 0 <= v < WORDS && v % 0x100 == a && v / 0x100 % 0x100 == b && v / 0x1_0000 % 0x100 == c && v / 0x100_0000 == d
      && v % 0x1_0000 == a + 0x100 * b && v % 0x100_0000 == a + 0x100 * b + 0x1_0000 * c)
  {
    var v := Join(a, b, c, d);
    Arith.DivModUnique(v, 0x100, b + 0x100 * c + 0x1_0000 * d, a);
    Arith.DivModUnique(b + 0x100 * c + 0x1_0000 * d, 0x100, c + 0x100 * d, b);
    Arith.DivModUnique(v, 0x1_0000, c + 0x100 * d, a + 0x100 * b);
    Arith.DivModUnique(c + 0x100 * d, 0x100, d, c);
    Arith.DivModUnique(v, 0x100_0000, d, a + 0x100 * b + 0x1_0000 * c);
  }

  lemma {:induction false} PartsJoin(v: Word)
    ensures v / 0x100_0000 < 0x100
    ensures Join(v % 0x100, v / 0x100 % 0x100, v / 0x1_0000 % 0x100, v / 0x100_0000) == v
  {
    var x, y := v / 0x100, v / 0x1_0000;
    assert v == 0x100 * x + v % 0x100;
    assert x == 0x100 * (x / 0x100) + x % 0x100;
    Arith.DivModUnique(v, 0x1_0000, x / 0x100, 0x100 * (x % 0x100) + v % 0x100);
    assert y == 0x100 * (y / 0x100) + y % 0x100;
    Arith.DivModUnique(v, 0x100_0000, y / 0x100, 0x1_0000 * (y % 0x100) + v % 0x1_0000);
  }

  /** GetUi32. */
  function Read(s: seq<Byte>, i: nat): (r: Word)
    requires i + 4 <= |s|
  {
    JoinParts(s[i], s[i + 1], s[i + 2], s[i + 3]);
    Join(s[i], s[i + 1], s[i + 2], s[i + 3])
  }

  /** SetUi32. */
  function Write(s: seq<Byte>, i: nat, v: Word): (r: seq<Byte>)
    requires i + 4 <= |s|
    ensures |r| == |s|
  {
    PartsJoin(v);
    s[i := v % 0x100][i + 1 := v / 0x100 % 0x100][i + 2 := v / 0x1_0000 % 0x100][i + 3 := v / 0x100_0000]
  }

  lemma {:induction false} WrittenAt(s: seq<Byte>, i: nat, v: Word)
    requires i + 4 <= |s|
    ensures (var t := Write(s, i, v);
      && t[i] == v % 0x100 && t[i + 1] == v / 0x100 % 0x100 && t[i + 2] == v / 0x1_0000 % 0x100
      && t[i + 3] == v / 0x100_0000
      && forall j | 0 <= j < |s| && !(i <= j < i + 4) :: t[j] == s[j])
  {
  }

  lemma {:induction false} ReadWritten(s: seq<Byte>, i: nat, v: Word)
    requires i + 4 <= |s|
    ensures Read(Write(s, i, v), i) == v
  {
    WrittenAt(s, i, v);
    PartsJoin(v);
    hide Join, Write;
  }

  /** Writing back what was read restores the bytes. */
  lemma {:induction false} WriteBack(s: seq<Byte>, i: nat, v: Word)
    requires i + 4 <= |s|
    ensures Write(Write(s, i, v), i, Read(s, i)) == s
  {
    var t := Write(s, i, v);
    WrittenAt(s, i, v);
    WrittenAt(t, i, Read(s, i));
    JoinParts(s[i], s[i + 1], s[i + 2], s[i + 3]);
    hide Join, Write;
  }

  lemma {:induction false} ReadBytes(s: seq<Byte>, i: nat)
    requires i + 4 <= |s|
    ensures Near(Read(s, i)) <==> Sign(s[i + 3])
    ensures ByteBelow(Read(s, i), 0x100) == s[i] && ByteBelow(Read(s, i), 0x1_0000) == s[i + 1]
    ensures ByteBelow(Read(s, i), 0x100_0000) == s[i + 2]
  {
    JoinParts(s[i], s[i + 1], s[i + 2], s[i + 3]);
    var v := Read(s, i);
    var a: int, b: int, c: int := s[i], s[i + 1], s[i + 2];
    Arith.DivModUnique(v % 0x1_0000, 0x100, b, a);
    Arith.DivModUnique(v % 0x100_0000, 0x1_0000, c, a + 0x100 * b);
    hide Join;
  }

  /** The mask tells which of the three bytes before i were opcodes that stayed: bit 2 the last,
      bit 0 the third last. Only one of them may be there. */
  predicate Single(mask: nat) {
    mask == 0 || mask == 1 || mask == 2 || mask == 4
  }

  /** The byte that must stay no sign, as the power above it, for the opcode in the mask. */
  function GuardOf(mask: nat): (m: nat)
    requires Single(mask)
    ensures Guard(m)
  {
    if mask == 0 then 0 else if mask == 1 then 0x100 else if mask == 2 then 0x1_0000 else 0x100_0000
  }

  lemma {:induction false} GuardIs(mask: nat)
    requires Single(mask)
    ensures Guard(GuardOf(mask))
    ensures GuardOf(mask) == 0 <==> mask == 0
    ensures mask > 0 ==> mask == 1 || mask == 2 || mask == 4
  {
  }

  /** Whether the opcode at i gets its operand converted. */
  predicate Converts(s: seq<Byte>, i: nat, mask: nat)
    requires i + 5 <= |s|
  {
    && Opcode(s[i]) && Single(mask) && Sign(s[i + 4])
    && (mask > 0 ==> !Sign(s[i + 1 + mask / 2]))
  }

  /** The address of the next instruction after an opcode at i. */
  function Target(pc: int, i: nat): (r: Word) { (pc + i + 5) % WORDS }

  function Changed(s: seq<Byte>, i: nat, mask: nat, pc: int, encoding: bool): (r: seq<Byte>)
    requires i + 5 <= |s| && Single(mask)
    ensures |r| == |s|
  {
    Write(s, i + 1, Converted(Read(s, i + 1), Target(pc, i), GuardOf(mask), encoding))
  }

  /** The mask after an opcode that stayed. */
  function Kept(mask: nat): nat { mask / 2 + 4 }

  /** The whole scan from i: each opcode is converted or stays, as long as an operand fits. */
  function Scan(s: seq<Byte>, i: nat, mask: nat, pc: int, encoding: bool): (r: seq<Byte>)
    ensures |r| == |s|
    decreases |s| - i
  {
    if i + 5 > |s| then s
    else if !Opcode(s[i]) then Scan(s, i + 1, mask / 2, pc, encoding)
    else if Converts(s, i, mask) then Scan(Changed(s, i, mask, pc, encoding), i + 5, 0, pc, encoding)
    else Scan(s, i + 1, Kept(mask), pc, encoding)
  }

  lemma {:induction false} ScanEnds(s: seq<Byte>, i: nat, mask: nat, pc: int, encoding: bool)
    requires i + 5 > |s|
    ensures Scan(s, i, mask, pc, encoding) == s
  {
  }

  lemma {:induction false} ScanSkips(s: seq<Byte>, i: nat, mask: nat, pc: int, encoding: bool)
    requires i < |s| && !Opcode(s[i])
    ensures Scan(s, i, mask, pc, encoding) == Scan(s, i + 1, mask / 2, pc, encoding)
  {
    hide Opcode;
  }

  lemma {:induction false} ScanStays(s: seq<Byte>, i: nat, mask: nat, pc: int, encoding: bool)
    requires i + 5 <= |s| && Opcode(s[i]) && !Converts(s, i, mask)
    ensures Scan(s, i, mask, pc, encoding) == Scan(s, i + 1, Kept(mask), pc, encoding)
  {
    hide Opcode, Converts;
  }

  lemma {:induction false} ScanConverts(s: seq<Byte>, i: nat, mask: nat, pc: int, encoding: bool)
    requires i + 5 <= |s| && Converts(s, i, mask)
    ensures Single(mask) && Scan(s, i, mask, pc, encoding) == Scan(Changed(s, i, mask, pc, encoding), i + 5, 0, pc,
      encoding)
  {
    hide Opcode, Sign, Changed;
  }

  // ---------- the opposite scan ----------

  lemma {:induction false} ChangedBack(s: seq<Byte>, i: nat, mask: nat, pc: int, encoding: bool)
    requires i + 5 <= |s| && Converts(s, i, mask)
    ensures (var t := Changed(s, i, mask, pc, encoding);
      && Changed(t, i, mask, pc, !encoding) == s
      && Sign(t[i + 4]) && (mask > 0 ==> !Sign(t[i + 1 + mask / 2]))
      && forall j | 0 <= j < |s| && !(i < j < i + 5) :: t[j] == s[j])
  {
    var v, c, m := Read(s, i + 1), Target(pc, i), GuardOf(mask);
    var w := Converted(v, c, m, encoding);
    var t := Changed(s, i, mask, pc, encoding);
    ReadBytes(s, i + 1);
    ConvertedBack(v, c, m, encoding);
    WrittenAt(s, i + 1, w);
    ReadWritten(s, i + 1, w);
    ReadBytes(t, i + 1);
    WriteBack(s, i + 1, w);
    hide Read, Write, Converted, ByteBelow, Near, Sign, Target, Opcode;
  }

  /** Bytes up to i are not changed by a scan from i. */
  lemma {:induction false} ScanKeeps(s: seq<Byte>, i: nat, mask: nat, pc: int, encoding: bool)
    ensures forall j | 0 <= j <= i && j < |s| :: Scan(s, i, mask, pc, encoding)[j] == s[j]
    decreases |s| - i
  {
    hide Opcode, Changed;
    if i + 5 <= |s| {
      if !Opcode(s[i]) {
        ScanKeeps(s, i + 1, mask / 2, pc, encoding);
      } else if Converts(s, i, mask) {
        ScanKeeps(Changed(s, i, mask, pc, encoding), i + 5, 0, pc, encoding);
        ChangedBack(s, i, mask, pc, encoding);
      } else {
        ScanKeeps(s, i + 1, Kept(mask), pc, encoding);
      }
    }
  }

  /** The upper operand bytes of the opcodes in the mask. */
  predicate Watched(mask: nat, k: nat) {
    (k == 0 && mask % 2 == 1) || (k == 1 && mask / 2 % 2 == 1) || (k == 2 && mask / 4 % 2 == 1)
  }

  /** They stay signs, or no signs: an opcode that stayed is not seen as another one later. */
  lemma {:induction false} ScanGuards(s: seq<Byte>, i: nat, mask: nat, pc: int, encoding: bool, k: nat)
    requires mask < 8 && Watched(mask, k) && i + 1 + k < |s|
    ensures Sign(Scan(s, i, mask, pc, encoding)[i + 1 + k]) <==> Sign(s[i + 1 + k])
    decreases |s| - i
  {
    hide Opcode, Changed, Sign;
    if i + 5 <= |s| {
      if Converts(s, i, mask) {
        ScanKeeps(Changed(s, i, mask, pc, encoding), i + 5, 0, pc, encoding);
        ChangedBack(s, i, mask, pc, encoding);
      } else {
        var mask' := if Opcode(s[i]) then Kept(mask) else mask / 2;
        if k == 0 {
          ScanKeeps(s, i + 1, mask', pc, encoding);
        } else {
          ScanGuards(s, i + 1, mask', pc, encoding, k - 1);
        }
      }
    }
  }

  /** A scan sees nothing of what is before it but the mask. */
  lemma {:induction false} ScanSuffix(s: seq<Byte>, k: nat, i: nat, mask: nat, pc: int, encoding: bool)
    requires k + i <= |s|
    ensures Scan(s, k + i, mask, pc, encoding) == s[..k] + Scan(s[k..], i, mask, pc + k, encoding)
    decreases |s| - i
  {
    hide *;
    var u := s[k..];
    assert s == s[..k] + u;
    if k + i + 5 > |s| {
      ScanEnds(s, k + i, mask, pc, encoding);
      ScanEnds(u, i, mask, pc + k, encoding);
    } else {
      assert u[i] == s[k + i];
      ConvertsSuffix(s, k, i, mask);
      if !Opcode(s[k + i]) {
        ScanSkips(s, k + i, mask, pc, encoding);
        ScanSkips(u, i, mask, pc + k, encoding);
        ScanSuffix(s, k, i + 1, mask / 2, pc, encoding);
      } else if Converts(s, k + i, mask) {
        ScanConverts(s, k + i, mask, pc, encoding);
        ScanConverts(u, i, mask, pc + k, encoding);
        ChangedSuffix(s, k, i, mask, pc, encoding);
        ScanSuffix(Changed(s, k + i, mask, pc, encoding), k, i + 5, 0, pc, encoding);
      } else {
        ScanStays(s, k + i, mask, pc, encoding);
        ScanStays(u, i, mask, pc + k, encoding);
        ScanSuffix(s, k, i + 1, Kept(mask), pc, encoding);
      }
    }
  }

  lemma {:induction false} ConvertsSuffix(s: seq<Byte>, k: nat, i: nat, mask: nat)
    requires k + i + 5 <= |s|
    ensures Converts(s[k..], i, mask) <==> Converts(s, k + i, mask)
  {
    hide Opcode, Sign;
  }

  lemma {:induction false} UpdateSuffix(s: seq<Byte>, k: nat, i: nat, b: Byte)
    requires k + i < |s|
    ensures s[k + i := b][..k] == s[..k] && s[k + i := b][k..] == s[k..][i := b]
  {
  }

  lemma {:induction false} WriteSuffix(s: seq<Byte>, k: nat, i: nat, v: Word)
    requires k + i + 4 <= |s|
    ensures Write(s, k + i, v)[..k] == s[..k] && Write(s, k + i, v)[k..] == Write(s[k..], i, v)
  {
    PartsJoin(v);
    var s1 := s[k + i := v % 0x100];
    var s2 := s1[k + i + 1 := v / 0x100 % 0x100];
    var s3 := s2[k + i + 2 := v / 0x1_0000 % 0x100];
    UpdateSuffix(s, k, i, v % 0x100);
    UpdateSuffix(s1, k, i + 1, v / 0x100 % 0x100);
    UpdateSuffix(s2, k, i + 2, v / 0x1_0000 % 0x100);
    UpdateSuffix(s3, k, i + 3, v / 0x100_0000);
  }

  lemma {:induction false} ReadSuffix(s: seq<Byte>, k: nat, i: nat)
    requires k + i + 4 <= |s|
    ensures Read(s[k..], i) == Read(s, k + i)
  {
  }

  lemma {:induction false} ChangedSuffix(s: seq<Byte>, k: nat, i: nat, mask: nat, pc: int, encoding: bool)
    requires k + i + 5 <= |s| && Single(mask)
    ensures (var t := Changed(s, k + i, mask, pc, encoding);
      t[..k] == s[..k] && t[k..] == Changed(s[k..], i, mask, pc + k, encoding))
  {
    ReadSuffix(s, k, i + 1);
    WriteSuffix(s, k, i + 1, Converted(Read(s, k + i + 1), Target(pc, k + i), GuardOf(mask), encoding));
    hide Read, Write, Converted, Single;
  }

  lemma {:induction false} ConvertsSame(s: seq<Byte>, t: seq<Byte>, i: nat, mask: nat, pc: int, encoding: bool)
    requires i + 5 <= |s| == |t| && s[..i + 5] == t[..i + 5]
    ensures Converts(s, i, mask) <==> Converts(t, i, mask)
    ensures Single(mask) ==>
              Changed(t, i, mask, pc, encoding) == Changed(s, i, mask, pc, encoding)[..i + 5] + t[i + 5..]
  {
    assert forall j | 0 <= j < i + 5 :: s[j] == s[..i + 5][j] == t[j];
    if Single(mask) {
      var w := Converted(Read(s, i + 1), Target(pc, i), GuardOf(mask), encoding);
      WrittenAt(s, i + 1, w);
      WrittenAt(t, i + 1, w);
    }
    hide Converted, Opcode, Sign, Write;
  }

  /** Whatever stays in the one scan stays in the opposite one. */
  lemma {:induction false} StillKept(s: seq<Byte>, i: nat, mask: nat, pc: int, encoding: bool)
    requires i + 5 <= |s| && mask < 8 && Opcode(s[i]) && !Converts(s, i, mask)
    ensures !Converts(Scan(s, i, mask, pc, encoding), i, mask)
  {
    var t := Scan(s, i, mask, pc, encoding);
    assert t == Scan(s, i + 1, Kept(mask), pc, encoding);
    ScanKeeps(s, i + 1, Kept(mask), pc, encoding);
    ScanGuards(s, i + 1, Kept(mask), pc, encoding, 2);
    if mask == 2 {
      ScanGuards(s, i + 1, Kept(mask), pc, encoding, 0);
    } else if mask == 4 {
      ScanGuards(s, i + 1, Kept(mask), pc, encoding, 1);
    }
    hide Opcode, Sign, Scan;
  }

  /** The opposite scan, from the same place and with the same mask, undoes a scan. */
  lemma {:induction false} ScanBack(s: seq<Byte>, i: nat, mask: nat, pc: int, encoding: bool)
    requires mask < 8
    ensures Scan(Scan(s, i, mask, pc, encoding), i, mask, pc, !encoding) == s
    decreases |s| - i
  {
    hide Opcode, Sign, Changed, Converts;
    if i + 5 <= |s| {
      var t := Scan(s, i, mask, pc, encoding);
      ScanKeeps(s, i, mask, pc, encoding);
      if !Opcode(s[i]) {
        ScanBack(s, i + 1, mask / 2, pc, encoding);
      } else if Converts(s, i, mask) {
        ConvertedScanBack(s, i, mask, pc, encoding);
        ScanBack(s, i + 5, 0, pc, encoding);
      } else {
        StillKept(s, i, mask, pc, encoding);
        ScanBack(s, i + 1, Kept(mask), pc, encoding);
      }
    }
  }

  lemma {:induction false} ConvertedScanBack(s: seq<Byte>, i: nat, mask: nat, pc: int, encoding: bool)
    requires i + 5 <= |s| && mask < 8 && Opcode(s[i]) && Converts(s, i, mask)
    ensures (var t := Scan(s, i, mask, pc, encoding);
      Converts(t, i, mask) && Changed(t, i, mask, pc, !encoding) == Scan(s, i + 5, 0, pc, encoding))
  {
    hide *;
    ConvertsParts(s, i, mask);
    var s1, t := Changed(s, i, mask, pc, encoding), Scan(s, i, mask, pc, encoding);
    ScanConverts(s, i, mask, pc, encoding);
    ChangedBack(s, i, mask, pc, encoding);
    ConvertsIntro(s1, s[i], i, mask);
    ScanSuffix(s1, i + 5, 0, 0, pc, encoding);
    ScanSuffix(s, i + 5, 0, 0, pc, encoding);
    assert s1[i + 5..] == s[i + 5..];
    assert t[..i + 5] == s1[..i + 5];
    ConvertsSame(s1, t, i, mask, pc, !encoding);
  }

  lemma {:induction false} ConvertsParts(s: seq<Byte>, i: nat, mask: nat)
    requires i + 5 <= |s| && Converts(s, i, mask)
    ensures Opcode(s[i]) && Single(mask)
  {
  }

  lemma {:induction false} ConvertsIntro(s: seq<Byte>, b: Byte, i: nat, mask: nat)
    requires i + 5 <= |s| && s[i] == b && Opcode(b) && Single(mask) && Sign(s[i + 4])
    requires mask > 0 ==> !Sign(s[i + 1 + mask / 2])
    ensures Converts(s, i, mask)
  {
  }

  /** Addresses count modulo 2^32. */
  lemma {:induction false} ScanWraps(s: seq<Byte>, i: nat, mask: nat, pc: int, pc': int, encoding: bool)
    requires pc % WORDS == pc' % WORDS
    ensures Scan(s, i, mask, pc, encoding) == Scan(s, i, mask, pc', encoding)
    decreases |s| - i
  {
    hide *;
    if i + 5 > |s| {
      ScanEnds(s, i, mask, pc, encoding);
      ScanEnds(s, i, mask, pc', encoding);
    } else if !Opcode(s[i]) {
      ScanSkips(s, i, mask, pc, encoding);
      ScanSkips(s, i, mask, pc', encoding);
      ScanWraps(s, i + 1, mask / 2, pc, pc', encoding);
    } else if Converts(s, i, mask) {
      ScanConverts(s, i, mask, pc, encoding);
      ScanConverts(s, i, mask, pc', encoding);
      ChangedWraps(s, i, mask, pc, pc', encoding);
      ScanWraps(Changed(s, i, mask, pc, encoding), i + 5, 0, pc, pc', encoding);
    } else {
      ScanStays(s, i, mask, pc, encoding);
      ScanStays(s, i, mask, pc', encoding);
      ScanWraps(s, i + 1, Kept(mask), pc, pc', encoding);
    }
  }

  lemma {:induction false} ChangedWraps(s: seq<Byte>, i: nat, mask: nat, pc: int, pc': int, encoding: bool)
    requires pc % WORDS == pc' % WORDS && i + 5 <= |s| && Single(mask)
    ensures Changed(s, i, mask, pc, encoding) == Changed(s, i, mask, pc', encoding)
  {
    SumMod(pc, pc', i + 5, WORDS);
    hide Converted, Read, Write, Single;
  }
}
