/** The 32-bit instruction word: opcode:7, A:8, B:8, immediate flag:1, C:8 (funcs.h, debug.c, converter.c). */
module Encoding {
  import opened Crc32Laws

  /** `OPC`. */
  function Opcode(w: bv32): bv8 { ((w >> 25) & 0x7F) as bv8 }

  /** `RA`, `RB` and `RC`. */
  function FieldA(w: bv32): bv8 { ((w >> 17) & 0xFF) as bv8 }

  function FieldB(w: bv32): bv8 { ((w >> 9) & 0xFF) as bv8 }

  function FieldC(w: bv32): bv8 { (w & 0xFF) as bv8 }

  /** `FIMM`. */
  predicate HasImm(w: bv32) { (w >> 8) & 1 == 1 }

  /** The word the assembler builds. */
  function Pack(op: bv8, a: bv8, b: bv8, imm: bool, c: bv8): bv32 {
    ((op as bv32) << 25) | ((a as bv32) << 17) | ((b as bv32) << 9) | (if imm then (1 << 8) | (c as bv32) else c as bv32)
  }

  lemma PackedImm(op: bv8, a: bv8, b: bv8, c: bv8)
    requires op < 0x80
    ensures var w := Pack(op, a, b, true, c);
            Opcode(w) == op && FieldA(w) == a && FieldB(w) == b && HasImm(w) && FieldC(w) == c
  {
  }

  lemma PackedReg(op: bv8, a: bv8, b: bv8, c: bv8)
    requires op < 0x80
    ensures var w := Pack(op, a, b, false, c);
            Opcode(w) == op && FieldA(w) == a && FieldB(w) == b && !HasImm(w) && FieldC(w) == c
  {
  }

  /** The fields read back what was packed. */
  lemma FieldsOfPack(op: bv8, a: bv8, b: bv8, imm: bool, c: bv8)
    requires op < 0x80
    ensures var w := Pack(op, a, b, imm, c);
            Opcode(w) == op && FieldA(w) == a && FieldB(w) == b && HasImm(w) == imm && FieldC(w) == c
  {
    if imm { PackedImm(op, a, b, c); } else { PackedReg(op, a, b, c); }
  }

  /** Every word is the packing of its fields. */
  lemma PackOfFields(w: bv32)
    ensures Opcode(w) < 0x80
    ensures Pack(Opcode(w), FieldA(w), FieldB(w), HasImm(w), FieldC(w)) == w
  {
  }

  /** Where the fields lie: opcode from bit 25, A from bit 17, B from bit 9, the flag at bit 8, C below. */
  lemma PackIsSum(op: bv8, a: bv8, b: bv8, imm: bool, c: bv8)
    ensures Pack(op, a, b, imm, c) ==
            (op as bv32) * 0x200_0000 + (a as bv32) * 0x2_0000 + (b as bv32) * 0x200 + (if imm then 0x100 else 0) + (c as bv32)
  {
  }

  /** The word of JMP R0, R0, #8. */
  lemma JumpEight()
    ensures Pack(62, 0, 0, true, 8) == 0x7C00_0108
  {
  }

  /** `sext(n, 8)`. */
  function SignExtend(n: bv32): bv32 {
    if (n >> 7) & 1 == 1 then n | 0xFFFF_FF00 else n
  }

  /** The signed value of a byte. */
  function Int8(c: bv8): (v: int)
    ensures -128 <= v < 128
  {
    if c < 0x80 then ByteLow(c); c as int else ByteHigh(c); c as int - 256
  }

  lemma ByteLow(c: bv8)
    requires c < 0x80
    ensures c as int < 128
  {
  }

  lemma ByteHigh(c: bv8)
    requires c >= 0x80
    ensures c as int >= 128
  {
  }

  /** `(uint8_t)v`. */
  function ByteOf(v: int): bv8 { (v % 256) as bv8 }

  lemma ByteModulo(x: int)
    requires 0 <= x < 256
    ensures x % 256 == x && (x - 256) % 256 == x
  {
  }

  lemma ByteBack(c: bv8)
    ensures (c as int) as bv8 == c
  {
  }

  lemma ByteOfInt8(c: bv8)
    ensures ByteOf(Int8(c)) == c
  {
    var x := c as int;
    ByteBack(c);
    ByteModulo(x);
  }

  lemma ExtendedLow(c: bv8)
    requires c < 0x80
    ensures SignExtend(c as bv32) == c as bv32
  {
  }

  lemma ExtendedHigh(c: bv8)
    requires c >= 0x80
    ensures SignExtend(c as bv32) == 0 - (0x100 - (c as bv32))
  {
  }

  /** The extended immediate is the signed value in two's complement: the byte itself, or minus the
      magnitude of a negative one. */
  lemma SignExtended(c: bv8)
    ensures SignExtend(c as bv32) == if c < 0x80 then c as bv32 else 0 - (0x100 - (c as bv32))
  {
    hide SignExtend;
    if c < 0x80 {
      ExtendedLow(c);
    } else {
      ExtendedHigh(c);
    }
  }

  /** `vm_mr32` on four bytes. */
  function WordOf(b0: bv8, b1: bv8, b2: bv8, b3: bv8): bv32 {
    (b0 as bv32) | ((b1 as bv32) << 8) | ((b2 as bv32) << 16) | ((b3 as bv32) << 24)
  }

  /** `vm_mw32`: the four bytes of a word. */
  function LittleEndian(w: bv32): (bytes: seq<bv8>)
    ensures |bytes| == 4
  {
    [(w & 0xFF) as bv8, ((w >> 8) & 0xFF) as bv8, ((w >> 16) & 0xFF) as bv8, ((w >> 24) & 0xFF) as bv8]
  }

  lemma WordOfBytes(w: bv32)
    ensures WordOf((w & 0xFF) as bv8, ((w >> 8) & 0xFF) as bv8, ((w >> 16) & 0xFF) as bv8, ((w >> 24) & 0xFF) as bv8) == w
  {
  }

  lemma PartsOfWord(b0: bv8, b1: bv8, b2: bv8, b3: bv8)
    ensures (WordOf(b0, b1, b2, b3) & 0xFF) as bv8 == b0
    ensures ((WordOf(b0, b1, b2, b3) >> 8) & 0xFF) as bv8 == b1
    ensures ((WordOf(b0, b1, b2, b3) >> 16) & 0xFF) as bv8 == b2
    ensures ((WordOf(b0, b1, b2, b3) >> 24) & 0xFF) as bv8 == b3
  {
  }

  lemma BytesOfWord(b0: bv8, b1: bv8, b2: bv8, b3: bv8)
    ensures LittleEndian(WordOf(b0, b1, b2, b3)) == [b0, b1, b2, b3]
  {
    hide WordOf;
    PartsOfWord(b0, b1, b2, b3);
  }

  /** The bytes the checksum sees are the bytes in memory. */
  lemma SameBytes(w: bv32)
    ensures Bytes(w, 4) == LittleEndian(w)
  {
    assert Bytes(w, 4) == [(w & 0xFF) as bv8] + Bytes(w >> 8, 3);
    assert Bytes(w >> 8, 3) == [((w >> 8) & 0xFF) as bv8] + Bytes(w >> 16, 2);
    assert Bytes(w >> 16, 2) == [((w >> 16) & 0xFF) as bv8] + Bytes(w >> 24, 1);
    assert Bytes(w >> 24, 1) == [((w >> 24) & 0xFF) as bv8];
  }
}
