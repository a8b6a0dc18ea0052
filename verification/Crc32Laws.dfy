/** What the checksum detects, and the four-byte hash of hashing.c built on it. */
module Crc32Laws {
  import opened Crc32

  // ------------------------------------------------------------------
  // The register over concatenations
  // ------------------------------------------------------------------

  lemma {:induction false} FeedAppend(c: bv32, u: seq<bool>, v: seq<bool>)
    ensures FeedBits(c, u + v) == FeedBits(FeedBits(c, u), v)
    decreases |u|
  {
    if u == [] {
      assert u + v == v;
    } else {
      assert (u + v)[1..] == u[1..] + v;
      FeedAppend(FeedBit(c, u[0]), u[1..], v);
    }
  }

  lemma {:induction false} BitsAppend(a: seq<bv8>, b: seq<bv8>)
    ensures BitsOf(a + b) == BitsOf(a) + BitsOf(b)
  {
    if a == [] {
      assert a + b == b;
    } else {
      assert (a + b)[1..] == a[1..] + b;
      BitsAppend(a[1..], b);
    }
  }

  /** Checksumming may stop and resume anywhere: `crc32_update` over pieces is one pass over the whole. */
  lemma RegisterAppend(c: bv32, a: seq<bv8>, b: seq<bv8>)
    ensures Register(c, a + b) == Register(Register(c, a), b)
  {
    BitsAppend(a, b);
    FeedAppend(c, BitsOf(a), BitsOf(b));
  }

  lemma {:induction false} FeedInjective(c: bv32, d: bv32, bits: seq<bool>)
    requires c != d
    ensures FeedBits(c, bits) != FeedBits(d, bits)
    decreases |bits|
  {
    if bits != [] {
      FeedBitInjective(c, d, bits[0]);
      FeedInjective(FeedBit(c, bits[0]), FeedBit(d, bits[0]), bits[1..]);
    }
  }

  lemma FeedBitInjective(c: bv32, d: bv32, bit: bool)
    requires c != d
    ensures FeedBit(c, bit) != FeedBit(d, bit)
  {
    FeedBitIs(c, bit);
    FeedBitIs(d, bit);
    if FeedBit(c, bit) == FeedBit(d, bit) {
      UnstepStep(Xor(c, Low(bit)));
      UnstepStep(Xor(d, Low(bit)));
      XorComm(c, Low(bit));
      XorComm(d, Low(bit));
      XorCancel(Low(bit), c, d);
    }
  }

  /** Superposition: the register is linear in its start state and its input together. */
  function XorBits(u: seq<bool>, v: seq<bool>): (w: seq<bool>)
    requires |u| == |v|
  {
    seq(|u|, i requires 0 <= i < |u| => u[i] != v[i])
  }

  lemma LowXor(a: bool, b: bool)
    ensures Low(a != b) == Xor(Low(a), Low(b))
  {
  }

  lemma XorSwap(a: bv32, b: bv32, c: bv32, d: bv32)
    ensures Xor(Xor(a, b), Xor(c, d)) == Xor(Xor(a, c), Xor(b, d))
  {
    XorAssoc(a, b, Xor(c, d));
    XorAssoc(b, c, d);
    XorComm(b, c);
    XorAssoc(c, b, d);
    XorAssoc(a, c, Xor(b, d));
  }

  lemma FeedBitLinear(c: bv32, d: bv32, a: bool, b: bool)
    ensures FeedBit(Xor(c, d), a != b) == Xor(FeedBit(c, a), FeedBit(d, b))
  {
    FeedBitIs(Xor(c, d), a != b);
    FeedBitIs(c, a);
    FeedBitIs(d, b);
    LowXor(a, b);
    XorSwap(c, d, Low(a), Low(b));
    BitStepLinear(Xor(c, Low(a)), Xor(d, Low(b)));
  }

  lemma {:induction false} FeedLinear(c: bv32, d: bv32, u: seq<bool>, v: seq<bool>)
    requires |u| == |v|
    ensures FeedBits(Xor(c, d), XorBits(u, v)) == Xor(FeedBits(c, u), FeedBits(d, v))
    decreases |u|
  {
    if u != [] {
      FeedBitLinear(c, d, u[0], v[0]);
      assert XorBits(u, v)[1..] == XorBits(u[1..], v[1..]);
      FeedLinear(FeedBit(c, u[0]), FeedBit(d, v[0]), u[1..], v[1..]);
    }
  }

  // ------------------------------------------------------------------
  // Burst errors
  // ------------------------------------------------------------------

  /** Two bit windows of at most 32 bits lead one register to different states. */
  lemma WindowInjective(c: bv32, u: seq<bool>, v: seq<bool>)
    requires |u| == |v| <= 32 && u != v
    ensures FeedBits(c, u) != FeedBits(c, v)
  {
    FeedIsSteps(c, u);
    FeedIsSteps(c, v);
    if FeedBits(c, u) == FeedBits(c, v) {
      StepsInjective(Xor(c, Pack(u)), Xor(c, Pack(v)), |u|);
      XorCancel(c, Pack(u), Pack(v));
      PackInjective(u, v);
    }
  }

  /** Every burst of at most 32 bits, at any bit offset, changes the register for good. */
  lemma BurstDetected(c: bv32, before: seq<bool>, u: seq<bool>, v: seq<bool>, after: seq<bool>)
    requires |u| == |v| <= 32 && u != v
    ensures FeedBits(c, before + u + after) != FeedBits(c, before + v + after)
  {
    FeedAppend(c, before + u, after);
    FeedAppend(c, before + v, after);
    FeedAppend(c, before, u);
    FeedAppend(c, before, v);
    WindowInjective(FeedBits(c, before), u, v);
    FeedInjective(FeedBits(c, before + u), FeedBits(c, before + v), after);
  }

  lemma BitsOfByteInjective(a: bv8, b: bv8)
    requires BitsOfByte(a) == BitsOfByte(b)
    ensures a == b
  {
    ByteWithin(a);
    ByteWithin(b);
    PackBitsFrom(a as bv32, 8);
    PackBitsFrom(b as bv32, 8);
    assert (a as bv32) as bv8 == a && (b as bv32) as bv8 == b;
  }

  lemma {:induction false} BitsInjective(a: seq<bv8>, b: seq<bv8>)
    requires |a| == |b| && BitsOf(a) == BitsOf(b)
    ensures a == b
  {
    if a != [] {
      assert BitsOfByte(a[0]) == BitsOf(a)[..8] == BitsOf(b)[..8] == BitsOfByte(b[0]);
      assert BitsOf(a[1..]) == BitsOf(a)[8..] == BitsOf(b)[8..] == BitsOf(b[1..]);
      BitsOfByteInjective(a[0], b[0]);
      BitsInjective(a[1..], b[1..]);
      assert a == [a[0]] + a[1..] && b == [b[0]] + b[1..];
    }
  }

  /** Buffers of one length that differ only within four consecutive bytes have different checksums. */
  lemma FourByteChangeDetected(before: seq<bv8>, u: seq<bv8>, v: seq<bv8>, after: seq<bv8>)
    requires |u| == |v| <= 4 && u != v
    ensures Checksum(before + u + after) != Checksum(before + v + after)
  {
    var c: bv32 := 0xFFFF_FFFF;
    BitsAppend(before + u, after);
    BitsAppend(before + v, after);
    BitsAppend(before, u);
    BitsAppend(before, v);
    if BitsOf(u) == BitsOf(v) {
      BitsInjective(u, v);
    }
    BurstDetected(c, BitsOf(before), BitsOf(u), BitsOf(v), BitsOf(after));
    var x, y := Register(c, before + u + after), Register(c, before + v + after);
    if Xor(x, 0xFFFF_FFFF) == Xor(y, 0xFFFF_FFFF) {
      XorComm(x, 0xFFFF_FFFF);
      XorComm(y, 0xFFFF_FFFF);
      XorCancel(0xFFFF_FFFF, x, y);
    }
  }

  // ------------------------------------------------------------------
  // A byte and a word at a time
  // ------------------------------------------------------------------

  predicate LowClear(w: bv32, n: nat)
    decreases n
  {
    n == 0 || (w & 1 == 0 && LowClear(w >> 1, n - 1))
  }

  function Shift(w: bv32, n: nat): bv32
    decreases n
  {
    if n == 0 then w else Shift(w >> 1, n - 1)
  }

  lemma {:induction false} StepsLowClear(w: bv32, n: nat)
    requires LowClear(w, n)
    ensures Steps(w, n) == Shift(w, n)
    decreases n
  {
    if n > 0 {
      EvenStep(w);
      StepsLowClear(w >> 1, n - 1);
    }
  }

  lemma LowByteClear(w: bv32)
    requires w & 0xFF == 0
    ensures LowClear(w, 8)
  {
    assert w & 1 == 0 && (w >> 1) & 1 == 0 && (w >> 2) & 1 == 0 && (w >> 3) & 1 == 0;
    assert (w >> 4) & 1 == 0 && (w >> 5) & 1 == 0 && (w >> 6) & 1 == 0 && (w >> 7) & 1 == 0;
    assert LowClear(w >> 7, 1);
    assert LowClear(w >> 6, 2);
    assert LowClear(w >> 5, 3);
    assert LowClear(w >> 4, 4);
    assert LowClear(w >> 3, 5);
    assert LowClear(w >> 2, 6);
    assert LowClear(w >> 1, 7);
  }

  lemma ShiftEight(w: bv32)
    ensures Shift(w, 8) == w >> 8
  {
  }

  /** A word whose low byte is clear is only shifted by eight clocks. */
  lemma StepsShift(w: bv32)
    requires w & 0xFF == 0
    ensures Steps(w, 8) == w >> 8
  {
    LowByteClear(w);
    StepsLowClear(w, 8);
    ShiftEight(w);
  }

  lemma SplitLowByte(w: bv32)
    ensures w == Xor(w & 0xFFFF_FF00, w & 0xFF)
    ensures (w & 0xFFFF_FF00) & 0xFF == 0
    ensures (w & 0xFFFF_FF00) >> 8 == w >> 8
  {
  }

  lemma StepsSplit(high: bv32, low: bv32)
    requires high & 0xFF == 0
    ensures Steps(Xor(high, low), 8) == Xor(high >> 8, Steps(low, 8))
  {
    StepsLinear(high, low, 8);
    StepsShift(high);
  }

  /** The law behind the table: eight clocks are one shift by a byte plus the clocks of the low byte. */
  lemma StepsByLowByte(w: bv32)
    ensures Steps(w, 8) == Xor(w >> 8, Steps(w & 0xFF, 8))
  {
    SplitLowByte(w);
    StepsSplit(w & 0xFFFF_FF00, w & 0xFF);
  }

  lemma HighBytesUntouched(c: bv32, b: bv8)
    ensures (c ^ (b as bv32)) >> 8 == c >> 8
    ensures (((c ^ (b as bv32)) & 0xFF) as bv8) as bv32 == (c ^ (b as bv32)) & 0xFF
  {
  }

  /** The table index of one round. */
  function RoundIndex(c: bv32, b: bv8): bv8 {
    ((c ^ (b as bv32)) & 0xFF) as bv8
  }

  function TableEntry(index: bv8): bv32 {
    Steps(index as bv32, 8)
  }

  function DropByte(c: bv32): bv32 { c >> 8 }

  /** One round of the table loop is eight bit-serial clocks with the bits of the byte. */
  lemma TableRound(c: bv32, b: bv8)
    ensures FeedBits(c, BitsOfByte(b)) == Xor(DropByte(c), TableEntry(RoundIndex(c, b)))
  {
    FeedByte(c, b);
    HighBytesUntouched(c, b);
    StepsByLowByte(Xor(c, b as bv32));
  }

  /** The loop invariant of `crc32_update`, one byte further. */
  lemma UpdateRound(c: bv32, data: seq<bv8>, i: nat)
    requires i < |data|
    ensures Register(c, data[i..]) == Register(Xor(DropByte(c), TableEntry(RoundIndex(c, data[i]))), data[i + 1..])
  {
    TableRound(c, data[i]);
    assert data[i..][1..] == data[i + 1..];
    FeedAppend(c, BitsOfByte(data[i]), BitsOf(data[i + 1..]));
  }

  lemma RegisterByte(c: bv32, b: bv8, rest: seq<bv8>)
    ensures Register(c, [b] + rest) == Register(Steps(Xor(c, b as bv32), 8), rest)
  {
    assert ([b] + rest)[1..] == rest;
    FeedByte(c, b);
    FeedAppend(c, BitsOfByte(b), BitsOf(rest));
  }

  /** The low `n` bytes of a word, in the order a little-endian host stores them. */
  function Bytes(w: bv32, n: nat): (bytes: seq<bv8>)
    ensures |bytes| == n
    decreases n
  {
    if n == 0 then [] else [(w & 0xFF) as bv8] + Bytes(w >> 8, n - 1)
  }

  function DropBytes(w: bv32, n: nat): bv32
    decreases n
  {
    if n == 0 then w else DropBytes(w >> 8, n - 1)
  }

  lemma ShiftedUp(rest: bv32)
    requires rest & 0xFF00_0000 == 0
    ensures (rest << 8) & 0xFF == 0 && (rest << 8) >> 8 == rest
  {
  }

  lemma StepsDeferred(c: bv32, low: bv32, rest: bv32)
    requires rest & 0xFF00_0000 == 0
    ensures Steps(Xor(c, Xor(low, rest << 8)), 8) == Xor(Steps(Xor(c, low), 8), rest)
  {
    ShiftedUp(rest);
    XorAssoc(c, low, rest << 8);
    StepsLinear(Xor(c, low), rest << 8, 8);
    StepsShift(rest << 8);
  }

  lemma XorSelfInverse(a: bv32, b: bv32)
    ensures Xor(Xor(a, b), b) == a && Xor(a, Xor(a, b)) == b
  {
  }

  lemma StepsHoldBack(c: bv32, w: bv32, low: bv32, rest: bv32)
    requires rest & 0xFF00_0000 == 0 && w == Xor(low, rest << 8)
    ensures Xor(Steps(Xor(c, low), 8), rest) == Steps(Xor(c, w), 8)
    ensures Steps(Xor(c, low), 8) == Xor(Steps(Xor(c, w), 8), rest)
  {
    StepsDeferred(c, low, rest);
    XorSelfInverse(Steps(Xor(c, low), 8), rest);
  }

  lemma WordSplit(w: bv32)
    ensures w == Xor(w & 0xFF, (w >> 8) << 8)
    ensures (w >> 8) & 0xFF00_0000 == 0
    ensures ((w & 0xFF) as bv8) as bv32 == w & 0xFF
  {
  }

  lemma {:induction false} StepsAdd(c: bv32, m: nat, n: nat)
    ensures Steps(c, m + n) == Steps(Steps(c, m), n)
    decreases m
  {
    if m > 0 {
      StepsAdd(BitStep(c), m - 1, n);
    }
  }

  lemma BytesStep(w: bv32, n: nat)
    requires n > 0
    ensures Bytes(w, n) == [(w & 0xFF) as bv8] + Bytes(DropByte(w), n - 1)
    ensures DropBytes(w, n) == DropBytes(DropByte(w), n - 1)
  {
  }

  /** A word is its low byte and the rest, moved up. */
  predicate Splits(w: bv32, low: bv32, rest: bv32) {
    rest & 0xFF00_0000 == 0 && w == Xor(low, rest << 8)
  }

  lemma WordSplits(w: bv32)
    ensures Splits(w, ((w & 0xFF) as bv8) as bv32, DropByte(w))
  {
    WordSplit(w);
  }

  lemma SplitFed(c: bv32, w: bv32, low: bv32, rest: bv32)
    requires Splits(w, low, rest)
    ensures Xor(Steps(Xor(c, low), 8), rest) == Steps(Xor(c, w), 8)
  {
    hide Steps;
    StepsHoldBack(c, w, low, rest);
  }

  /** One byte of a word fed: the other bytes wait above the register. */
  lemma OneByteFed(c: bv32, w: bv32)
    ensures Xor(Steps(Xor(c, ((w & 0xFF) as bv8) as bv32), 8), DropByte(w)) == Steps(Xor(c, w), 8)
  {
    hide Xor, Steps, Splits, DropByte;
    WordSplits(w);
    SplitFed(c, w, ((w & 0xFF) as bv8) as bv32, DropByte(w));
  }

  /** Feeding the bytes of a word one by one: the bytes still to come wait above the register. */
  lemma {:induction false} RegisterBytes(c: bv32, w: bv32, n: nat)
    ensures Register(c, Bytes(w, n)) == Xor(Steps(Xor(c, w), 8 * n), DropBytes(w, n))
    decreases n
  {
    if n == 0 {
      XorSelfInverse(c, w);
    } else {
      hide Register, Xor, Steps, Bytes, DropBytes, DropByte;
      var low := (w & 0xFF) as bv8;
      BytesStep(w, n);
      OneByteFed(c, w);
      RegisterByte(c, low, Bytes(DropByte(w), n - 1));
      RegisterBytes(Steps(Xor(c, low as bv32), 8), DropByte(w), n - 1);
      StepsAdd(Xor(c, w), 8, 8 * (n - 1));
    }
  }

  lemma DropFour(w: bv32)
    ensures DropBytes(w, 4) == 0
  {
    assert DropBytes(w >> 8, 3) == DropBytes(w >> 16, 2);
    assert DropBytes(w >> 24, 1) == 0;
  }

  /** Feeding a little-endian word is adding it to the register and clocking 32 times. */
  lemma RegisterWord(c: bv32, w: bv32)
    ensures Register(c, Bytes(w, 4)) == Steps(Xor(c, w), 32)
  {
    RegisterBytes(c, w, 4);
    DropFour(w);
    XorZero(Steps(Xor(c, w), 32));
  }

  /** The residue law: whatever the message, appending its own checksum, low byte first, always leaves
      the register at the same constant. */
  lemma Residue(message: seq<bv8>)
    ensures Register(0xFFFF_FFFF, message + Bytes(Checksum(message), 4)) == 0xDEBB_20E3
  {
    var r := Register(0xFFFF_FFFF, message);
    RegisterAppend(0xFFFF_FFFF, message, Bytes(Checksum(message), 4));
    RegisterWord(r, Checksum(message));
    XorSelfInverse(r, 0xFFFF_FFFF);
    ResidueConstant();
  }

  lemma ResidueByte0()
    ensures Steps(0xFFFF_FFFF, 8) == 0x2DFD_1072
  {
  }

  lemma ResidueByte1()
    ensures Steps(0x2DFD_1072, 8) == 0xBE26_ED00
  {
  }

  lemma ResidueByte2()
    ensures Steps(0xBE26_ED00, 8) == 0x00BE_26ED
  {
  }

  lemma ResidueByte3()
    ensures Steps(0x00BE_26ED, 8) == 0xDEBB_20E3
  {
  }

  lemma ResidueConstant()
    ensures Steps(0xFFFF_FFFF, 32) == 0xDEBB_20E3
  {
    hide Steps;
    ResidueByte0();
    ResidueByte1();
    ResidueByte2();
    ResidueByte3();
    StepsAdd(0xFFFF_FFFF, 8, 24);
    StepsAdd(0x2DFD_1072, 8, 16);
    StepsAdd(0xBE26_ED00, 8, 8);
  }

  /** The published check value: the checksum of the ASCII digits 1 to 9. */
  lemma CheckValue()
    ensures Checksum([0x31, 0x32, 0x33, 0x34, 0x35, 0x36, 0x37, 0x38, 0x39]) == 0xCBF4_3926
  {
    hide Steps, Register;
    CheckStep0();
    CheckStep1();
    CheckStep2();
    CheckStep3();
    CheckStep4();
    CheckStep5();
    CheckStep6();
    CheckStep7();
    CheckStep8();
    var s: seq<bv8> := [0x31, 0x32, 0x33, 0x34, 0x35, 0x36, 0x37, 0x38, 0x39];
    NextByte(0xFFFF_FFFF, s, 0, 0x7C23_1048);
    NextByte(0x7C23_1048, s, 1, 0xB0AC_BB32);
    NextByte(0xB0AC_BB32, s, 2, 0x77B7_9C2D);
    NextByte(0x77B7_9C2D, s, 3, 0x641C_1F5C);
    NextByte(0x641C_1F5C, s, 4, 0x340A_C5E3);
    NextByte(0x340A_C5E3, s, 5, 0xF68D_2C9E);
    NextByte(0xF68D_2C9E, s, 6, 0xAFFC_9660);
    NextByte(0xAFFC_9660, s, 7, 0x651F_2550);
    NextByte(0x651F_2550, s, 8, 0x340B_C6D9);
    AllBytes(0x340B_C6D9, s);
  }

  lemma NextByte(c: bv32, s: seq<bv8>, i: nat, d: bv32)
    requires i < |s| && Steps(Xor(c, s[i] as bv32), 8) == d
    ensures Register(c, s[i..]) == Register(d, s[i + 1..])
  {
    RegisterByte(c, s[i], s[i + 1..]);
    assert [s[i]] + s[i + 1..] == s[i..];
  }

  lemma AllBytes(c: bv32, s: seq<bv8>)
    ensures Register(c, s[|s|..]) == c && s[0..] == s
  {
    assert s[|s|..] == [];
  }

  lemma CheckStep0()
    ensures Steps(Xor(0xFFFF_FFFF, 0x31), 8) == 0x7C23_1048
  {
  }

  lemma CheckStep1()
    ensures Steps(Xor(0x7C23_1048, 0x32), 8) == 0xB0AC_BB32
  {
  }

  lemma CheckStep2()
    ensures Steps(Xor(0xB0AC_BB32, 0x33), 8) == 0x77B7_9C2D
  {
  }

  lemma CheckStep3()
    ensures Steps(Xor(0x77B7_9C2D, 0x34), 8) == 0x641C_1F5C
  {
  }

  lemma CheckStep4()
    ensures Steps(Xor(0x641C_1F5C, 0x35), 8) == 0x340A_C5E3
  {
  }

  lemma CheckStep5()
    ensures Steps(Xor(0x340A_C5E3, 0x36), 8) == 0xF68D_2C9E
  {
  }

  lemma CheckStep6()
    ensures Steps(Xor(0xF68D_2C9E, 0x37), 8) == 0xAFFC_9660
  {
  }

  lemma CheckStep7()
    ensures Steps(Xor(0xAFFC_9660, 0x38), 8) == 0x651F_2550
  {
  }

  lemma CheckStep8()
    ensures Steps(Xor(0x651F_2550, 0x39), 8) == 0x340B_C6D9
  {
  }

  // ------------------------------------------------------------------
  // The hash of a 32-bit key
  // ------------------------------------------------------------------

  /** `uint32_hash`: the checksum of the four bytes of the key. */
  function KeyHash(key: bv32): bv32 {
    Checksum(Bytes(key, 4))
  }

  /** The key a hash came from. */
  function KeyOfHash(hash: bv32): bv32 {
    Xor(0xFFFF_FFFF, Unsteps(Xor(hash, 0xFFFF_FFFF), 32))
  }

  lemma KeyOfKeyHash(key: bv32)
    ensures KeyOfHash(KeyHash(key)) == key
  {
    RegisterWord(0xFFFF_FFFF, key);
    XorSelfInverse(Steps(Xor(0xFFFF_FFFF, key), 32), 0xFFFF_FFFF);
    UnstepsSteps(Xor(0xFFFF_FFFF, key), 32);
    XorSelfInverse(0xFFFF_FFFF, key);
  }

  lemma KeyHashOfKey(hash: bv32)
    ensures KeyHash(KeyOfHash(hash)) == hash
  {
    var state := Unsteps(Xor(hash, 0xFFFF_FFFF), 32);
    RegisterWord(0xFFFF_FFFF, KeyOfHash(hash));
    XorSelfInverse(0xFFFF_FFFF, state);
    StepsUnsteps(Xor(hash, 0xFFFF_FFFF), 32);
    XorSelfInverse(hash, 0xFFFF_FFFF);
  }

  /** `uint32_hash` permutes the 32-bit words: no two keys share a hash and every hash is some key's. */
  lemma KeyHashBijective(hash: bv32)
    ensures exists key :: KeyHash(key) == hash
    ensures forall a, b :: KeyHash(a) == hash && KeyHash(b) == hash ==> a == b
  {
    KeyHashOfKey(hash);
    forall a, b | KeyHash(a) == hash && KeyHash(b) == hash
      ensures a == b
    {
      KeyOfKeyHash(a);
      KeyOfKeyHash(b);
    }
  }
}
