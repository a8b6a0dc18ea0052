/** The CRC-32 of hashing.c: the reflected polynomial of IEEE 802.3 section 3.2.9,
    computed a byte at a time through a table of 256 entries.

    The reference definition is the bit-serial shift register `FeedBits`; the table-driven
    loop is proved equal to it, and the error-detection laws are proved about it. */
module Crc32 {

  const POLYNOMIAL: bv32 := 0xEDB8_8320

  /** Addition in GF(2)^32. */
  function Xor(a: bv32, b: bv32): bv32 { a ^ b }

  /** One clock of the register with no input bit. */
  function BitStep(c: bv32): bv32 {
    if c & 1 == 1 then (c >> 1) ^ POLYNOMIAL else c >> 1
  }

  /** The clock run backwards: the top bit tells whether the polynomial was added. */
  function BitUnstep(d: bv32): bv32 {
    if d & 0x8000_0000 == 0x8000_0000 then ((d ^ POLYNOMIAL) << 1) | 1 else d << 1
  }

  function Steps(c: bv32, n: nat): bv32
    decreases n
  {
    if n == 0 then c else Steps(BitStep(c), n - 1)
  }

  function Unsteps(d: bv32, n: nat): bv32
    decreases n
  {
    if n == 0 then d else BitUnstep(Unsteps(d, n - 1))
  }

  /** One clock of the register with an input bit. */
  function FeedBit(c: bv32, bit: bool): bv32 {
    BitStep(if bit then Xor(c, 1) else c)
  }

  function FeedBits(c: bv32, bits: seq<bool>): bv32
    decreases |bits|
  {
    if bits == [] then c else FeedBits(FeedBit(c, bits[0]), bits[1..])
  }

  /** The low `n` bits of a word in transmission order, least significant first. */
  function BitsFrom(w: bv32, n: nat): (bits: seq<bool>)
    ensures |bits| == n
    decreases n
  {
    if n == 0 then [] else [w & 1 == 1] + BitsFrom(w >> 1, n - 1)
  }

  function BitsOfByte(b: bv8): (bits: seq<bool>)
    ensures |bits| == 8
  {
    BitsFrom(b as bv32, 8)
  }

  function BitsOf(data: seq<bv8>): (bits: seq<bool>)
    ensures |bits| == 8 * |data|
  {
    if data == [] then [] else BitsOfByte(data[0]) + BitsOf(data[1..])
  }

  /** The register after a whole byte string. */
  function Register(c: bv32, data: seq<bv8>): bv32 {
    FeedBits(c, BitsOf(data))
  }

  function Checksum(data: seq<bv8>): bv32 {
    Xor(Register(0xFFFF_FFFF, data), 0xFFFF_FFFF)
  }

  // ------------------------------------------------------------------
  // One clock: linear over XOR and reversible
  // ------------------------------------------------------------------

  lemma OddStep(c: bv32)
    requires c & 1 == 1
    ensures BitStep(c) == (c >> 1) ^ 0xEDB8_8320
  {
  }

  lemma EvenStep(c: bv32)
    requires c & 1 == 0
    ensures BitStep(c) == c >> 1
  {
  }

  lemma LowBit(c: bv32)
    ensures c & 1 == 0 || c & 1 == 1
  {
  }

  lemma XorOddOdd(a: bv32, b: bv32)
    requires a & 1 == 1 && b & 1 == 1
    ensures (a ^ b) & 1 == 0
    ensures (a ^ b) >> 1 == ((a >> 1) ^ 0xEDB8_8320) ^ ((b >> 1) ^ 0xEDB8_8320)
  {
  }

  lemma XorOddEven(a: bv32, b: bv32)
    requires a & 1 == 1 && b & 1 == 0
    ensures (a ^ b) & 1 == 1
    ensures ((a ^ b) >> 1) ^ 0xEDB8_8320 == ((a >> 1) ^ 0xEDB8_8320) ^ (b >> 1)
  {
  }

  lemma XorEvenEven(a: bv32, b: bv32)
    requires a & 1 == 0 && b & 1 == 0
    ensures (a ^ b) & 1 == 0
    ensures (a ^ b) >> 1 == (a >> 1) ^ (b >> 1)
  {
  }

  lemma OddOddLinear(a: bv32, b: bv32)
    requires a & 1 == 1 && b & 1 == 1
    ensures BitStep(a ^ b) == BitStep(a) ^ BitStep(b)
  {
    XorOddOdd(a, b);
    OddStep(a); OddStep(b); EvenStep(a ^ b);
  }

  lemma OddEvenLinear(a: bv32, b: bv32)
    requires a & 1 == 1 && b & 1 == 0
    ensures BitStep(a ^ b) == BitStep(a) ^ BitStep(b)
  {
    XorOddEven(a, b);
    OddStep(a); EvenStep(b); OddStep(a ^ b);
  }

  lemma EvenEvenLinear(a: bv32, b: bv32)
    requires a & 1 == 0 && b & 1 == 0
    ensures BitStep(a ^ b) == BitStep(a) ^ BitStep(b)
  {
    XorEvenEven(a, b);
    EvenStep(a); EvenStep(b); EvenStep(a ^ b);
  }

  lemma XorComm(a: bv32, b: bv32)
    ensures a ^ b == b ^ a
  {
  }

  /** The register clock is linear over GF(2). */
  lemma BitStepLinear(a: bv32, b: bv32)
    ensures BitStep(Xor(a, b)) == Xor(BitStep(a), BitStep(b))
  {
    LowBit(a); LowBit(b);
    if a & 1 == 1 && b & 1 == 1 {
      OddOddLinear(a, b);
    } else if a & 1 == 0 && b & 1 == 0 {
      EvenEvenLinear(a, b);
    } else if a & 1 == 1 {
      OddEvenLinear(a, b);
    } else {
      OddEvenLinear(b, a);
      XorComm(a, b); XorComm(BitStep(a), BitStep(b));
    }
  }

  lemma {:induction false} StepsLinear(a: bv32, b: bv32, n: nat)
    ensures Steps(Xor(a, b), n) == Xor(Steps(a, n), Steps(b, n))
    decreases n
  {
    if n > 0 {
      BitStepLinear(a, b);
      StepsLinear(BitStep(a), BitStep(b), n - 1);
    }
  }

  lemma UnstepStep(c: bv32)
    ensures BitUnstep(BitStep(c)) == c
  {
  }

  lemma StepUnstepTop(d: bv32, e: bv32)
    requires d & 0x8000_0000 == 0x8000_0000 && e == ((d ^ 0xEDB8_8320) << 1) | 1
    ensures BitStep(e) == d
  {
    ShiftedOutTop(d);
    OddStep(e);
  }

  lemma ShiftedOutTop(d: bv32)
    requires d & 0x8000_0000 == 0x8000_0000
    ensures (((d ^ 0xEDB8_8320) << 1) | 1) & 1 == 1
    ensures ((((d ^ 0xEDB8_8320) << 1) | 1) >> 1) ^ 0xEDB8_8320 == d
  {
  }

  lemma StepUnstepClear(d: bv32, e: bv32)
    requires d & 0x8000_0000 != 0x8000_0000 && e == d << 1
    ensures BitStep(e) == d
  {
    ShiftedOutClear(d);
    EvenStep(e);
  }

  lemma ShiftedOutClear(d: bv32)
    requires d & 0x8000_0000 != 0x8000_0000
    ensures (d << 1) & 1 == 0 && (d << 1) >> 1 == d
  {
  }

  lemma StepUnstep(d: bv32)
    ensures BitStep(BitUnstep(d)) == d
  {
    var e := BitUnstep(d);
    if d & 0x8000_0000 == 0x8000_0000 {
      StepUnstepTop(d, e);
    } else {
      StepUnstepClear(d, e);
    }
  }

  lemma {:induction false} UnstepsSteps(c: bv32, n: nat)
    ensures Unsteps(Steps(c, n), n) == c
    decreases n
  {
    if n > 0 {
      UnstepsSteps(BitStep(c), n - 1);
      UnstepStep(c);
    }
  }

  lemma {:induction false} StepsUnsteps(d: bv32, n: nat)
    ensures Steps(Unsteps(d, n), n) == d
    decreases n
  {
    if n > 0 {
      StepUnstep(Unsteps(d, n - 1));
      StepsUnsteps(d, n - 1);
    }
  }

  lemma StepsInjective(a: bv32, b: bv32, n: nat)
    requires Steps(a, n) == Steps(b, n)
    ensures a == b
  {
    UnstepsSteps(a, n);
    UnstepsSteps(b, n);
  }

  lemma XorAssoc(a: bv32, b: bv32, c: bv32)
    ensures Xor(Xor(a, b), c) == Xor(a, Xor(b, c))
  {
  }

  lemma XorCancel(a: bv32, b: bv32, c: bv32)
    requires Xor(a, b) == Xor(a, c)
    ensures b == c
  {
    assert b == a ^ (a ^ b) && c == a ^ (a ^ c);
  }

  // ------------------------------------------------------------------
  // Feeding up to 32 bits is adding a word and clocking
  // ------------------------------------------------------------------

  function Low(bit: bool): bv32 { if bit then 1 else 0 }

  function Double(a: bv32): bv32 { a << 1 }

  function DoubleOne(a: bv32): bv32 { (a << 1) | 1 }

  predicate Within(a: bv32, mask: bv32) { a | mask == mask }

  predicate HalfWord(a: bv32) { a & 0x8000_0000 == 0 }

  function Pack(bits: seq<bool>): bv32 {
    if bits == [] then 0 else Xor(Low(bits[0]), Double(Pack(bits[1..])))
  }

  function Ones(n: nat): bv32 {
    if n == 0 then 0 else DoubleOne(Ones(n - 1))
  }

  lemma WithinOdd(a: bv32, mask: bv32)
    requires a | mask == mask
    ensures (1 ^ (a << 1)) | ((mask << 1) | 1) == (mask << 1) | 1
  {
    assert (1 ^ (a << 1)) | ((mask << 1) | 1) == ((a | mask) << 1) | 1;
  }

  lemma WithinEven(a: bv32, mask: bv32)
    requires a | mask == mask
    ensures (0 ^ (a << 1)) | ((mask << 1) | 1) == (mask << 1) | 1
  {
    assert (0 ^ (a << 1)) | ((mask << 1) | 1) == ((a | mask) << 1) | 1;
  }

  lemma WithinStepOdd(a: bv32, mask: bv32)
    requires Within(a, mask)
    ensures Within(Xor(1, Double(a)), DoubleOne(mask))
  {
    WithinOdd(a, mask);
  }

  lemma WithinStepEven(a: bv32, mask: bv32)
    requires Within(a, mask)
    ensures Within(Xor(0, Double(a)), DoubleOne(mask))
  {
    WithinEven(a, mask);
  }

  lemma WithinStep(bit: bool, a: bv32, mask: bv32)
    requires Within(a, mask)
    ensures Within(Xor(Low(bit), Double(a)), DoubleOne(mask))
  {
    hide Within, Xor, Double, DoubleOne;
    if bit { WithinStepOdd(a, mask); } else { WithinStepEven(a, mask); }
  }

  lemma OnesWithin(a: bv32, mask: bv32)
    requires Within(a, mask)
    ensures Within(DoubleOne(a), DoubleOne(mask))
  {
    assert ((a << 1) | 1) | ((mask << 1) | 1) == ((a | mask) << 1) | 1;
  }

  lemma {:induction false} OnesMonotone(m: nat, n: nat)
    requires m <= n
    ensures Within(Ones(m), Ones(n))
  {
    if m > 0 {
      OnesMonotone(m - 1, n - 1);
      OnesWithin(Ones(m - 1), Ones(n - 1));
    }
  }

  lemma HalfWithin(a: bv32, mask: bv32)
    requires Within(a, mask) && HalfWord(mask)
    ensures HalfWord(a)
  {
  }

  lemma Ones31()
    ensures HalfWord(Ones(31))
  {
    assert Ones(8) == 0xFF;
    assert Ones(16) == 0xFFFF;
    assert Ones(24) == 0xFF_FFFF;
    assert Ones(31) == 0x7FFF_FFFF;
  }

  lemma {:induction false} PackFits(bits: seq<bool>)
    ensures Within(Pack(bits), Ones(|bits|))
  {
    if bits != [] {
      PackFits(bits[1..]);
      WithinStep(bits[0], Pack(bits[1..]), Ones(|bits| - 1));
    }
  }

  /** Fewer than 32 bits leave the top of the packed word clear. */
  lemma PackHalf(bits: seq<bool>)
    requires |bits| <= 31
    ensures HalfWord(Pack(bits))
  {
    PackFits(bits);
    OnesMonotone(|bits|, 31);
    Ones31();
    HalfWithin(Ones(|bits|), Ones(31));
    HalfWithin(Pack(bits), Ones(|bits|));
  }

  lemma DoubleStep(a: bv32)
    requires HalfWord(a)
    ensures BitStep(Double(a)) == a
  {
    ShiftedOutClear(a);
    EvenStep(Double(a));
  }

  lemma FeedBitIs(c: bv32, bit: bool)
    ensures FeedBit(c, bit) == BitStep(Xor(c, Low(bit)))
  {
    assert bit || Xor(c, 0) == c;
  }

  /** A bit added one position up before the clock equals the bit added after it. */
  lemma FeedShift(c: bv32, bit: bool, rest: bv32)
    requires HalfWord(rest)
    ensures BitStep(Xor(c, Xor(Low(bit), Double(rest)))) == Xor(FeedBit(c, bit), rest)
  {
    FeedBitIs(c, bit);
    XorAssoc(c, Low(bit), Double(rest));
    BitStepLinear(Xor(c, Low(bit)), Double(rest));
    DoubleStep(rest);
  }

  lemma XorZero(c: bv32)
    ensures Xor(c, 0) == c
  {
  }

  lemma {:induction false} FeedIsSteps(c: bv32, bits: seq<bool>)
    requires |bits| <= 32
    ensures FeedBits(c, bits) == Steps(Xor(c, Pack(bits)), |bits|)
    decreases |bits|
  {
    if bits == [] {
      XorZero(c);
    } else {
      PackHalf(bits[1..]);
      FeedShift(c, bits[0], Pack(bits[1..]));
      FeedIsSteps(FeedBit(c, bits[0]), bits[1..]);
    }
  }

  lemma Unpack(b0: bool, b1: bool, p: bv32, q: bv32)
    requires HalfWord(p) && HalfWord(q)
    requires Xor(Low(b0), Double(p)) == Xor(Low(b1), Double(q))
    ensures b0 == b1 && p == q
  {
    ShiftedOutClear(p);
    ShiftedOutClear(q);
    assert b0 ==> (1 ^ (p << 1)) & 1 == 1 && (1 ^ (p << 1)) >> 1 == (p << 1) >> 1;
    assert b1 ==> (1 ^ (q << 1)) & 1 == 1 && (1 ^ (q << 1)) >> 1 == (q << 1) >> 1;
    assert !b0 ==> 0 ^ (p << 1) == p << 1;
    assert !b1 ==> 0 ^ (q << 1) == q << 1;
  }

  lemma {:induction false} PackInjective(u: seq<bool>, v: seq<bool>)
    requires |u| == |v| <= 32
    requires Pack(u) == Pack(v)
    ensures u == v
  {
    if u != [] {
      PackHalf(u[1..]);
      PackHalf(v[1..]);
      Unpack(u[0], v[0], Pack(u[1..]), Pack(v[1..]));
      PackInjective(u[1..], v[1..]);
      assert u == [u[0]] + u[1..] && v == [v[0]] + v[1..];
    }
  }

  lemma HalveOdd(w: bv32)
    requires w & 1 == 1
    ensures w == 1 ^ ((w >> 1) << 1)
  {
  }

  lemma HalveEven(w: bv32)
    requires w & 1 != 1
    ensures w == 0 ^ ((w >> 1) << 1)
  {
  }

  lemma Halve(w: bv32)
    ensures w == Xor(Low(w & 1 == 1), Double(w >> 1))
  {
    if w & 1 == 1 { HalveOdd(w); } else { HalveEven(w); }
  }

  lemma HalveWithin(w: bv32, mask: bv32)
    requires Within(w, DoubleOne(mask)) && HalfWord(mask)
    ensures Within(w >> 1, mask)
  {
    ShiftedOutClear(mask);
    assert ((mask << 1) | 1) >> 1 == (mask << 1) >> 1;
    assert (w | ((mask << 1) | 1)) >> 1 == (w >> 1) | (((mask << 1) | 1) >> 1);
  }

  lemma {:induction false} PackBitsFrom(w: bv32, n: nat)
    requires n <= 32 && Within(w, Ones(n))
    ensures Pack(BitsFrom(w, n)) == w
    decreases n
  {
    if n > 0 {
      OnesMonotone(n - 1, 31);
      Ones31();
      HalfWithin(Ones(n - 1), Ones(31));
      HalveWithin(w, Ones(n - 1));
      PackBitsFrom(w >> 1, n - 1);
      Halve(w);
    } else {
      assert w | 0 == w;
    }
  }

  lemma ByteWithin(b: bv8)
    ensures Within(b as bv32, Ones(8))
  {
    assert Ones(8) == 0xFF;
    assert (b as bv32) | 0xFF == 0xFF;
  }

  /** Feeding a byte bit by bit is adding it to the register and clocking eight times. */
  lemma FeedByte(c: bv32, b: bv8)
    ensures FeedBits(c, BitsOfByte(b)) == Steps(Xor(c, b as bv32), 8)
  {
    ByteWithin(b);
    PackBitsFrom(b as bv32, 8);
    FeedIsSteps(c, BitsOfByte(b));
  }
}
