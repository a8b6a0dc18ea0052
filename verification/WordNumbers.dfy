/** Words as numbers: what 32-bit arithmetic, comparison and single bits mean for the numbers they stand for. */
module WordNumbers {
  import opened Words

  // ------------------------------------------------------------------
  // Counting up by one, through halves and bytes
  // ------------------------------------------------------------------

  function Half(h: bv8, l: bv8): bv16 { ((h as bv16) << 8) | (l as bv16) }

  function Whole(h: bv16, l: bv16): bv32 { ((h as bv32) << 16) | (l as bv32) }

  function Next8(x: bv8): bv8 { x + 1 }

  function Next16(x: bv16): bv16 { x + 1 }

  function Next(x: bv32): bv32 { x + 1 }

  function Number8(x: bv8): nat { x as nat }

  function Number16(x: bv16): nat { x as nat }

  function Number(x: bv32): nat { x as nat }

  lemma RawHalf(h: bv8, l: bv8)
    ensures (((h as bv16) << 8) | (l as bv16)) as nat == h as nat * 256 + l as nat
  {
  }

  lemma RawWhole(h: bv16, l: bv16)
    ensures (((h as bv32) << 16) | (l as bv32)) as nat == h as nat * 65536 + l as nat
  {
  }

  lemma HalfValue(h: bv8, l: bv8)
    ensures Number16(Half(h, l)) == Number8(h) * 256 + Number8(l)
  {
    RawHalf(h, l);
  }

  lemma WholeValue(h: bv16, l: bv16)
    ensures Number(Whole(h, l)) == Number16(h) * 65536 + Number16(l)
  {
    RawWhole(h, l);
  }

  lemma HalfOf(x: bv16) returns (h: bv8, l: bv8)
    ensures x == Half(h, l)
  {
    h, l := (x >> 8) as bv8, (x & 0xFF) as bv8;
  }

  lemma WholeOf(x: bv32) returns (h: bv16, l: bv16)
    ensures x == Whole(h, l)
  {
    h, l := (x >> 16) as bv16, (x & 0xFFFF) as bv16;
  }

  lemma HalfNext(h: bv8, l: bv8)
    ensures Next16(Half(h, l)) == if l != 0xFF then Half(h, Next8(l)) else Half(Next8(h), 0)
    ensures Half(h, l) == 0xFFFF <==> h == 0xFF && l == 0xFF
  {
  }

  lemma WholeNext(h: bv16, l: bv16)
    ensures Next(Whole(h, l)) == if l != 0xFFFF then Whole(h, Next16(l)) else Whole(Next16(h), 0)
  {
    if l != 0xFFFF {
      WholeLow(h, l);
    } else {
      WholeHigh(h);
    }
  }

  lemma WholeLow(h: bv16, l: bv16)
    requires l != 0xFFFF
    ensures Whole(h, l) + 1 == Whole(h, l + 1)
  {
  }

  lemma WholeHigh(h: bv16)
    ensures Whole(h, 0xFFFF) + 1 == Whole(h + 1, 0)
  {
  }

  lemma WholeFull(h: bv16, l: bv16)
    ensures Whole(h, l) == 0xFFFF_FFFF <==> h == 0xFFFF && l == 0xFFFF
  {
  }

  lemma Inc8(x: bv8)
    ensures x != 0xFF ==> Number8(Next8(x)) == Number8(x) + 1
    ensures Number8(0xFF) == 255 && Number8(0) == 0
  {
  }

  lemma Ends()
    ensures Number16(0xFFFF) == 65535 && Number16(0) == 0
    ensures Number(0xFFFF_FFFF) == U32 - 1 && Number(0) == 0 && Next(0xFFFF_FFFF) == 0
  {
  }

  lemma Inc16(x: bv16)
    requires x != 0xFFFF
    ensures Number16(Next16(x)) == Number16(x) + 1
  {
    var h, l := HalfOf(x);
    hide Half, Next8, Next16, Number8, Number16;
    HalfNext(h, l);
    HalfValue(h, l);
    Inc8(l);
    Inc8(h);
    HalfValue(h, Next8(l));
    HalfValue(Next8(h), 0);
  }

  lemma Inc(x: bv32)
    requires x != 0xFFFF_FFFF
    ensures Number(Next(x)) == Number(x) + 1
  {
    var h, l := WholeOf(x);
    hide Whole, Next16, Next, Number16, Number;
    WholeNext(h, l);
    WholeFull(h, l);
    WholeValue(h, l);
    Ends();
    if l != 0xFFFF {
      Inc16(l);
      WholeValue(h, Next16(l));
    } else {
      Inc16(h);
      WholeValue(Next16(h), 0);
    }
  }

  lemma NumberBound(x: bv32)
    ensures Number(x) < U32
  {
  }

  lemma IncModulo(x: bv32)
    ensures Number(Next(x)) == (Number(x) + 1) % U32
  {
    hide Next, Number;
    NumberBound(Next(x));
    Ends();
    if x != 0xFFFF_FFFF {
      Inc(x);
    }
  }

  lemma Before(c: bv32) returns (p: bv32)
    requires c != 0
    ensures c == Next(p) && p != 0xFFFF_FFFF
  {
    p := c - 1;
  }

  // ------------------------------------------------------------------
  // Numbers and words are the same
  // ------------------------------------------------------------------

  function Word(n: nat): bv32
    requires n < U32
  {
    n as bv32
  }

  lemma WordNumber(x: bv32)
    ensures Number(x) < U32 && Word(Number(x)) == x
  {
  }

  lemma {:induction false} Reached(n: nat) returns (x: bv32)
    requires n < U32
    ensures Number(x) == n
  {
    hide Next, Number;
    Ends();
    if n == 0 {
      x := 0;
    } else {
      var p := Reached(n - 1);
      Inc(p);
      x := Next(p);
    }
  }

  /** A number below 2^32 survives the conversion to a word and back. */
  lemma NumberWord(n: nat)
    requires n < U32
    ensures Number(Word(n)) == n
  {
    hide Number, Word;
    var x := Reached(n);
    WordNumber(x);
  }

  lemma SameNumber(x: bv32, y: bv32)
    requires Number(x) == Number(y)
    ensures x == y
  {
    hide Number, Word;
    WordNumber(x);
    WordNumber(y);
  }

  // ------------------------------------------------------------------
  // Sum, difference, product
  // ------------------------------------------------------------------

  function Sum(b: bv32, c: bv32): bv32 { b + c }

  function Difference(b: bv32, c: bv32): bv32 { b - c }

  function Product(b: bv32, c: bv32): bv32 { b * c }

  lemma RawSum(b: bv32, c: bv32)
    ensures Sum(b, c + 1) == Next(b + c)
  {
  }

  lemma SumIs(b: bv32, c: bv32)
    ensures Sum(b, c) == b + c && Next(c) == c + 1
  {
  }

  lemma RawZero(b: bv32)
    ensures b + 0 == b
  {
  }

  lemma SumZero(b: bv32)
    ensures Sum(b, 0) == b
  {
    RawZero(b);
  }

  lemma SumNext(b: bv32, c: bv32)
    ensures Sum(b, Next(c)) == Next(Sum(b, c))
  {
    hide Sum, Next;
    SumIs(b, c);
    RawSum(b, c);
  }

  lemma AddOneMore(x: int, y: int)
    ensures ((x + y) % U32 + 1) % U32 == (x + (y + 1)) % U32
  {
  }

  /** A sum of words is the sum of the numbers modulo 2^32. */
  lemma {:induction false} SumNumber(b: bv32, c: bv32)
    ensures Number(Sum(b, c)) == (Number(b) + Number(c)) % U32
    decreases Number(c)
  {
    hide Next, Sum, Number;
    Ends();
    NumberBound(b);
    SumZero(b);
    if c != 0 {
      var p := Before(c);
      Inc(p);
      SumNumber(b, p);
      SumNext(b, p);
      IncModulo(Sum(b, p));
      AddOneMore(Number(b), Number(p));
    }
  }

  lemma RawDifference(b: bv32, c: bv32)
    ensures (b - c) + c == b
  {
  }

  lemma SumRaw(b: bv32, c: bv32)
    ensures Sum(b - c, c) == b
  {
    RawDifference(b, c);
  }

  lemma SumDifference(b: bv32, c: bv32)
    ensures Sum(Difference(b, c), c) == b
  {
    hide Sum;
    SumRaw(b, c);
  }

  lemma Subtracted(x: nat, b: nat, c: nat)
    requires x < U32 && b < U32 && c < U32 && (x + c) % U32 == b
    ensures x == (b - c) % U32
  {
  }

  lemma DifferenceNumber(b: bv32, c: bv32)
    ensures Number(Difference(b, c)) == (Number(b) - Number(c)) % U32
  {
    hide Sum, Difference, Number;
    SumDifference(b, c);
    SumNumber(Difference(b, c), c);
    NumberBound(Difference(b, c));
    NumberBound(b);
    NumberBound(c);
    Subtracted(Number(Difference(b, c)), Number(b), Number(c));
  }

  lemma RawProduct(b: bv32, c: bv32)
    ensures b * (c + 1) == b * c + b
  {
  }

  lemma ProductZero(b: bv32)
    ensures Product(b, 0) == 0
  {
  }

  lemma ProductRaw(b: bv32, c: bv32)
    ensures Product(b, c + 1) == b * c + b
  {
    RawProduct(b, c);
  }

  lemma ProductSum(b: bv32, c: bv32)
    ensures Product(b, c + 1) == Sum(b * c, b)
  {
    hide Product;
    ProductRaw(b, c);
  }

  lemma ProductNext(b: bv32, c: bv32)
    ensures Product(b, Next(c)) == Sum(Product(b, c), b)
  {
    hide Sum;
    ProductSum(b, c);
  }

  lemma MultiplyOneMore(b: nat, c: nat)
    ensures (b * c % U32 + b) % U32 == b * (c + 1) % U32
  {
    var x := b * c;
    assert b * (c + 1) == x + b;
    assert x + b == x % U32 + b + x / U32 * U32;
    Multiples(x % U32 + b, x / U32);
  }

  lemma Multiples(x: int, q: int)
    ensures (x + q * U32) % U32 == x % U32
  {
  }

  /** A product of words is the product of the numbers modulo 2^32. */
  lemma {:induction false} ProductNumber(b: bv32, c: bv32)
    ensures Number(Product(b, c)) == Number(b) * Number(c) % U32
    decreases Number(c)
  {
    hide Next, Sum, Product, Number;
    Ends();
    ProductZero(b);
    if c != 0 {
      var p := Before(c);
      Inc(p);
      ProductNumber(b, p);
      ProductNext(b, p);
      SumNumber(Product(b, p), b);
      MultiplyOneMore(Number(b), Number(p));
    }
  }

  // ------------------------------------------------------------------
  // Division
  // ------------------------------------------------------------------

  lemma NotZero(c: bv32)
    requires c != 0
    ensures Number(c) > 0
  {
    hide Number;
    Ends();
    if Number(c) == 0 {
      SameNumber(c, 0);
    }
  }

  function Ratio(x: nat, d: nat): nat
    requires d > 0
  {
    x / d
  }

  function Rest(x: nat, d: nat): nat
    requires d > 0
  {
    x % d
  }

  lemma RatioRest(x: nat, d: nat)
    requires d > 0
    ensures Rest(x, d) < d && x == Ratio(x, d) * d + Rest(x, d)
  {
  }

  lemma NotSmaller(q: nat, d: nat)
    requires d > 0
    ensures q <= q * d
  {
  }

  /** Unsigned division fits into a word. */
  lemma DivisionFits(b: bv32, c: bv32)
    requires c != 0
    ensures Number(c) > 0 && Ratio(Number(b), Number(c)) < U32 && Rest(Number(b), Number(c)) < U32
  {
    hide Number, Ratio, Rest;
    NotZero(c);
    NumberBound(b);
    RatioRest(Number(b), Number(c));
    NotSmaller(Ratio(Number(b), Number(c)), Number(c));
  }

  // ------------------------------------------------------------------
  // Order and sign
  // ------------------------------------------------------------------

  predicate Below(b: bv32, c: bv32) { b < c }

  predicate Below16(h: bv16, k: bv16) { h < k }

  lemma Below8Number(h: bv8, k: bv8)
    ensures h < k <==> Number8(h) < Number8(k)
    ensures Number8(h) < 256
  {
  }

  lemma HalfBelowHigh(h: bv8, l: bv8, k: bv8, m: bv8)
    requires h < k
    ensures Below16(Half(h, l), Half(k, m))
  {
  }

  lemma HalfBelowLow(h: bv8, l: bv8, m: bv8)
    requires l < m
    ensures Below16(Half(h, l), Half(h, m))
  {
  }

  lemma Same8(h: bv8, k: bv8)
    requires Number8(h) == Number8(k)
    ensures h == k
  {
  }

  lemma Below16When(x: bv16, y: bv16)
    requires Number16(x) < Number16(y)
    ensures Below16(x, y)
  {
    var h, l := HalfOf(x);
    var k, m := HalfOf(y);
    hide Half, Below16, Number8, Number16;
    HalfValue(h, l);
    HalfValue(k, m);
    Below8Number(h, k);
    Below8Number(l, m);
    Below8Number(m, l);
    if h < k {
      HalfBelowHigh(h, l, k, m);
    } else {
      assert Number8(h) == Number8(k);
      Same8(h, k);
      HalfBelowLow(h, l, m);
    }
  }

  lemma Same16(x: bv16, y: bv16)
    requires Number16(x) == Number16(y)
    ensures x == y
  {
    var h, l := HalfOf(x);
    var k, m := HalfOf(y);
    hide Half, Number8, Number16;
    HalfValue(h, l);
    HalfValue(k, m);
    Below8Number(l, m);
    Below8Number(m, l);
    Same8(h, k);
    Same8(l, m);
  }

  lemma WholeBelowHigh(h: bv16, l: bv16, k: bv16, m: bv16)
    requires Below16(h, k)
    ensures Below(Whole(h, l), Whole(k, m))
  {
  }

  lemma WholeBelowLow(h: bv16, l: bv16, m: bv16)
    requires Below16(l, m)
    ensures Below(Whole(h, l), Whole(h, m))
  {
  }

  lemma NotBoth(b: bv32, c: bv32)
    requires Below(b, c)
    ensures b != c && !Below(c, b)
  {
  }

  lemma Bound16(x: bv16)
    ensures Number16(x) < 65536
  {
  }

  lemma BelowWhen(b: bv32, c: bv32)
    requires Number(b) < Number(c)
    ensures Below(b, c)
  {
    var h, l := WholeOf(b);
    var k, m := WholeOf(c);
    hide Whole, Below, Below16, Number16, Number;
    WholeValue(h, l);
    WholeValue(k, m);
    Bound16(l);
    Bound16(m);
    if Number16(h) < Number16(k) {
      Below16When(h, k);
      WholeBelowHigh(h, l, k, m);
    } else {
      Same16(h, k);
      Below16When(l, m);
      WholeBelowLow(h, l, m);
    }
  }

  /** The order of words is the order of the numbers. */
  lemma BelowNumber(b: bv32, c: bv32)
    ensures Below(b, c) <==> Number(b) < Number(c)
  {
    hide Below, Number;
    if Number(b) < Number(c) {
      BelowWhen(b, c);
    } else if Number(c) < Number(b) {
      BelowWhen(c, b);
      NotBoth(c, b);
    } else {
      SameNumber(b, c);
      NotBelowSelf(b);
    }
  }

  lemma NotBelowSelf(b: bv32)
    ensures !Below(b, b)
  {
  }

  /** The number of a word read as two's complement. */
  function Signed(x: bv32): int {
    if Number(x) < 0x8000_0000 then Number(x) else Number(x) - U32
  }

  predicate SignBit(x: bv32) { x & 0x8000_0000 != 0 }

  lemma SignBitBelow(x: bv32)
    ensures SignBit(x) <==> !Below(x, 0x8000_0000)
    ensures Number(0x8000_0000) == 0x8000_0000
  {
  }

  /** The top bit is the sign. */
  lemma SignBitSigned(x: bv32)
    ensures SignBit(x) <==> Signed(x) < 0
  {
    hide SignBit, Below, Number;
    SignBitBelow(x);
    BelowNumber(x, 0x8000_0000);
    NumberBound(x);
  }

  // ------------------------------------------------------------------
  // Bits
  // ------------------------------------------------------------------

  predicate Bit(x: bv32, i: bv6)
    requires i < 32
  {
    (x >> i) & 1 == 1
  }

  lemma AndBit(b: bv32, c: bv32, i: bv6)
    requires i < 32
    ensures Bit(b & c, i) <==> Bit(b, i) && Bit(c, i)
  {
  }

  lemma OrBit(b: bv32, c: bv32, i: bv6)
    requires i < 32
    ensures Bit(b | c, i) <==> Bit(b, i) || Bit(c, i)
  {
  }

  lemma XorBit(b: bv32, c: bv32, i: bv6)
    requires i < 32
    ensures Bit(b ^ c, i) <==> Bit(b, i) != Bit(c, i)
  {
  }

  lemma NotBit(b: bv32, i: bv6)
    requires i < 32
    ensures Bit(!b, i) <==> !Bit(b, i)
  {
  }
}
