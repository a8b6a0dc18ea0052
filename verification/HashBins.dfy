/** The bins of the open-addressing table of hashing.c as a value: probing, the probe-chain
    invariant, the finite map the bins stand for and the copies they own. */
module HashBins {
  import opened Words

  const MIN_TABLE_SIZE: nat := 8
  const MAX_TABLE_SIZE: nat := 0x8000_0000

  /** Reduction to `uint32_t`: values outside the range re-enter at the other end. */
  function Wrap(n: int): Uint32
    decreases if n < 0 then -n else n
  {
    if n < 0 then if n + U32 < 0 then Wrap(n + U32) else n + U32
    else if n >= U32 then Wrap(n - U32) else n
  }

  lemma {:induction false} WrapPeriod(n: int)
    ensures Wrap(n + U32) == Wrap(n)
  {
  }

  lemma ModPeriod(n: int)
    ensures (n + U32) % U32 == n % U32
  {
  }

  lemma ModSmall(n: int)
    requires 0 <= n < U32
    ensures n % U32 == n
  {
  }

  lemma {:induction false} WrapIsMod(n: int)
    ensures Wrap(n) == n % U32
    decreases if n < 0 then -n else n
  {
    if n < 0 {
      ModPeriod(n);
      if n + U32 < 0 {
        WrapIsMod(n + U32);
      } else {
        ModSmall(n + U32);
      }
    } else if n >= U32 {
      ModPeriod(n - U32);
      WrapIsMod(n - U32);
    } else {
      ModSmall(n);
    }
  }

  lemma SameModulo(a: nat, d: int)
    requires a < U32
    ensures (a - d) % U32 == a <==> d % U32 == 0
  {
  }

  /** A pointer to a heap copy made by `cpy`; `id` tells one allocation from another. */
  datatype Ptr<T> = Null | Copy(id: nat, data: T)

  /** What a caller reads through a pointer returned by a lookup. */
  function Seen<T>(p: Ptr<T>): Option<T> {
    if p.Copy? then Some(p.data) else None
  }

  /** `hash_bin_t`. A tombstone is `inProbe && isEmpty`. */
  datatype Bin<K, V> = Bin(inProbe: bool, isEmpty: bool, hashKey: Uint32, key: Ptr<K>, val: Ptr<V>)
  {
    /** `is_active_bin`. */
    predicate Live() { inProbe && !isEmpty }
  }

  /** `key_in_bin`. */
  predicate Holds<K(==), V>(b: Bin<K, V>, h: Uint32, k: K) {
    b.Live() && b.hashKey == h && b.key.Copy? && b.key.data == k
  }

  // ------------------------------------------------------------------
  // Masks of powers of two
  // ------------------------------------------------------------------

  predicate PowerOfTwo(n: nat) {
    n == 1 || (n > 1 && n % 2 == 0 && PowerOfTwo(n / 2))
  }

  /** Bitwise and of two naturals, by binary digits. */
  function BitAnd(a: nat, b: nat): nat {
    if a == 0 || b == 0 then 0
    else 2 * BitAnd(a / 2, b / 2) + (if a % 2 == 1 && b % 2 == 1 then 1 else 0)
  }

  /** `probe`: the slot of the `i`-th attempt. */
  function Probe(h: Uint32, i: nat, m: nat): nat
    requires m > 0
  {
    BitAnd(Wrap(h + i), m - 1)
  }

  lemma ModHalf(x: nat, m: nat)
    requires m > 1 && m % 2 == 0
    ensures x % m == 2 * (x / 2 % (m / 2)) + x % 2
  {
    var k := m / 2;
    var q, r := x / 2 / k, x / 2 % k;
    assert x / 2 == k * q + r;
    assert m * q == 2 * (k * q);
    assert x == m * q + (2 * r + x % 2);
    ModUnique(x, m, q, 2 * r + x % 2);
  }

  lemma MulDiff(m: nat, a: int, b: int)
    ensures m * a - m * b == m * (a - b)
  {
  }

  lemma MulAtLeast(m: nat, d: int)
    requires d >= 1
    ensures m * d >= m
  {
  }

  lemma QuotientUnique(m: nat, q: int, r: nat, q': int, r': nat)
    requires r < m && r' < m && m * q + r == m * q' + r'
    ensures r == r'
  {
    MulDiff(m, q, q');
    MulDiff(m, q', q);
    if q > q' {
      MulAtLeast(m, q - q');
    } else if q' > q {
      MulAtLeast(m, q' - q);
    }
  }

  lemma ModUnique(x: int, m: nat, q: int, r: nat)
    requires r < m && x == m * q + r
    ensures x % m == r
  {
    QuotientUnique(m, q, r, x / m, x % m);
  }

  lemma {:induction false} MaskIsMod(x: nat, m: nat)
    requires PowerOfTwo(m)
    ensures BitAnd(x, m - 1) == x % m
    decreases m
  {
    if m > 1 {
      ModHalf(x, m);
      MaskIsMod(x / 2, m / 2);
      assert (m - 1) / 2 == m / 2 - 1 && (m - 1) % 2 == 1;
      if x == 0 {
        assert 0 % m == 0;
      }
    } else {
      assert x % 1 == 0;
    }
  }

  lemma {:induction false} PowersDivide(m: nat, n: nat)
    requires PowerOfTwo(m) && PowerOfTwo(n) && m <= n
    ensures n % m == 0
    decreases n
  {
    if m > 1 {
      PowersDivide(m / 2, n / 2);
      ModHalf(n, m);
    } else {
      assert n % 1 == 0;
    }
  }

  lemma DoubledPower(n: nat)
    requires PowerOfTwo(n)
    ensures PowerOfTwo(2 * n)
  {
    assert 2 * n / 2 == n;
  }

  lemma HalvedOnce(n: nat)
    requires PowerOfTwo(n) && n > 1
    ensures PowerOfTwo(n / 2) && n == 2 * (n / 2)
  {
  }

  lemma EightTimes(e: nat)
    ensures 8 * e / 8 == e
  {
  }

  lemma QuarterHalf(n: nat, h: nat, q: nat, e: nat)
    requires n == 2 * h && h == 2 * q && q == 2 * e
    ensures n == 8 * (n / 8)
  {
    EightTimes(e);
  }

  lemma HalvedPower(n: nat)
    requires PowerOfTwo(n) && n > MIN_TABLE_SIZE
    ensures PowerOfTwo(n / 2) && n / 2 >= MIN_TABLE_SIZE && n == 2 * (n / 2)
    ensures n == 8 * (n / 8)
  {
    var h := n / 2;
    HalvedOnce(n);
    var q := h / 2;
    HalvedOnce(h);
    HalvedOnce(q);
    QuarterHalf(n, h, q, q / 2);
  }

  lemma SizeInEighths(n: nat)
    requires PowerOfTwo(n) && n >= MIN_TABLE_SIZE
    ensures n == 8 * (n / 8)
  {
    if n > MIN_TABLE_SIZE {
      HalvedPower(n);
    }
  }

  /** Below the range limit, wrapping never makes a counter smaller. */
  lemma WrapBelow(n: int)
    requires n < U32
    ensures n <= Wrap(n)
  {
  }

  lemma WrapZero()
    ensures Wrap(0) == 0
  {
  }

  lemma {:induction false} WrapAdd(x: int, d: int)
    requires -1 <= d <= 1
    ensures Wrap(Wrap(x) + d) == Wrap(x + d)
    decreases if x < 0 then -x else x
  {
    if x < 0 {
      WrapPeriod(x + d);
      if x + U32 < 0 {
        WrapAdd(x + U32, d);
      }
    } else if x >= U32 {
      WrapPeriod(x - U32 + d);
      WrapAdd(x - U32, d);
    }
  }

  lemma SixteenTimes(n: nat)
    requires PowerOfTwo(n)
    ensures PowerOfTwo(16 * n)
  {
    hide PowerOfTwo;
    DoubledPower(n);
    DoubledPower(2 * n);
    DoubledPower(4 * n);
    DoubledPower(8 * n);
  }

  lemma WordIsPower()
    ensures PowerOfTwo(U32)
  {
    assert PowerOfTwo(1);
    hide PowerOfTwo;
    SixteenTimes(1);
    SixteenTimes(0x10);
    SixteenTimes(0x100);
    SixteenTimes(0x1000);
    SixteenTimes(0x1_0000);
    SixteenTimes(0x10_0000);
    SixteenTimes(0x100_0000);
    SixteenTimes(0x1000_0000);
  }

  // ------------------------------------------------------------------
  // The probe path, in linear arithmetic
  // ------------------------------------------------------------------

  function Home(h: Uint32, m: nat): (slot: nat)
    requires PowerOfTwo(m)
    ensures slot < m
  {
    MaskIsMod(h, m);
    BitAnd(h, m - 1)
  }

  /** The slot `i` places after `home`, cyclically. */
  function At(home: nat, i: nat, m: nat): (slot: nat)
    requires home < m && i < m
    ensures slot < m
  {
    if home + i < m then home + i else home + i - m
  }

  /** How many places after `home` the slot lies. */
  function Distance(home: nat, slot: nat, m: nat): (i: nat)
    requires home < m && slot < m
    ensures i < m && At(home, i, m) == slot
  {
    if slot >= home then slot - home else slot + m - home
  }

  /** The `i`-th probe of the code is the `i`-th slot after the home slot, wrap-around of
      `hash_key + i` included. */
  lemma ProbeIsAt(h: Uint32, i: nat, m: nat)
    requires PowerOfTwo(m) && i < m <= U32
    ensures Probe(h, i, m) == At(Home(h, m), i, m)
  {
    var x := Wrap(h + i);
    MaskIsMod(h, m);
    MaskIsMod(x, m);
    var w := WordQuotient(m);
    DivMod(h, m);
    ProbeArithmetic(h, i, m, h / m, h % m, w);
  }

  lemma DivMod(x: nat, m: nat)
    requires m > 0
    ensures x == m * (x / m) + x % m
  {
  }

  lemma WordQuotient(m: nat) returns (w: nat)
    requires PowerOfTwo(m) && m <= U32
    ensures U32 == m * w
  {
    WordIsPower();
    PowersDivide(m, U32);
    DivMod(U32, m);
    w := U32 / m;
  }

  lemma ProbeArithmetic(h: Uint32, i: nat, m: nat, q: int, r: nat, w: int)
    requires r < m && i < m
    requires h == m * q + r && U32 == m * w
    ensures Wrap(h + i) % m == At(r, i, m)
  {
    var x := Wrap(h + i);
    MulDiff(m, q, -1);
    MulDiff(m, q, w);
    MulDiff(m, q + 1, w);
    if h + i < U32 {
      assert x == h + i;
      ModUnique(x, m, if r + i < m then q else q + 1, At(r, i, m));
    } else {
      WrapPeriod(h + i - U32);
      assert x == h + i - U32;
      ModUnique(x, m, if r + i < m then q - w else q + 1 - w, At(r, i, m));
    }
  }

  // ------------------------------------------------------------------
  // Amortised cost of the rebuilds
  // ------------------------------------------------------------------

  /** Rebuild work, in bins, already paid for by earlier insertions. */
  function Potential(used: nat, size: nat, drift: int): int {
    24 * (if 4 * used > size then used - size / 4 else 0) + 3 * size + 24 * drift
  }

  /** An insertion that moves nothing raises the potential by at most 24. */
  lemma StorePays(used: nat, size: nat, drift: int, used': nat, drift': int)
    requires size == 8 * (size / 8) && used <= used' && (used' - used) + (drift' - drift) <= 1 && drift <= drift'
    ensures Potential(used', size, drift') <= Potential(used, size, drift) + 24
  {
  }

  /** A doubling touches three times the old size in bins and is paid by the fall of the potential. */
  lemma GrowthPays(used: nat, size: nat, drift: int, live: nat)
    requires size == 8 * (size / 8) && 2 * used <= size && 2 * (used + 1) > size && live <= used + 1 && drift >= 0
    ensures 3 * size + Potential(live, 2 * size, 0) <= Potential(used, size, drift) + 24
  {
    var e := size / 8;
    assert size / 4 == 2 * e && 2 * size / 4 == 4 * e && 4 * e - 1 <= used <= 4 * e && live <= 4 * e + 1;
  }

  /** A shrink is paid as well, also when overwrites have made `active` too small and the table
      doubles back to its old size. */
  lemma ShrinkPays(used: nat, size: nat, net: int, live: nat)
    requires size == 8 * (size / 8) && 2 * used <= size && net <= live <= used && 8 * net < size
    ensures 4 * live <= size ==>
              size / 2 + size + Potential(live, size / 2, 0) <= Potential(used, size, live - net)
    ensures 4 * live > size ==>
              3 * size + Potential(live, size, 0) <= Potential(used, size, live - net)
  {
    var e := size / 8;
    assert size / 4 == 2 * e && size / 2 == 4 * e && size / 2 / 4 == e;
    assert net <= e - 1;
  }
}
