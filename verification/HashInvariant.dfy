/** The probe-chain invariant and the finite map, counts and copies behind a sequence of bins. */
module HashInvariant {
  import opened Words
  import opened HashBins

  /** A bin with data is on some probe path, owns its copies and caches the right hash. */
  ghost predicate WellFormed<K, V>(bs: seq<Bin<K, V>>, hash: K -> Uint32) {
    forall i :: 0 <= i < |bs| && !bs[i].isEmpty ==>
      bs[i].inProbe && bs[i].key.Copy? && bs[i].val.Copy? && bs[i].hashKey == hash(bs[i].key.data)
  }

  ghost predicate Distinct<K, V>(bs: seq<Bin<K, V>>) {
    forall i, j :: 0 <= i < j < |bs| && bs[i].Live() && bs[j].Live() && bs[i].key.Copy? && bs[j].key.Copy? ==>
      bs[i].key.data != bs[j].key.data
  }

  /** Every slot from the home slot of bin `i` up to `i` itself is in some probe path. */
  ghost predicate Reached<K, V>(bs: seq<Bin<K, V>>, i: nat)
    requires i < |bs| && PowerOfTwo(|bs|)
  {
    var home := Home(bs[i].hashKey, |bs|);
    forall j :: 0 <= j <= Distance(home, i, |bs|) ==> bs[At(home, j, |bs|)].inProbe
  }

  ghost predicate AllReached<K, V>(bs: seq<Bin<K, V>>)
    requires PowerOfTwo(|bs|)
  {
    forall i :: 0 <= i < |bs| && bs[i].Live() ==> Reached(bs, i)
  }

  ghost predicate Inv<K, V>(bs: seq<Bin<K, V>>, hash: K -> Uint32) {
    && MIN_TABLE_SIZE <= |bs| <= MAX_TABLE_SIZE
    && PowerOfTwo(|bs|)
    && WellFormed(bs, hash)
    && Distinct(bs)
    && AllReached(bs)
  }

  lemma InvParts<K, V>(bs: seq<Bin<K, V>>, hash: K -> Uint32)
    requires Inv(bs, hash)
    ensures WellFormed(bs, hash) && Distinct(bs)
    ensures MIN_TABLE_SIZE <= |bs| <= MAX_TABLE_SIZE && PowerOfTwo(|bs|)
  {
  }

  // ------------------------------------------------------------------
  // Abstraction: the map, the two counts, the owned copies
  // ------------------------------------------------------------------

  /** The finite map the live bins stand for. */
  function Contents<K(==), V>(bs: seq<Bin<K, V>>): map<K, V> {
    if bs == [] then map[] else With(Contents(bs[..|bs| - 1]), bs[|bs| - 1])
  }

  function With<K(==), V>(m: map<K, V>, b: Bin<K, V>): map<K, V> {
    if b.Live() && b.key.Copy? && b.val.Copy? then m[b.key.data := b.val.data] else m
  }

  ghost function UsedSlots<K, V>(bs: seq<Bin<K, V>>): set<nat> {
    set i | 0 <= i < |bs| && bs[i].inProbe
  }

  ghost function LiveSlots<K, V>(bs: seq<Bin<K, V>>): set<nat> {
    set i | 0 <= i < |bs| && bs[i].Live()
  }

  function Ids<K, V>(b: Bin<K, V>): multiset<nat> {
    if b.Live() && b.key.Copy? && b.val.Copy? then multiset{b.key.id, b.val.id} else multiset{}
  }

  /** The heap copies owned by the bins, with multiplicity. */
  function Owned<K, V>(bs: seq<Bin<K, V>>): multiset<nat> {
    if bs == [] then multiset{} else Owned(bs[..|bs| - 1]) + Ids(bs[|bs| - 1])
  }

  /** The allocations made so far, each once. */
  function Allocated(n: nat): multiset<nat> {
    if n == 0 then multiset{} else Allocated(n - 1) + multiset{n - 1}
  }

  lemma {:induction false} AllocatedOnce(n: nat, id: nat)
    ensures Allocated(n)[id] == if id < n then 1 else 0
  {
    if n > 0 {
      AllocatedOnce(n - 1, id);
    }
  }

  lemma OwnedLast<K, V>(bs: seq<Bin<K, V>>)
    requires bs != []
    ensures Owned(bs) == Owned(bs[..|bs| - 1]) + Ids(bs[|bs| - 1])
  {
  }

  lemma {:induction false} OwnedUpdate<K, V>(bs: seq<Bin<K, V>>, i: nat, b: Bin<K, V>)
    requires i < |bs|
    ensures Owned(bs[i := b]) + Ids(bs[i]) == Owned(bs) + Ids(b)
  {
    hide Owned, Ids;
    var n := |bs| - 1;
    var changed := bs[i := b];
    OwnedLast(bs);
    OwnedLast(changed);
    if i == n {
      assert changed[..n] == bs[..n];
      MultisetSwap(Owned(changed[..n]), Owned(bs[..n]), Ids(b), Ids(bs[n]));
    } else {
      assert changed[..n] == bs[..n][i := b];
      OwnedUpdate(bs[..n], i, b);
      MultisetShift(Owned(changed[..n]), Ids(bs[i]), Owned(bs[..n]), Ids(b), Ids(bs[n]));
    }
  }

  lemma MultisetSwap(m: multiset<nat>, m': multiset<nat>, a: multiset<nat>, b: multiset<nat>)
    requires m == m'
    ensures (m + a) + b == (m' + b) + a
  {
  }

  lemma MultisetShift(m: multiset<nat>, a: multiset<nat>, m': multiset<nat>, b: multiset<nat>, c: multiset<nat>)
    requires m + a == m' + b
    ensures (m + c) + a == (m' + c) + b
  {
    assert (m + c) + a == (m + a) + c;
    assert (m' + c) + b == (m' + b) + c;
  }

  lemma AllocatedTwo(n: nat)
    ensures Allocated(n + 2) == Allocated(n) + multiset{n, n + 1}
  {
    assert Allocated(n + 2) == Allocated(n + 1) + multiset{n + 1};
  }

  lemma {:induction false} OwnedAt<K, V>(bs: seq<Bin<K, V>>, i: nat)
    requires i < |bs|
    ensures Ids(bs[i]) <= Owned(bs)
  {
    if i < |bs| - 1 {
      OwnedAt(bs[..|bs| - 1], i);
    }
  }

  lemma MultisetAssoc(a: multiset<nat>, b: multiset<nat>, c: multiset<nat>)
    ensures (a + b) + c == a + (b + c)
  {
  }

  lemma MultisetComm(a: multiset<nat>, b: multiset<nat>)
    ensures a + b == b + a
  {
  }

  /** What a bin loses the free list gains. */
  lemma Rebalance(a: multiset<nat>, x: multiset<nat>, b: multiset<nat>, y: multiset<nat>, f: multiset<nat>)
    requires a + x == b + y
    ensures a + (f + x) == (b + f) + y
  {
    assert a + (f + x) == (a + x) + f;
    assert (b + f) + y == (b + y) + f;
  }

  lemma Unfreed(a: multiset<nat>, b: multiset<nat>, f: multiset<nat>)
    requires a + f == b + f
    ensures a == b
  {
    assert a == (a + f) - f && b == (b + f) - f;
  }

  lemma {:induction false} OwnedNone<K, V>(bs: seq<Bin<K, V>>)
    requires forall i :: 0 <= i < |bs| ==> !bs[i].Live()
    ensures Owned(bs) == multiset{}
  {
    if bs != [] {
      OwnedNone(bs[..|bs| - 1]);
    }
  }

  ghost function Slots(n: nat): (s: set<nat>)
    ensures |s| == n
    ensures forall i :: i in s <==> 0 <= i < n
  {
    if n == 0 then {} else Slots(n - 1) + {n - 1}
  }

  lemma AllUsed<K, V>(bs: seq<Bin<K, V>>)
    requires forall i :: 0 <= i < |bs| ==> bs[i].inProbe
    ensures |UsedSlots(bs)| == |bs|
  {
    assert UsedSlots(bs) == Slots(|bs|);
  }

  /** While fewer slots are used than there are, every probe path meets an unused one. */
  lemma UnusedOnPath<K, V>(bs: seq<Bin<K, V>>, home: nat) returns (i: nat)
    requires |UsedSlots(bs)| < |bs| && home < |bs|
    ensures i < |bs| && !bs[At(home, i, |bs|)].inProbe
  {
    if forall r :: 0 <= r < |bs| ==> bs[r].inProbe {
      AllUsed(bs);
    }
    var r :| 0 <= r < |bs| && !bs[r].inProbe;
    i := Distance(home, r, |bs|);
  }

  lemma LiveWithinUsed<K, V>(bs: seq<Bin<K, V>>)
    ensures LiveSlots(bs) <= UsedSlots(bs) && |LiveSlots(bs)| <= |UsedSlots(bs)| <= |bs|
  {
    SubsetCount(LiveSlots(bs), UsedSlots(bs));
    SubsetCount(UsedSlots(bs), Slots(|bs|));
  }

  lemma SubsetCount(a: set<nat>, b: set<nat>)
    requires a <= b
    ensures |a| <= |b|
  {
    assert b == a + (b - a);
  }

  /** Which keys the map has and what it gives for them, bin by bin. */
  lemma {:induction false} ContentsAt<K, V>(bs: seq<Bin<K, V>>, hash: K -> Uint32, i: nat)
    requires WellFormed(bs, hash) && Distinct(bs)
    requires i < |bs| && bs[i].Live()
    ensures bs[i].key.data in Contents(bs) && Contents(bs)[bs[i].key.data] == bs[i].val.data
  {
    var n := |bs| - 1;
    if i < n {
      ContentsAt(bs[..n], hash, i);
    }
  }

  lemma {:induction false} ContentsFrom<K, V>(bs: seq<Bin<K, V>>, hash: K -> Uint32, k: K) returns (i: nat)
    requires WellFormed(bs, hash) && Distinct(bs)
    requires k in Contents(bs)
    ensures i < |bs| && bs[i].Live() && bs[i].key.data == k && Contents(bs)[k] == bs[i].val.data
  {
    var n := |bs| - 1;
    if bs[n].Live() && bs[n].key.data == k {
      i := n;
    } else {
      i := ContentsFrom(bs[..n], hash, k);
    }
  }

  /** Two sequences of bins where one has the live entries of the other: its map extends the other's. */
  lemma SameEntries<K, V>(a: seq<Bin<K, V>>, b: seq<Bin<K, V>>, hash: K -> Uint32)
    requires WellFormed(a, hash) && Distinct(a) && WellFormed(b, hash) && Distinct(b)
    requires forall i :: 0 <= i < |a| && a[i].Live() ==> i < |b| && b[i] == a[i]
    ensures forall k :: k in Contents(a) ==> k in Contents(b) && Contents(b)[k] == Contents(a)[k]
  {
    forall k | k in Contents(a)
      ensures k in Contents(b) && Contents(b)[k] == Contents(a)[k]
    {
      var i := ContentsFrom(a, hash, k);
      ContentsAt(b, hash, i);
    }
  }

  lemma PrefixNew<K, V>(bs: seq<Bin<K, V>>, n: nat, hash: K -> Uint32)
    requires n < |bs| && WellFormed(bs, hash) && Distinct(bs) && !bs[n].isEmpty
    ensures bs[n].key.data !in Contents(bs[..n])
  {
    if bs[n].key.data in Contents(bs[..n]) {
      var i := ContentsFrom(bs[..n], hash, bs[n].key.data);
      assert false;
    }
  }

  /** The map, the live count and the copies of a prefix of the bins, one bin further. */
  lemma PrefixStep<K, V>(bs: seq<Bin<K, V>>, n: nat)
    requires n < |bs|
    ensures Contents(bs[..n + 1]) == With(Contents(bs[..n]), bs[n])
    ensures |LiveSlots(bs[..n + 1])| == |LiveSlots(bs[..n])| + (if bs[n].Live() then 1 else 0)
    ensures Owned(bs[..n + 1]) == Owned(bs[..n]) + Ids(bs[n])
  {
    assert bs[..n + 1][..n] == bs[..n];
    assert LiveSlots(bs[..n + 1]) == if bs[n].Live() then LiveSlots(bs[..n]) + {n} else LiveSlots(bs[..n]);
  }

  lemma EmptyPrefix<K, V>(bs: seq<Bin<K, V>>)
    ensures Contents(bs[..0]) == map[] && |LiveSlots(bs[..0])| == 0 && Owned(bs[..0]) == multiset{}
  {
    assert bs[..0] == [];
    assert LiveSlots(bs[..0]) == {};
  }

  lemma PrefixWithin<K, V>(bs: seq<Bin<K, V>>, n: nat)
    requires n <= |bs|
    ensures |LiveSlots(bs[..n])| <= |LiveSlots(bs)|
  {
    SubsetCount(LiveSlots(bs[..n]), LiveSlots(bs));
  }

  /** As many live bins as entries of the map. */
  lemma {:induction false} LiveCount<K, V>(bs: seq<Bin<K, V>>, hash: K -> Uint32)
    requires WellFormed(bs, hash) && Distinct(bs)
    ensures |LiveSlots(bs)| == |Contents(bs)|
  {
    if bs != [] {
      var n := |bs| - 1;
      LiveCount(bs[..n], hash);
      assert bs[..n + 1] == bs;
      PrefixStep(bs, n);
      if bs[n].Live() {
        PrefixNew(bs, n, hash);
      }
    }
  }

  lemma {:induction false} NoContents<K, V>(bs: seq<Bin<K, V>>)
    requires forall i :: 0 <= i < |bs| ==> !bs[i].Live()
    ensures Contents(bs) == map[]
  {
    if bs != [] {
      NoContents(bs[..|bs| - 1]);
    }
  }

  /** A new array of unused bins is the empty map. */
  lemma EmptyBins<K, V>(bs: seq<Bin<K, V>>, hash: K -> Uint32)
    requires MIN_TABLE_SIZE <= |bs| <= MAX_TABLE_SIZE && PowerOfTwo(|bs|)
    requires forall i :: 0 <= i < |bs| ==> !bs[i].inProbe && bs[i].isEmpty
    ensures Inv(bs, hash) && Contents(bs) == map[] && Owned(bs) == multiset{}
    ensures |UsedSlots(bs)| == 0 && |LiveSlots(bs)| == 0
  {
    NoContents(bs);
    OwnedNone(bs);
    assert UsedSlots(bs) == {} && LiveSlots(bs) == {};
  }

  // ------------------------------------------------------------------
  // The three writes: fresh store, overwrite, free
  // ------------------------------------------------------------------

  /** `b` may be stored at slot `r`, which the probe path of its hash reaches as an empty bin. */
  ghost predicate Fits<K, V>(bs: seq<Bin<K, V>>, hash: K -> Uint32, r: nat, b: Bin<K, V>) {
    && r < |bs| && bs[r].isEmpty
    && b.Live() && b.key.Copy? && b.val.Copy? && b.hashKey == hash(b.key.data)
    && Inv(bs, hash)
    && b.key.data !in Contents(bs)
    && var home := Home(b.hashKey, |bs|);
       forall j :: 0 <= j < Distance(home, r, |bs|) ==> bs[At(home, j, |bs|)].inProbe
  }

  /** The first empty bin of a probe path, when the key is absent, is where the key fits. */
  lemma EmptyFits<K, V>(bs: seq<Bin<K, V>>, hash: K -> Uint32, r: nat, b: Bin<K, V>)
    requires Inv(bs, hash) && r < |bs| && bs[r].isEmpty && b.key.Copy? && b.key.data !in Contents(bs)
    requires b.Live() && b.val.Copy? && b.hashKey == hash(b.key.data)
    requires var home := Home(b.hashKey, |bs|);
             forall j :: 0 <= j < Distance(home, r, |bs|) ==> !bs[At(home, j, |bs|)].isEmpty
    ensures Fits(bs, hash, r, b)
  {
  }

  lemma StoreDistinct<K, V>(bs: seq<Bin<K, V>>, hash: K -> Uint32, r: nat, b: Bin<K, V>)
    requires Fits(bs, hash, r, b)
    ensures WellFormed(bs[r := b], hash) && Distinct(bs[r := b])
  {
    forall i | 0 <= i < |bs| && bs[i].Live()
      ensures bs[i].key.data != b.key.data
    {
      ContentsAt(bs, hash, i);
    }
  }

  lemma StoreReached<K, V>(bs: seq<Bin<K, V>>, hash: K -> Uint32, r: nat, b: Bin<K, V>)
    requires Fits(bs, hash, r, b)
    ensures AllReached(bs[r := b])
  {
    var after := bs[r := b];
    forall i | 0 <= i < |bs| && after[i].Live()
      ensures Reached(after, i)
    {
      if i != r {
        assert Reached(bs, i);
      }
    }
  }

  /** Storing a new key on its probe path keeps the invariant and adds one entry to the map. */
  lemma StoreNew<K, V>(bs: seq<Bin<K, V>>, hash: K -> Uint32, r: nat, b: Bin<K, V>)
    requires Fits(bs, hash, r, b)
    ensures Inv(bs[r := b], hash)
    ensures Contents(bs[r := b]) == Contents(bs)[b.key.data := b.val.data]
    ensures |LiveSlots(bs[r := b])| == |LiveSlots(bs)| + 1
    ensures |UsedSlots(bs[r := b])| == |UsedSlots(bs)| + (if bs[r].inProbe then 0 else 1)
  {
    var after := bs[r := b];
    StoreDistinct(bs, hash, r, b);
    StoreReached(bs, hash, r, b);
    assert LiveSlots(after) == LiveSlots(bs) + {r};
    assert UsedSlots(after) == UsedSlots(bs) + {r};
    StoreContents(bs, hash, r, b);
  }

  lemma StoreContents<K, V>(bs: seq<Bin<K, V>>, hash: K -> Uint32, r: nat, b: Bin<K, V>)
    requires Fits(bs, hash, r, b)
    requires WellFormed(bs[r := b], hash) && Distinct(bs[r := b])
    ensures Contents(bs[r := b]) == Contents(bs)[b.key.data := b.val.data]
  {
    var after := bs[r := b];
    SameEntries(bs, after, hash);
    ContentsAt(after, hash, r);
    forall x | x in Contents(after) && x != b.key.data
      ensures x in Contents(bs)
    {
      var i := ContentsFrom(after, hash, x);
      ContentsAt(bs, hash, i);
    }
  }

  /** Replacing the data of a live bin, key unchanged, changes one value of the map. */
  lemma Overwrite<K, V>(bs: seq<Bin<K, V>>, hash: K -> Uint32, r: nat, b: Bin<K, V>)
    requires Inv(bs, hash) && r < |bs| && bs[r].Live()
    requires b.Live() && b.key.Copy? && b.val.Copy? && b.hashKey == bs[r].hashKey && b.key.data == bs[r].key.data
    ensures Inv(bs[r := b], hash)
    ensures Contents(bs[r := b]) == Contents(bs)[b.key.data := b.val.data]
    ensures LiveSlots(bs[r := b]) == LiveSlots(bs) && UsedSlots(bs[r := b]) == UsedSlots(bs)
  {
    var after := bs[r := b];
    forall i | 0 <= i < |bs| && after[i].Live()
      ensures Reached(after, i)
    {
      assert Reached(bs, i);
    }
    OverwriteContents(bs, hash, r, b);
  }

  lemma OverwriteContents<K, V>(bs: seq<Bin<K, V>>, hash: K -> Uint32, r: nat, b: Bin<K, V>)
    requires WellFormed(bs, hash) && Distinct(bs) && r < |bs| && bs[r].Live()
    requires b.Live() && b.key.Copy? && b.val.Copy? && b.hashKey == bs[r].hashKey && b.key.data == bs[r].key.data
    ensures Contents(bs[r := b]) == Contents(bs)[b.key.data := b.val.data]
  {
    var after := bs[r := b];
    ContentsAt(after, hash, r);
    ContentsAt(bs, hash, r);
    forall x | x in Contents(bs) && x != b.key.data
      ensures x in Contents(after) && Contents(after)[x] == Contents(bs)[x]
    {
      var i := ContentsFrom(bs, hash, x);
      ContentsAt(after, hash, i);
    }
    forall x | x in Contents(after) && x != b.key.data
      ensures x in Contents(bs)
    {
      var i := ContentsFrom(after, hash, x);
      ContentsAt(bs, hash, i);
    }
  }

  /** Freeing a live bin leaves a tombstone: every other probe path survives and one key is gone. */
  lemma Free<K, V>(bs: seq<Bin<K, V>>, hash: K -> Uint32, r: nat)
    requires Inv(bs, hash) && r < |bs| && bs[r].Live()
    ensures Inv(bs[r := bs[r].(isEmpty := true)], hash)
    ensures Contents(bs[r := bs[r].(isEmpty := true)]) == Contents(bs) - {bs[r].key.data}
    ensures |LiveSlots(bs[r := bs[r].(isEmpty := true)])| == |LiveSlots(bs)| - 1
    ensures UsedSlots(bs[r := bs[r].(isEmpty := true)]) == UsedSlots(bs)
  {
    var after := bs[r := bs[r].(isEmpty := true)];
    forall i | 0 <= i < |bs| && after[i].Live()
      ensures Reached(after, i)
    {
      assert Reached(bs, i);
    }
    assert LiveSlots(after) == LiveSlots(bs) - {r};
    FreeContents(bs, hash, r);
  }

  lemma FreeContents<K, V>(bs: seq<Bin<K, V>>, hash: K -> Uint32, r: nat)
    requires WellFormed(bs, hash) && Distinct(bs) && r < |bs| && bs[r].Live()
    ensures Contents(bs[r := bs[r].(isEmpty := true)]) == Contents(bs) - {bs[r].key.data}
  {
    var after := bs[r := bs[r].(isEmpty := true)];
    SameEntries(after, bs, hash);
    forall x | x in Contents(bs) && x != bs[r].key.data
      ensures x in Contents(after)
    {
      var i := ContentsFrom(bs, hash, x);
      ContentsAt(after, hash, i);
    }
    if bs[r].key.data in Contents(after) {
      var i := ContentsFrom(after, hash, bs[r].key.data);
      assert false;
    }
  }

  /** A live key lies before the first unused slot of its probe path. */
  lemma BeforeStop<K, V>(bs: seq<Bin<K, V>>, i: nat, stop: nat)
    requires i < |bs| && stop < |bs| && PowerOfTwo(|bs|) && Reached(bs, i)
    requires !bs[At(Home(bs[i].hashKey, |bs|), stop, |bs|)].inProbe
    ensures Distance(Home(bs[i].hashKey, |bs|), i, |bs|) < stop
  {
  }

  /** A probe that meets an unused slot before the key proves the key absent. */
  lemma Absent<K, V>(bs: seq<Bin<K, V>>, hash: K -> Uint32, k: K, stop: nat)
    requires Inv(bs, hash) && stop < |bs|
    requires !bs[At(Home(hash(k), |bs|), stop, |bs|)].inProbe
    requires forall j :: 0 <= j < stop ==> !Holds(bs[At(Home(hash(k), |bs|), j, |bs|)], hash(k), k)
    ensures k !in Contents(bs)
  {
    if k in Contents(bs) {
      var i := ContentsFrom(bs, hash, k);
      BeforeStop(bs, i, stop);
    }
  }
}
