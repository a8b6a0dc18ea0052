/** The open-addressing hash table of hashing.c: linear probing, tombstones, growing and shrinking. */
module HashTable {
  import opened Words
  import opened HashBins
  import opened HashInvariant

  class Table<K(==), V> {
    const hash: K -> Uint32
    var bins: array<Bin<K, V>>
    var size: nat
    var used: nat
    var active: Uint32

    // The allocator behind `cpy` and `del`: the next allocation, and every copy given back so far.
    var nextCopy: nat
    var freed: multiset<nat>

    // Ghost bookkeeping: the value of `active` before wrap-around, rebuilds made, bins touched by rebuilds.
    ghost var net: int
    ghost var rebuilds: nat
    ghost var work: nat

    /** The bins keep the probe-chain invariant and the counters count, up to the drift of `active`. */
    ghost predicate Structure()
      reads this`bins, this`size, this`used, this`active, this`net, bins
    {
      && bins.Length == size
      && Inv(bins[..], hash)
      && used == |UsedSlots(bins[..])|
      && active == Wrap(net) && net <= |LiveSlots(bins[..])|
    }

    /** The parts of the invariant the callers of the internal operations rely on. */
    lemma Bounds()
      requires Structure()
      ensures MIN_TABLE_SIZE <= size <= MAX_TABLE_SIZE && PowerOfTwo(size) && bins.Length == size
      ensures net <= |Map()| <= used <= size
      ensures |LiveSlots(bins[..])| == |Map()|
      ensures active == Wrap(net)
      ensures Inv(bins[..], hash)
    {
      LiveWithinUsed(bins[..]);
      LiveCount(bins[..], hash);
    }

    /** What every public operation keeps. */
    ghost predicate Valid()
      reads this, bins
    {
      && Structure()
      && 2 * used <= size
      && Owned(bins[..]) + freed == Allocated(nextCopy)
    }

    /** The finite map the table stands for. */
    ghost function Map(): map<K, V>
      reads this`bins, bins
    {
      Contents(bins[..])
    }

    /** How far `active` has fallen behind the number of entries: one for each overwrite since the last rebuild. */
    ghost function Drift(): int
      reads this`bins, this`net, bins
    {
      |Map()| - net
    }

    /** `find_key`: the bin of the key, or an unused bin that proves the key absent. The assertion
        behind the loop is never reached. */
    method FindKey(h: Uint32, key: K) returns (r: nat)
      requires Structure() && used < size
      requires h == hash(key)
      ensures r < size
      ensures bins[r].inProbe <==> key in Map()
      ensures bins[r].inProbe ==> Holds(bins[r], h, key)
    {
      ghost var home := Home(h, size);
      ghost var stop := UnusedOnPath(bins[..], home);
      var i := 0;
      while i < size
        invariant 0 <= i <= stop
        invariant forall j :: 0 <= j < i ==> bins[At(home, j, size)].inProbe && !Holds(bins[At(home, j, size)], h, key)
      {
        ProbeIsAt(h, i, size);
        r := Probe(h, i, size);
        if !bins[r].inProbe || Holds(bins[r], h, key) {
          if bins[r].inProbe {
            ContentsAt(bins[..], hash, r);
          } else {
            Absent(bins[..], hash, key, i);
          }
          return;
        }
        i := i + 1;
      }
      assert false;
    }

    /** `find_empty`: the first bin without data on the probe path. */
    method FindEmpty(h: Uint32) returns (r: nat)
      requires Structure() && used < size
      ensures r < size && bins[r].isEmpty
      ensures forall j :: 0 <= j < Distance(Home(h, size), r, size) ==> !bins[At(Home(h, size), j, size)].isEmpty
    {
      ghost var home := Home(h, size);
      ghost var stop := UnusedOnPath(bins[..], home);
      var i := 0;
      while i < size
        invariant 0 <= i <= stop
        invariant forall j :: 0 <= j < i ==> !bins[At(home, j, size)].isEmpty
      {
        ProbeIsAt(h, i, size);
        r := Probe(h, i, size);
        if bins[r].isEmpty {
          return;
        }
        i := i + 1;
      }
      assert false;
    }

    /** `free_bin`: a live bin gives back its copies and becomes a tombstone. */
    method FreeBin(r: nat)
      requires r < bins.Length
      requires active == Wrap(net)
      modifies this`active, this`net, this`freed, bins
      ensures active == Wrap(net) && net == old(net) - old(if bins[r].Live() then 1 else 0)
      ensures bins[..] == old(if bins[r].Live() then bins[..][r := bins[r].(isEmpty := true)] else bins[..])
      ensures freed == old(freed) + old(Ids(bins[r]))
      requires bins[r].Live() ==> bins[r].key.Copy? && bins[r].val.Copy?
    {
      if bins[r].Live() {
        freed := freed + multiset{bins[r].key.id};
        freed := freed + multiset{bins[r].val.id};
        bins[r] := bins[r].(isEmpty := true);
        WrapAdd(net, -1);
        active := Wrap(active - 1);
        net := net - 1;
      }
    }

    /** `store_in_bin`: counters first, then the old data is freed, then the new data is written. */
    method StoreInBin(r: nat, h: Uint32, key: Ptr<K>, val: Ptr<V>)
      requires r < bins.Length
      requires bins[r].Live() ==> bins[r].key.Copy? && bins[r].val.Copy?
      requires active == Wrap(net) && (bins[r].isEmpty || bins[r].inProbe)
      modifies this`active, this`net, this`used, this`freed, bins
      ensures active == Wrap(net) && net == old(net) + (if old(bins[r].isEmpty) then 1 else -1)
      ensures bins[..] == old(bins[..])[r := Bin(true, false, h, key, val)]
      ensures used == old(used) + (if old(bins[r].inProbe) then 0 else 1)
      ensures freed == old(freed) + old(Ids(bins[r]))
    {
      if bins[r].isEmpty {
        WrapAdd(net, 1);
        active := Wrap(active + 1);
        net := net + 1;
      }
      used := used + if bins[r].inProbe then 0 else 1;
      FreeBin(r);
      bins[r] := Bin(true, false, h, key, val);
    }

    /** Step 1 of `hash_table_insert_internal`: the bin of the key, or else the first empty bin of its probe path. */
    method FindBin(h: Uint32, key: Ptr<K>, val: Ptr<V>) returns (r: nat)
      requires Structure() && used < size
      requires key.Copy? && val.Copy? && h == hash(key.data)
      ensures r < size
      ensures key.data in Map() ==> Holds(bins[r], h, key.data) && bins[r].val.Copy?
      ensures key.data !in Map() ==> Fits(bins[..], hash, r, Bin(true, false, h, key, val))
      ensures !bins[Home(h, size)].inProbe ==> r == Home(h, size)
    {
      if !bins[Home(h, size)].inProbe {
        assert At(Home(h, size), 0, size) == Home(h, size);
        Absent(bins[..], hash, key.data, 0);
      }
      r := FindKey(h, key.data);
      if !bins[r].inProbe {
        r := FindEmpty(h);
        assert bins[At(Home(h, size), 0, size)] == bins[Home(h, size)];
        EmptyFits(bins[..], hash, r, Bin(true, false, h, key, val));
      }
    }

    /** What `store_in_bin` does to the structure when the bin is the one `FindBin` gives. */
    lemma Stored(r: nat, b: Bin<K, V>)
      requires Structure() && r < size && b.Live() && b.key.Copy? && b.val.Copy? && b.hashKey == hash(b.key.data)
      requires if b.key.data in Map() then Holds(bins[r], b.hashKey, b.key.data) else Fits(bins[..], hash, r, b)
      ensures Inv(bins[..][r := b], hash)
      ensures Contents(bins[..][r := b]) == Map()[b.key.data := b.val.data]
      ensures |UsedSlots(bins[..][r := b])| == used + (if bins[r].inProbe then 0 else 1)
      ensures |LiveSlots(bins[..][r := b])| == |LiveSlots(bins[..])| + (if bins[r].isEmpty then 1 else 0)
      ensures Owned(bins[..][r := b]) + (freed + Ids(bins[r])) == (Owned(bins[..]) + freed) + Ids(b)
    {
      hide Inv;
      InvParts(bins[..], hash);
      OwnedUpdate(bins[..], r, b);
      Rebalance(Owned(bins[..][r := b]), Ids(bins[r]), Owned(bins[..]), Ids(b), freed);
      if b.key.data in Map() {
        Overwrite(bins[..], hash, r, b);
      } else {
        StoreNew(bins[..], hash, r, b);
      }
    }

    /** The first two steps of `hash_table_insert_internal`: find the bin and store. */
    method Place(h: Uint32, key: Ptr<K>, val: Ptr<V>)
      requires Structure() && used < size
      requires key.Copy? && val.Copy? && h == hash(key.data)
      modifies this`used, this`active, this`net, this`freed, bins
      ensures Structure()
      ensures Map() == old(Map())[key.data := val.data]
      ensures Owned(bins[..]) + freed == old(Owned(bins[..]) + freed) + multiset{key.id, val.id}
      ensures key.data in old(Map()) ==> used == old(used) && net == old(net) - 1
      ensures key.data !in old(Map()) ==>
                old(used) <= used <= old(used) + 1 && net == old(net) + 1 && freed == old(freed)
      ensures !old(bins[Home(h, size)].inProbe) ==> used == old(used) + 1
    {
      hide Inv, Wrap, Home, Contents, Owned;
      var r := FindBin(h, key, val);
      ghost var after := bins[..][r := Bin(true, false, h, key, val)];
      Stored(r, Bin(true, false, h, key, val));
      StoreInBin(r, h, key, val);
      assert bins[..] == after;
    }

    /** `hash_table_insert_internal`. `depth` bounds how often a rebuild may be entered from here. */
    method InsertInternal(h: Uint32, key: Ptr<K>, val: Ptr<V>, ghost depth: nat)
      requires Structure() && 2 * used <= size
      requires key.Copy? && val.Copy? && h == hash(key.data)
      requires depth == 0 ==> 2 * (used + 1) <= size
      requires 2 * (used + 1) > size ==> 2 * size <= MAX_TABLE_SIZE
      modifies this, bins
      ensures Structure() && 2 * used <= size
      ensures bins == old(bins) || fresh(bins)
      ensures Map() == old(Map())[key.data := val.data]
      ensures nextCopy == old(nextCopy)
      ensures Owned(bins[..]) + freed == old(Owned(bins[..]) + freed) + multiset{key.id, val.id}
      ensures key.data !in old(Map()) ==> freed == old(freed)
      // either nothing moves ...
      ensures rebuilds == old(rebuilds) ==>
                size == old(size) && work == old(work) && old(used) <= used <= old(used) + 1 &&
                (key.data in old(Map()) ==> used == old(used) && net == old(net) - 1) &&
                (key.data !in old(Map()) ==> net == old(net) + 1)
      // ... or the table has doubled once, with no tombstone left
      ensures rebuilds != old(rebuilds) ==>
                rebuilds == old(rebuilds) + 1 && size == 2 * old(size) && work == old(work) + 3 * old(size) &&
                key.data !in old(Map()) && 2 * (old(used) + 1) > old(size) &&
                net == used == |Map()| <= old(used) + 1
      ensures old(used) == |old(Map())| && key.data !in old(Map()) ==> used == |Map()|
      ensures rebuilds == old(rebuilds) && !old(bins[Home(h, size)].inProbe) ==> used == old(used) + 1
      decreases depth, 0
    {
      hide Structure, Inv, PowerOfTwo, Contents, Owned, Wrap;
      Bounds();
      Place(h, key, val);
      Bounds();
      if 2 * used > size {
        DoubledPower(size);
        Resize(size * 2, depth - 1);
      }
    }

    /** `resize`. */
    method Resize(newSize: nat, ghost depth: nat)
      requires Structure()
      requires MIN_TABLE_SIZE <= newSize <= MAX_TABLE_SIZE && PowerOfTwo(newSize)
      requires |Map()| <= newSize
      requires depth == 0 ==> 2 * |Map()| <= newSize
      requires 2 * |Map()| > newSize ==> 2 * newSize <= MAX_TABLE_SIZE
      modifies this
      ensures fresh(bins) && Structure()
      ensures Map() == old(Map()) && Owned(bins[..]) == old(Owned(bins[..]))
      ensures used == active == |Map()| && net == |Map()|
      ensures size == if 2 * |Map()| > newSize then 2 * newSize else newSize
      ensures nextCopy == old(nextCopy) && freed == old(freed)
      ensures rebuilds == old(rebuilds) + if 2 * |Map()| > newSize then 2 else 1
      ensures work == old(work) + old(size) + newSize + if 2 * |Map()| > newSize then 3 * newSize else 0
      decreases depth, 5
    {
      hide Structure, Inv, PowerOfTwo, Contents, Owned, Wrap;
      Bounds();
      InitTable(newSize, bins, depth);
      Bounds();
    }

    /** `init_table`: a new array of unused bins, then every live bin of the old array is inserted
        again with its cached hash and its own copies. */
    method InitTable(newSize: nat, oldBins: array?<Bin<K, V>>, ghost depth: nat)
      requires MIN_TABLE_SIZE <= newSize <= MAX_TABLE_SIZE && PowerOfTwo(newSize)
      requires oldBins != null ==> Inv(oldBins[..], hash)
      requires var t := if oldBins == null then 0 else |LiveSlots(oldBins[..])|;
               t <= newSize && (depth == 0 ==> 2 * t <= newSize) && (2 * t > newSize ==> 2 * newSize <= MAX_TABLE_SIZE)
      modifies this
      ensures fresh(bins) && Structure() && Tight()
      ensures nextCopy == old(nextCopy) && freed == old(freed)
      ensures oldBins == null ==>
                Map() == map[] && Owned(bins[..]) == multiset{} && used == active == 0 && size == newSize &&
                rebuilds == old(rebuilds) + 1 && work == old(work) + newSize
      ensures oldBins != null ==>
                var t := |LiveSlots(oldBins[..])|;
                Map() == Contents(oldBins[..]) && Owned(bins[..]) == Owned(oldBins[..]) && used == active == t &&
                size == (if 2 * t > newSize then 2 * newSize else newSize) &&
                rebuilds == old(rebuilds) + (if 2 * t > newSize then 2 else 1) &&
                work == old(work) + newSize + oldBins.Length + (if 2 * t > newSize then 3 * newSize else 0)
      decreases depth, 4
    {
      hide Structure, Inv, PowerOfTwo, Contents, Owned, Wrap;
      NewBins(newSize);
      Bounds();
      if oldBins != null {
        Rehash(oldBins, depth);
        Bounds();
      }
      ActiveIsUsed();
    }

    /** The first two steps of `init_table`: allocate with `calloc`, then mark every bin unused. */
    method NewBins(newSize: nat)
      requires MIN_TABLE_SIZE <= newSize <= MAX_TABLE_SIZE && PowerOfTwo(newSize)
      modifies this
      ensures fresh(bins) && Structure() && Tight() && used == 0 && size == newSize
      ensures Map() == map[] && Owned(bins[..]) == multiset{}
      ensures nextCopy == old(nextCopy) && freed == old(freed)
      ensures rebuilds == old(rebuilds) + 1 && work == old(work) + newSize
    {
      hide Inv, PowerOfTwo, Contents, Owned, Wrap;
      bins := new Bin<K, V>[newSize](_ => Bin(false, false, 0, Null, Null));
      size := newSize;
      used := 0;
      active := 0;
      net, rebuilds, work := 0, rebuilds + 1, work + newSize;
      MarkUnused();
      EmptyBins(bins[..], hash);
      WrapZero();
    }

    /** The initialising loop of `init_table`. */
    method MarkUnused()
      modifies bins
      ensures forall j :: 0 <= j < bins.Length ==> !bins[j].inProbe && bins[j].isEmpty
    {
      var i := 0;
      while i < bins.Length
        invariant 0 <= i <= bins.Length
        invariant forall j :: 0 <= j < i ==> !bins[j].inProbe && bins[j].isEmpty
      {
        bins[i] := bins[i].(inProbe := false, isEmpty := true);
        i := i + 1;
      }
    }

    lemma ActiveIsUsed()
      requires Structure() && Tight()
      ensures active == used
    {
      LiveWithinUsed(bins[..]);
    }

    /** No tombstones, no drift. */
    ghost predicate Tight()
      reads this`bins, this`size, this`used, this`net, bins
    {
      net == used == |Map()| && 2 * used <= size
    }

    /** One transfer of `init_table`: the bin's own copies go into a table without tombstones. */
    method Reinsert(b: Bin<K, V>, ghost depth: nat)
      requires Structure() && Tight()
      requires b.key.Copy? && b.val.Copy? && b.hashKey == hash(b.key.data) && b.key.data !in Map()
      requires depth == 0 ==> 2 * (used + 1) <= size
      requires 2 * (used + 1) > size ==> 2 * size <= MAX_TABLE_SIZE
      modifies this, bins
      ensures Structure() && Tight() && (bins == old(bins) || fresh(bins))
      ensures Map() == old(Map())[b.key.data := b.val.data] && used == old(used) + 1
      ensures Owned(bins[..]) == old(Owned(bins[..])) + multiset{b.key.id, b.val.id}
      ensures nextCopy == old(nextCopy) && freed == old(freed)
      ensures if 2 * used <= old(size) then size == old(size) && rebuilds == old(rebuilds) && work == old(work)
              else size == 2 * old(size) && rebuilds == old(rebuilds) + 1 && work == old(work) + 3 * old(size)
      decreases depth, 1
    {
      hide Structure, Inv, PowerOfTwo, Contents, Owned, Wrap;
      Bounds();
      ghost var owned := Owned(bins[..]);
      InsertInternal(b.hashKey, b.key, b.val, depth);
      Bounds();
      Unfreed(Owned(bins[..]), owned + multiset{b.key.id, b.val.id}, freed);
    }

    /** One round of the transfer loop, with the bin it touches counted. */
    method Transfer(b: Bin<K, V>, ghost depth: nat)
      requires Structure() && Tight()
      requires !b.isEmpty ==> b.key.Copy? && b.val.Copy? && b.hashKey == hash(b.key.data) && b.key.data !in Map()
      requires !b.isEmpty && depth == 0 ==> 2 * (used + 1) <= size
      requires !b.isEmpty && 2 * (used + 1) > size ==> 2 * size <= MAX_TABLE_SIZE
      modifies this, bins
      ensures Structure() && Tight() && (bins == old(bins) || fresh(bins))
      ensures nextCopy == old(nextCopy) && freed == old(freed)
      ensures b.isEmpty ==> Map() == old(Map()) && used == old(used) && Owned(bins[..]) == old(Owned(bins[..]))
      ensures !b.isEmpty ==> Map() == old(Map())[b.key.data := b.val.data] && used == old(used) + 1
      ensures !b.isEmpty ==> Owned(bins[..]) == old(Owned(bins[..])) + multiset{b.key.id, b.val.id}
      ensures if b.isEmpty || 2 * used <= old(size) then size == old(size) && rebuilds == old(rebuilds) && work == old(work) + 1
              else size == 2 * old(size) && rebuilds == old(rebuilds) + 1 && work == old(work) + 3 * old(size) + 1
      decreases depth, 2
    {
      hide Structure, Inv, PowerOfTwo, Contents, Owned, Wrap;
      if !b.isEmpty {
        Reinsert(b, depth);
      }
      work := work + 1;
    }

    /** The transfer loop of `init_table`. */
    method Rehash(oldBins: array<Bin<K, V>>, ghost depth: nat)
      requires Structure() && used == 0 && net == 0 && Map() == map[] && Owned(bins[..]) == multiset{}
      requires bins != oldBins && Inv(oldBins[..], hash)
      requires var t := |LiveSlots(oldBins[..])|;
               t <= size && (depth == 0 ==> 2 * t <= size) && (2 * t > size ==> 2 * size <= MAX_TABLE_SIZE)
      modifies this, bins
      ensures (bins == old(bins) || fresh(bins)) && Structure() && Tight()
      ensures nextCopy == old(nextCopy) && freed == old(freed)
      ensures Map() == Contents(oldBins[..]) && Owned(bins[..]) == Owned(oldBins[..])
      ensures var t := |LiveSlots(oldBins[..])|;
              used == t &&
              size == (if 2 * t > old(size) then 2 * old(size) else old(size)) &&
              rebuilds == old(rebuilds) + (if 2 * t > old(size) then 1 else 0) &&
              work == old(work) + oldBins.Length + (if 2 * t > old(size) then 3 * old(size) else 0)
      decreases depth, 3
    {
      hide Structure, Inv, PowerOfTwo, Contents, Owned, Wrap;
      Bounds();
      ghost var entries, start := oldBins[..], size;
      InvParts(entries, hash);
      EmptyPrefix(entries);
      var i := 0;
      while i < oldBins.Length
        invariant 0 <= i <= oldBins.Length
        invariant bins == old(bins) || fresh(bins)
        invariant oldBins[..] == entries
        invariant Structure() && Tight()
        invariant nextCopy == old(nextCopy) && freed == old(freed)
        invariant Map() == Contents(entries[..i]) && Owned(bins[..]) == Owned(entries[..i])
        invariant used == |LiveSlots(entries[..i])|
        invariant size == if 2 * used > start then 2 * start else start
        invariant rebuilds == old(rebuilds) + if 2 * used > start then 1 else 0
        invariant work == old(work) + i + if 2 * used > start then 3 * start else 0
      {
        PrefixStep(entries, i);
        PrefixWithin(entries, i + 1);
        if !oldBins[i].isEmpty {
          PrefixNew(entries, i, hash);
        }
        Transfer(oldBins[i], depth);
        i := i + 1;
      }
      assert entries[..i] == entries;
    }

    // ------------------------------------------------------------------
    // Public operations
    // ------------------------------------------------------------------

    /** Work done so far plus the potential. */
    ghost function Cost(): int
      reads this`bins, this`size, this`used, this`net, this`work, bins
    {
      work + Potential(used, size, Drift())
    }

    /** `hash_table_create`. */
    constructor (hash: K -> Uint32)
      ensures this.hash == hash && fresh(bins)
      ensures Valid() && Map() == map[] && size == MIN_TABLE_SIZE && used == 0
      ensures nextCopy == 0 && freed == multiset{}
      ensures Drift() == 0 && rebuilds == 1 && work == MIN_TABLE_SIZE
    {
      this.hash := hash;
      bins := new Bin<K, V>[0];
      nextCopy, freed := 0, multiset{};
      net, rebuilds, work := 0, 0, 0;
      new;
      assert PowerOfTwo(MIN_TABLE_SIZE);
      hide Structure, Inv, PowerOfTwo, Contents, Owned, Wrap;
      InitTable(MIN_TABLE_SIZE, null, 0);
      Bounds();
      assert Allocated(0) == multiset{};
    }

    /** `hash_table_insert`. */
    method Insert(key: K, value: V)
      requires Valid()
      requires 2 * (used + 1) > size ==> 2 * size <= MAX_TABLE_SIZE
      modifies this, bins
      ensures Valid() && (bins == old(bins) || fresh(bins))
      ensures Map() == old(Map())[key := value]
      ensures nextCopy == old(nextCopy) + 2
      ensures used <= old(used) + 1
      ensures old(used) == |old(Map())| && key !in old(Map()) ==> used == |Map()|
      ensures key in old(Map()) ==> size == old(size) && used == old(used) && rebuilds == old(rebuilds) && Drift() == old(Drift()) + 1
      ensures key !in old(Map()) && rebuilds == old(rebuilds) ==> Drift() == old(Drift())
      ensures rebuilds == old(rebuilds) ==> size == old(size) && work == old(work)
      ensures rebuilds != old(rebuilds) ==>
                rebuilds == old(rebuilds) + 1 && size == 2 * old(size) && used == |Map()| && Drift() == 0 &&
                key !in old(Map()) && 2 * (old(used) + 1) > old(size)
      ensures rebuilds == old(rebuilds) && !old(bins[Home(hash(key), size)].inProbe) ==> used == old(used) + 1
      ensures Cost() <= old(Cost()) + 24
    {
      hide Structure, Inv, PowerOfTwo, Contents, Owned, Wrap, Allocated, Potential;
      Bounds();
      SizeInEighths(size);
      AllocatedTwo(nextCopy);
      ghost var used0, size0, drift0 := used, size, Drift();
      var h := hash(key);
      var keyCopy := Copy(nextCopy, key);
      nextCopy := nextCopy + 1;
      var valCopy := Copy(nextCopy, value);
      nextCopy := nextCopy + 1;
      InsertInternal(h, keyCopy, valCopy, 1);
      Bounds();
      if rebuilds == old(rebuilds) {
        StorePays(used0, size0, drift0, used, Drift());
      } else {
        GrowthPays(used0, size0, drift0, |Map()|);
      }
    }

    /** `hash_table_lookup`: the value copy owned by the table, or null. */
    method Lookup(key: K) returns (v: Ptr<V>)
      requires Valid()
      ensures Seen(v) == if key in Map() then Some(Map()[key]) else None
      ensures v.Copy? ==> v.id in Owned(bins[..])
    {
      var r := FindKey(hash(key), key);
      v := if bins[r].inProbe then bins[r].val else Null;
      if bins[r].inProbe {
        ContentsAt(bins[..], hash, r);
        OwnedAt(bins[..], r);
      }
    }

    /** `hash_table_contains`. */
    method Contains(key: K) returns (found: bool)
      requires Valid()
      ensures found <==> key in Map()
    {
      var v := Lookup(key);
      found := v != Null;
    }

    /** `hash_table_size` counts the entries up to the drift: it is right if and only if the overwrites
        since the last rebuild are a multiple of 2^32. */
    method Size() returns (n: Uint32)
      requires Valid()
      ensures n == Wrap(|Map()| - Drift()) && Drift() >= 0
      ensures n == |Map()| <==> Drift() % U32 == 0
    {
      Bounds();
      n := active;
      WrapIsMod(net);
      SameModulo(|Map()|, Drift());
    }

    /** What `free_bin` does to the structure on a live bin. */
    lemma Freed(r: nat)
      requires Structure() && r < size && bins[r].Live()
      ensures bins[r].key.Copy? && bins[r].val.Copy?
      ensures var after := bins[..][r := bins[r].(isEmpty := true)];
              && Inv(after, hash)
              && Contents(after) == Map() - {bins[r].key.data}
              && |UsedSlots(after)| == used && |LiveSlots(after)| == |LiveSlots(bins[..])| - 1
              && Owned(after) + (freed + Ids(bins[r])) == Owned(bins[..]) + freed
    {
      hide Inv;
      InvParts(bins[..], hash);
      Free(bins[..], hash, r);
      var tombstone := bins[r].(isEmpty := true);
      OwnedUpdate(bins[..], r, tombstone);
      Rebalance(Owned(bins[..][r := tombstone]), Ids(bins[r]), Owned(bins[..]), Ids(tombstone), freed);
    }

    /** The part of `hash_table_delete` before the load test. */
    method Remove(key: K)
      requires Valid()
      modifies this`active, this`net, this`freed, bins
      ensures Structure()
      ensures Map() == old(Map()) - {key}
      ensures Owned(bins[..]) + freed == old(Owned(bins[..]) + freed)
      ensures net == old(net) - old(if key in Map() then 1 else 0)
    {
      hide Inv, Wrap, Home, Contents, Owned, PowerOfTwo;
      Bounds();
      var r := FindKey(hash(key), key);
      RemoveAt(key, r);
    }

    /** `free_bin` on the bin `find_key` gave. */
    method RemoveAt(key: K, r: nat)
      requires Structure() && r < size
      requires bins[r].inProbe <==> key in Map()
      requires bins[r].inProbe ==> bins[r].Live() && bins[r].key.Copy? && bins[r].key.data == key
      modifies this`active, this`net, this`freed, bins
      ensures Structure()
      ensures Map() == old(Map()) - {key}
      ensures Owned(bins[..]) + freed == old(Owned(bins[..]) + freed)
      ensures net == old(net) - old(if key in Map() then 1 else 0)
    {
      hide Inv, Wrap, Contents, Owned, PowerOfTwo;
      ghost var before := bins[..];
      if bins[r].inProbe {
        Freed(r);
        FreeBin(r);
        assert bins[..] == before[r := before[r].(isEmpty := true)];
      } else {
        FreeBin(r);
        assert bins[..] == before;
      }
    }

    /** The load test of `hash_table_delete`. It reads the drifting counter; a shrink that meets more
        live bins than half the smaller table holds doubles straight back. */
    method ShrinkIfSparse()
      requires Valid()
      modifies this
      ensures Valid() && (bins == old(bins) || fresh(bins))
      ensures Map() == old(Map()) && nextCopy == old(nextCopy) && used <= old(used)
      ensures var shrinks := old(size > MIN_TABLE_SIZE && 8 * active < size);
              if !shrinks then size == old(size) && used == old(used) && net == old(net) && rebuilds == old(rebuilds)
              else used == active == |Map()| && Drift() == 0 &&
                   if 4 * |Map()| <= old(size) then size == old(size) / 2 && rebuilds == old(rebuilds) + 1
                   else size == old(size) && rebuilds == old(rebuilds) + 2
      ensures Cost() <= old(Cost())
    {
      hide Structure, Inv, PowerOfTwo, Contents, Owned, Wrap, Potential;
      Bounds();
      if size > MIN_TABLE_SIZE && 8 * active < size {
        SizeInEighths(size);
        HalvedPower(size);
        WrapBelow(net);
        ShrinkPays(used, size, net, |Map()|);
        Resize(size / 2, 1);
        Bounds();
      }
    }

    /** `hash_table_delete`. */
    method Delete(key: K)
      requires Valid()
      modifies this, bins
      ensures Valid() && (bins == old(bins) || fresh(bins))
      ensures Map() == old(Map()) - {key}
      ensures nextCopy == old(nextCopy) && used <= old(used)
      ensures var shrinks := old(size) > MIN_TABLE_SIZE && 8 * Wrap(|Map()| - old(Drift())) < old(size);
              if !shrinks then size == old(size) && used == old(used) && Drift() == old(Drift()) && rebuilds == old(rebuilds)
              else used == active == |Map()| && Drift() == 0 &&
                   if 4 * |Map()| <= old(size) then size == old(size) / 2 && rebuilds == old(rebuilds) + 1
                   else size == old(size) && rebuilds == old(rebuilds) + 2
      ensures old(Drift()) == 0 && rebuilds != old(rebuilds) ==> rebuilds == old(rebuilds) + 1 && size == old(size) / 2
      ensures Cost() <= old(Cost())
    {
      hide Structure, Inv, PowerOfTwo, Contents, Owned, Wrap, Potential;
      Bounds();
      ghost var gone := if key in Map() then 1 else 0;
      Remove(key);
      Bounds();
      assert |Map()| == |old(Map())| - gone;
      if old(Drift()) == 0 {
        WrapBelow(net);
      }
      ShrinkIfSparse();
      Bounds();
    }

    /** The loop of `hash_table_destroy`. */
    method FreeAll()
      requires bins.Length == size && active == Wrap(net)
      requires forall j :: 0 <= j < size && bins[j].Live() ==> bins[j].key.Copy? && bins[j].val.Copy?
      modifies this`active, this`net, this`freed, bins
      ensures freed == old(freed) + old(Owned(bins[..]))
    {
      hide Wrap, Owned;
      ghost var before := bins[..];
      OwnedNone(before[..0]);
      var i := 0;
      while i < size
        invariant 0 <= i <= size == bins.Length
        invariant active == Wrap(net)
        invariant forall j :: i <= j < size ==> bins[j] == before[j]
        invariant freed == old(freed) + Owned(before[..i])
      {
        PrefixStep(before, i);
        MultisetAssoc(old(freed), Owned(before[..i]), Ids(before[i]));
        FreeBin(i);
        i := i + 1;
      }
      assert before[..i] == before;
    }

    /** `hash_table_destroy`: afterwards every copy ever made has been given back exactly once. */
    method Destroy()
      requires Valid()
      modifies this`active, this`net, this`freed, bins
      ensures forall id: nat :: freed[id] == if id < nextCopy then 1 else 0
    {
      hide Inv, Wrap, Owned, Contents;
      InvParts(bins[..], hash);
      MultisetComm(freed, Owned(bins[..]));
      FreeAll();
      forall id: nat
        ensures freed[id] == if id < nextCopy then 1 else 0
      {
        AllocatedOnce(nextCopy, id);
      }
    }
  }
}
